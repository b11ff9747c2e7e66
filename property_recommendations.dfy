/**
 * The recommendations panel: the user's working set of regions, the request
 * for recommendations across them, and the capped list shown.
 *
 * The list operations are functions on values; the component's state
 * (`recommendations`, `loading`, `error`, `searchInput`, `searchedRegions`)
 * is a class whose handlers update those fields.
 */
module PropertyRecommendations {
  import opened Wrappers
  import opened JsText
  import opened Service

  /** How many recommendations the grid shows. */
  const MaxShown: nat := 6

  const RecommendationsFallback: string := "Unable to get recommendations. Try different regions."

  /** One recommended property, passed through from the service to the grid. */
  datatype Recommendation = Recommendation(
    locality: string, region: string, kind: string, bhk: string,
    area: string, status: string, age: string)

  predicate Distinct<T(==)>(s: seq<T>)
  {
    forall i, j :: 0 <= i < j < |s| ==> s[i] != s[j]
  }

  /** The invariant of the working set: distinct entries, each trimmed and
      non-empty. */
  predicate WellFormed(regions: seq<string>)
  {
    Distinct(regions) && forall i :: 0 <= i < |regions| ==> regions[i] != [] && IsTrimmed(regions[i])
  }

  /** The add handler's guard: the trimmed input is non-empty and not yet in
      the set (exact, case-sensitive comparison). */
  predicate Accepts(regions: seq<string>, input: string)
  {
    Trim(input) != [] && Trim(input) !in regions
  }

  /** The working set after the add handler: the trimmed input is appended
      when the guard accepts it; otherwise the set is unchanged. */
  function WithRegion(regions: seq<string>, input: string): (r: seq<string>)
    ensures |regions| <= |r| <= |regions| + 1 && r[..|regions|] == regions
    ensures |r| == |regions| + 1 <==> Accepts(regions, input)
    ensures Trim(input) != [] ==> Trim(input) in r
    ensures forall x :: x in r <==> x in regions || (x == Trim(input) && x != [])
  {
    if Accepts(regions, input) then regions + [Trim(input)] else regions
  }

  /** `regions.filter((r) => r !== region)`: every entry equal to `region`
      is dropped, the others are kept. */
  function WithoutRegion(regions: seq<string>, region: string): (r: seq<string>)
    ensures |r| <= |regions|
  {
    if regions == [] then []
    else if regions[0] == region then WithoutRegion(regions[1..], region)
    else [regions[0]] + WithoutRegion(regions[1..], region)
  }

  /** `recommendations.slice(0, 6)`: the first six, or all when fewer. */
  function Shown<T>(recommendations: seq<T>): (r: seq<T>)
    ensures |r| == if |recommendations| < MaxShown then |recommendations| else MaxShown
    ensures r == recommendations[..|r|]
  {
    recommendations[..if |recommendations| < MaxShown then |recommendations| else MaxShown]
  }

  // ---------------------------------------------------------------------
  // Properties of the list operations

  /** Adding keeps the working set well formed. */
  lemma AddKeepsWellFormed(regions: seq<string>, input: string)
    requires WellFormed(regions)
    ensures WellFormed(WithRegion(regions, input))
  {
    var r := WithRegion(regions, input);
    if Accepts(regions, input) {
      forall i, j | 0 <= i < j < |r| ensures r[i] != r[j] {
        if j == |regions| { assert r[i] in regions; }
      }
    }
  }

  /** Adding the same text a second time changes nothing. */
  lemma AddTwiceIsAddOnce(regions: seq<string>, input: string)
    ensures WithRegion(WithRegion(regions, input), input) == WithRegion(regions, input)
  {
  }

  /** Removing distributes over concatenation. */
  lemma {:induction false} WithoutConcat(a: seq<string>, b: seq<string>, region: string)
    ensures WithoutRegion(a + b, region) == WithoutRegion(a, region) + WithoutRegion(b, region)
  {
    if a == [] {
      assert a + b == b;
    } else {
      assert (a + b)[0] == a[0] && (a + b)[1..] == a[1..] + b;
      WithoutConcat(a[1..], b, region);
      if a[0] != region {
        var rest, tail := WithoutRegion(a[1..], region), WithoutRegion(b, region);
        assert [a[0]] + (rest + tail) == [a[0]] + rest + tail;
      }
    }
  }

  /** The entries left are exactly the entries other than `region`. */
  lemma {:induction false} WithoutMembers(regions: seq<string>, region: string)
    ensures forall x :: x in WithoutRegion(regions, region) <==> x in regions && x != region
  {
    if regions != [] {
      WithoutMembers(regions[1..], region);
      assert forall x :: x in regions <==> x == regions[0] || x in regions[1..];
    }
  }

  /** Removing drops every copy of `region` and keeps every other entry as
      many times as it occurred. */
  lemma {:induction false} WithoutCounts(regions: seq<string>, region: string)
    ensures multiset(WithoutRegion(regions, region)) == multiset(regions)[region := 0]
  {
    if regions != [] {
      assert regions == [regions[0]] + regions[1..];
      WithoutCounts(regions[1..], region);
    }
  }

  /** Removing changes the set exactly when the region is in it: removing an
      absent region is a no-op. */
  lemma {:induction false} WithoutChangesIff(regions: seq<string>, region: string)
    ensures WithoutRegion(regions, region) == regions <==> region !in regions
  {
    if region !in regions && regions != [] {
      WithoutChangesIff(regions[1..], region);
    }
    if region in regions {
      WithoutMembers(regions, region);
    }
  }

  /** In a set without duplicates, removing the entry at index `i` leaves
      the entries before and after it, in their order. */
  lemma RemoveAt(regions: seq<string>, i: nat)
    requires Distinct(regions) && i < |regions|
    ensures WithoutRegion(regions, regions[i]) == regions[..i] + regions[i + 1..]
  {
    var x, before, after := regions[i], regions[..i], regions[i + 1..];
    assert regions == before + [x] + after;
    assert x !in before by {
      forall k | 0 <= k < i ensures before[k] != x {
        assert before[k] == regions[k];
      }
    }
    assert x !in after by {
      forall k | 0 <= k < |after| ensures after[k] != x {
        assert after[k] == regions[i + 1 + k];
      }
    }
    WithoutConcat(before + [x], after, x);
    WithoutConcat(before, [x], x);
    WithoutChangesIff(before, x);
    WithoutChangesIff(after, x);
    assert WithoutRegion([x], x) == [];
    assert WithoutRegion(before + [x], x) == before;
  }

  /** Removing keeps the working set well formed. */
  lemma RemoveKeepsWellFormed(regions: seq<string>, region: string)
    requires WellFormed(regions)
    ensures WellFormed(WithoutRegion(regions, region))
  {
    if region in regions {
      var i :| 0 <= i < |regions| && regions[i] == region;
      RemoveAt(regions, i);
      var r := WithoutRegion(regions, region);
      forall k | 0 <= k < |r| ensures r[k] == regions[if k < i then k else k + 1] {
      }
    } else {
      WithoutChangesIff(regions, region);
    }
  }

  /** Removing the region that was just added gives back the set as it was. */
  lemma RemoveUndoesAdd(regions: seq<string>, input: string)
    requires Accepts(regions, input)
    ensures WithoutRegion(WithRegion(regions, input), Trim(input)) == regions
  {
    var t := Trim(input);
    WithoutConcat(regions, [t], t);
    WithoutChangesIff(regions, t);
  }

  /** A trimmed, non-empty text not yet in the set is appended as it is. */
  lemma AddTrimmed(regions: seq<string>, text: string)
    requires text != [] && IsTrimmed(text) && text !in regions
    ensures WithRegion(regions, text) == regions + [text]
  {
    TrimFixedIff(text);
  }

  /** Two different trimmed texts added to an empty set give both, in order. */
  lemma AddTwoDistinct(first: string, second: string)
    requires first != [] && IsTrimmed(first) && second != [] && IsTrimmed(second)
    requires first != second
    ensures WithRegion(WithRegion([], first), second) == [first, second]
  {
    AddTrimmed([], first);
    AddTrimmed([first], second);
  }

  /** Entries differing only in case are different regions. */
  lemma CaseSensitiveExample()
    ensures WithRegion(WithRegion([], "Andheri"), "andheri") == ["Andheri", "andheri"]
  {
    assert "Andheri"[0] != "andheri"[0];
    AddTwoDistinct("Andheri", "andheri");
  }

  /** Text already in the set, once trimmed, is not added again. */
  lemma AddPresent(regions: seq<string>, text: string, core: string)
    requires Trim(text) == core && core in regions
    ensures WithRegion(regions, text) == regions
  {
  }

  /** Surrounding white space is not part of a region's name. */
  lemma AddPadded(core: string)
    requires IsTrimmed(core)
    ensures WithRegion([core], " " + core + " ") == [core]
  {
    TrimUnique(" ", core, " ");
    AddPresent([core], " " + core + " ", core);
  }

  lemma TrimmedDuplicateExample()
    ensures WithRegion(["Andheri"], " " + "Andheri" + " ") == ["Andheri"]
  {
    AddPadded("Andheri");
  }

  lemma BlankInputExample()
    ensures WithRegion(["Andheri"], "   ") == ["Andheri"]
  {
    TrimEmptyIff("   ");
  }

  /** The grid shows everything exactly when there are at most six, and the
      cap is not a de-duplication: repeated entries are shown repeatedly. */
  lemma ShownAllIff<T>(recommendations: seq<T>)
    ensures Shown(recommendations) == recommendations <==> |recommendations| <= MaxShown
    ensures Shown(Shown(recommendations)) == Shown(recommendations)
  {
  }

  lemma ShownKeepsDuplicates(p: Recommendation)
    ensures Shown([p, p, p]) == [p, p, p]
  {
  }

  // ---------------------------------------------------------------------
  // The component

  class RecommendationsPanel {
    var recommendations: seq<Recommendation>
    var loading: bool
    var error: Option<string>
    var searchInput: string
    var searchedRegions: seq<string>

    ghost predicate Valid()
      reads this
    {
      WellFormed(searchedRegions)
    }

    /** The initial state of the `useState` hooks. */
    constructor ()
      ensures Valid()
      ensures recommendations == [] && !loading && error == None
      ensures searchInput == "" && searchedRegions == []
    {
      recommendations := [];
      loading := false;
      error := None;
      searchInput := "";
      searchedRegions := [];
    }

    /** The input box's change handler. */
    method SetSearchInput(text: string)
      modifies this`searchInput
      ensures searchInput == text
    {
      searchInput := text;
    }

    /** `handleAddRegion`: an accepted input is appended and the box cleared;
        a rejected one leaves both the set and the box as they were. */
    method HandleAddRegion()
      requires Valid()
      modifies this`searchedRegions, this`searchInput
      ensures Valid()
      ensures searchedRegions == WithRegion(old(searchedRegions), old(searchInput))
      ensures Accepts(old(searchedRegions), old(searchInput)) ==> searchInput == ""
      ensures !Accepts(old(searchedRegions), old(searchInput)) ==> searchInput == old(searchInput)
    {
      var t := Trim(searchInput);
      if t != [] && t !in searchedRegions {
        searchedRegions := searchedRegions + [t];
        searchInput := "";
      }
      AddKeepsWellFormed(old(searchedRegions), old(searchInput));
    }

    /** `handleRemoveRegion`, run when a region's badge is clicked. */
    method HandleRemoveRegion(region: string)
      requires Valid()
      modifies this`searchedRegions
      ensures Valid()
      ensures searchedRegions == WithoutRegion(old(searchedRegions), region)
    {
      RemoveKeepsWellFormed(searchedRegions, region);
      searchedRegions := WithoutRegion(searchedRegions, region);
    }

    /** The part of `handleGetRecommendations` before the request is
        awaited: with no regions nothing happens and no request is made;
        otherwise loading starts, the error is cleared and the regions are
        sent. */
    method BeginGetRecommendations() returns (request: Option<seq<string>>)
      modifies this`loading, this`error
      ensures request.None? <==> searchedRegions == []
      ensures request.None? ==> loading == old(loading) && error == old(error)
      ensures request.Some? ==> request.value == searchedRegions && loading && error == None
    {
      if |searchedRegions| == 0 {
        return None;
      }
      loading := true;
      error := None;
      request := Some(searchedRegions);
    }

    /** The part after the request settles: a response replaces the list
        (an absent `recommendations` field reads as empty), a rejection sets
        the error text; loading ends either way. */
    method EndGetRecommendations(reply: Reply<Option<seq<Recommendation>>>)
      modifies this`loading, this`error, this`recommendations
      ensures !loading
      ensures reply.Resolved? ==> recommendations == reply.data.GetOr([]) && error == old(error)
      ensures reply.Rejected? ==> recommendations == old(recommendations)
      ensures reply.Rejected? ==> error == Some(ErrorText(reply.serverError, RecommendationsFallback))
    {
      match reply {
        case Resolved(body) =>
          recommendations := body.GetOr([]);
        case Rejected(serverError) =>
          error := Some(ErrorText(serverError, RecommendationsFallback));
      }
      loading := false;
    }

    /** `handleGetRecommendations` run to completion, `reply` being how the
        service answers the request. */
    method HandleGetRecommendations(reply: Reply<Option<seq<Recommendation>>>)
      returns (request: Option<seq<string>>)
      modifies this`loading, this`error, this`recommendations
      ensures request.None? <==> searchedRegions == []
      ensures request.None? ==> unchanged(this)
      ensures request.Some? ==> request.value == searchedRegions && !loading
      ensures request.Some? && reply.Resolved? ==>
        recommendations == reply.data.GetOr([]) && error == None
      ensures request.Some? && reply.Rejected? ==>
        recommendations == old(recommendations) &&
        error == Some(ErrorText(reply.serverError, RecommendationsFallback))
    {
      request := BeginGetRecommendations();
      if request.Some? {
        EndGetRecommendations(reply);
      }
    }
  }
}
