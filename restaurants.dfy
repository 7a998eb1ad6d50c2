/** The dining page: the fetched restaurants, recommended ones first. The
    page sorts the fetched array in place with the comparator
    `(b.is_recommended ? 1 : 0) - (a.is_recommended ? 1 : 0)`. From
    ECMAScript 2019 on `Array.prototype.sort` is stable, so the result is the
    recommended restaurants followed by the others, each group in the
    order fetched. */
module Restaurants {
  datatype Restaurant = Restaurant(id: int, name: string, isRecommended: bool, isActive: bool)

  /** The restaurants of `s` whose recommendation flag is `flag`, in order. */
  function Group(s: seq<Restaurant>, flag: bool): (r: seq<Restaurant>)
    ensures |r| <= |s|
    ensures forall i :: 0 <= i < |r| ==> r[i].isRecommended == flag
    decreases |s|
  {
    if s == [] then []
    else
      var rest := Group(s[..|s| - 1], flag);
      if s[|s| - 1].isRecommended == flag then rest + [s[|s| - 1]] else rest
  }

  /** What the stable sort by the page's comparator produces. */
  function RecommendedFirst(s: seq<Restaurant>): seq<Restaurant> {
    Group(s, true) + Group(s, false)
  }

  /** All recommended entries come before all others. */
  ghost predicate RecommendedBeforeOthers(s: seq<Restaurant>) {
    forall i, j :: 0 <= i < j < |s| && s[j].isRecommended ==> s[i].isRecommended
  }

  lemma {:induction false} GroupAppend(a: seq<Restaurant>, b: seq<Restaurant>, flag: bool)
    ensures Group(a + b, flag) == Group(a, flag) + Group(b, flag)
    decreases |b|
  {
    if b == [] {
      assert a + b == a;
    } else {
      var b' := b[..|b| - 1];
      assert (a + b)[..|a + b| - 1] == a + b';
      GroupAppend(a, b', flag);
    }
  }

  /** Taking a group of a group changes nothing; the other group of it is
      empty. */
  lemma {:induction false} GroupOfGroup(s: seq<Restaurant>, flag: bool)
    ensures Group(Group(s, flag), flag) == Group(s, flag)
    ensures Group(Group(s, flag), !flag) == []
    decreases |s|
  {
    if s != [] {
      var s' := s[..|s| - 1];
      GroupOfGroup(s', flag);
      var g := Group(s', flag);
      if s[|s| - 1].isRecommended == flag {
        assert (g + [s[|s| - 1]])[..|g|] == g;
      }
    }
  }

  /** The two groups together hold exactly the fetched entries. */
  lemma {:induction false} GroupsPermutation(s: seq<Restaurant>)
    ensures multiset(Group(s, true)) + multiset(Group(s, false)) == multiset(s)
    decreases |s|
  {
    if s != [] {
      var s' := s[..|s| - 1];
      GroupsPermutation(s');
      assert s == s' + [s[|s| - 1]];
    }
  }

  /** The displayed list is a rearrangement of the fetched one. */
  lemma RecommendedFirstPermutation(s: seq<Restaurant>)
    ensures multiset(RecommendedFirst(s)) == multiset(s)
    ensures |RecommendedFirst(s)| == |s|
  {
    GroupsPermutation(s);
    assert |multiset(RecommendedFirst(s))| == |multiset(s)|;
  }

  /** Every recommended restaurant is listed before every other one. */
  lemma RecommendedFirstOrdered(s: seq<Restaurant>)
    ensures RecommendedBeforeOthers(RecommendedFirst(s))
  {
  }

  /** Within each group the fetched order is kept. */
  lemma RecommendedFirstStable(s: seq<Restaurant>)
    ensures Group(RecommendedFirst(s), true) == Group(s, true)
    ensures Group(RecommendedFirst(s), false) == Group(s, false)
  {
    GroupAppend(Group(s, true), Group(s, false), true);
    GroupAppend(Group(s, true), Group(s, false), false);
    GroupOfGroup(s, true);
    GroupOfGroup(s, false);
  }

  /** A list ordered recommended-first is its two groups in turn. */
  lemma {:induction false} OrderedIsGroups(t: seq<Restaurant>)
    requires RecommendedBeforeOthers(t)
    ensures t == Group(t, true) + Group(t, false)
    decreases |t|
  {
    if t != [] {
      var t' := t[..|t| - 1];
      assert RecommendedBeforeOthers(t');
      OrderedIsGroups(t');
      if t[|t| - 1].isRecommended {
        assert forall i :: 0 <= i < |t'| ==> t'[i].isRecommended;
        GroupAll(t');
      }
      assert t == t' + [t[|t| - 1]];
    }
  }

  /** A list of recommended entries only has no others. */
  lemma {:induction false} GroupAll(s: seq<Restaurant>)
    requires forall i :: 0 <= i < |s| ==> s[i].isRecommended
    ensures Group(s, false) == [] && Group(s, true) == s
    decreases |s|
  {
    if s != [] {
      GroupAll(s[..|s| - 1]);
      assert s == s[..|s| - 1] + [s[|s| - 1]];
    }
  }

  /** Any ordering that puts recommended entries first and keeps the order
      within each group is the one the page shows: the result does not
      depend on which stable sort the browser uses. */
  lemma StableSortUnique(s: seq<Restaurant>, t: seq<Restaurant>)
    requires RecommendedBeforeOthers(t)
    requires Group(t, true) == Group(s, true) && Group(t, false) == Group(s, false)
    ensures t == RecommendedFirst(s)
  {
    OrderedIsGroups(t);
  }

  /** The comparator the page passes to `sort`. */
  function Compare(a: Restaurant, b: Restaurant): (c: int)
    ensures c == 1 <==> b.isRecommended && !a.isRecommended
    ensures c == -1 <==> a.isRecommended && !b.isRecommended
    ensures c == 0 <==> a.isRecommended == b.isRecommended
  {
    (if b.isRecommended then 1 else 0) - (if a.isRecommended then 1 else 0)
  }

  /** The shown order never places a pair the comparator wants swapped. */
  lemma RecommendedFirstSorted(s: seq<Restaurant>, i: nat, j: nat)
    requires i < j < |RecommendedFirst(s)|
    ensures Compare(RecommendedFirst(s)[i], RecommendedFirst(s)[j]) <= 0
  {
    RecommendedFirstOrdered(s);
  }

  /** `data.sort(...)` on the fetched array, in place. */
  method SortRecommendedFirst(a: array<Restaurant>)
    modifies a
    ensures a[..] == RecommendedFirst(old(a[..]))
  {
    var recommended: seq<Restaurant> := [];
    var others: seq<Restaurant> := [];
    var i := 0;
    while i < a.Length
      invariant 0 <= i <= a.Length
      invariant recommended == Group(a[..i], true) && others == Group(a[..i], false)
      invariant a[..] == old(a[..])
    {
      assert a[..i + 1][..i] == a[..i];
      if a[i].isRecommended {
        recommended := recommended + [a[i]];
      } else {
        others := others + [a[i]];
      }
      i := i + 1;
    }
    assert a[..a.Length] == a[..];
    var sorted := recommended + others;
    GroupsPermutation(a[..]);
    assert |sorted| == a.Length by {
      assert |multiset(sorted)| == |multiset(a[..])|;
    }
    ghost var original := a[..];
    var j := 0;
    while j < a.Length
      invariant 0 <= j <= a.Length
      invariant forall k :: 0 <= k < j ==> a[k] == sorted[k]
      invariant sorted == RecommendedFirst(original)
    {
      a[j] := sorted[j];
      j := j + 1;
    }
  }

  /** What `fetchRestaurants()` settles to. */
  datatype Fetch = Loaded(data: seq<Restaurant>) | Failed

  class RestaurantsPage {
    var restaurants: seq<Restaurant>
    var loading: bool

    constructor ()
      ensures restaurants == [] && loading
    {
      restaurants := [];
      loading := true;
    }

    /** The fetch effect: on success show the sorted list; either way stop
        loading. */
    method Load(outcome: Fetch)
      modifies this
      ensures !loading
      ensures outcome.Loaded? ==> restaurants == RecommendedFirst(outcome.data)
      ensures outcome.Failed? ==> restaurants == old(restaurants)
    {
      match outcome
      case Loaded(data) =>
        var arr := new Restaurant[|data|](k requires 0 <= k < |data| => data[k]);
        assert arr[..] == data;
        SortRecommendedFirst(arr);
        restaurants := arr[..];
        loading := false;
      case Failed =>
        loading := false;
    }
  }
}
