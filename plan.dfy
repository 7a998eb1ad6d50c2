/** The trip planner page: pick a duration, pick interests, then show a
    fixed itinerary after a simulated wait. The two-second timer is an
    explicit step. */
module Plan {
  import opened Wrappers

  /** `interests.filter(i => i !== id)`. */
  function Drop(s: seq<string>, id: string): (r: seq<string>)
    ensures id !in r
    ensures multiset(r) == multiset(s)[id := 0]
    ensures forall x :: x != id ==> (x in r <==> x in s)
    ensures |r| <= |s|
    decreases |s|
  {
    if s == [] then []
    else
      var rest := Drop(s[..|s| - 1], id);
      assert s == s[..|s| - 1] + [s[|s| - 1]];
      if s[|s| - 1] == id then rest else rest + [s[|s| - 1]]
  }

  /** `toggleInterest`: every copy of a selected interest is removed; an
      unselected one is added at the end. */
  function ToggleInterest(interests: seq<string>, id: string): (r: seq<string>)
    ensures id in interests ==> id !in r && multiset(r) == multiset(interests)[id := 0]
    ensures id !in interests ==> r == interests + [id]
    ensures forall x :: x != id ==> (x in r <==> x in interests)
  {
    if id in interests then Drop(interests, id) else interests + [id]
  }

  /** `s` appears in `t` in the same order, possibly with gaps. */
  ghost predicate Subsequence(s: seq<string>, t: seq<string>)
    decreases |t|
  {
    if s == [] then true
    else if t == [] then false
    else if s[|s| - 1] == t[|t| - 1] then Subsequence(s[..|s| - 1], t[..|t| - 1])
    else Subsequence(s, t[..|t| - 1])
  }

  /** Removing an interest keeps the others in their order. */
  lemma {:induction false} DropKeepsOrder(s: seq<string>, id: string)
    ensures Subsequence(Drop(s, id), s)
    decreases |s|
  {
    if s != [] {
      DropKeepsOrder(s[..|s| - 1], id);
      var rest := Drop(s[..|s| - 1], id);
      if s[|s| - 1] == id {
        SubsequenceExtend(rest, s[..|s| - 1], s[|s| - 1]);
      } else {
        assert (rest + [s[|s| - 1]])[..|rest|] == rest;
      }
    }
  }

  /** Adding an element at the end of the longer list keeps a subsequence. */
  lemma {:induction false} SubsequenceExtend(s: seq<string>, t: seq<string>, x: string)
    requires Subsequence(s, t)
    ensures Subsequence(s, t + [x])
    decreases |t|, 1
  {
    if s != [] {
      assert (t + [x])[..|t|] == t;
      if s[|s| - 1] == x {
        SubsequenceDropLast(s, t);
      }
    }
  }

  /** A subsequence without its last element is still a subsequence. */
  lemma {:induction false} SubsequenceDropLast(s: seq<string>, t: seq<string>)
    requires s != [] && Subsequence(s, t)
    ensures Subsequence(s[..|s| - 1], t)
    decreases |t|, 0
  {
    if t != [] {
      if s[|s| - 1] == t[|t| - 1] {
        SubsequenceExtend(s[..|s| - 1], t[..|t| - 1], t[|t| - 1]);
        assert t[..|t| - 1] + [t[|t| - 1]] == t;
      } else {
        SubsequenceDropLast(s, t[..|t| - 1]);
        SubsequenceExtend(s[..|s| - 1], t[..|t| - 1], t[|t| - 1]);
        assert t[..|t| - 1] + [t[|t| - 1]] == t;
      }
    }
  }

  /** Toggling keeps the other interests in their order. */
  lemma ToggleKeepsOthers(interests: seq<string>, id: string)
    ensures id in interests ==> Subsequence(ToggleInterest(interests, id), interests)
    ensures id !in interests ==> ToggleInterest(interests, id)[..|interests|] == interests
  {
    DropKeepsOrder(interests, id);
  }

  ghost predicate NoDuplicates(s: seq<string>) {
    forall i, j :: 0 <= i < j < |s| ==> s[i] != s[j]
  }

  /** Dropping a value absent from the list changes nothing. */
  lemma {:induction false} DropAbsent(s: seq<string>, id: string)
    requires id !in s
    ensures Drop(s, id) == s
    decreases |s|
  {
    if s != [] {
      DropAbsent(s[..|s| - 1], id);
      assert s[..|s| - 1] + [s[|s| - 1]] == s;
    }
  }

  /** Toggling keeps a list free of duplicates. */
  lemma ToggleNoDuplicates(interests: seq<string>, id: string)
    requires NoDuplicates(interests)
    ensures NoDuplicates(ToggleInterest(interests, id))
  {
    var r := ToggleInterest(interests, id);
    if id in interests {
      DropKeepsOrder(interests, id);
      SubsequenceNoDuplicates(r, interests);
    }
  }

  /** A subsequence of a duplicate-free list is duplicate-free. */
  lemma {:induction false} SubsequenceNoDuplicates(s: seq<string>, t: seq<string>)
    requires Subsequence(s, t) && NoDuplicates(t)
    ensures NoDuplicates(s)
    decreases |t|
  {
    if s != [] && t != [] {
      var t' := t[..|t| - 1];
      if s[|s| - 1] == t[|t| - 1] {
        SubsequenceNoDuplicates(s[..|s| - 1], t');
        SubsequenceMembers(s[..|s| - 1], t');
        forall k | 0 <= k < |t'| ensures t'[k] != t[|t| - 1] {
          assert t'[k] == t[k];
        }
        forall i, j | 0 <= i < j < |s| ensures s[i] != s[j] {
          if j == |s| - 1 {
            assert s[i] in s[..|s| - 1];
          } else {
            assert s[i] == s[..|s| - 1][i] && s[j] == s[..|s| - 1][j];
          }
        }
      } else {
        SubsequenceNoDuplicates(s, t');
      }
    }
  }

  /** Everything in a subsequence is in the longer list. */
  lemma {:induction false} SubsequenceMembers(s: seq<string>, t: seq<string>)
    requires Subsequence(s, t)
    ensures forall x :: x in s ==> x in t
    decreases |t|
  {
    if s != [] && t != [] {
      if s[|s| - 1] == t[|t| - 1] {
        SubsequenceMembers(s[..|s| - 1], t[..|t| - 1]);
        assert s == s[..|s| - 1] + [s[|s| - 1]];
        assert t == t[..|t| - 1] + [t[|t| - 1]];
      } else {
        SubsequenceMembers(s, t[..|t| - 1]);
        assert t == t[..|t| - 1] + [t[|t| - 1]];
      }
    }
  }

  /** Toggling an unselected interest twice gives the list back; toggling a
      selected one twice (in a duplicate-free list) gives back the same
      interests, with that one moved to the end. */
  lemma ToggleTwice(interests: seq<string>, id: string)
    ensures id !in interests ==> ToggleInterest(ToggleInterest(interests, id), id) == interests
    ensures id in interests && NoDuplicates(interests) ==>
      ToggleInterest(ToggleInterest(interests, id), id) == Drop(interests, id) + [id] &&
      multiset(ToggleInterest(ToggleInterest(interests, id), id)) == multiset(interests)
  {
    if id !in interests {
      DropAppended(interests, id);
    } else if NoDuplicates(interests) {
      var k :| 0 <= k < |interests| && interests[k] == id;
      assert multiset(interests)[id] == 1 by {
        MultiplicityOne(interests, k);
      }
      calc {
        multiset(Drop(interests, id) + [id]);
        multiset(interests)[id := 0] + multiset{id};
        multiset(interests);
      }
    }
  }

  /** Removing a value just appended restores a list that lacked it. */
  lemma DropAppended(s: seq<string>, id: string)
    requires id !in s
    ensures Drop(s + [id], id) == s
  {
    assert (s + [id])[..|s|] == s;
    DropAbsent(s, id);
  }

  /** In a duplicate-free list each element occurs once. */
  lemma {:induction false} MultiplicityOne(s: seq<string>, k: nat)
    requires NoDuplicates(s) && k < |s|
    ensures multiset(s)[s[k]] == 1
    decreases |s|
  {
    var last := |s| - 1;
    assert s == s[..last] + [s[last]];
    if k == last {
      forall i | 0 <= i < last ensures s[..last][i] != s[last] {
        assert s[..last][i] == s[i];
      }
    } else {
      assert s[..last][k] == s[k];
      MultiplicityOne(s[..last], k);
    }
  }

  /** The four duration buttons, in the order the page shows them. */
  const Durations: seq<string> := ["2 Hours", "Half Day", "Full Day", "2 Days"]

  class PlanPage {
    var step: int
    var duration: Option<string>
    var interests: seq<string>
    var generated: bool
    var loading: bool

    /** The wizard is on step 1 or 2, step 2 is only reached with a
        duration chosen, and a chosen duration is one of the buttons. */
    ghost predicate Valid()
      reads this
    {
      (step == 1 || step == 2) && (step == 2 ==> duration.Some?) &&
      (duration.Some? ==> duration.value in Durations)
    }

    constructor ()
      ensures Valid() && step == 1 && duration.None? && interests == [] && !generated && !loading
    {
      step := 1;
      duration := None;
      interests := [];
      generated := false;
      loading := false;
    }

    /** A click on the duration button at position `choice`. */
    method ChooseDuration(choice: nat)
      requires Valid() && choice < |Durations|
      modifies this
      ensures Valid() && !ContinueDisabled()
      ensures duration == Some(Durations[choice])
      ensures step == old(step) && interests == old(interests) && generated == old(generated) && loading == old(loading)
    {
      duration := Some(Durations[choice]);
    }

    /** Whether the Continue button is disabled. */
    function ContinueDisabled(): (disabled: bool)
      reads this
      ensures disabled <==> duration.None? || duration.value == ""
    {
      match duration
      case None => true
      case Some(d) => d == ""
    }

    /** The Continue button: it does nothing while disabled. */
    method Continue()
      requires Valid()
      modifies this
      ensures Valid()
      ensures step == if old(ContinueDisabled()) then old(step) else 2
      ensures duration == old(duration) && interests == old(interests) && generated == old(generated) && loading == old(loading)
    {
      if !ContinueDisabled() {
        step := 2;
      }
    }

    /** The width of the progress bar, in percent. */
    function ProgressWidth(): (w: int)
      requires Valid()
      reads this
      ensures w == 50 || w == 100
      ensures w == 100 <==> step == 2
    {
      step * 50
    }

    method ToggleInterestClick(id: string)
      requires Valid()
      modifies this
      ensures Valid()
      ensures interests == ToggleInterest(old(interests), id)
      ensures step == old(step) && duration == old(duration) && generated == old(generated) && loading == old(loading)
    {
      interests := ToggleInterest(interests, id);
    }

    /** `generatePlan`: show the spinner and start the timer. */
    method GeneratePlan()
      requires Valid()
      modifies this
      ensures Valid() && loading
      ensures step == old(step) && duration == old(duration) && interests == old(interests) && generated == old(generated)
    {
      loading := true;
    }

    /** The timer fires: the spinner stops and the itinerary is shown. */
    method OnTimer()
      requires Valid()
      modifies this
      ensures Valid() && !loading && generated
      ensures step == old(step) && duration == old(duration) && interests == old(interests)
    {
      loading := false;
      generated := true;
    }

    /** "Start Over" hides the itinerary and nothing else. */
    method StartOver()
      requires Valid()
      modifies this
      ensures Valid() && !generated
      ensures step == old(step) && duration == old(duration) && interests == old(interests) && loading == old(loading)
    {
      generated := false;
    }
  }

  /** A visit that chooses a duration, continues, picks one interest and
      generates the plan ends on the itinerary, at full progress. */
  method Walkthrough(choice: nat, id: string) returns (progress: int, chosen: seq<string>, shown: bool)
    requires choice < |Durations|
    ensures progress == 100 && chosen == [id] && shown
  {
    var page := new PlanPage();
    page.ChooseDuration(choice);
    page.Continue();
    page.ToggleInterestClick(id);
    page.GeneratePlan();
    page.OnTimer();
    progress := page.ProgressWidth();
    chosen := page.interests;
    shown := page.generated;
  }
}
