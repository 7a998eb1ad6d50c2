/** The first-run tutorial: four slides walked through with buttons or
    horizontal swipes, hidden for good once finished or skipped. The
    browser's `localStorage` is a string map held by the component. */
module Onboarding {
  import opened Wrappers

  const SlideCount: int := 4
  const SeenKey: string := "hasSeenOnboarding"

  /** A swipe must travel more than this many pixels to count. */
  const SwipeThreshold: real := 50.0

  /** `!localStorage.getItem(...)`: the flag is missing, or empty. */
  predicate Unseen(storage: map<string, string>) {
    SeenKey !in storage || storage[SeenKey] == ""
  }

  /** JavaScript truthiness of a touch coordinate held in a ref. */
  predicate Recorded(x: Option<real>) {
    x.Some? && x.value != 0.0
  }

  datatype Gesture = Forward | Back | Ignore

  /** What `onTouchEnd` makes of a touch: with both ends recorded, a move
      more than the threshold to the left goes forward and one more than
      the threshold to the right goes back. */
  function Classify(start: Option<real>, end: Option<real>): (g: Gesture)
    ensures !Recorded(start) || !Recorded(end) ==> g == Ignore
    ensures g == Forward <==> Recorded(start) && Recorded(end) && start.value - end.value > SwipeThreshold
    ensures g == Back <==> Recorded(start) && Recorded(end) && start.value - end.value < -SwipeThreshold
  {
    if !Recorded(start) || !Recorded(end) then Ignore
    else
      var distance := start.value - end.value;
      if distance > SwipeThreshold then Forward
      else if distance < -SwipeThreshold then Back
      else Ignore
  }

  /** Only the distance travelled matters: a recorded swipe is classified
      the same wherever on the screen it happens. */
  lemma SwipeTranslationInvariant(start: real, end: real, offset: real)
    requires start != 0.0 && end != 0.0 && start + offset != 0.0 && end + offset != 0.0
    ensures Classify(Some(start + offset), Some(end + offset)) == Classify(Some(start), Some(end))
  {
    assert (start + offset) - (end + offset) == start - end;
  }

  class Tutorial {
    var show: bool
    var currentSlide: int
    var touchStartX: Option<real>
    var touchEndX: Option<real>
    var storage: map<string, string>

    /** The slide shown is always one of the four. */
    ghost predicate Valid()
      reads this
    {
      0 <= currentSlide < SlideCount
    }

    /** The component's first render: hidden, on the first slide. */
    constructor (storage: map<string, string>)
      ensures Valid() && !show && currentSlide == 0
      ensures touchStartX.None? && touchEndX.None? && this.storage == storage
    {
      show := false;
      currentSlide := 0;
      touchStartX := None;
      touchEndX := None;
      this.storage := storage;
    }

    /** The mount effect: the tutorial appears when the flag is unseen. */
    method Mount()
      modifies this
      ensures show == (old(show) || Unseen(storage))
      ensures currentSlide == old(currentSlide) && storage == old(storage)
      ensures touchStartX == old(touchStartX) && touchEndX == old(touchEndX)
    {
      var hasSeen := if SeenKey in storage then Some(storage[SeenKey]) else None;
      if hasSeen.None? || hasSeen.value == "" {
        show := true;
      }
    }

    /** The skip button, and the step past the last slide. */
    method FinishTutorial()
      modifies this
      ensures storage == old(storage)[SeenKey := "true"] && !show
      ensures currentSlide == old(currentSlide)
      ensures touchStartX == old(touchStartX) && touchEndX == old(touchEndX)
    {
      storage := storage[SeenKey := "true"];
      show := false;
    }

    method HandleNext()
      requires Valid()
      modifies this
      ensures Valid()
      ensures old(currentSlide) < SlideCount - 1 ==>
        currentSlide == old(currentSlide) + 1 && show == old(show) && storage == old(storage)
      ensures old(currentSlide) == SlideCount - 1 ==>
        currentSlide == old(currentSlide) && !show && storage == old(storage)[SeenKey := "true"]
      ensures touchStartX == old(touchStartX) && touchEndX == old(touchEndX)
    {
      if currentSlide < SlideCount - 1 {
        currentSlide := currentSlide + 1;
      } else {
        FinishTutorial();
      }
    }

    method HandlePrev()
      requires Valid()
      modifies this
      ensures Valid()
      ensures currentSlide == if old(currentSlide) > 0 then old(currentSlide) - 1 else 0
      ensures show == old(show) && storage == old(storage)
      ensures touchStartX == old(touchStartX) && touchEndX == old(touchEndX)
    {
      if currentSlide > 0 {
        currentSlide := currentSlide - 1;
      }
    }

    /** A new touch forgets where the last one ended. */
    method OnTouchStart(x: real)
      modifies this
      ensures touchStartX == Some(x) && touchEndX.None?
      ensures show == old(show) && currentSlide == old(currentSlide) && storage == old(storage)
    {
      touchEndX := None;
      touchStartX := Some(x);
    }

    method OnTouchMove(x: real)
      modifies this
      ensures touchEndX == Some(x)
      ensures touchStartX == old(touchStartX)
      ensures show == old(show) && currentSlide == old(currentSlide) && storage == old(storage)
    {
      touchEndX := Some(x);
    }

    /** The end of a touch acts as the buttons would for the gesture. */
    method OnTouchEnd()
      requires Valid()
      modifies this
      ensures Valid()
      ensures touchStartX == old(touchStartX) && touchEndX == old(touchEndX)
      ensures Classify(old(touchStartX), old(touchEndX)) == Ignore ==>
        currentSlide == old(currentSlide) && show == old(show) && storage == old(storage)
      ensures Classify(old(touchStartX), old(touchEndX)) == Back ==>
        currentSlide == (if old(currentSlide) > 0 then old(currentSlide) - 1 else 0) &&
        show == old(show) && storage == old(storage)
      ensures Classify(old(touchStartX), old(touchEndX)) == Forward && old(currentSlide) < SlideCount - 1 ==>
        currentSlide == old(currentSlide) + 1 && show == old(show) && storage == old(storage)
      ensures Classify(old(touchStartX), old(touchEndX)) == Forward && old(currentSlide) == SlideCount - 1 ==>
        currentSlide == old(currentSlide) && !show && storage == old(storage)[SeenKey := "true"]
    {
      if !Recorded(touchStartX) || !Recorded(touchEndX) {
        return;
      }
      var distance := touchStartX.value - touchEndX.value;
      var isLeftSwipe := distance > SwipeThreshold;
      var isRightSwipe := distance < -SwipeThreshold;
      if isLeftSwipe {
        HandleNext();
      }
      if isRightSwipe {
        HandlePrev();
      }
    }
  }

  /** Once the tutorial has been finished, a later visit does not show it:
      the stored flag survives into the next mount. */
  method FinishThenRevisit(storage: map<string, string>) returns (shownAgain: bool)
    ensures !shownAgain
  {
    var first := new Tutorial(storage);
    first.Mount();
    first.FinishTutorial();
    var second := new Tutorial(first.storage);
    second.Mount();
    shownAgain := second.show;
  }

  /** Four forward swipes from a first visit walk through every slide and
      close the tutorial. */
  method SwipeThrough(storage: map<string, string>) returns (closed: bool, stored: map<string, string>)
    requires Unseen(storage)
    ensures closed && stored == storage[SeenKey := "true"]
  {
    var tutorial := new Tutorial(storage);
    tutorial.Mount();
    var i := 0;
    while i < SlideCount
      invariant 0 <= i <= SlideCount
      invariant tutorial.Valid() && tutorial.storage == if i < SlideCount then storage else storage[SeenKey := "true"]
      invariant i < SlideCount ==> tutorial.currentSlide == i && tutorial.show
      invariant i == SlideCount ==> !tutorial.show
      modifies tutorial
    {
      tutorial.OnTouchStart(300.0);
      tutorial.OnTouchMove(100.0);
      tutorial.OnTouchEnd();
      i := i + 1;
    }
    closed := !tutorial.show;
    stored := tutorial.storage;
  }
}
