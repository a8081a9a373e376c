/** The carousel: sliding, interval timers, and slides that wait for one another. */
module Carousel {
  import opened Optional

  datatype Direction = Next | Prev

  /** The slide in progress: the item that is active until it ends, and the one that will be. */
  datatype Slide = Slide(from: nat, to: nat)

  /** The argument of `to`: a number, or the text of one, as the attribute `data-slide-to` gives it. */
  datatype Index = Index(value: int, isText: bool)

  /**
   * What does not change: the number of items, whether slides are animated, whether the ends wrap,
   * and the `data-interval` of each item (0 if absent).
   */
  datatype Config = Config(items: nat, animated: bool, wrap: bool, intervals: seq<nat>)

  ghost predicate ValidConfig(c: Config) {
    c.items > 0 && |c.intervals| == c.items
  }

  /**
   * `active` and `marked` are the items with the class `active` and with an order class; `pending`
   * are the slides whose transition has not ended; `waiting` are the `to` calls bound to the next
   * slid event, `slidEvents` counts the slid events scheduled; `timers` are the running intervals
   * and `touchTimers` the pending touch timeouts. A setting of 0 stands for false or undefined.
   */
  datatype State = State(
    active: set<nat>,
    marked: set<nat>,
    indicator: nat,
    isSliding: bool,
    isPaused: bool,
    pending: seq<Slide>,
    waiting: seq<Index>,
    slidEvents: nat,
    intervalSetting: nat,
    defaultInterval: nat,
    interval: Option<nat>,
    timers: set<nat>,
    touchTimeout: Option<nat>,
    touchTimers: set<nat>,
    nextTimer: nat)

  function Initial(first: nat, intervalSetting: nat): State {
    State({first}, {}, first, false, false, [], [], 0, intervalSetting, 0, None, {}, None, {}, 1)
  }

  // ---------------------------------------------------------------- The steps as functions

  function ClearInterval(s: State): State {
    s.(timers := if s.interval.Some? then s.timers - {s.interval.value} else s.timers, interval := None)
  }

  /** `cycle`; `byEvent` if it is called with an event (or `true`). */
  function CycleNow(s: State, byEvent: bool): State {
    var s1 := if byEvent then s else s.(isPaused := false);
    var s2 := if s1.interval.Some? then ClearInterval(s1) else s1;
    if s2.intervalSetting != 0 && !s2.isPaused then
      s2.(interval := Some(s2.nextTimer), timers := s2.timers + {s2.nextTimer}, nextTimer := s2.nextTimer + 1)
    else s2
  }

  /** `pause`: the transition end it triggers goes to the carousel itself, where no slide listens. */
  function PauseNow(s: State, byEvent: bool): State {
    var s1 := if byEvent then s else s.(isPaused := true);
    ClearInterval(if s1.marked != {} then CycleNow(s1, true) else s1)
  }

  /** `querySelector('.active.carousel-item')`: the first active item. */
  function ActiveItem(c: Config, s: State): (item: Option<nat>)
    ensures item.Some? ==> item.value < c.items
  {
    FirstActive(c.items, s.active, 0)
  }

  function FirstActive(items: nat, active: set<nat>, i: nat): (item: Option<nat>)
    ensures item.Some? ==> item.value < items && item.value in active
    decreases items - i
  {
    if i >= items then None else if i in active then Some(i) else FirstActive(items, active, i + 1)
  }

  /** `_getItemByDirection`, with the remainder of JavaScript: -1 stays -1. */
  function ItemByDirection(c: Config, direction: Direction, activeIndex: nat): nat
    requires c.items > 0 && activeIndex < c.items
  {
    var last := c.items - 1;
    var isGoingToWrap := (direction == Prev && activeIndex == 0) || (direction == Next && activeIndex == last);
    if isGoingToWrap && !c.wrap then activeIndex
    else
      var index := activeIndex + if direction == Prev then -1 else 1;
      if index == -1 then last else index % c.items
  }

  /** The settings that the `data-interval` of the next item leaves. */
  function AdoptInterval(s: State, own: nat): State {
    if own != 0 then
      s.(defaultInterval := if s.defaultInterval != 0 then s.defaultInterval else s.intervalSetting,
         intervalSetting := own)
    else s.(intervalSetting := if s.defaultInterval != 0 then s.defaultInterval else s.intervalSetting)
  }

  /** The slide itself: animated it is left pending, otherwise the active class moves at once. */
  function Move(c: Config, s: State, from: nat, to: nat): State
    requires ValidConfig(c) && to < c.items
  {
    if c.animated then
      AdoptInterval(s, c.intervals[to]).(marked := s.marked + {to}, pending := s.pending + [Slide(from, to)])
    else
      s.(active := s.active - {from} + {to}, isSliding := false)
  }

  /** The second half of `_slide`, between a pause and a cycle if the carousel is cycling. */
  function Begin(c: Config, s: State, from: nat, to: nat): State
    requires ValidConfig(c) && to < c.items
  {
    var isCycling := s.interval.Some?;
    var s1 := s.(isSliding := true);
    var s2 := if isCycling then PauseNow(s1, false) else s1;
    var s3 := Move(c, s2.(indicator := to), from, to);
    if isCycling then CycleNow(s3, false) else s3
  }

  /** The item a slide goes to, if there is one. */
  function NextItem(c: Config, s: State, direction: Direction, element: Option<nat>): (next: Option<nat>)
    requires ValidConfig(c) && (element.Some? ==> element.value < c.items)
    ensures next.Some? ==> next.value < c.items
  {
    var active := ActiveItem(c, s);
    if element.Some? then element
    else if active.Some? then Some(ItemByDirection(c, direction, active.value))
    else None
  }

  /** `_slide`; `refused` if a handler of the slide event prevents the default. */
  function SlideNow(c: Config, s: State, direction: Direction, element: Option<nat>, refused: bool): State
    requires ValidConfig(c) && (element.Some? ==> element.value < c.items)
  {
    var active, next := ActiveItem(c, s), NextItem(c, s, direction, element);
    if next.Some? && next.value in s.active then s.(isSliding := false)
    else if refused || active.None? || next.None? then s
    else Begin(c, s, active.value, next.value)
  }

  function StepBy(c: Config, s: State, direction: Direction, refused: bool): State
    requires ValidConfig(c)
  {
    if s.isSliding then s else SlideNow(c, s, direction, None, refused)
  }

  /** `to`; a text is never strictly equal to the active index, so its slide stops at the item being active. */
  function ToNow(c: Config, s: State, index: Index, refused: bool): State
    requires ValidConfig(c)
  {
    var active := ActiveItem(c, s);
    var activeIndex := if active.Some? then active.value as int else -1;
    if index.value > c.items - 1 || index.value < 0 then s
    else if s.isSliding then s.(waiting := s.waiting + [index])
    else if !index.isText && activeIndex == index.value then CycleNow(PauseNow(s, false), false)
    else SlideNow(c, s, if index.value > activeIndex then Next else Prev, Some(index.value), refused)
  }

  /** The end of the transition of the oldest slide in progress. */
  function CompleteNow(s: State): State
    requires s.pending != []
  {
    var slide := s.pending[0];
    s.(pending := s.pending[1..],
       marked := s.marked - {slide.to, slide.from},
       active := s.active + {slide.to} - {slide.from},
       isSliding := false,
       slidEvents := s.slidEvents + 1)
  }

  /** The handlers of a slid event run in order; `to` calls that have to wait again are bound anew. */
  function RunWaiting(c: Config, s: State, calls: seq<Index>, refused: bool): State
    requires ValidConfig(c)
    decreases |calls|
  {
    if calls == [] then s else RunWaiting(c, ToNow(c, s, calls[0], refused), calls[1..], refused)
  }

  /** A swipe, if the touch moved far enough. */
  datatype Swipe = NoSwipe | SwipeLeft | SwipeRight

  function TouchEndNow(c: Config, s: State, swipe: Swipe, pauseOnHover: bool, refused: bool): State
    requires ValidConfig(c)
  {
    var s1 :=
      match swipe
      case NoSwipe => s
      case SwipeRight => StepBy(c, s, Prev, refused)
      case SwipeLeft => StepBy(c, s, Next, refused);
    if !pauseOnHover then s1
    else
      var s2 := PauseNow(s1, false);
      var cleared := if s2.touchTimeout.Some? then s2.touchTimers - {s2.touchTimeout.value} else s2.touchTimers;
      s2.(touchTimers := cleared + {s2.nextTimer}, touchTimeout := Some(s2.nextTimer), nextTimer := s2.nextTimer + 1)
  }

  /** Everything that can happen; calls that make a slide say whether its slide event is refused. */
  datatype Event =
    | CallNext(refused: bool)
    | CallPrev(refused: bool)
    | CallTo(index: Index, refused: bool)
    | CallPause
    | CallCycle
    | MouseEnter
    | MouseLeave
    | TouchEnd(swipe: Swipe, pauseOnHover: bool, refused: bool)
    | TouchTimeout(id: nat)
    | Tick(id: nat, visible: bool, refused: bool)
    | TransitionEnd
    | SlidEvent(refused: bool)

  /** Events that cannot happen in a state (no such timer, no transition) are read as no event. */
  function Step(c: Config, s: State, e: Event): State
    requires ValidConfig(c)
  {
    match e
    case CallNext(refused) => StepBy(c, s, Next, refused)
    case CallPrev(refused) => StepBy(c, s, Prev, refused)
    case CallTo(index, refused) => ToNow(c, s, index, refused)
    case CallPause => PauseNow(s, false)
    case CallCycle => CycleNow(s, false)
    case MouseEnter => PauseNow(s, true)
    case MouseLeave => CycleNow(s, true)
    case TouchEnd(swipe, pauseOnHover, refused) => TouchEndNow(c, s, swipe, pauseOnHover, refused)
    case TouchTimeout(id) => if id in s.touchTimers then CycleNow(s.(touchTimers := s.touchTimers - {id}), false) else s
    case Tick(id, visible, refused) => if id in s.timers && visible then StepBy(c, s, Next, refused) else s
    case TransitionEnd => if s.pending != [] then CompleteNow(s) else s
    case SlidEvent(refused) =>
      if s.slidEvents == 0 then s
      else RunWaiting(c, s.(slidEvents := s.slidEvents - 1, waiting := []), s.waiting, refused)
  }

  function Run(c: Config, s: State, events: seq<Event>): State
    requires ValidConfig(c)
    decreases |events|
  {
    if events == [] then s else Run(c, Step(c, s, events[0]), events[1..])
  }

  // ---------------------------------------------------------------- The carousel object

  class Slider {
    const config: Config
    var active: set<nat>
    var marked: set<nat>
    var indicator: nat
    var isSliding: bool
    var isPaused: bool
    var pending: seq<Slide>
    var waiting: seq<Index>
    var slidEvents: nat
    var intervalSetting: nat
    var defaultInterval: nat
    var interval: Option<nat>
    var timers: set<nat>
    var touchTimeout: Option<nat>
    var touchTimers: set<nat>
    var nextTimer: nat

    function Value(): State
      reads this
    {
      State(active, marked, indicator, isSliding, isPaused, pending, waiting, slidEvents,
            intervalSetting, defaultInterval, interval, timers, touchTimeout, touchTimers, nextTimer)
    }

    constructor (config: Config, first: nat, intervalSetting: nat)
      requires ValidConfig(config)
      ensures Value() == Initial(first, intervalSetting) && this.config == config
    {
      this.config := config;
      active, marked, indicator, isSliding, isPaused := {first}, {}, first, false, false;
      pending, waiting, slidEvents := [], [], 0;
      this.intervalSetting, defaultInterval, interval, timers := intervalSetting, 0, None, {};
      touchTimeout, touchTimers, nextTimer := None, {}, 1;
    }

    method StopInterval()
      modifies `interval, `timers
      ensures Value() == ClearInterval(old(Value()))
    {
      if interval != None {
        timers := timers - {interval.value};
      }
      interval := None;
    }

    method Cycle(byEvent: bool)
      modifies this
      ensures Value() == CycleNow(old(Value()), byEvent)
    {
      if !byEvent {
        isPaused := false;
      }
      if interval != None {
        StopInterval();
      }
      if intervalSetting != 0 && !isPaused {
        interval := Some(nextTimer);
        timers := timers + {nextTimer};
        nextTimer := nextTimer + 1;
      }
    }

    method Pause(byEvent: bool)
      modifies this
      ensures Value() == PauseNow(old(Value()), byEvent)
    {
      if !byEvent {
        isPaused := true;
      }
      if marked != {} {
        Cycle(true);
      }
      StopInterval();
    }

    method MoveTo(from: nat, to: nat)
      requires ValidConfig(config) && to < config.items
      modifies this
      ensures Value() == Move(config, old(Value()), from, to)
    {
      if config.animated {
        marked := marked + {to};
        var nextElementInterval := config.intervals[to];
        if nextElementInterval != 0 {
          defaultInterval := if defaultInterval != 0 then defaultInterval else intervalSetting;
          intervalSetting := nextElementInterval;
        } else {
          intervalSetting := if defaultInterval != 0 then defaultInterval else intervalSetting;
        }
        pending := pending + [Slide(from, to)];
      } else {
        active := active - {from};
        active := active + {to};
        isSliding := false;
      }
    }

    method StartSlide(direction: Direction, element: Option<nat>, refused: bool)
      requires ValidConfig(config) && (element.Some? ==> element.value < config.items)
      modifies this
      ensures Value() == SlideNow(config, old(Value()), direction, element, refused)
    {
      var activeElement := ActiveItem(config, Value());
      var nextElement := NextItem(config, Value(), direction, element);
      var isCycling := interval != None;
      if nextElement.Some? && nextElement.value in active {
        isSliding := false;
        return;
      }
      if refused || activeElement == None || nextElement == None {
        return;
      }
      isSliding := true;
      if isCycling {
        Pause(false);
      }
      indicator := nextElement.value;
      MoveTo(activeElement.value, nextElement.value);
      if isCycling {
        Cycle(false);
      }
    }

    method Advance(direction: Direction, refused: bool)
      requires ValidConfig(config)
      modifies this
      ensures Value() == StepBy(config, old(Value()), direction, refused)
    {
      if !isSliding {
        StartSlide(direction, None, refused);
      }
    }

    method To(index: Index, refused: bool)
      requires ValidConfig(config)
      modifies this
      ensures Value() == ToNow(config, old(Value()), index, refused)
    {
      var activeElement := ActiveItem(config, Value());
      var activeIndex := if activeElement.Some? then activeElement.value as int else -1;
      if index.value > config.items - 1 || index.value < 0 {
        return;
      }
      if isSliding {
        waiting := waiting + [index];
        return;
      }
      if !index.isText && activeIndex == index.value {
        Pause(false);
        Cycle(false);
        return;
      }
      var direction := if index.value > activeIndex then Next else Prev;
      StartSlide(direction, Some(index.value), refused);
    }

    method Complete()
      requires pending != []
      modifies this
      ensures Value() == CompleteNow(old(Value()))
    {
      var slide := pending[0];
      pending := pending[1..];
      marked := marked - {slide.to};
      active := active + {slide.to};
      active := active - {slide.from};
      marked := marked - {slide.from};
      isSliding := false;
      slidEvents := slidEvents + 1;
    }

    /** The slid event: the calls that wait for it are unbound first, then run. */
    method Slid(refused: bool)
      requires ValidConfig(config) && slidEvents > 0
      modifies this
      ensures Value() == Step(config, old(Value()), SlidEvent(refused))
    {
      var calls := waiting;
      slidEvents := slidEvents - 1;
      waiting := [];
      ghost var start := Value();
      for i := 0 to |calls|
        invariant RunWaiting(config, Value(), calls[i..], refused) == RunWaiting(config, start, calls, refused)
      {
        To(calls[i], refused);
        assert calls[i..][1..] == calls[i + 1..];
      }
    }

    method TouchEnded(swipe: Swipe, pauseOnHover: bool, refused: bool)
      requires ValidConfig(config)
      modifies this
      ensures Value() == TouchEndNow(config, old(Value()), swipe, pauseOnHover, refused)
    {
      match swipe {
        case NoSwipe =>
        case SwipeRight => Advance(Prev, refused);
        case SwipeLeft => Advance(Next, refused);
      }
      if pauseOnHover {
        Pause(false);
        if touchTimeout != None {
          touchTimers := touchTimers - {touchTimeout.value};
        }
        touchTimeout := Some(nextTimer);
        touchTimers := touchTimers + {nextTimer};
        nextTimer := nextTimer + 1;
      }
    }
  }

  // ---------------------------------------------------------------- The invariant of every run

  /** The running intervals are exactly the one that `_interval` names, if any. */
  ghost predicate OwnsInterval(s: State) {
    && s.timers == (if s.interval.Some? then {s.interval.value} else {})
    && s.touchTimers <= (if s.touchTimeout.Some? then {s.touchTimeout.value} else {})
  }

  /**
   * Exactly the item `a` is active. Either no slide is in progress and no class of one is left, or
   * exactly one is, away from `a`; `_isSliding` tells which. The indicator shows where it goes, and
   * the waiting calls are for items that exist.
   */
  ghost predicate Consistent(c: Config, s: State, a: nat) {
    && a < c.items
    && s.active == {a}
    && OwnsInterval(s)
    && (s.isSliding <==> s.pending != [])
    && (!c.animated ==> !s.isSliding && s.waiting == [])
    && ValidCalls(c, s.waiting)
    && if s.pending == [] then s.marked == {} && s.indicator == a
       else
         && |s.pending| == 1 && s.pending[0].from == a
         && s.pending[0].to != a && s.pending[0].to < c.items
         && s.marked == {s.pending[0].to} && s.indicator == s.pending[0].to
  }

  ghost predicate ValidCalls(c: Config, calls: seq<Index>) {
    forall i :: 0 <= i < |calls| ==> 0 <= calls[i].value < c.items
  }

  lemma ActiveItemIs(c: Config, s: State, a: nat)
    requires a < c.items && s.active == {a}
    ensures ActiveItem(c, s) == Some(a)
  {
    FirstActiveIs(c.items, a, 0);
  }

  lemma {:induction false} FirstActiveIs(items: nat, a: nat, i: nat)
    requires i <= a < items
    ensures FirstActive(items, {a}, i) == Some(a)
    decreases items - i
  {
    if i < a {
      FirstActiveIs(items, a, i + 1);
    }
  }

  /** `r` differs from `s` in the timers and their settings only. */
  ghost predicate SameSlides(s: State, r: State) {
    && r.active == s.active && r.marked == s.marked && r.indicator == s.indicator && r.isSliding == s.isSliding
    && r.pending == s.pending && r.waiting == s.waiting && r.slidEvents == s.slidEvents
  }

  lemma CycleKeeps(s: State, byEvent: bool)
    requires OwnsInterval(s)
    ensures OwnsInterval(CycleNow(s, byEvent)) && SameSlides(s, CycleNow(s, byEvent))
    ensures !byEvent && s.intervalSetting != 0 ==> CycleNow(s, byEvent).interval.Some?
  {
  }

  lemma PauseKeeps(s: State, byEvent: bool)
    requires OwnsInterval(s)
    ensures OwnsInterval(PauseNow(s, byEvent)) && SameSlides(s, PauseNow(s, byEvent))
    ensures PauseNow(s, byEvent).interval == None && PauseNow(s, byEvent).timers == {}
  {
    var s1 := if byEvent then s else s.(isPaused := true);
    CycleKeeps(s1, true);
  }

  lemma MoveConsistent(c: Config, s: State, from: nat, to: nat)
    requires ValidConfig(c) && from < c.items && to < c.items && from != to
    requires s.active == {from} && s.marked == {} && s.indicator == to && s.isSliding && s.pending == []
             && OwnsInterval(s)
    requires (!c.animated ==> s.waiting == []) && ValidCalls(c, s.waiting)
    ensures Consistent(c, Move(c, s, from, to), if c.animated then from else to)
    ensures c.animated ==> Move(c, s, from, to).pending == [Slide(from, to)]
    ensures Move(c, s, from, to).waiting == s.waiting
  {
  }

  lemma BeginConsistent(c: Config, s: State, a: nat, b: nat)
    requires ValidConfig(c) && Consistent(c, s, a) && !s.isSliding && b < c.items && b != a
    ensures Consistent(c, Begin(c, s, a, b), if c.animated then a else b)
    ensures c.animated ==> Begin(c, s, a, b).pending == [Slide(a, b)]
    ensures Begin(c, s, a, b).waiting == s.waiting
  {
    var isCycling := s.interval.Some?;
    var s1 := s.(isSliding := true);
    PauseKeeps(s1, false);
    var s2 := if isCycling then PauseNow(s1, false) else s1;
    MoveConsistent(c, s2.(indicator := b), a, b);
    var s3 := Move(c, s2.(indicator := b), a, b);
    CycleKeeps(s3, false);
  }

  /** `_slide` when no slide is in progress: either nothing changes hands, or a slide to `b` begins. */
  lemma SlideConsistent(c: Config, s: State, a: nat, direction: Direction, element: Option<nat>, refused: bool)
    returns (a': nat)
    requires ValidConfig(c) && Consistent(c, s, a) && !s.isSliding && (element.Some? ==> element.value < c.items)
    ensures Consistent(c, SlideNow(c, s, direction, element, refused), a')
    ensures var b := if element.Some? then element.value else ItemByDirection(c, direction, a);
            var r := SlideNow(c, s, direction, element, refused);
            if refused || b == a then a' == a && r == s
            else if c.animated then a' == a && r.pending == [Slide(a, b)] && r.waiting == s.waiting
            else a' == b
  {
    ActiveItemIs(c, s, a);
    var b := if element.Some? then element.value else ItemByDirection(c, direction, a);
    assert NextItem(c, s, direction, element) == Some(b);
    if refused || b == a {
      a' := a;
    } else {
      BeginConsistent(c, s, a, b);
      a' := if c.animated then a else b;
    }
  }

  lemma StepByConsistent(c: Config, s: State, a: nat, direction: Direction, refused: bool) returns (a': nat)
    requires ValidConfig(c) && Consistent(c, s, a)
    ensures Consistent(c, StepBy(c, s, direction, refused), a')
  {
    if s.isSliding {
      a' := a;
    } else {
      a' := SlideConsistent(c, s, a, direction, None, refused);
    }
  }

  /**
   * `to` while sliding waits for the next slid event. While idle it slides to its item, unless that
   * is active already or a handler refuses; a number that is active restarts the interval.
   */
  lemma ToConsistent(c: Config, s: State, a: nat, index: Index, refused: bool) returns (a': nat)
    requires ValidConfig(c) && Consistent(c, s, a)
    ensures Consistent(c, ToNow(c, s, index, refused), a')
    ensures var r := ToNow(c, s, index, refused);
            0 <= index.value < c.items ==>
              if s.isSliding then r == s.(waiting := s.waiting + [index])
              else if index.value == a then a' == a && SameSlides(s, r)
              else !refused && c.animated ==> a' == a && r.pending == [Slide(a, index.value)] && r.waiting == s.waiting
  {
    ActiveItemIs(c, s, a);
    a' := a;
    if 0 <= index.value < c.items && !s.isSliding {
      if index.value == a && !index.isText {
        PauseKeeps(s, false);
        CycleKeeps(PauseNow(s, false), false);
      } else {
        a' := SlideConsistent(c, s, a, if index.value > a then Next else Prev, Some(index.value), refused);
      }
    }
  }

  lemma CompleteConsistent(c: Config, s: State, a: nat)
    requires Consistent(c, s, a) && s.pending != []
    ensures Consistent(c, CompleteNow(s), s.pending[0].to)
  {
  }

  lemma {:induction false} WaitingConsistent(c: Config, s: State, a: nat, calls: seq<Index>, refused: bool)
    returns (a': nat)
    requires ValidConfig(c) && Consistent(c, s, a)
    ensures Consistent(c, RunWaiting(c, s, calls, refused), a')
    decreases |calls|
  {
    if calls == [] {
      a' := a;
    } else {
      var a1 := ToConsistent(c, s, a, calls[0], refused);
      a' := WaitingConsistent(c, ToNow(c, s, calls[0], refused), a1, calls[1..], refused);
    }
  }

  lemma TouchEndConsistent(c: Config, s: State, a: nat, swipe: Swipe, pauseOnHover: bool, refused: bool)
    returns (a': nat)
    requires ValidConfig(c) && Consistent(c, s, a)
    ensures Consistent(c, TouchEndNow(c, s, swipe, pauseOnHover, refused), a')
  {
    a' := a;
    var s1 := s;
    if swipe == SwipeRight {
      a' := StepByConsistent(c, s, a, Prev, refused);
      s1 := StepBy(c, s, Prev, refused);
    } else if swipe == SwipeLeft {
      a' := StepByConsistent(c, s, a, Next, refused);
      s1 := StepBy(c, s, Next, refused);
    }
    PauseKeeps(s1, false);
  }

  /** Calls that may start a slide. */
  lemma CallConsistent(c: Config, s: State, a: nat, e: Event) returns (a': nat)
    requires ValidConfig(c) && Consistent(c, s, a)
    requires e.CallNext? || e.CallPrev? || e.CallTo?
    ensures Consistent(c, Step(c, s, e), a')
  {
    match e {
      case CallNext(refused) => a' := StepByConsistent(c, s, a, Next, refused);
      case CallPrev(refused) => a' := StepByConsistent(c, s, a, Prev, refused);
      case CallTo(index, refused) => a' := ToConsistent(c, s, a, index, refused);
    }
  }

  /** Events that may start a slide. */
  lemma SlideStepConsistent(c: Config, s: State, a: nat, e: Event) returns (a': nat)
    requires ValidConfig(c) && Consistent(c, s, a)
    requires e.Tick? || e.TouchEnd? || e.SlidEvent?
    ensures Consistent(c, Step(c, s, e), a')
  {
    a' := a;
    match e {
      case TouchEnd(swipe, pauseOnHover, refused) => a' := TouchEndConsistent(c, s, a, swipe, pauseOnHover, refused);
      case Tick(id, visible, refused) =>
        if id in s.timers && visible {
          a' := StepByConsistent(c, s, a, Next, refused);
        }
      case SlidEvent(refused) =>
        if s.slidEvents > 0 {
          a' := WaitingConsistent(c, s.(slidEvents := s.slidEvents - 1, waiting := []), a, s.waiting, refused);
        }
    }
  }

  lemma StepConsistent(c: Config, s: State, a: nat, e: Event) returns (a': nat)
    requires ValidConfig(c) && Consistent(c, s, a)
    ensures Consistent(c, Step(c, s, e), a')
  {
    a' := a;
    match e {
      case CallPause => PauseKeeps(s, false);
      case CallCycle => CycleKeeps(s, false);
      case MouseEnter => PauseKeeps(s, true);
      case MouseLeave => CycleKeeps(s, true);
      case TouchTimeout(id) => CycleKeeps(s.(touchTimers := s.touchTimers - {id}), false);
      case TransitionEnd =>
        if s.pending != [] {
          CompleteConsistent(c, s, a);
          a' := s.pending[0].to;
        }
      case CallNext(_) | CallPrev(_) | CallTo(_, _) => a' := CallConsistent(c, s, a, e);
      case _ => a' := SlideStepConsistent(c, s, a, e);
    }
  }

  lemma {:induction false} RunConsistent(c: Config, s: State, a: nat, events: seq<Event>) returns (a': nat)
    requires ValidConfig(c) && Consistent(c, s, a)
    ensures Consistent(c, Run(c, s, events), a')
    decreases |events|
  {
    if events == [] {
      a' := a;
    } else {
      var a1 := StepConsistent(c, s, a, events[0]);
      a' := RunConsistent(c, Step(c, s, events[0]), a1, events[1..]);
    }
  }

  /**
   * Over all runs from one active item: exactly one item is active, `_isSliding` holds if and only
   * if one slide has not ended, and the running intervals are exactly the one `_interval` names.
   */
  lemma {:induction false} SafeInEveryRun(c: Config, first: nat, intervalSetting: nat, events: seq<Event>)
    requires ValidConfig(c) && first < c.items
    ensures var s := Run(c, Initial(first, intervalSetting), events);
            && |s.active| == 1 && (forall i <- s.active :: i < c.items)
            && (s.isSliding <==> |s.pending| == 1) && |s.pending| <= 1
            && s.timers == (if s.interval.Some? then {s.interval.value} else {})
            && |s.touchTimers| <= 1
  {
    var s0 := Initial(first, intervalSetting);
    assert Consistent(c, s0, first);
    var a := RunConsistent(c, s0, first, events);
    var s := Run(c, s0, events);
    assert s.active == {a};
    if s.touchTimers != {} {
      assert s.touchTimers == {s.touchTimeout.value};
    }
  }

  /** `prev` leads back from where `next` leads, and the other way round, unless an end stops it. */
  lemma DirectionsAreInverse(c: Config, i: nat)
    requires c.items > 0 && i < c.items
    requires c.wrap || i + 1 < c.items
    ensures ItemByDirection(c, Prev, ItemByDirection(c, Next, i)) == i
    ensures i + 1 < c.items ==> ItemByDirection(c, Next, i) == i + 1
    ensures i + 1 == c.items ==> ItemByDirection(c, Next, i) == 0
  {
    SmallRemainder(i, c.items);
    if i + 1 < c.items {
      SmallRemainder(i + 1, c.items);
    }
  }

  lemma SmallRemainder(x: nat, n: nat)
    requires x < n
    ensures x % n == x && n % n == 0
  {
  }

  // ---------------------------------------------------------------- Calls that wait

  /** The index of the first call that is not for `a`, or the number of calls. */
  function FirstOther(calls: seq<Index>, a: nat): (k: nat)
    ensures k <= |calls|
    ensures forall i :: 0 <= i < k ==> calls[i].value == a
    ensures k < |calls| ==> calls[k].value != a
  {
    if calls == [] || calls[0].value != a then 0 else FirstOther(calls[1..], a) + 1
  }

  /** While a slide is in progress, waiting calls are bound again, all and in order. */
  lemma {:induction false} SlidingRequeues(c: Config, s: State, calls: seq<Index>, refused: bool)
    requires ValidConfig(c) && s.isSliding && ValidCalls(c, calls)
    ensures RunWaiting(c, s, calls, refused) == s.(waiting := s.waiting + calls)
    decreases |calls|
  {
    if calls == [] {
      assert s.waiting + [] == s.waiting;
    } else {
      SlidingRequeues(c, s.(waiting := s.waiting + [calls[0]]), calls[1..], refused);
      assert s.waiting + [calls[0]] + calls[1..] == s.waiting + calls;
    }
  }

  /**
   * The slid event of an idle carousel with `a` active: of the calls that waited, the first that is
   * not for `a` slides there and those behind it wait again; if there is none, nothing slides.
   */
  lemma {:induction false} WaitingCallsRun(c: Config, s: State, a: nat, calls: seq<Index>)
    requires ValidConfig(c) && c.animated && Consistent(c, s, a) && !s.isSliding && ValidCalls(c, calls)
    ensures var r := RunWaiting(c, s, calls, false);
            var k := FirstOther(calls, a);
            && Consistent(c, r, a)
            && if k == |calls| then r.pending == [] && r.waiting == s.waiting
               else r.pending == [Slide(a, calls[k].value)] && r.waiting == s.waiting + calls[k + 1..]
    decreases |calls|
  {
    if calls != [] {
      var a' := ToConsistent(c, s, a, calls[0], false);
      var r := ToNow(c, s, calls[0], false);
      if calls[0].value == a {
        WaitingCallsRun(c, r, a, calls[1..]);
        var k := FirstOther(calls, a);
        assert k < |calls| ==> calls[1..][k..] == calls[k + 1..];
      } else {
        SlidingRequeues(c, r, calls[1..], false);
      }
    }
  }

  /** The slide in progress ends, and its slid event comes. */
  function Round(c: Config, s: State): State
    requires ValidConfig(c)
  {
    Step(c, Step(c, s, TransitionEnd), SlidEvent(false))
  }

  function Rounds(c: Config, s: State, n: nat): State
    requires ValidConfig(c)
    decreases n
  {
    if n == 0 then s else Rounds(c, Round(c, s), n - 1)
  }

  lemma RoundRuns(c: Config, s: State, a: nat)
    requires ValidConfig(c) && c.animated && Consistent(c, s, a) && s.isSliding
    ensures var b, r := s.pending[0].to, Round(c, s);
            var k := FirstOther(s.waiting, b);
            && Consistent(c, r, b)
            && if k == |s.waiting| then !r.isSliding && r.waiting == []
               else r.pending == [Slide(b, s.waiting[k].value)] && r.waiting == s.waiting[k + 1..]
  {
    CompleteConsistent(c, s, a);
    RoundIsRun(c, s);
    var b, waiting := s.pending[0].to, s.waiting;
    var s1 := CompleteNow(s);
    WaitingCallsRun(c, s1.(slidEvents := s1.slidEvents - 1, waiting := []), b, waiting);
    var k := FirstOther(waiting, b);
    assert k < |waiting| ==> [] + waiting[k + 1..] == waiting[k + 1..];
  }

  lemma RoundIsRun(c: Config, s: State)
    requires ValidConfig(c) && s.pending != []
    ensures var s1 := CompleteNow(s);
            Round(c, s) == RunWaiting(c, s1.(slidEvents := s1.slidEvents - 1, waiting := []), s.waiting, false)
  {
  }

  /**
   * No waiting call is put off for ever: if nothing intervenes, then after at most one slide for each
   * call that waits, and the one in progress, the carousel rests at the item of the call made last.
   */
  lemma {:induction false} LastCallWins(c: Config, s: State, a: nat) returns (n: nat)
    requires ValidConfig(c) && c.animated && Consistent(c, s, a) && s.isSliding
    ensures 1 <= n <= |s.waiting| + 1
    ensures var goal := if s.waiting == [] then s.pending[0].to else s.waiting[|s.waiting| - 1].value;
            var r := Rounds(c, s, n);
            && Consistent(c, r, goal) && r.active == {goal} && !r.isSliding && r.waiting == []
    decreases |s.waiting|
  {
    var b, r := s.pending[0].to, Round(c, s);
    var k := FirstOther(s.waiting, b);
    RoundRuns(c, s, a);
    if k == |s.waiting| {
      n := 1;
      assert Rounds(c, s, 1) == Rounds(c, r, 0);
    } else {
      n := LastCallWins(c, r, b);
      n := n + 1;
    }
  }

  // ---------------------------------------------------------------- What each event does

  /** From item `a` to the next, round the end if the carousel wraps. */
  function After(c: Config, a: nat): nat {
    if a + 1 < c.items then a + 1 else if c.wrap then 0 else a
  }

  function BeforeIt(c: Config, a: nat): nat {
    if a > 0 then a - 1 else if c.wrap && c.items > 0 then c.items - 1 else a
  }

  lemma DirectionsLeadOn(c: Config, a: nat)
    requires c.items > 0 && a < c.items
    ensures ItemByDirection(c, Next, a) == After(c, a) && ItemByDirection(c, Prev, a) == BeforeIt(c, a)
  {
    SmallRemainder(a, c.items);
    if a + 1 < c.items {
      SmallRemainder(a + 1, c.items);
    }
    if a > 0 {
      SmallRemainder(a - 1, c.items);
    }
  }

  /** Where the carousel with `a` active is sent: nowhere, or to an item. */
  ghost predicate IsSentTo(c: Config, a: nat, goal: nat, r: State) {
    if goal == a then r.active == {a} && r.pending == []
    else if c.animated then r.active == {a} && r.pending == [Slide(a, goal)]
    else r.active == {goal} && r.pending == []
  }

  /** An idle carousel goes one item on for `next` and a tick of its interval on a visible page, and back for `prev`. */
  lemma IdleCallsSlide(c: Config, s: State, a: nat, id: nat)
    requires ValidConfig(c) && Consistent(c, s, a) && !s.isSliding
    ensures IsSentTo(c, a, After(c, a), Step(c, s, CallNext(false)))
    ensures id in s.timers ==> IsSentTo(c, a, After(c, a), Step(c, s, Tick(id, true, false)))
    ensures IsSentTo(c, a, BeforeIt(c, a), Step(c, s, CallPrev(false)))
  {
    DirectionsLeadOn(c, a);
    IdleSlides(c, s, a, Next);
    IdleSlides(c, s, a, Prev);
  }

  /** It goes one item on for a swipe to the left and back for one to the right. */
  lemma IdleSwipesSlide(c: Config, s: State, a: nat, pauseOnHover: bool)
    requires ValidConfig(c) && Consistent(c, s, a) && !s.isSliding
    ensures IsSentTo(c, a, After(c, a), Step(c, s, TouchEnd(SwipeLeft, pauseOnHover, false)))
    ensures IsSentTo(c, a, BeforeIt(c, a), Step(c, s, TouchEnd(SwipeRight, pauseOnHover, false)))
  {
    DirectionsLeadOn(c, a);
    SwipeSlides(c, s, a, SwipeLeft, pauseOnHover);
    SwipeSlides(c, s, a, SwipeRight, pauseOnHover);
  }

  lemma SwipeSlides(c: Config, s: State, a: nat, swipe: Swipe, pauseOnHover: bool)
    requires ValidConfig(c) && Consistent(c, s, a) && !s.isSliding && swipe != NoSwipe
    ensures IsSentTo(c, a, ItemByDirection(c, if swipe == SwipeLeft then Next else Prev, a),
                     Step(c, s, TouchEnd(swipe, pauseOnHover, false)))
  {
    var direction := if swipe == SwipeLeft then Next else Prev;
    IdleSlides(c, s, a, direction);
    var a' := StepByConsistent(c, s, a, direction, false);
    TouchKeepsSlides(c, s, swipe, pauseOnHover);
  }

  lemma IdleSlides(c: Config, s: State, a: nat, direction: Direction)
    requires ValidConfig(c) && Consistent(c, s, a) && !s.isSliding
    ensures IsSentTo(c, a, ItemByDirection(c, direction, a), StepBy(c, s, direction, false))
  {
    var a' := SlideConsistent(c, s, a, direction, None, false);
  }

  /** The end of a touch slides like the call it stands for; pausing and the timeout leave the slide alone. */
  lemma TouchKeepsSlides(c: Config, s: State, swipe: Swipe, pauseOnHover: bool)
    requires ValidConfig(c) && swipe != NoSwipe && OwnsInterval(s)
    requires OwnsInterval(StepBy(c, s, if swipe == SwipeLeft then Next else Prev, false))
    ensures SameSlides(StepBy(c, s, if swipe == SwipeLeft then Next else Prev, false),
                       Step(c, s, TouchEnd(swipe, pauseOnHover, false)))
  {
    PauseKeeps(StepBy(c, s, if swipe == SwipeLeft then Next else Prev, false), false);
  }

  /** Nothing slides while a slide is in progress, on a hidden page, or if the slide event is refused. */
  lemma NothingElseSlides(c: Config, s: State, a: nat, id: nat, refused: bool)
    requires ValidConfig(c) && Consistent(c, s, a)
    ensures s.isSliding ==> Step(c, s, CallNext(refused)) == s && Step(c, s, CallPrev(refused)) == s
    ensures s.isSliding ==> Step(c, s, Tick(id, true, refused)) == s
    ensures Step(c, s, Tick(id, false, refused)) == s
    ensures Step(c, s, CallNext(true)) == s && Step(c, s, CallPrev(true)) == s
  {
    if !s.isSliding {
      var a1 := SlideConsistent(c, s, a, Next, None, true);
      var a2 := SlideConsistent(c, s, a, Prev, None, true);
    }
  }

  // ---------------------------------------------------------------- Pausing

  /** A pause by call stops the interval for good, one by the pointer until it leaves, and a cycle starts it. */
  lemma PausingStops(c: Config, s: State)
    requires ValidConfig(c) && OwnsInterval(s)
    ensures var r := Step(c, s, CallPause); r.interval == None && r.timers == {} && r.isPaused
    ensures var r := Step(c, s, MouseEnter); r.interval == None && r.timers == {} && r.isPaused == s.isPaused
    ensures var r := Step(c, s, MouseLeave);
            r.isPaused == s.isPaused && (r.interval.Some? <==> !s.isPaused && s.intervalSetting != 0)
    ensures var r := Step(c, s, CallCycle); !r.isPaused && (r.interval.Some? <==> s.intervalSetting != 0)
  {
    PauseKeeps(s, false);
    PauseKeeps(s, true);
  }

  /** Paused by call, and no interval is running. */
  ghost predicate Rests(s: State) {
    s.isPaused && s.interval == None
  }

  lemma SlideRests(c: Config, s: State, direction: Direction, element: Option<nat>, refused: bool)
    requires ValidConfig(c) && (element.Some? ==> element.value < c.items) && Rests(s)
    ensures Rests(SlideNow(c, s, direction, element, refused))
  {
  }

  /**
   * A carousel paused by call stays without interval until it is cycled: by call, by a touch timeout,
   * or by a call of `to` with the number of the active item, which may have waited for a slid event.
   */
  lemma RestsUntilCycled(c: Config, s: State, a: nat, e: Event)
    requires ValidConfig(c) && Consistent(c, s, a) && Rests(s)
    requires e != CallCycle && !e.TouchTimeout? && !e.SlidEvent?
    requires e.CallTo? ==> e.index.isText || e.index.value != a
    ensures Rests(Step(c, s, e))
  {
    ActiveItemIs(c, s, a);
    match e {
      case CallNext(refused) => SlideRests(c, s, Next, None, refused);
      case CallPrev(refused) => SlideRests(c, s, Prev, None, refused);
      case Tick(_, _, refused) => SlideRests(c, s, Next, None, refused);
      case CallTo(index, refused) =>
        if 0 <= index.value < c.items {
          SlideRests(c, s, Next, Some(index.value), refused);
          SlideRests(c, s, Prev, Some(index.value), refused);
        }
      case TouchEnd(_, _, refused) =>
        SlideRests(c, s, Next, None, refused);
        SlideRests(c, s, Prev, None, refused);
      case _ =>
    }
  }

  // ---------------------------------------------------------------- The interval of an item

  /** The interval for `item`: its own, or the configured one. */
  function IntervalFor(c: Config, item: nat, configured: nat): nat
    requires item < |c.intervals|
  {
    if c.intervals[item] != 0 then c.intervals[item] else configured
  }

  /** The configured interval is the setting, or is remembered; during a slide the setting is that of its goal. */
  ghost predicate Remembers(c: Config, s: State, configured: nat)
    requires ValidConfig(c)
  {
    && ((s.defaultInterval == 0 && s.intervalSetting == configured) || s.defaultInterval == configured)
    && (forall i :: 0 <= i < |s.pending| ==>
          s.pending[i].to < c.items && s.intervalSetting == IntervalFor(c, s.pending[i].to, configured))
  }

  lemma CycleRemembers(c: Config, s: State, configured: nat)
    requires ValidConfig(c) && Remembers(c, s, configured)
    ensures forall b :: Remembers(c, CycleNow(s, b), configured) && Remembers(c, PauseNow(s, b), configured)
  {
  }

  lemma BeginRemembers(c: Config, s: State, from: nat, to: nat, configured: nat)
    requires ValidConfig(c) && to < c.items && s.pending == [] && configured != 0 && Remembers(c, s, configured)
    ensures Remembers(c, Begin(c, s, from, to), configured)
  {
    var s1 := s.(isSliding := true);
    var s2 := if s.interval.Some? then PauseNow(s1, false) else s1;
    CycleRemembers(c, s1, configured);
    var s3 := Move(c, s2.(indicator := to), from, to);
    assert Remembers(c, s3, configured);
    CycleRemembers(c, s3, configured);
  }

  lemma SlideRemembers(c: Config, s: State, a: nat, direction: Direction, element: Option<nat>, refused: bool,
                       configured: nat)
    requires ValidConfig(c) && Consistent(c, s, a) && !s.isSliding && (element.Some? ==> element.value < c.items)
    requires configured != 0 && Remembers(c, s, configured)
    ensures Remembers(c, SlideNow(c, s, direction, element, refused), configured)
  {
    ActiveItemIs(c, s, a);
    var next := NextItem(c, s, direction, element);
    if next.Some? && next.value !in s.active && !refused {
      BeginRemembers(c, s, a, next.value, configured);
    }
  }

  lemma ToRemembers(c: Config, s: State, a: nat, index: Index, refused: bool, configured: nat)
    requires ValidConfig(c) && Consistent(c, s, a) && configured != 0 && Remembers(c, s, configured)
    ensures Remembers(c, ToNow(c, s, index, refused), configured)
  {
    if 0 <= index.value < c.items && !s.isSliding {
      CycleRemembers(c, s, configured);
      CycleRemembers(c, PauseNow(s, false), configured);
      SlideRemembers(c, s, a, Next, Some(index.value), refused, configured);
      SlideRemembers(c, s, a, Prev, Some(index.value), refused, configured);
    }
  }

  lemma StepByRemembers(c: Config, s: State, a: nat, direction: Direction, refused: bool, configured: nat)
    requires ValidConfig(c) && Consistent(c, s, a) && configured != 0 && Remembers(c, s, configured)
    ensures Remembers(c, StepBy(c, s, direction, refused), configured)
  {
    if !s.isSliding {
      SlideRemembers(c, s, a, direction, None, refused, configured);
    }
  }

  lemma {:induction false} WaitingRemembers(c: Config, s: State, a: nat, calls: seq<Index>, refused: bool,
                                            configured: nat)
    requires ValidConfig(c) && Consistent(c, s, a) && configured != 0 && Remembers(c, s, configured)
    ensures Remembers(c, RunWaiting(c, s, calls, refused), configured)
    decreases |calls|
  {
    if calls != [] {
      var a1 := ToConsistent(c, s, a, calls[0], refused);
      ToRemembers(c, s, a, calls[0], refused, configured);
      WaitingRemembers(c, ToNow(c, s, calls[0], refused), a1, calls[1..], refused, configured);
    }
  }

  lemma TouchRemembers(c: Config, s: State, a: nat, swipe: Swipe, pauseOnHover: bool, refused: bool, configured: nat)
    requires ValidConfig(c) && Consistent(c, s, a) && configured != 0 && Remembers(c, s, configured)
    ensures Remembers(c, TouchEndNow(c, s, swipe, pauseOnHover, refused), configured)
  {
    StepByRemembers(c, s, a, Next, refused, configured);
    StepByRemembers(c, s, a, Prev, refused, configured);
    CycleRemembers(c, s, configured);
    CycleRemembers(c, StepBy(c, s, Next, refused), configured);
    CycleRemembers(c, StepBy(c, s, Prev, refused), configured);
  }

  lemma StepRemembers(c: Config, s: State, a: nat, e: Event, configured: nat)
    requires ValidConfig(c) && Consistent(c, s, a) && configured != 0 && Remembers(c, s, configured)
    ensures Remembers(c, Step(c, s, e), configured)
  {
    match e {
      case CallNext(refused) => StepByRemembers(c, s, a, Next, refused, configured);
      case CallPrev(refused) => StepByRemembers(c, s, a, Prev, refused, configured);
      case CallTo(index, refused) => ToRemembers(c, s, a, index, refused, configured);
      case Tick(_, _, refused) => StepByRemembers(c, s, a, Next, refused, configured);
      case TouchEnd(swipe, pauseOnHover, refused) => TouchRemembers(c, s, a, swipe, pauseOnHover, refused, configured);
      case SlidEvent(refused) =>
        if s.slidEvents > 0 {
          WaitingRemembers(c, s.(slidEvents := s.slidEvents - 1, waiting := []), a, s.waiting, refused, configured);
        }
      case TouchTimeout(id) => CycleRemembers(c, s.(touchTimers := s.touchTimers - {id}), configured);
      case TransitionEnd =>
      case _ => CycleRemembers(c, s, configured);
    }
  }

  lemma {:induction false} RunRemembers(c: Config, s: State, a: nat, events: seq<Event>, configured: nat)
    requires ValidConfig(c) && Consistent(c, s, a) && configured != 0 && Remembers(c, s, configured)
    ensures Remembers(c, Run(c, s, events), configured)
    decreases |events|
  {
    if events != [] {
      var a1 := StepConsistent(c, s, a, events[0]);
      StepRemembers(c, s, a, events[0], configured);
      RunRemembers(c, Step(c, s, events[0]), a1, events[1..], configured);
    }
  }

  /**
   * In every run with an interval configured: a slide in progress has set the interval of the item it
   * goes to, which is its own if it has one and otherwise the configured one.
   */
  lemma SlidesSetTheirInterval(c: Config, first: nat, configured: nat, events: seq<Event>)
    requires ValidConfig(c) && first < c.items && configured != 0
    ensures var s := Run(c, Initial(first, configured), events);
            s.pending != [] ==>
              s.pending[0].to < c.items && s.intervalSetting == IntervalFor(c, s.pending[0].to, configured)
  {
    assert Consistent(c, Initial(first, configured), first);
    RunRemembers(c, Initial(first, configured), first, events, configured);
  }

  /** The configured interval comes back after an item with its own if and only if there was one. */
  lemma IntervalComesBackIff(s: State, own: nat, configured: nat)
    requires own != 0 && s.intervalSetting == configured && s.defaultInterval == 0
    ensures AdoptInterval(AdoptInterval(s, own), 0).intervalSetting == configured <==> configured != 0
  {
  }

  /**
   * A slide to another item goes on cycling if the carousel was cycling, with a new interval timer and
   * not paused; if it was not, the slide starts no interval.
   */
  lemma SlidingGoesOnCycling(c: Config, s: State, a: nat, direction: Direction, element: Option<nat>)
    requires ValidConfig(c) && Consistent(c, s, a) && !s.isSliding && (element.Some? ==> element.value < c.items)
    requires (if element.Some? then element.value else ItemByDirection(c, direction, a)) != a
    ensures var r := SlideNow(c, s, direction, element, false);
            if s.interval.None? then r.interval.None? && r.timers == {} && r.isPaused == s.isPaused
            else
              && !r.isPaused
              && (r.interval.Some? <==> r.intervalSetting != 0)
              && (r.interval.Some? ==> r.interval.value >= s.nextTimer && r.timers == {r.interval.value})
  {
    ActiveItemIs(c, s, a);
    var next := NextItem(c, s, direction, element).value;
    BeginConsistent(c, s, a, next);
  }

  /** The end of a touch without a swipe, on a carousel that pauses on hover. */
  lemma TouchPauses(c: Config, s: State, refused: bool)
    requires ValidConfig(c) && OwnsInterval(s)
    ensures var r := TouchEndNow(c, s, NoSwipe, true, refused);
            && Rests(r) && r.timers == {} && r.touchTimeout.Some? && r.touchTimers == {r.touchTimeout.value}
            && r.touchTimeout.value >= s.nextTimer && r.intervalSetting == s.intervalSetting
  {
    PauseKeeps(s, false);
  }

  /** A swipe comes first and then counts as the end of a touch without one. */
  lemma SwipeThenTouch(c: Config, s: State, a: nat, swipe: Swipe, refused: bool)
    requires ValidConfig(c) && Consistent(c, s, a)
    ensures exists s1 :: OwnsInterval(s1)
                         && TouchEndNow(c, s, swipe, true, refused) == TouchEndNow(c, s1, NoSwipe, true, refused)
  {
    if swipe != NoSwipe {
      var a1 := StepByConsistent(c, s, a, if swipe == SwipeLeft then Next else Prev, refused);
    }
    assert OwnsInterval(match swipe
                        case NoSwipe => s
                        case SwipeRight => StepBy(c, s, Prev, refused)
                        case SwipeLeft => StepBy(c, s, Next, refused));
  }

  /**
   * The end of a touch pauses a carousel that pauses on hover and leaves one timeout, and that timeout
   * starts the interval again.
   */
  lemma TouchPausesUntilTimeout(c: Config, s: State, a: nat, swipe: Swipe, refused: bool)
    requires ValidConfig(c) && Consistent(c, s, a)
    ensures var r := Step(c, s, TouchEnd(swipe, true, refused));
            && Rests(r) && r.timers == {} && r.touchTimeout.Some? && r.touchTimers == {r.touchTimeout.value}
            && var t := Step(c, r, TouchTimeout(r.touchTimeout.value));
               !t.isPaused && t.touchTimers == {} && (t.interval.Some? <==> r.intervalSetting != 0)
  {
    SwipeThenTouch(c, s, a, swipe, refused);
    var r := TouchEndNow(c, s, swipe, true, refused);
    var s1 :| OwnsInterval(s1) && r == TouchEndNow(c, s1, NoSwipe, true, refused);
    TouchPauses(c, s1, refused);
    TimeoutCycles(c, r, r.touchTimeout.value);
  }

  lemma TimeoutCycles(c: Config, s: State, id: nat)
    requires ValidConfig(c) && s.touchTimers == {id}
    ensures var r := Step(c, s, TouchTimeout(id));
            !r.isPaused && r.touchTimers == {} && (r.interval.Some? <==> s.intervalSetting != 0)
  {
  }

  /** A touch that is no swipe changes nothing without that pause; `to` with the active item restarts the interval. */
  lemma StayingRestarts(c: Config, s: State, a: nat, refused: bool)
    requires ValidConfig(c) && Consistent(c, s, a)
    ensures Step(c, s, TouchEnd(NoSwipe, false, refused)) == s
    ensures !s.isSliding ==>
              var r := Step(c, s, CallTo(Index(a, false), refused));
              !r.isPaused && (r.interval.Some? <==> s.intervalSetting != 0) && SameSlides(s, r)
  {
    ActiveItemIs(c, s, a);
    PauseKeeps(s, false);
    CycleKeeps(PauseNow(s, false), false);
  }
}
