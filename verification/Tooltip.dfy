/** The hover controller of a tooltip without animation: triggers, delays, and the timers they set. */
module Tooltip {
  import opened Optional

  datatype Trigger = Hover | Focus | Click

  /** `_hoverState`: the empty string, `show`, `out` or null. */
  datatype HoverState = Blank | Show | Out | Cleared

  /** What a pending timer will do if the hover state has not changed by then. */
  datatype Callback = ShowLater | HideLater

  /** The delays of the configuration; zero means at once. */
  datatype Delays = Delays(show: nat, hide: nat)

  /**
   * `timers` are the pending timers of the browser; `live` are the Popper instances that have been
   * created and not destroyed, `popper` the one the tooltip knows.
   */
  datatype State = State(
    enabled: bool,
    hoverState: HoverState,
    timeout: nat,
    active: set<Trigger>,
    shown: bool,
    attached: bool,
    timers: map<nat, Callback>,
    nextTimer: nat,
    popper: Option<nat>,
    live: set<nat>,
    nextPopper: nat)

  const INITIAL := State(true, Blank, 0, {}, false, false, map[], 1, None, {}, 0)

  // ---------------------------------------------------------------- The steps as functions

  function ClearTimeout(s: State): State {
    s.(timers := s.timers - {s.timeout})
  }

  function SetTimeout(s: State, callback: Callback): State {
    s.(timers := s.timers[s.nextTimer := callback], timeout := s.nextTimer, nextTimer := s.nextTimer + 1)
  }

  function HideNow(s: State): State {
    s.(active := {}, shown := false, hoverState := Blank,
       attached := s.attached && s.hoverState == Show,
       live := if s.popper.Some? then s.live - {s.popper.value} else s.live)
  }

  function LeaveNow(d: Delays, s: State): State {
    if s.active != {} then s
    else
      var out := ClearTimeout(s).(hoverState := Out);
      if d.hide == 0 then HideNow(out) else SetTimeout(out, HideLater)
  }

  function ShowNow(d: Delays, s: State): State {
    if !s.enabled then s
    else
      var shown := s.(shown := true, attached := true, hoverState := Cleared,
                      popper := Some(s.nextPopper), live := s.live + {s.nextPopper}, nextPopper := s.nextPopper + 1);
      if s.hoverState == Out then LeaveNow(d, shown) else shown
  }

  function EnterNow(d: Delays, s: State): State {
    if s.shown || s.hoverState == Show then s.(hoverState := Show)
    else
      var entered := ClearTimeout(s).(hoverState := Show);
      if d.show == 0 then ShowNow(d, entered) else SetTimeout(entered, ShowLater)
  }

  function ToggleNow(d: Delays, s: State): State {
    if !s.enabled then s
    else
      var t := s.(active := if Click in s.active then s.active - {Click} else s.active + {Click});
      if t.active != {} then EnterNow(d, t) else LeaveNow(d, t)
  }

  function FireNow(d: Delays, s: State, id: nat): State
    requires id in s.timers
  {
    var fired := s.(timers := s.timers - {id});
    match s.timers[id]
    case ShowLater => if s.hoverState == Show then ShowNow(d, fired) else fired
    case HideLater => if s.hoverState == Out then HideNow(fired) else fired
  }

  /** What happens to the tooltip; `CloseModal` is the `hide.bs.modal` of a surrounding modal. */
  datatype Event =
    | MouseEnter | MouseLeave | FocusIn | FocusOut | ClickOn
    | CloseModal
    | Fire(id: nat)
    | Enable | Disable

  /** Firing a timer that is not pending cannot happen and is read as no event. */
  function Step(d: Delays, s: State, e: Event): State {
    match e
    case MouseEnter => EnterNow(d, s.(active := s.active + {Hover}))
    case FocusIn => EnterNow(d, s.(active := s.active + {Focus}))
    case MouseLeave => LeaveNow(d, s.(active := s.active - {Hover}))
    case FocusOut => LeaveNow(d, s.(active := s.active - {Focus}))
    case ClickOn => ToggleNow(d, s)
    case CloseModal => HideNow(s)
    case Fire(id) => if id in s.timers then FireNow(d, s, id) else s
    case Enable => s.(enabled := true)
    case Disable => s.(enabled := false)
  }

  function Run(d: Delays, s: State, events: seq<Event>): State
    decreases |events|
  {
    if events == [] then s else Run(d, Step(d, s, events[0]), events[1..])
  }

  // ---------------------------------------------------------------- The controller object

  class Controller {
    const delays: Delays
    var enabled: bool
    var hoverState: HoverState
    var timeout: nat
    var active: set<Trigger>
    var shown: bool
    var attached: bool
    var timers: map<nat, Callback>
    var nextTimer: nat
    var popper: Option<nat>
    var live: set<nat>
    var nextPopper: nat

    function Value(): State
      reads this
    {
      State(enabled, hoverState, timeout, active, shown, attached, timers, nextTimer, popper, live, nextPopper)
    }

    constructor (delays: Delays)
      ensures Value() == INITIAL && this.delays == delays
    {
      this.delays := delays;
      enabled, hoverState, timeout, active := true, Blank, 0, {};
      shown, attached, timers, nextTimer := false, false, map[], 1;
      popper, live, nextPopper := None, {}, 0;
    }

    method StartTimer(callback: Callback)
      modifies this
      ensures Value() == SetTimeout(old(Value()), callback)
    {
      timers := timers[nextTimer := callback];
      timeout := nextTimer;
      nextTimer := nextTimer + 1;
    }

    method StopTimer()
      modifies this
      ensures Value() == ClearTimeout(old(Value()))
    {
      timers := timers - {timeout};
    }

    method Hide()
      modifies this
      ensures Value() == HideNow(old(Value()))
    {
      shown := false;
      active := {};
      if hoverState != Show && attached {
        attached := false;
      }
      if popper != None {
        live := live - {popper.value};
      }
      hoverState := Blank;
    }

    /** `_leave` without an event; with one, its trigger has been cleared already. */
    method Leave()
      modifies this
      ensures Value() == LeaveNow(delays, old(Value()))
    {
      if active != {} {
        return;
      }
      StopTimer();
      hoverState := Out;
      if delays.hide == 0 {
        Hide();
        return;
      }
      StartTimer(HideLater);
    }

    method ShowTip()
      modifies this
      ensures Value() == ShowNow(delays, old(Value()))
    {
      if enabled {
        attached := true;
        popper := Some(nextPopper);
        live := live + {nextPopper};
        nextPopper := nextPopper + 1;
        shown := true;
        var prevHoverState := hoverState;
        hoverState := Cleared;
        if prevHoverState == Out {
          Leave();
        }
      }
    }

    /** `_enter` without an event; with one, its trigger has been set already. */
    method Enter()
      modifies this
      ensures Value() == EnterNow(delays, old(Value()))
    {
      if shown || hoverState == Show {
        hoverState := Show;
        return;
      }
      StopTimer();
      hoverState := Show;
      if delays.show == 0 {
        ShowTip();
        return;
      }
      StartTimer(ShowLater);
    }

    method Toggle()
      modifies this
      ensures Value() == ToggleNow(delays, old(Value()))
    {
      if !enabled {
        return;
      }
      active := if Click in active then active - {Click} else active + {Click};
      if active != {} {
        Enter();
      } else {
        Leave();
      }
    }

    method Handle(e: Event)
      modifies this
      ensures Value() == Step(delays, old(Value()), e)
    {
      match e {
        case MouseEnter =>
          active := active + {Hover};
          Enter();
        case FocusIn =>
          active := active + {Focus};
          Enter();
        case MouseLeave =>
          active := active - {Hover};
          Leave();
        case FocusOut =>
          active := active - {Focus};
          Leave();
        case ClickOn => Toggle();
        case CloseModal => Hide();
        case Fire(id) =>
          if id in timers {
            var callback := timers[id];
            timers := timers - {id};
            if callback == ShowLater && hoverState == Show {
              ShowTip();
            } else if callback == HideLater && hoverState == Out {
              Hide();
            }
          }
        case Enable => enabled := true;
        case Disable => enabled := false;
      }
    }
  }

  // ---------------------------------------------------------------- Invariant of every run

  /**
   * Only the timer that the tooltip remembers can be pending, only the Popper instance that it
   * remembers can be live, and no timer is going to show a tip that is shown already.
   */
  ghost predicate Bookkept(s: State) {
    && s.timers.Keys <= {s.timeout} && s.timeout < s.nextTimer
    && (s.popper.Some? ==> s.popper.value < s.nextPopper)
    && (s.shown ==> s.attached && s.popper.Some? && ShowLater !in s.timers.Values)
    && s.live == (if s.shown then {s.popper.value} else {})
  }

  /** The hover state tells what the pending timer waits for. */
  ghost predicate Consistent(s: State) {
    && Bookkept(s)
    && match s.hoverState
       case Blank => s.active == {} && !s.shown
       case Cleared => s.active != {} && s.shown && s.timers == map[]
       case Show => s.active != {} && (s.shown || s.timers == map[s.timeout := ShowLater])
       case Out => s.active == {} && s.timers == map[s.timeout := HideLater]
  }

  lemma ClearedTimers(s: State)
    requires s.timers.Keys <= {s.timeout}
    ensures ClearTimeout(s).timers == map[]
  {
  }

  lemma HideConsistent(s: State)
    requires Bookkept(s)
    ensures Consistent(HideNow(s)) && HideNow(s).enabled == s.enabled
    ensures HideNow(s).timers == s.timers
  {
  }

  lemma LeaveConsistent(d: Delays, s: State)
    requires Bookkept(s) && (s.active != {} ==> Consistent(s))
    ensures Consistent(LeaveNow(d, s)) && LeaveNow(d, s).enabled == s.enabled
  {
    if s.active == {} {
      ClearedTimers(s);
      var out := ClearTimeout(s).(hoverState := Out);
      if d.hide == 0 {
        HideConsistent(out);
      } else {
        var waiting := SetTimeout(out, HideLater);
        assert waiting.timers == map[waiting.timeout := HideLater];
      }
    }
  }

  lemma ShowConsistent(d: Delays, s: State)
    requires Bookkept(s) && s.enabled && !s.shown && s.hoverState == Show && s.active != {} && s.timers == map[]
    ensures Consistent(ShowNow(d, s)) && ShowNow(d, s).enabled
    ensures ShowNow(d, s).timers == map[] && ShowNow(d, s).shown && ShowNow(d, s).active == s.active
  {
  }

  lemma EnterConsistent(d: Delays, s: State)
    requires Bookkept(s) && s.enabled && s.active != {}
    requires s.hoverState == Show && !s.shown ==> s.timers == map[s.timeout := ShowLater]
    ensures Consistent(EnterNow(d, s)) && EnterNow(d, s).enabled
  {
    if !s.shown && s.hoverState != Show {
      ClearedTimers(s);
      var entered := ClearTimeout(s).(hoverState := Show);
      if d.show == 0 {
        ShowConsistent(d, entered);
      } else {
        var waiting := SetTimeout(entered, ShowLater);
        assert waiting.timers == map[waiting.timeout := ShowLater];
      }
    }
  }

  lemma FireConsistent(d: Delays, s: State)
    requires Consistent(s) && s.enabled && s.timeout in s.timers
    ensures var r := FireNow(d, s, s.timeout);
            && Consistent(r) && r.enabled && r.timers == map[]
            && r.active == s.active && (r.shown <==> s.active != {})
  {
    var fired := s.(timers := s.timers - {s.timeout});
    assert fired.timers == map[];
    assert s.timers[s.timeout] in s.timers.Values;
    if s.hoverState == Show && s.timers[s.timeout] == ShowLater {
      ShowConsistent(d, fired);
    } else if s.hoverState == Out {
      HideConsistent(fired);
    }
  }

  lemma StepConsistent(d: Delays, s: State, e: Event)
    requires Consistent(s) && s.enabled && e != Disable
    ensures Consistent(Step(d, s, e)) && Step(d, s, e).enabled
  {
    match e {
      case MouseEnter => EnterConsistent(d, s.(active := s.active + {Hover}));
      case FocusIn => EnterConsistent(d, s.(active := s.active + {Focus}));
      case MouseLeave => LeaveConsistent(d, s.(active := s.active - {Hover}));
      case FocusOut => LeaveConsistent(d, s.(active := s.active - {Focus}));
      case ClickOn =>
        var t := s.(active := if Click in s.active then s.active - {Click} else s.active + {Click});
        if t.active != {} {
          EnterConsistent(d, t);
        } else {
          LeaveConsistent(d, t);
        }
      case CloseModal => HideConsistent(s);
      case Fire(id) =>
        if id in s.timers {
          assert id == s.timeout;
          FireConsistent(d, s);
        }
      case Enable =>
    }
  }

  // ---------------------------------------------------------------- Disabling

  /** The step asks for the tip to be shown, which a disabled tooltip ignores. */
  predicate AsksToShow(d: Delays, s: State, e: Event) {
    || ((e == MouseEnter || e == FocusIn) && !s.shown && s.hoverState != Show && d.show == 0)
    || (e.Fire? && e.id in s.timers && s.timers[e.id] == ShowLater && s.hoverState == Show)
  }

  predicate IsIgnored(d: Delays, s: State, e: Event) {
    !s.enabled && AsksToShow(d, s, e)
  }

  /** Triggers are active and the hover state is `show`, yet nothing is shown and no timer is going to. */
  ghost predicate Stuck(s: State) {
    Bookkept(s) && s.hoverState == Show && s.active != {} && !s.shown && s.timers == map[]
  }

  lemma StuckIsNotConsistent(s: State)
    requires Stuck(s)
    ensures !Consistent(s)
  {
    assert s.timeout !in s.timers;
    assert s.timeout in map[s.timeout := ShowLater];
  }

  /** Disabled, entering without a delay and the timer of a delayed show come to nothing. */
  lemma IgnoredSticks(d: Delays, s: State, e: Event)
    requires Consistent(s) && IsIgnored(d, s, e)
    ensures Stuck(Step(d, s, e))
  {
    match e {
      case Fire(id) => assert s.timers - {id} == map[];
      case _ => ClearedTimers(s);
    }
  }

  lemma DisabledEnterConsistent(d: Delays, s: State)
    requires Bookkept(s) && !s.enabled && s.active != {} && (s.shown || s.hoverState == Show || d.show != 0)
    requires s.hoverState == Show && !s.shown ==> s.timers == map[s.timeout := ShowLater]
    ensures Consistent(EnterNow(d, s))
  {
    if !s.shown && s.hoverState != Show {
      ClearedTimers(s);
      var waiting := SetTimeout(ClearTimeout(s).(hoverState := Show), ShowLater);
      assert waiting.timers == map[waiting.timeout := ShowLater];
    }
  }

  lemma DisabledStepConsistent(d: Delays, s: State, e: Event)
    requires Consistent(s) && !s.enabled && !AsksToShow(d, s, e)
    ensures Consistent(Step(d, s, e))
  {
    match e {
      case MouseEnter => DisabledEnterConsistent(d, s.(active := s.active + {Hover}));
      case FocusIn => DisabledEnterConsistent(d, s.(active := s.active + {Focus}));
      case MouseLeave => LeaveConsistent(d, s.(active := s.active - {Hover}));
      case FocusOut => LeaveConsistent(d, s.(active := s.active - {Focus}));
      case ClickOn =>
      case CloseModal => HideConsistent(s);
      case Fire(id) =>
        if id in s.timers {
          assert s.timers[id] in s.timers.Values;
          assert s.timers - {id} == map[];
          HideConsistent(s.(timers := s.timers - {id}));
        }
      case Enable =>
      case Disable =>
    }
  }

  /** A consistent state stays so in every step except an ignored one, and that leaves the tooltip stuck. */
  lemma ConsistentUnlessIgnored(d: Delays, s: State, e: Event)
    requires Consistent(s)
    ensures Consistent(Step(d, s, e)) <==> !IsIgnored(d, s, e)
    ensures IsIgnored(d, s, e) ==> Stuck(Step(d, s, e))
  {
    if IsIgnored(d, s, e) {
      IgnoredSticks(d, s, e);
      StuckIsNotConsistent(Step(d, s, e));
    } else if s.enabled && e != Disable {
      StepConsistent(d, s, e);
    } else if !s.enabled {
      DisabledStepConsistent(d, s, e);
    }
  }

  /**
   * A stuck tooltip stays stuck, whatever is entered, fires, or is enabled, until an event leaves no
   * trigger active; that event makes it consistent again.
   */
  lemma StuckUntilLeft(d: Delays, s: State, e: Event)
    requires Stuck(s)
    ensures if Step(d, s, e).active != {} then Stuck(Step(d, s, e)) else Consistent(Step(d, s, e))
  {
    match e {
      case MouseLeave => LeaveIfLast(d, s.(active := s.active - {Hover}));
      case FocusOut => LeaveIfLast(d, s.(active := s.active - {Focus}));
      case ClickOn =>
        if s.enabled {
          var t := s.(active := if Click in s.active then s.active - {Click} else s.active + {Click});
          LeaveIfLast(d, t);
        }
      case CloseModal => HideConsistent(s);
      case _ =>
    }
  }

  lemma LeaveIfLast(d: Delays, s: State)
    requires Bookkept(s) && s.hoverState == Show && !s.shown && s.timers == map[]
    ensures var r := LeaveNow(d, s);
            && r.active == s.active
            && if s.active != {} then r == s else Consistent(r)
  {
    if s.active == {} {
      LeaveConsistent(d, s);
    }
  }

  /** Every run ends consistent or stuck, disabled for a while or not. */
  lemma {:induction false} RunReaches(d: Delays, s: State, events: seq<Event>)
    requires Consistent(s) || Stuck(s)
    ensures Consistent(Run(d, s, events)) || Stuck(Run(d, s, events))
    decreases |events|
  {
    if events != [] {
      if Consistent(s) {
        ConsistentUnlessIgnored(d, s, events[0]);
      } else {
        StuckUntilLeft(d, s, events[0]);
      }
      RunReaches(d, Step(d, s, events[0]), events[1..]);
    }
  }

  /** Once no timer is pending, the tip is visible if and only if some trigger is active. */
  ghost predicate Faithful(s: State) {
    s.timers == map[] ==> (s.shown && s.attached <==> s.active != {})
  }

  lemma ConsistentIsFaithful(s: State)
    requires Consistent(s)
    ensures Faithful(s)
  {
    assert s.timeout in map[s.timeout := ShowLater] && s.timeout in map[s.timeout := HideLater];
  }

  ghost predicate AlwaysFaithful(d: Delays, s: State, events: seq<Event>)
    decreases |events|
  {
    Faithful(s) && (events != [] ==> AlwaysFaithful(d, Step(d, s, events[0]), events[1..]))
  }

  /** No step of the run is ignored because the tooltip is disabled. */
  ghost predicate NothingIgnored(d: Delays, s: State, events: seq<Event>)
    decreases |events|
  {
    events != [] ==> !IsIgnored(d, s, events[0]) && NothingIgnored(d, Step(d, s, events[0]), events[1..])
  }

  /**
   * Over all runs, with the tooltip enabled and disabled at will: visibility follows the triggers in
   * every state of the run if and only if the run never asks a disabled tooltip to show.
   */
  lemma {:induction false} FaithfulIffNothingIgnored(d: Delays, s: State, events: seq<Event>)
    requires Consistent(s)
    ensures AlwaysFaithful(d, s, events) <==> NothingIgnored(d, s, events)
    decreases |events|
  {
    ConsistentIsFaithful(s);
    if events != [] {
      var s' := Step(d, s, events[0]);
      ConsistentUnlessIgnored(d, s, events[0]);
      if IsIgnored(d, s, events[0]) {
        assert !Faithful(s');
      } else {
        FaithfulIffNothingIgnored(d, s', events[1..]);
      }
    }
  }

  /**
   * Whatever the delays, and however pointer, focus, clicks, a closing modal, the timers, enabling and
   * disabling interleave: at most one timer and one Popper instance exist. Once no timer is pending,
   * the tip is visible if and only if some trigger is active and the tooltip is not stuck.
   */
  lemma {:induction false} OneTimerOnePopper(d: Delays, events: seq<Event>)
    ensures var s := Run(d, INITIAL, events);
            && |s.timers| <= 1
            && (s.shown ==> s.popper.Some?)
            && s.live == (if s.shown then {s.popper.value} else {})
            && (s.timers == map[] ==> (s.shown && s.attached <==> s.active != {} && !Stuck(s)))
  {
    RunReaches(d, INITIAL, events);
    var s := Run(d, INITIAL, events);
    assert |{s.timeout}| == 1;
    SubsetSize(s.timers.Keys, {s.timeout});
  }

  lemma SubsetSize<T>(a: set<T>, b: set<T>)
    requires a <= b
    ensures |a| <= |b|
  {
    assert b == a + (b - a);
  }

  /** In a run that never disables the tooltip, visibility follows the triggers. */
  lemma VisibleIffActive(d: Delays, events: seq<Event>)
    requires Disable !in events
    ensures AlwaysFaithful(d, INITIAL, events)
  {
    EnabledIgnoresNothing(d, INITIAL, events);
    FaithfulIffNothingIgnored(d, INITIAL, events);
  }

  lemma {:induction false} EnabledIgnoresNothing(d: Delays, s: State, events: seq<Event>)
    requires Consistent(s) && s.enabled && Disable !in events
    ensures NothingIgnored(d, s, events)
    decreases |events|
  {
    if events != [] {
      StepConsistent(d, s, events[0]);
      EnabledIgnoresNothing(d, Step(d, s, events[0]), events[1..]);
    }
  }

  /** While triggers stay active, a stuck tooltip shows nothing. */
  ghost predicate StaysActive(d: Delays, s: State, events: seq<Event>)
    decreases |events|
  {
    s.active != {} && (events != [] ==> StaysActive(d, Step(d, s, events[0]), events[1..]))
  }

  lemma {:induction false} StuckWhileActive(d: Delays, s: State, events: seq<Event>)
    requires Stuck(s) && StaysActive(d, s, events)
    ensures Stuck(Run(d, s, events)) && !Run(d, s, events).shown
    decreases |events|
  {
    if events != [] {
      StuckUntilLeft(d, s, events[0]);
      StuckWhileActive(d, Step(d, s, events[0]), events[1..]);
    }
  }

  /**
   * The tooltip settles: letting the pending timer fire leaves none, so the visibility follows the
   * triggers as they were, except that a hide clears them.
   */
  lemma FiringSettles(d: Delays, s: State)
    requires Consistent(s) && s.enabled
    ensures Step(d, s, Fire(s.timeout)).timers == map[]
    ensures Step(d, s, Fire(s.timeout)).active == s.active
    ensures Step(d, s, Fire(s.timeout)).shown <==> s.active != {}
  {
    if s.timeout in s.timers {
      FireConsistent(d, s);
    } else {
      assert s.timers == map[];
    }
  }

  /** Two ways to get stuck: entering while disabled, or being disabled before a delayed show. */
  function StickingRun(d: Delays): seq<Event> {
    if d.show == 0 then [Disable, MouseEnter, Enable] else [MouseEnter, Disable, Fire(1), Enable]
  }

  /** So for all delays there is a run that leaves an enabled tooltip stuck, and a further trigger does not help. */
  lemma DisabledEnterSticks(d: Delays)
    ensures var s := Run(d, INITIAL, StickingRun(d));
            && s.enabled && s.active == {Hover} && Stuck(s)
            && Stuck(Step(d, s, FocusIn)) && Step(d, s, FocusIn).active == {Hover, Focus}
  {
    if d.show == 0 {
      var s1 := Step(d, INITIAL, Disable);
      var s2 := Step(d, s1, MouseEnter);
      RunStep(d, INITIAL, Disable, [MouseEnter, Enable]);
      RunStep(d, s1, MouseEnter, [Enable]);
      RunStep(d, s2, Enable, []);
      assert s2.timers == map[];
    } else {
      var s1 := Step(d, INITIAL, MouseEnter);
      var s2 := Step(d, s1, Disable);
      var s3 := Step(d, s2, Fire(1));
      assert INITIAL.timers - {0} == map[];
      assert s1.timers == map[1 := ShowLater];
      RunStep(d, INITIAL, MouseEnter, [Disable, Fire(1), Enable]);
      RunStep(d, s1, Disable, [Fire(1), Enable]);
      RunStep(d, s2, Fire(1), [Enable]);
      RunStep(d, s3, Enable, []);
      assert s3.timers == map[];
    }
    var s := Run(d, INITIAL, StickingRun(d));
    StuckUntilLeft(d, s, FocusIn);
  }

  lemma RunStep(d: Delays, s: State, e: Event, rest: seq<Event>)
    ensures Run(d, s, [e] + rest) == Run(d, Step(d, s, e), rest)
  {
    assert ([e] + rest)[1..] == rest;
  }

  // ---------------------------------------------------------------- The triggers, read from the events

  /** Whether the last of enabling and disabling was enabling; a tooltip starts enabled. */
  function IsOn(events: seq<Event>): bool {
    if events == [] then true
    else
      match events[|events| - 1]
      case Enable => true
      case Disable => false
      case _ => IsOn(events[..|events| - 1])
  }

  /**
   * The triggers that have been entered and not left since a closing modal: the pointer holds `Hover`,
   * the focus `Focus`, and a click on an enabled tooltip takes or gives back `Click`.
   */
  function Held(events: seq<Event>): set<Trigger> {
    if events == [] then {}
    else
      var before := Held(events[..|events| - 1]);
      match events[|events| - 1]
      case MouseEnter => before + {Hover}
      case MouseLeave => before - {Hover}
      case FocusIn => before + {Focus}
      case FocusOut => before - {Focus}
      case ClickOn =>
        if !IsOn(events[..|events| - 1]) then before
        else if Click in before then before - {Click}
        else before + {Click}
      case CloseModal => {}
      case Fire(_) => before
      case Enable => before
      case Disable => before
  }

  /** What one event does to the triggers. */
  lemma StepHolds(d: Delays, s: State, events: seq<Event>, e: Event)
    requires (Consistent(s) || Stuck(s)) && s.active == Held(events) && s.enabled == IsOn(events)
    ensures Step(d, s, e).active == Held(events + [e]) && Step(d, s, e).enabled == IsOn(events + [e])
  {
    assert (events + [e])[..|events|] == events;
    match e {
      case Fire(id) =>
        if id in s.timers {
          assert s.timers[id] in s.timers.Values;
        }
      case _ =>
    }
  }

  lemma {:induction false} RunStepsBack(d: Delays, s: State, events: seq<Event>, e: Event)
    ensures Run(d, s, events + [e]) == Step(d, Run(d, s, events), e)
    decreases |events|
  {
    if events == [] {
      assert [] + [e] == [e] && [e][1..] == [];
      assert Run(d, Step(d, s, e), []) == Step(d, s, e);
    } else {
      assert (events + [e])[1..] == events[1..] + [e] && (events + [e])[0] == events[0];
      RunStepsBack(d, Step(d, s, events[0]), events[1..], e);
    }
  }

  /** In every run the active triggers are those held. */
  lemma {:induction false} ActiveIsHeld(d: Delays, events: seq<Event>)
    ensures Run(d, INITIAL, events).active == Held(events) && Run(d, INITIAL, events).enabled == IsOn(events)
  {
    if events != [] {
      var front, e := events[..|events| - 1], events[|events| - 1];
      assert events == front + [e];
      ActiveIsHeld(d, front);
      RunReaches(d, INITIAL, front);
      RunStepsBack(d, INITIAL, front, e);
      StepHolds(d, Run(d, INITIAL, front), front, e);
    }
  }

  lemma {:induction false} FaithfulAtEnd(d: Delays, s: State, events: seq<Event>)
    requires AlwaysFaithful(d, s, events)
    ensures Faithful(Run(d, s, events))
    decreases |events|
  {
    if events != [] {
      FaithfulAtEnd(d, Step(d, s, events[0]), events[1..]);
    }
  }

  /**
   * In a run that never disables the tooltip: once no timer is pending the tip is visible if and only
   * if some trigger has been entered and not left.
   */
  lemma VisibleIffHeld(d: Delays, events: seq<Event>)
    requires Disable !in events
    ensures var s := Run(d, INITIAL, events);
            s.timers == map[] ==> (s.shown && s.attached <==> Held(events) != {})
  {
    VisibleIffActive(d, events);
    FaithfulAtEnd(d, INITIAL, events);
    ActiveIsHeld(d, events);
  }

  // ---------------------------------------------------------------- Delays

  /** A closing modal hides the tip at once. */
  lemma ClosingHides(d: Delays, s: State)
    ensures !Step(d, s, CloseModal).shown && Step(d, s, CloseModal).active == {}
  {
  }

  /**
   * The leave that gives back the last trigger hides the tip at once without a delay; with one the
   * tip stays as it is until the one pending timer fires, and that hides it.
   */
  lemma LastLeaveHides(d: Delays, s: State, e: Event)
    requires Consistent(s) && (e == MouseLeave || e == FocusOut) && Step(d, s, e).active == {}
    ensures var r := Step(d, s, e);
            if d.hide == 0 then !r.shown && r.timers == map[]
            else
              && r.shown == s.shown && r.timers == map[r.timeout := HideLater]
              && !Step(d, r, Fire(r.timeout)).shown && Step(d, r, Fire(r.timeout)).timers == map[]
  {
    var t := s.(active := s.active - {if e == MouseLeave then Hover else Focus});
    ClearedTimers(t);
    var r := Step(d, s, e);
    assert t.active == {};
    if d.hide != 0 {
      assert r.timers == map[r.timeout := HideLater];
      assert r.timers - {r.timeout} == map[];
    }
  }

  /**
   * An enter that finds nothing shown or under way shows the tip at once without a delay; with one it
   * stays hidden until the one pending timer fires, and that shows it.
   */
  lemma FirstEnterShows(d: Delays, s: State, e: Event)
    requires Consistent(s) && s.enabled && (e == MouseEnter || e == FocusIn) && !s.shown && s.hoverState != Show
    ensures var r := Step(d, s, e);
            if d.show == 0 then r.shown && r.timers == map[]
            else
              && !r.shown && r.timers == map[r.timeout := ShowLater]
              && Step(d, r, Fire(r.timeout)).shown && Step(d, r, Fire(r.timeout)).timers == map[]
  {
    var t := s.(active := s.active + {if e == MouseEnter then Hover else Focus});
    ClearedTimers(t);
    var r := Step(d, s, e);
    if d.show != 0 {
      assert r.timers == map[r.timeout := ShowLater];
      assert r.timers - {r.timeout} == map[];
    }
  }

  /** Entering while a hide is under way keeps the tip: the pending timer then does nothing. */
  lemma EnterKeepsShown(d: Delays, s: State, e: Event, id: nat)
    requires Consistent(s) && s.shown && (e == MouseEnter || e == FocusIn)
    ensures Step(d, s, e).shown && Step(d, Step(d, s, e), Fire(id)).shown
  {
    var r := Step(d, s, e);
    if id in r.timers {
      assert r.timers[id] in r.timers.Values;
    }
  }

  /** Leaving before a delayed show gives it up: only a hide is pending then, or nothing. */
  lemma LeaveGivesUpShow(d: Delays, s: State, e: Event)
    requires Consistent(s) && !s.shown && (e == MouseLeave || e == FocusOut) && Step(d, s, e).active == {}
    ensures !Step(d, s, e).shown && ShowLater !in Step(d, s, e).timers.Values
  {
    LastLeaveHides(d, s, e);
  }
}
