/** `emulateTransitionEnd`: one-shot completions on one element, native events and emulation timers. */
module TransitionEnd {

  /** A one-shot handler: the completion of transition `id`, or the flag its emulation keeps. */
  datatype Handler = Complete(id: nat) | SetCalled(id: nat)

  /**
   * `handlers` are bound to the element, `queue` is what a dispatch in progress has still to run,
   * `ran` lists the completions in the order they ran.
   */
  datatype State = State(
    registered: nat,
    handlers: seq<Handler>,
    queue: seq<Handler>,
    called: set<nat>,
    timers: set<nat>,
    ran: seq<nat>)

  const INITIAL := State(0, [], [], {}, {}, [])

  /**
   * A transition starts (also from within a completion), the browser reports the end of one on the
   * element or on a descendant, the next handler of a dispatch runs, or an emulation timer fires.
   */
  datatype Event = Register | NativeEnd | BubbledEnd | RunNext | Fire(id: nat)

  function Without(s: seq<Handler>, h: Handler): seq<Handler> {
    if s == [] then [] else if s[0] == h then s[1..] else [s[0]] + Without(s[1..], h)
  }

  /** Events other than `Register` and `RunNext` wait until a dispatch in progress has ended. */
  function Step(s: State, e: Event): State {
    match e
    case Register =>
      var id := s.registered;
      s.(registered := id + 1, handlers := s.handlers + [Complete(id)] + [SetCalled(id)], timers := s.timers + {id})
    case NativeEnd => if s.queue == [] then s.(queue := s.handlers) else s
    case BubbledEnd => s
    case RunNext =>
      if s.queue == [] then s
      else
        var h := s.queue[0];
        var s' := s.(queue := s.queue[1..], handlers := Without(s.handlers, h));
        (match h
         case Complete(id) => s'.(ran := s.ran + [id])
         case SetCalled(id) => s'.(called := s.called + {id}))
    case Fire(id) =>
      if s.queue != [] || id !in s.timers then s
      else
        var s' := s.(timers := s.timers - {id});
        if id in s.called then s' else s'.(queue := s.handlers)
  }

  function Run(s: State, events: seq<Event>): State
    decreases |events|
  {
    if events == [] then s else Run(Step(s, events[0]), events[1..])
  }

  class Element {
    var registered: nat
    var handlers: seq<Handler>
    var queue: seq<Handler>
    var called: set<nat>
    var timers: set<nat>
    var ran: seq<nat>

    function Value(): State
      reads this
    {
      State(registered, handlers, queue, called, timers, ran)
    }

    constructor ()
      ensures Value() == INITIAL
    {
      registered, handlers, queue, called, timers, ran := 0, [], [], {}, {}, [];
    }

    /** `$(el).one(TRANSITION_END, complete).emulateTransitionEnd(duration)` */
    method Start()
      modifies this
      ensures Value() == Step(old(Value()), Register)
    {
      var id := registered;
      registered := registered + 1;
      handlers := handlers + [Complete(id)];
      handlers := handlers + [SetCalled(id)];
      timers := timers + {id};
    }

    /** The event is triggered on the element itself, by the browser or by an emulation. */
    method Trigger()
      requires queue == []
      modifies this
      ensures Value() == Step(old(Value()), NativeEnd)
    {
      queue := handlers;
    }

    method RunHandler()
      modifies this
      ensures Value() == Step(old(Value()), RunNext)
    {
      if queue == [] {
        return;
      }
      var h := queue[0];
      queue := queue[1..];
      handlers := Without(handlers, h);
      match h {
        case Complete(id) => ran := ran + [id];
        case SetCalled(id) => called := called + {id};
      }
    }

    method TimeOut(id: nat)
      modifies this
      ensures Value() == Step(old(Value()), Fire(id))
    {
      if queue != [] || id !in timers {
        return;
      }
      timers := timers - {id};
      if id !in called {
        Trigger();
      }
    }

    /** A whole dispatch: every handler bound when the event arrived runs, and no other. */
    method Dispatch()
      modifies this
      ensures queue == []
      ensures exists events: seq<Event> :: (forall e <- events :: e == RunNext) && Value() == Run(old(Value()), events)
    {
      ghost var events: seq<Event> := [];
      while queue != []
        invariant forall e <- events :: e == RunNext
        invariant Value() == Run(old(Value()), events)
        decreases |queue|
      {
        RunAppend(old(Value()), events, RunNext);
        RunHandler();
        events := events + [RunNext];
      }
    }
  }

  lemma {:induction false} RunAppend(s: State, events: seq<Event>, e: Event)
    ensures Run(s, events + [e]) == Step(Run(s, events), e)
    decreases |events|
  {
    if events == [] {
      assert [] + [e] == [e] && [e][1..] == [];
      assert Run(s, [e]) == Run(Step(s, e), []);
    } else {
      assert (events + [e])[1..] == events[1..] + [e];
      RunAppend(Step(s, events[0]), events[1..], e);
    }
  }

  // ---------------------------------------------------------------- Every handler, in the order of binding

  /** The `k`-th handler ever bound. */
  function Bound(k: nat): Handler {
    if k % 2 == 0 then Complete(k / 2) else SetCalled(k / 2)
  }

  function BoundFrom(from: nat, to: nat): (s: seq<Handler>)
    requires from <= to
    ensures |s| == to - from && forall k :: 0 <= k < |s| ==> s[k] == Bound(from + k)
  {
    seq(to - from, k requires 0 <= k < to - from => Bound(from + k))
  }

  function UpTo(n: nat): (s: seq<nat>)
    ensures |s| == n && forall k :: 0 <= k < n ==> s[k] == k
  {
    seq(n, k requires 0 <= k < n => k)
  }

  /**
   * The first `p` handlers ever bound have run, each once and in order; a dispatch in progress goes
   * up to handler `q`; a timer that has fired belongs to a transition that has ended, or ends in the
   * dispatch in progress.
   */
  ghost predicate Consistent(s: State, p: nat, q: nat) {
    && p <= q <= 2 * s.registered && q % 2 == 0
    && s.handlers == BoundFrom(p, 2 * s.registered)
    && s.queue == BoundFrom(p, q)
    && s.ran == UpTo((p + 1) / 2)
    && (forall i: nat :: i in s.called <==> 2 * i + 1 < p)
    && (forall i :: i in s.timers ==> i < s.registered)
    && (forall i: nat :: i < s.registered && i !in s.timers ==> 2 * i + 2 <= q)
  }

  lemma RegisterConsistent(s: State, p: nat, q: nat)
    requires Consistent(s, p, q)
    ensures Consistent(Step(s, Register), p, q)
  {
    var n := 2 * s.registered;
    assert Bound(n) == Complete(s.registered) && Bound(n + 1) == SetCalled(s.registered);
    assert BoundFrom(p, n + 2) == BoundFrom(p, n) + [Bound(n)] + [Bound(n + 1)];
  }

  lemma RunNextConsistent(s: State, p: nat, q: nat)
    requires Consistent(s, p, q) && s.queue != []
    ensures Consistent(Step(s, RunNext), p + 1, q)
  {
    var n := 2 * s.registered;
    assert s.handlers[0] == Bound(p) && s.queue[0] == Bound(p);
    assert s.handlers[1..] == BoundFrom(p + 1, n);
    assert s.queue[1..] == BoundFrom(p + 1, q);
    if p % 2 == 0 {
      assert UpTo((p + 2) / 2) == UpTo((p + 1) / 2) + [p / 2];
    }
  }

  lemma StepConsistent(s: State, p: nat, q: nat, e: Event) returns (p': nat, q': nat)
    requires Consistent(s, p, q)
    ensures Consistent(Step(s, e), p', q')
  {
    p', q' := p, q;
    match e {
      case Register => RegisterConsistent(s, p, q);
      case NativeEnd =>
        if s.queue == [] {
          q' := 2 * s.registered;
        }
      case BubbledEnd =>
      case RunNext =>
        if s.queue != [] {
          p' := p + 1;
          RunNextConsistent(s, p, q);
        }
      case Fire(id) =>
        if s.queue == [] && id in s.timers && id !in s.called {
          q' := 2 * s.registered;
        }
    }
  }

  lemma {:induction false} RunConsistent(s: State, p: nat, q: nat, events: seq<Event>) returns (p': nat, q': nat)
    requires Consistent(s, p, q)
    ensures Consistent(Run(s, events), p', q')
    decreases |events|
  {
    if events == [] {
      p', q' := p, q;
    } else {
      var p1, q1 := StepConsistent(s, p, q, events[0]);
      p', q' := RunConsistent(Step(s, events[0]), p1, q1, events[1..]);
    }
  }

  /**
   * Over all runs, with any number of overlapping transitions and transitions started from
   * completions: the completions run in the order of registration and never twice, the completion of
   * a transition has run when its own timer has fired and the dispatch is over, and once no timer is
   * pending every completion has run exactly once.
   */
  lemma {:induction false} ExactlyOnce(events: seq<Event>)
    ensures var s := Run(INITIAL, events);
            && s.ran == UpTo(|s.ran|) && |s.ran| <= s.registered
            && (s.queue == [] ==> forall i: nat :: i < s.registered && i !in s.timers ==> i in s.ran)
            && (s.queue == [] && s.timers == {} ==> s.ran == UpTo(s.registered))
  {
    assert BoundFrom(0, 0) == [] && UpTo(0) == [];
    var p, q := RunConsistent(INITIAL, 0, 0, events);
    var s := Run(INITIAL, events);
    if s.queue == [] {
      forall i: nat | i < s.registered && i !in s.timers
        ensures i in s.ran
      {
        assert s.ran[i] == i;
      }
      if s.timers == {} && s.registered > 0 {
        assert s.registered - 1 !in s.timers;
      }
    }
  }

  // ---------------------------------------------------------------- What each end of a transition brings about

  function Nexts(n: nat): seq<Event> {
    if n == 0 then [] else [RunNext] + Nexts(n - 1)
  }

  lemma {:induction false} QueueRunsOut(s: State, p: nat, q: nat)
    requires Consistent(s, p, q)
    ensures Consistent(Run(s, Nexts(q - p)), q, q) && Run(s, Nexts(q - p)).registered == s.registered
    decreases q - p
  {
    if p < q {
      RunNextConsistent(s, p, q);
      QueueRunsOut(Step(s, RunNext), p + 1, q);
      assert Nexts(q - p)[1..] == Nexts(q - p - 1);
    }
  }

  /** `s` has started to run all the handlers that are bound. */
  lemma AllComplete(s: State, p: nat)
    requires Consistent(s, p, 2 * s.registered)
    ensures Run(s, Nexts(|s.handlers|)).ran == UpTo(s.registered)
  {
    QueueRunsOut(s, p, 2 * s.registered);
  }

  /**
   * When the browser reports the end of a transition on the element, every completion registered by
   * then runs in the dispatch that follows; the end of one on a descendant completes nothing.
   */
  lemma NativeEndCompletes(events: seq<Event>)
    ensures var s := Run(INITIAL, events);
            && Step(s, BubbledEnd) == s
            && (s.queue == [] ==> Run(Step(s, NativeEnd), Nexts(|s.handlers|)).ran == UpTo(s.registered))
  {
    assert BoundFrom(0, 0) == [] && UpTo(0) == [];
    var p, q := RunConsistent(INITIAL, 0, 0, events);
    var s := Run(INITIAL, events);
    if s.queue == [] {
      AllComplete(Step(s, NativeEnd), p);
    }
  }

  lemma UpToHolds(n: nat, k: nat)
    ensures k in UpTo(n) <==> k < n
  {
    assert k < n ==> UpTo(n)[k] == k;
  }

  /**
   * A timer that fires after its own transition has ended does nothing; otherwise it stands in for
   * the event, and every completion registered by then runs.
   */
  lemma TimerCompletesUnlessCalled(events: seq<Event>, id: nat)
    requires Run(INITIAL, events).queue == [] && id in Run(INITIAL, events).timers
    ensures var s := Run(INITIAL, events);
            if id in s.ran then Step(s, Fire(id)) == s.(timers := s.timers - {id})
            else Run(Step(s, Fire(id)), Nexts(|s.handlers|)).ran == UpTo(s.registered)
  {
    assert BoundFrom(0, 0) == [] && UpTo(0) == [];
    var p, q := RunConsistent(INITIAL, 0, 0, events);
    var s := Run(INITIAL, events);
    if id in s.ran {
      assert 2 * id + 1 < p;
    } else {
      UpToHolds((p + 1) / 2, id);
      AllComplete(Step(s, Fire(id)), p);
    }
  }
}
