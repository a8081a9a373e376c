/** Popper's event listeners: the climb through the scroll parents, enabling and disabling. */
module Listeners {
  import opened Optional

  type Id = nat

  /** A document, by number; 0 is the one the script runs in. */
  type DocId = nat

  /** What `getScrollParent` looks at: the node name, and for other elements whether `overflow` scrolls. */
  datatype Kind = Html | Body | DocumentNode | Plain(scrolls: bool)

  /**
   * A finite tree: `parent` maps a node to its parent node or shadow host, `depth` counts the
   * ancestors of a node. Every document has a body.
   */
  datatype Dom = Dom(parent: map<Id, Id>, depth: map<Id, nat>, kind: map<Id, Kind>, document: map<Id, DocId>,
                     body: map<DocId, Id>)

  ghost predicate IsTree(dom: Dom) {
    && dom.depth.Keys == dom.kind.Keys == dom.document.Keys
    && dom.parent.Keys <= dom.kind.Keys
    && (forall n <- dom.parent.Keys :: dom.parent[n] in dom.kind && dom.depth[dom.parent[n]] < dom.depth[n])
    && 0 in dom.body
    && (forall n <- dom.document.Keys :: dom.document[n] in dom.body)
    && (forall d <- dom.body.Keys ::
          && dom.body[d] in dom.kind && dom.kind[dom.body[d]] == Body
          && dom.document[dom.body[d]] == d)
  }

  /** Listeners sit on the window of a document or on an element. */
  datatype Target = Window(document: DocId) | Node(id: Id)

  datatype Listener = Resize(target: Target) | Scroll(target: Target)

  function ParentOf(dom: Dom, n: Id): Option<Id> {
    if n in dom.parent then Some(dom.parent[n]) else None
  }

  function Rank(dom: Dom, n: Option<Id>): nat {
    if n.Some? && n.value in dom.depth then dom.depth[n.value] + 1 else 0
  }

  /** `getScrollParent`: the climb ends at a scrolling element or at a body. */
  function ScrollParent(dom: Dom, n: Option<Id>): (r: Id)
    requires IsTree(dom) && (n.Some? ==> n.value in dom.kind)
    ensures r in dom.kind && (dom.kind[r] == Body || dom.kind[r] == Plain(true))
    ensures dom.kind[r] != Body ==> n.Some? && dom.depth[r] <= dom.depth[n.value]
    decreases Rank(dom, n)
  {
    match n
    case None => dom.body[0]
    case Some(id) =>
      match dom.kind[id]
      case Html => dom.body[dom.document[id]]
      case Body => dom.body[dom.document[id]]
      case DocumentNode => dom.body[dom.document[id]]
      case Plain(scrolls) => if scrolls then id else ScrollParent(dom, ParentOf(dom, id))
  }

  function TargetOf(dom: Dom, n: Id): Target
    requires IsTree(dom) && n in dom.kind
  {
    if dom.kind[n] == Body then Window(dom.document[n]) else Node(n)
  }

  /** What `attachToScrollParents` pushes: the outer targets first. */
  function ScrollTargets(dom: Dom, scrollParent: Id): seq<Target>
    requires IsTree(dom) && scrollParent in dom.kind
    decreases if dom.kind[scrollParent] == Body then 0 else dom.depth[scrollParent] + 1
  {
    if dom.kind[scrollParent] == Body then [TargetOf(dom, scrollParent)]
    else ScrollTargets(dom, ScrollParent(dom, ParentOf(dom, scrollParent))) + [TargetOf(dom, scrollParent)]
  }

  function Recorded(dom: Dom, reference: Id): seq<Target>
    requires IsTree(dom) && reference in dom.kind
  {
    ScrollTargets(dom, ScrollParent(dom, Some(reference)))
  }

  function ScrollListeners(targets: seq<Target>): set<Listener> {
    set t <- targets :: Scroll(t)
  }

  function ResizeListener(dom: Dom, reference: Id): Listener
    requires IsTree(dom) && reference in dom.kind
  {
    Resize(Window(dom.document[reference]))
  }

  // ---------------------------------------------------------------- The climb, by its definition

  /** The node and its ancestors, from the inside out, as far as the html, body or document node. */
  function Chain(dom: Dom, n: Option<Id>): seq<Id>
    requires IsTree(dom) && (n.Some? ==> n.value in dom.kind)
    decreases Rank(dom, n)
  {
    if n.None? || !dom.kind[n.value].Plain? then [] else [n.value] + Chain(dom, ParentOf(dom, n.value))
  }

  /** The document whose window ends the chain: that of the node where it stops, or the script's own. */
  function ChainDocument(dom: Dom, n: Option<Id>): DocId
    requires IsTree(dom) && (n.Some? ==> n.value in dom.kind)
    decreases Rank(dom, n)
  {
    if n.None? then 0
    else if dom.kind[n.value].Plain? then ChainDocument(dom, ParentOf(dom, n.value))
    else dom.document[n.value]
  }

  /** The scrolling elements of a chain, outermost first. */
  function Scrolling(dom: Dom, chain: seq<Id>): seq<Target>
    requires forall n <- chain :: n in dom.kind
  {
    if chain == [] then []
    else Scrolling(dom, chain[1..]) + if dom.kind[chain[0]] == Plain(true) then [Node(chain[0])] else []
  }

  lemma {:induction false} ChainIsKnown(dom: Dom, n: Option<Id>)
    requires IsTree(dom) && (n.Some? ==> n.value in dom.kind)
    ensures forall c <- Chain(dom, n) :: c in dom.kind && n.Some? && dom.depth[c] <= dom.depth[n.value]
    decreases Rank(dom, n)
  {
    if n.Some? && dom.kind[n.value].Plain? {
      ChainIsKnown(dom, ParentOf(dom, n.value));
    }
  }

  /**
   * The recorded targets are the window and then every scrolling ancestor of the reference (itself
   * included), outermost first.
   */
  lemma {:induction false} ClimbRecordsScrollingAncestors(dom: Dom, n: Option<Id>)
    requires IsTree(dom) && (n.Some? ==> n.value in dom.kind)
    ensures forall c <- Chain(dom, n) :: c in dom.kind
    ensures ScrollTargets(dom, ScrollParent(dom, n)) == [Window(ChainDocument(dom, n))] + Scrolling(dom, Chain(dom, n))
    decreases Rank(dom, n)
  {
    ChainIsKnown(dom, n);
    if n.Some? && dom.kind[n.value].Plain? {
      var up := ParentOf(dom, n.value);
      ClimbRecordsScrollingAncestors(dom, up);
      assert Chain(dom, n)[1..] == Chain(dom, up);
      assert Scrolling(dom, Chain(dom, up)) + [] == Scrolling(dom, Chain(dom, up));
      assert [Window(ChainDocument(dom, up))] + Scrolling(dom, Chain(dom, up)) + [Node(n.value)]
          == [Window(ChainDocument(dom, up))] + (Scrolling(dom, Chain(dom, up)) + [Node(n.value)]);
    }
  }

  ghost predicate Distinct(targets: seq<Target>) {
    forall i, j :: 0 <= i < j < |targets| ==> targets[i] != targets[j]
  }

  /** No target is recorded twice. */
  lemma {:induction false} ScrollTargetsDistinct(dom: Dom, n: Id)
    requires IsTree(dom) && n in dom.kind
    ensures Distinct(ScrollTargets(dom, n))
    ensures dom.kind[n] != Body ==>
              forall t <- ScrollTargets(dom, n) :: t.Node? ==> t.id in dom.kind && dom.depth[t.id] <= dom.depth[n]
    ensures dom.kind[n] == Body ==> forall t <- ScrollTargets(dom, n) :: t.Window?
    decreases if dom.kind[n] == Body then 0 else dom.depth[n] + 1
  {
    if dom.kind[n] != Body {
      ScrollTargetsDistinct(dom, ScrollParent(dom, ParentOf(dom, n)));
    }
  }

  // ---------------------------------------------------------------- The popper's state

  datatype State = State(eventsEnabled: bool, scrollParents: seq<Target>, installed: set<Listener>)

  const INITIAL := State(false, [], {})

  function EnableNow(s: State, dom: Dom, reference: Id): State
    requires IsTree(dom) && reference in dom.kind
  {
    if s.eventsEnabled then s
    else
      var targets := Recorded(dom, reference);
      State(true, s.scrollParents + targets, s.installed + {ResizeListener(dom, reference)} + ScrollListeners(targets))
  }

  function DisableNow(s: State, dom: Dom, reference: Id): State
    requires IsTree(dom) && reference in dom.kind
  {
    if !s.eventsEnabled then s
    else State(false, [], s.installed - {ResizeListener(dom, reference)} - ScrollListeners(s.scrollParents))
  }

  class Popper {
    const reference: Id
    var eventsEnabled: bool
    var isDestroyed: bool
    var scrollParents: seq<Target>
    /** The listeners of this popper on all targets; adding one twice has no effect. */
    var installed: set<Listener>

    function Value(): State
      reads this
    {
      State(eventsEnabled, scrollParents, installed)
    }

    constructor (reference: Id)
      ensures Value() == INITIAL && this.reference == reference && !isDestroyed
    {
      this.reference := reference;
      eventsEnabled, isDestroyed, scrollParents, installed := false, false, [], {};
    }

    method AttachToScrollParents(dom: Dom, scrollParent: Id)
      requires IsTree(dom) && scrollParent in dom.kind
      requires dom.kind[scrollParent] == Body || dom.kind[scrollParent] == Plain(true)
      modifies `scrollParents, `installed
      ensures scrollParents == old(scrollParents) + ScrollTargets(dom, scrollParent)
      ensures installed == old(installed) + ScrollListeners(ScrollTargets(dom, scrollParent))
      decreases if dom.kind[scrollParent] == Body then 0 else dom.depth[scrollParent] + 1
    {
      var isBody := dom.kind[scrollParent] == Body;
      var target := TargetOf(dom, scrollParent);
      installed := installed + {Scroll(target)};
      if !isBody {
        AttachToScrollParents(dom, ScrollParent(dom, ParentOf(dom, scrollParent)));
      }
      scrollParents := scrollParents + [target];
    }

    method EnableEventListeners(dom: Dom)
      requires IsTree(dom) && reference in dom.kind
      modifies this
      ensures Value() == EnableNow(old(Value()), dom, reference) && isDestroyed == old(isDestroyed)
    {
      if !eventsEnabled {
        installed := installed + {ResizeListener(dom, reference)};
        AttachToScrollParents(dom, ScrollParent(dom, Some(reference)));
        eventsEnabled := true;
      }
    }

    method DisableEventListeners(dom: Dom)
      requires IsTree(dom) && reference in dom.kind
      modifies this
      ensures Value() == DisableNow(old(Value()), dom, reference) && isDestroyed == old(isDestroyed)
    {
      if eventsEnabled {
        installed := installed - {ResizeListener(dom, reference)};
        for i := 0 to |scrollParents|
          invariant eventsEnabled && scrollParents == old(scrollParents) && isDestroyed == old(isDestroyed)
          invariant installed == old(installed) - {ResizeListener(dom, reference)} - ScrollListeners(scrollParents[..i])
        {
          installed := installed - {Scroll(scrollParents[i])};
          assert scrollParents[..i + 1] == scrollParents[..i] + [scrollParents[i]];
        }
        assert scrollParents[..|scrollParents|] == scrollParents;
        scrollParents := [];
        eventsEnabled := false;
      }
    }

    method Destroy(dom: Dom)
      requires IsTree(dom) && reference in dom.kind
      modifies this
      ensures Value() == DisableNow(old(Value()), dom, reference) && isDestroyed
    {
      isDestroyed := true;
      DisableEventListeners(dom);
    }
  }

  // ---------------------------------------------------------------- All runs

  /** One call, with the page as it is at that moment; `destroy` disables too. */
  datatype Call = Enable(dom: Dom) | Disable(dom: Dom)

  ghost predicate Possible(call: Call, reference: Id) {
    IsTree(call.dom) && reference in call.dom.kind
  }

  ghost predicate AllPossible(calls: seq<Call>, reference: Id) {
    forall i :: 0 <= i < |calls| ==> Possible(calls[i], reference)
  }

  function Step(s: State, call: Call, reference: Id): State
    requires Possible(call, reference)
  {
    match call
    case Enable(dom) => EnableNow(s, dom, reference)
    case Disable(dom) => DisableNow(s, dom, reference)
  }

  function Run(s: State, calls: seq<Call>, reference: Id): State
    requires AllPossible(calls, reference)
    decreases |calls|
  {
    if calls == [] then s else Run(Step(s, calls[0], reference), calls[1..], reference)
  }

  /** The installed listeners are exactly those recorded, plus the resize listener on `window`. */
  ghost predicate Consistent(s: State, window: DocId) {
    if s.eventsEnabled then s.installed == {Resize(Window(window))} + ScrollListeners(s.scrollParents)
    else s.scrollParents == [] && s.installed == {}
  }

  /** The reference stays in one document, however the tree around it changes. */
  ghost predicate StaysIn(calls: seq<Call>, reference: Id, window: DocId)
    requires AllPossible(calls, reference)
  {
    forall i :: 0 <= i < |calls| ==> reference in calls[i].dom.document && calls[i].dom.document[reference] == window
  }

  /** Over all runs: listeners are those recorded in the state, and none are left when it is disabled. */
  lemma {:induction false} ListenersAreRecorded(s: State, calls: seq<Call>, reference: Id, window: DocId)
    requires AllPossible(calls, reference) && StaysIn(calls, reference, window) && Consistent(s, window)
    ensures Consistent(Run(s, calls, reference), window)
    decreases |calls|
  {
    if calls != [] {
      var call := calls[0];
      assert Possible(call, reference);
      var s' := Step(s, call, reference);
      assert Consistent(s', window);
      forall i | 0 <= i < |calls[1..]|
        ensures Possible(calls[1..][i], reference)
      {
        assert calls[1..][i] == calls[i + 1];
      }
      ListenersAreRecorded(s', calls[1..], reference, window);
    }
  }

  /**
   * The window is looked up again on disabling. So disabling leaves no listener if and only if the
   * reference is still in the document in which it was when the listeners were enabled; otherwise it
   * leaves the resize listener on the old window.
   */
  lemma DisableRemovesAllIffSameWindow(s: State, window: DocId, dom: Dom, reference: Id)
    requires Consistent(s, window) && s.eventsEnabled && IsTree(dom) && reference in dom.kind
    ensures DisableNow(s, dom, reference).installed == {} <==> dom.document[reference] == window
    ensures dom.document[reference] != window ==> DisableNow(s, dom, reference).installed == {Resize(Window(window))}
  {
    var left := DisableNow(s, dom, reference).installed;
    if dom.document[reference] != window {
      assert Resize(Window(window)) in left;
    }
  }

  /** Enabling then disabling is the identity on a disabled popper, even if the tree changed in between. */
  lemma DisableUndoesEnable(dom: Dom, later: Dom, reference: Id)
    requires IsTree(dom) && reference in dom.kind && IsTree(later) && reference in later.kind
    requires dom.document[reference] == later.document[reference]
    ensures DisableNow(EnableNow(INITIAL, dom, reference), later, reference) == INITIAL
  {
    assert [] + Recorded(dom, reference) == Recorded(dom, reference);
  }

  /** `n` is `from` or an ancestor of it that is reached before any html, body or document node. */
  ghost predicate Above(dom: Dom, n: Id, from: Id)
    requires IsTree(dom) && from in dom.kind
    decreases dom.depth[from]
  {
    dom.kind[from].Plain? && (n == from || (from in dom.parent && Above(dom, n, dom.parent[from])))
  }

  lemma {:induction false} ChainIsAbove(dom: Dom, from: Id, n: Id)
    requires IsTree(dom) && from in dom.kind
    ensures n in Chain(dom, Some(from)) <==> Above(dom, n, from)
    decreases dom.depth[from]
  {
    if dom.kind[from].Plain? && from in dom.parent {
      ChainIsAbove(dom, dom.parent[from], n);
    }
  }

  lemma {:induction false} ScrollingMembers(dom: Dom, chain: seq<Id>, n: Id)
    requires forall c <- chain :: c in dom.kind
    ensures Node(n) in Scrolling(dom, chain) <==> n in chain && dom.kind[n] == Plain(true)
    ensures forall t <- Scrolling(dom, chain) :: t.Node?
  {
    if chain != [] {
      ScrollingMembers(dom, chain[1..], n);
    }
  }

  /** Enabling a disabled popper records the window at which the climb ends and the scrolling elements below it. */
  lemma EnablingRecords(dom: Dom, reference: Id)
    requires IsTree(dom) && reference in dom.kind
    ensures forall c <- Chain(dom, Some(reference)) :: c in dom.kind
    ensures var s := EnableNow(INITIAL, dom, reference);
            && s.eventsEnabled
            && s.scrollParents == [Window(ChainDocument(dom, Some(reference)))]
                                  + Scrolling(dom, Chain(dom, Some(reference)))
            && s.installed == {Resize(Window(dom.document[reference]))} + ScrollListeners(s.scrollParents)
  {
    ClimbRecordsScrollingAncestors(dom, Some(reference));
    assert [] + Recorded(dom, reference) == Recorded(dom, reference);
  }

  /** The recorded elements are the reference and its ancestors up to that window, as far as they scroll. */
  lemma ScrollingAbove(dom: Dom, reference: Id, n: Id)
    requires IsTree(dom) && reference in dom.kind
    ensures forall c <- Chain(dom, Some(reference)) :: c in dom.kind
    ensures Node(n) in Scrolling(dom, Chain(dom, Some(reference)))
            <==> Above(dom, n, reference) && n in dom.kind && dom.kind[n] == Plain(true)
  {
    ChainIsKnown(dom, Some(reference));
    ChainIsAbove(dom, reference, n);
    ScrollingMembers(dom, Chain(dom, Some(reference)), n);
  }

  lemma ListenersOf(window: DocId, end: DocId, nodes: seq<Target>, listener: Listener)
    requires forall t <- nodes :: t.Node?
    ensures listener in {Resize(Window(window))} + ScrollListeners([Window(end)] + nodes) <==>
              if listener.Resize? then listener.target == Window(window)
              else if listener.target.Window? then listener.target.document == end
              else listener.target in nodes
  {
    assert forall t :: t in [Window(end)] + nodes <==> t == Window(end) || t in nodes;
  }

  /**
   * So these listeners are installed and no others: resize on the window of the reference, and scroll
   * on the window at which the climb ends and on every scrolling element that is the reference or an
   * ancestor below that point.
   */
  lemma EnablingInstalls(dom: Dom, reference: Id, listener: Listener)
    requires IsTree(dom) && reference in dom.kind
    ensures listener in EnableNow(INITIAL, dom, reference).installed <==>
              if listener.Resize? then listener.target == Window(dom.document[reference])
              else if listener.target.Window? then listener.target.document == ChainDocument(dom, Some(reference))
              else
                var n := listener.target.id;
                Above(dom, n, reference) && n in dom.kind && dom.kind[n] == Plain(true)
  {
    EnablingRecords(dom, reference);
    ScrollingMembers(dom, Chain(dom, Some(reference)), 0);
    ListenersOf(dom.document[reference], ChainDocument(dom, Some(reference)),
                Scrolling(dom, Chain(dom, Some(reference))), listener);
    if listener.Scroll? && listener.target.Node? {
      ScrollingAbove(dom, reference, listener.target.id);
    }
  }

  /** Enabling twice is enabling once, and disabling a disabled popper does nothing, whatever the page is by then. */
  lemma CallsAreIdempotent(s: State, dom: Dom, later: Dom, reference: Id)
    requires IsTree(dom) && reference in dom.kind && IsTree(later) && reference in later.kind
    ensures EnableNow(EnableNow(s, dom, reference), later, reference) == EnableNow(s, dom, reference)
    ensures DisableNow(DisableNow(s, dom, reference), later, reference) == DisableNow(s, dom, reference)
  {
  }

  /** `n` is an html, body or document node, and `from` itself or an ancestor of it. */
  ghost predicate IsAttachedAt(dom: Dom, from: Id, n: Id)
    requires IsTree(dom) && from in dom.kind
    decreases dom.depth[from]
  {
    if dom.kind[from].Plain? then from in dom.parent && IsAttachedAt(dom, dom.parent[from], n)
    else n == from
  }

  /**
   * If every parent is in the document of its child, the climb ends at the window of the document in
   * which the reference is; for a reference that is attached to no document, at the script's own.
   */
  lemma {:induction false} ClimbEndsInDocument(dom: Dom, from: Id)
    requires IsTree(dom) && from in dom.kind
    requires forall n <- dom.parent.Keys :: dom.document[dom.parent[n]] == dom.document[n]
    ensures ChainDocument(dom, Some(from)) ==
              if exists n <- dom.kind.Keys :: IsAttachedAt(dom, from, n) then dom.document[from] else 0
    decreases dom.depth[from]
  {
    if !dom.kind[from].Plain? {
      assert IsAttachedAt(dom, from, from);
    } else if from in dom.parent {
      ClimbEndsInDocument(dom, dom.parent[from]);
      assert forall n :: IsAttachedAt(dom, from, n) <==> IsAttachedAt(dom, dom.parent[from], n);
    }
  }

  // ---------------------------------------------------------------- A listener left behind

  /** Two documents with a body each, 1 and 2; the reference is node 3 under the body of document `d`. */
  function TwoDocuments(d: DocId): Dom
    requires d < 2
  {
    Dom(map[3 := d + 1], map[1 := 0, 2 := 0, 3 := 1], map[1 := Body, 2 := Body, 3 := Plain(false)],
        map[1 := 0, 2 := 1, 3 := d], map[0 := 1, 1 := 2])
  }

  lemma TwoDocumentsAreTree(d: DocId)
    requires d < 2
    ensures IsTree(TwoDocuments(d)) && 3 in TwoDocuments(d).kind
  {
  }

  lemma EnabledIsConsistent(dom: Dom, reference: Id)
    requires IsTree(dom) && reference in dom.kind
    ensures EnableNow(INITIAL, dom, reference).eventsEnabled
    ensures Consistent(EnableNow(INITIAL, dom, reference), dom.document[reference])
  {
    assert [] + Recorded(dom, reference) == Recorded(dom, reference);
  }

  /** Enabling, moving the reference to another document and disabling leaves the first window's listener. */
  lemma MovingLeavesListener(before: Dom, after: Dom, reference: Id)
    requires Possible(Enable(before), reference) && Possible(Disable(after), reference)
    requires before.document[reference] != after.document[reference]
    ensures AllPossible([Enable(before), Disable(after)], reference)
    ensures var s := Run(INITIAL, [Enable(before), Disable(after)], reference);
            !s.eventsEnabled && s.installed == {Resize(Window(before.document[reference]))}
  {
    var s1, window := EnableNow(INITIAL, before, reference), before.document[reference];
    EnabledIsConsistent(before, reference);
    DisableRemovesAllIffSameWindow(s1, window, after, reference);
    RunTwo(INITIAL, Enable(before), Disable(after), reference);
  }

  /** Such a move: from document 0 to document 1. */
  lemma ListenerIsLeftBehind()
    ensures AllPossible([Enable(TwoDocuments(0)), Disable(TwoDocuments(1))], 3)
    ensures var s := Run(INITIAL, [Enable(TwoDocuments(0)), Disable(TwoDocuments(1))], 3);
            !s.eventsEnabled && s.installed == {Resize(Window(0))}
  {
    TwoDocumentsAreTree(0);
    TwoDocumentsAreTree(1);
    MovingLeavesListener(TwoDocuments(0), TwoDocuments(1), 3);
  }

  lemma RunTwo(s: State, a: Call, b: Call, reference: Id)
    requires Possible(a, reference) && Possible(b, reference)
    ensures AllPossible([a, b], reference)
    ensures Run(s, [a, b], reference) == Step(Step(s, a, reference), b, reference)
  {
    assert [a, b][1..] == [b] && [b][1..] == [];
    assert Run(Step(s, a, reference), [b], reference) == Run(Step(Step(s, a, reference), b, reference), [], reference);
  }
}
