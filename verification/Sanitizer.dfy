/** `sanitizeHtml`: a loop over a snapshot of the document that removes nodes and attributes as it goes. */
module Sanitizer {

  // ---------------------------------------------------------------- Policy

  datatype Attribute = Attribute(name: string, value: string)

  /** An entry of a whitelist: a name, or a pattern for names. */
  datatype Rule = Exact(name: string) | Pattern(matches: string -> bool)

  /**
   * The whitelist by element name (`*` for all), and the two patterns for the values of URL attributes
   * as one; `lower` is `toLowerCase` with whatever the runtime folds.
   */
  datatype Policy = Policy(whiteList: map<string, seq<Rule>>, isSafeUrl: string -> bool, lower: string -> string)

  const URI_ATTRIBUTES: seq<string> :=
    ["background", "cite", "href", "itemtype", "longdesc", "poster", "src", "xlink:href"]

  function RulesFor(policy: Policy, key: string): seq<Rule> {
    if key in policy.whiteList then policy.whiteList[key] else []
  }

  function RulesOf(policy: Policy, element: string): seq<Rule> {
    RulesFor(policy, "*") + RulesFor(policy, policy.lower(element))
  }

  ghost predicate Names(rules: seq<Rule>, name: string) {
    exists i :: 0 <= i < |rules| && rules[i].Exact? && rules[i].name == name
  }

  ghost predicate Matches(rules: seq<Rule>, name: string) {
    exists i :: 0 <= i < |rules| && rules[i].Pattern? && rules[i].matches(name)
  }

  /** A name listed outright decides, a URL attribute by its value; otherwise a pattern may allow it. */
  ghost predicate Allowed(policy: Policy, attribute: Attribute, rules: seq<Rule>) {
    var name := policy.lower(attribute.name);
    if Names(rules, name) then name in URI_ATTRIBUTES ==> policy.isSafeUrl(attribute.value)
    else Matches(rules, name)
  }

  method AllowedAttribute(policy: Policy, attribute: Attribute, rules: seq<Rule>) returns (allowed: bool)
    ensures allowed == Allowed(policy, attribute, rules)
  {
    var name := policy.lower(attribute.name);
    var listed := false;
    for i := 0 to |rules|
      invariant listed <==> exists j :: 0 <= j < i && rules[j].Exact? && rules[j].name == name
    {
      if rules[i].Exact? && rules[i].name == name {
        listed := true;
      }
    }
    if listed {
      return name !in URI_ATTRIBUTES || policy.isSafeUrl(attribute.value);
    }
    for i := 0 to |rules|
      invariant forall j :: 0 <= j < i ==> !(rules[j].Pattern? && rules[j].matches(name))
    {
      if rules[i].Pattern? && rules[i].matches(name) {
        return true;
      }
    }
    return false;
  }

  // ---------------------------------------------------------------- Trees

  type Id = nat

  /** A node of the parsed document; `Leaf` is a text or a comment, which `*` does not select. */
  datatype Node =
    | Leaf(id: Id, content: string)
    | Element(id: Id, name: string, attributes: seq<Attribute>, children: seq<Node>)

  predicate Listed(policy: Policy, name: string) {
    policy.lower(name) in policy.whiteList.Keys
  }

  /** An element that the loop removes. */
  predicate Bad(policy: Policy, n: Node) {
    n.Element? && !Listed(policy, n.name)
  }

  /** All nodes of the forest in document order. */
  function Preorder(ts: seq<Node>): seq<Node> {
    if ts == [] then []
    else [ts[0]] + (if ts[0].Element? then Preorder(ts[0].children) else []) + Preorder(ts[1..])
  }

  function Ids(ts: seq<Node>): (ids: seq<Id>)
    ensures |ids| == |ts|
    ensures forall i :: 0 <= i < |ts| ==> ids[i] == ts[i].id
  {
    seq(|ts|, i requires 0 <= i < |ts| => ts[i].id)
  }

  ghost predicate Unique(ids: seq<Id>) {
    forall i, j :: 0 <= i < j < |ids| ==> ids[i] != ids[j]
  }

  // ---------------------------------------------------------------- The filter

  /** The allowed attributes, in order. */
  ghost function AllowedOnly(policy: Policy, attributes: seq<Attribute>, rules: seq<Rule>): seq<Attribute> {
    if attributes == [] then []
    else
      (if Allowed(policy, attributes[0], rules) then [attributes[0]] else [])
      + AllowedOnly(policy, attributes[1..], rules)
  }

  ghost function CleanAttributes(policy: Policy, n: Node): seq<Attribute>
    requires n.Element?
  {
    AllowedOnly(policy, n.attributes, RulesOf(policy, n.name))
  }

  /** The forest without unlisted elements (and what is below them) and without disallowed attributes. */
  ghost function Clean(policy: Policy, ts: seq<Node>): seq<Node> {
    if ts == [] then []
    else
      var rest := Clean(policy, ts[1..]);
      match ts[0]
      case Leaf(_, _) => [ts[0]] + rest
      case Element(id, name, attributes, children) =>
        if Bad(policy, ts[0]) then rest
        else [Element(id, name, CleanAttributes(policy, ts[0]), Clean(policy, children))] + rest
  }

  // ---------------------------------------------------------------- The document

  function Without<T(==)>(s: seq<T>, x: T): seq<T> {
    if s == [] then [] else if s[0] == x then s[1..] else [s[0]] + Without(s[1..], x)
  }

  /** The first attribute of that name dropped. */
  function WithoutAttribute(attributes: seq<Attribute>, name: string): seq<Attribute> {
    if attributes == [] then []
    else if attributes[0].name == name then attributes[1..]
    else [attributes[0]] + WithoutAttribute(attributes[1..], name)
  }

  /** The nodes of a page and the links between them; a node without an entry in `parent` has none. */
  class Document {
    const name: map<Id, string>
    const content: map<Id, string>
    var attributes: map<Id, seq<Attribute>>
    var children: map<Id, seq<Id>>
    var parent: map<Id, Id>

    constructor (name: map<Id, string>, content: map<Id, string>,
                 attributes: map<Id, seq<Attribute>>, children: map<Id, seq<Id>>, parent: map<Id, Id>)
      ensures this.name == name && this.content == content
      ensures this.attributes == attributes && this.children == children && this.parent == parent
    {
      this.name, this.content := name, content;
      this.attributes, this.children, this.parent := attributes, children, parent;
    }

    /** The DOM throws unless the child has exactly this parent. */
    method RemoveChild(node: Id, child: Id)
      requires child in parent && parent[child] == node && node in children
      modifies `children, `parent
      ensures children == old(children)[node := Without(old(children)[node], child)]
      ensures parent == old(parent) - {child}
    {
      children := children[node := Without(children[node], child)];
      parent := parent - {child};
    }

    method RemoveAttribute(node: Id, attribute: string)
      requires node in attributes
      modifies `attributes
      ensures attributes == old(attributes)[node := WithoutAttribute(old(attributes)[node], attribute)]
    {
      attributes := attributes[node := WithoutAttribute(attributes[node], attribute)];
    }

    /** Below `n` the page looks exactly as the tree says. */
    ghost predicate Shows(n: Node)
      reads this
      decreases n
    {
      match n
      case Leaf(id, text) => id in content && content[id] == text
      case Element(id, _, _, _) =>
        && id in name && name[id] == n.name
        && id in attributes && attributes[id] == n.attributes
        && id in children && children[id] == Ids(n.children)
        && forall c <- n.children :: Shows(c)
    }

    // -------------------------------------------------------------- The loop

    /** The state when the elements in `done` have been visited, stated for one node of the original tree. */
    ghost predicate Visited(policy: Policy, n: Node, done: set<Id>)
      reads this
    {
      && (n.Leaf? ==> n.id in content && content[n.id] == n.content)
      && (n.Element? ==>
        && n.id in name && name[n.id] == n.name
        && n.id in attributes
        && attributes[n.id] == (if n.id in done && !Bad(policy, n) then CleanAttributes(policy, n) else n.attributes)
        && n.id in children && children[n.id] == Kept(policy, n.children, done)
        && forall c <- n.children :: if Bad(policy, c) && c.id in done then c.id !in parent
                                     else c.id in parent && parent[c.id] == n.id)
    }

    ghost predicate AllVisited(policy: Policy, root: Node, done: set<Id>)
      reads this
    {
      forall n <- Preorder([root]) :: Visited(policy, n, done)
    }
  }

  /** The children still attached when the elements in `done` have been visited. */
  function Kept(policy: Policy, children: seq<Node>, done: set<Id>): seq<Id> {
    if children == [] then []
    else
      (if Bad(policy, children[0]) && children[0].id in done then [] else [children[0].id])
      + Kept(policy, children[1..], done)
  }

  /** The snapshot that the loop walks: every element below the root, in document order. */
  function ElementsOf(ts: seq<Node>): seq<Node> {
    if ts == [] then []
    else if ts[0].Element? then [ts[0]] + ElementsOf(ts[1..])
    else ElementsOf(ts[1..])
  }

  function Snapshot(root: Node): seq<Node>
    requires root.Element?
  {
    ElementsOf(Preorder(root.children))
  }

  /** What the HTML parser guarantees: node identities and the attribute names of an element are distinct. */
  ghost predicate Parsed(root: Node) {
    && root.Element?
    && Unique(Ids(Preorder([root])))
    && forall n <- Preorder([root]) :: n.Element? ==> DistinctNames(n.attributes) && Unique(Ids(n.children))
  }

  ghost predicate DistinctNames(attributes: seq<Attribute>) {
    forall i, j :: 0 <= i < j < |attributes| ==> attributes[i].name != attributes[j].name
  }

  // ---------------------------------------------------------------- Nodes of a tree

  lemma SameId(ts: seq<Node>, a: Node, b: Node)
    requires Unique(Ids(ts)) && a in ts && b in ts && a.id == b.id
    ensures a == b
  {
    var i :| 0 <= i < |ts| && ts[i] == a;
    var j :| 0 <= j < |ts| && ts[j] == b;
    assert Ids(ts)[i] == Ids(ts)[j];
  }

  lemma {:induction false} ElementsOfMembers(ts: seq<Node>)
    ensures forall n :: n in ElementsOf(ts) <==> n in ts && n.Element?
  {
    if ts != [] {
      ElementsOfMembers(ts[1..]);
    }
  }

  lemma {:induction false} ElementsOfUnique(ts: seq<Node>)
    requires Unique(Ids(ts))
    ensures Unique(Ids(ElementsOf(ts)))
  {
    if ts != [] {
      assert Ids(ts[1..]) == Ids(ts)[1..];
      ElementsOfUnique(ts[1..]);
      ElementsOfMembers(ts[1..]);
      var rest := ElementsOf(ts[1..]);
      forall j | 0 <= j < |rest|
        ensures rest[j].id != ts[0].id
      {
        assert rest[j] in ts[1..];
        var k :| 0 <= k < |ts[1..]| && ts[1..][k] == rest[j];
        assert Ids(ts)[0] != Ids(ts)[k + 1];
      }
    }
  }

  lemma PreorderOfRoot(root: Node)
    requires root.Element?
    ensures Preorder([root]) == [root] + Preorder(root.children)
  {
    assert [root][1..] == [];
  }

  lemma {:induction false} PreorderContainsRoots(ts: seq<Node>)
    ensures forall t <- ts :: t in Preorder(ts)
  {
    if ts != [] {
      PreorderContainsRoots(ts[1..]);
    }
  }

  /** Every node of the forest is one of its roots or the child of a node of the forest. */
  lemma {:induction false} HasParent(ts: seq<Node>, n: Node)
    requires n in Preorder(ts)
    ensures n in ts || exists p :: p in Preorder(ts) && p.Element? && n in p.children
  {
    if ts[0] != n {
      if ts[0].Element? && n in Preorder(ts[0].children) {
        HasParent(ts[0].children, n);
        if n in ts[0].children {
          assert ts[0] in Preorder(ts);
        } else {
          var p :| p in Preorder(ts[0].children) && p.Element? && n in p.children;
          assert p in Preorder(ts);
        }
      } else {
        HasParent(ts[1..], n);
        if n !in ts[1..] {
          var p :| p in Preorder(ts[1..]) && p.Element? && n in p.children;
          assert p in Preorder(ts);
        }
      }
    }
  }

  /** With a node, its children belong to the forest. */
  lemma {:induction false} ChildrenBelong(ts: seq<Node>, p: Node)
    requires p in Preorder(ts) && p.Element?
    ensures forall c <- p.children :: c in Preorder(ts)
  {
    if ts[0] == p {
      PreorderContainsRoots(p.children);
    } else if ts[0].Element? && p in Preorder(ts[0].children) {
      ChildrenBelong(ts[0].children, p);
    } else {
      ChildrenBelong(ts[1..], p);
    }
  }

  // ---------------------------------------------------------------- One removal

  lemma {:induction false} KeptIgnores(policy: Policy, children: seq<Node>, done: set<Id>, id: Id)
    requires forall c <- children :: c.id == id ==> id in done || !Bad(policy, c)
    ensures Kept(policy, children, done + {id}) == Kept(policy, children, done)
  {
    if children != [] {
      KeptIgnores(policy, children[1..], done, id);
    }
  }

  lemma {:induction false} KeptLoses(policy: Policy, children: seq<Node>, done: set<Id>, child: Node)
    requires Unique(Ids(children)) && child in children && Bad(policy, child) && child.id !in done
    ensures Kept(policy, children, done + {child.id}) == Without(Kept(policy, children, done), child.id)
  {
    assert Ids(children[1..]) == Ids(children)[1..];
    if children[0] == child {
      forall c | c in children[1..]
        ensures c.id != child.id
      {
        var k :| 0 <= k < |children[1..]| && children[1..][k] == c;
        assert Ids(children)[0] != Ids(children)[k + 1];
      }
      KeptIgnores(policy, children[1..], done, child.id);
    } else {
      var k :| 0 <= k < |children[1..]| && children[1..][k] == child;
      assert Ids(children)[0] != Ids(children)[k + 1];
      KeptLoses(policy, children[1..], done, child);
      var rest := Kept(policy, children[1..], done);
      if Bad(policy, children[0]) && children[0].id in done {
        assert Kept(policy, children, done) == rest;
      } else {
        assert Kept(policy, children, done) == [children[0].id] + rest;
        assert Without([children[0].id] + rest, child.id) == [children[0].id] + Without(rest, child.id);
      }
    }
  }

  // ---------------------------------------------------------------- Attributes

  lemma {:induction false} WithoutOthers(front: seq<Attribute>, a: Attribute, rest: seq<Attribute>)
    requires forall b <- front :: b.name != a.name
    ensures WithoutAttribute(front + [a] + rest, a.name) == front + rest
  {
    var all := front + [a] + rest;
    if front == [] {
      assert all[1..] == rest && front + rest == rest;
    } else {
      assert front[0] in front;
      assert all[1..] == front[1..] + [a] + rest;
      WithoutOthers(front[1..], a, rest);
      assert [front[0]] + (front[1..] + rest) == front + rest;
    }
  }

  lemma {:induction false} AllowedOnlyAppend(policy: Policy, front: seq<Attribute>, a: Attribute, rules: seq<Rule>)
    ensures AllowedOnly(policy, front + [a], rules)
         == AllowedOnly(policy, front, rules) + if Allowed(policy, a, rules) then [a] else []
  {
    if front == [] {
      assert front + [a] == [a] && [a][1..] == [];
    } else {
      assert (front + [a])[1..] == front[1..] + [a];
      AllowedOnlyAppend(policy, front[1..], a, rules);
    }
  }

  lemma {:induction false} AllowedOnlyMembers(policy: Policy, attributes: seq<Attribute>, rules: seq<Rule>)
    ensures forall a :: a in AllowedOnly(policy, attributes, rules) <==> a in attributes && Allowed(policy, a, rules)
  {
    if attributes != [] {
      AllowedOnlyMembers(policy, attributes[1..], rules);
    }
  }

  /** The attribute list when its first `j` entries have been visited. */
  ghost function HalfClean(policy: Policy, attributes: seq<Attribute>, j: nat, rules: seq<Rule>): seq<Attribute>
    requires j <= |attributes|
  {
    AllowedOnly(policy, attributes[..j], rules) + attributes[j..]
  }

  lemma AttributeStep(policy: Policy, attributes: seq<Attribute>, j: nat, rules: seq<Rule>)
    requires j < |attributes| && DistinctNames(attributes)
    ensures HalfClean(policy, attributes, j + 1, rules) ==
              if Allowed(policy, attributes[j], rules) then HalfClean(policy, attributes, j, rules)
              else WithoutAttribute(HalfClean(policy, attributes, j, rules), attributes[j].name)
  {
    var a, front, rest := attributes[j], AllowedOnly(policy, attributes[..j], rules), attributes[j + 1..];
    assert attributes[..j + 1] == attributes[..j] + [a];
    AllowedOnlyAppend(policy, attributes[..j], a, rules);
    assert attributes[j..] == [a] + rest;
    assert front + attributes[j..] == front + [a] + rest;
    AllowedOnlyMembers(policy, attributes[..j], rules);
    WithoutOthers(front, a, rest);
    assert front + [] + rest == front + rest;
  }

  /** One turn of the inner loop. */
  method CleanAttribute(policy: Policy, doc: Document, el: Id, attributeList: seq<Attribute>, j: nat, rules: seq<Rule>)
    requires el in doc.attributes && DistinctNames(attributeList) && j < |attributeList|
    requires doc.attributes[el] == HalfClean(policy, attributeList, j, rules)
    modifies doc`attributes
    ensures doc.attributes == old(doc.attributes)[el := HalfClean(policy, attributeList, j + 1, rules)]
  {
    var attribute := attributeList[j];
    var allowed := AllowedAttribute(policy, attribute, rules);
    AttributeStep(policy, attributeList, j, rules);
    if !allowed {
      doc.RemoveAttribute(el, attribute.name);
    }
  }

  /** The inner loop: visits the attributes the element had on entry and removes the disallowed ones. */
  method CleanElement(policy: Policy, doc: Document, el: Id, rules: seq<Rule>)
    requires el in doc.attributes && DistinctNames(doc.attributes[el])
    modifies doc`attributes
    ensures doc.attributes == old(doc.attributes)[el := AllowedOnly(policy, old(doc.attributes)[el], rules)]
  {
    var attributeList := doc.attributes[el];
    HalfCleanEnds(policy, attributeList, rules);
    for j := 0 to |attributeList|
      invariant el in doc.attributes
      invariant doc.attributes == old(doc.attributes)[el := HalfClean(policy, attributeList, j, rules)]
    {
      CleanAttribute(policy, doc, el, attributeList, j, rules);
    }
  }

  lemma HalfCleanEnds(policy: Policy, attributes: seq<Attribute>, rules: seq<Rule>)
    ensures HalfClean(policy, attributes, 0, rules) == attributes
    ensures HalfClean(policy, attributes, |attributes|, rules) == AllowedOnly(policy, attributes, rules)
  {
    assert attributes[..|attributes|] == attributes;
  }

  // ---------------------------------------------------------------- The loop over the snapshot

  /** The parsed page: `root` is its body. */
  ghost predicate Untouched(doc: Document, policy: Policy, root: Node)
    reads doc
  {
    Parsed(root) && doc.AllVisited(policy, root, {})
  }

  /** An element about to be visited still hangs where the parser put it, even below a removed one. */
  lemma StillAttached(doc: Document, policy: Policy, root: Node, done: set<Id>, n: Node) returns (p: Node)
    requires Parsed(root) && doc.AllVisited(policy, root, done)
    requires n in Preorder(root.children) && n.id !in done
    ensures p in Preorder([root]) && p.Element? && n in p.children
    ensures n.id in doc.parent && doc.parent[n.id] == p.id
  {
    PreorderOfRoot(root);
    HasParent(root.children, n);
    if n in root.children {
      p := root;
    } else {
      p :| p in Preorder(root.children) && p.Element? && n in p.children;
    }
    assert doc.Visited(policy, p, done);
  }

  /** Visiting `n` changes nothing for a node that is neither `n` nor its parent. */
  lemma OthersKept(doc: Document, policy: Policy, root: Node, done: set<Id>, n: Node, p: Node, m: Node)
    requires Parsed(root) && doc.AllVisited(policy, root, done)
    requires n in Preorder([root]) && n.id !in done && n.id in doc.parent && doc.parent[n.id] == p.id
    requires p in Preorder([root]) && m in Preorder([root]) && m.Element? && m != p
    ensures m.id != p.id
    ensures forall c <- m.children :: c.id != n.id
    ensures Kept(policy, m.children, done + {n.id}) == Kept(policy, m.children, done)
  {
    if m.id == p.id {
      SameId(Preorder([root]), m, p);
    }
    ChildrenBelong([root], m);
    forall c | c in m.children
      ensures c.id != n.id
    {
      assert doc.Visited(policy, m, done);
    }
    KeptIgnores(policy, m.children, done, n.id);
  }

  /** What separates `n`, about to be visited, and its parent `p` from all other nodes. */
  ghost predicate Isolated(policy: Policy, root: Node, done: set<Id>, n: Node, p: Node) {
    && n in Preorder([root]) && p in Preorder([root]) && p.Element? && n in p.children
    && n.id !in done
    && (forall m <- Preorder([root]) :: m.id == n.id ==> m == n)
    && (forall m <- Preorder([root]) :: m.id == p.id ==> m == p)
    && (forall c <- p.children :: c.id == n.id ==> c == n)
    && (forall m <- Preorder([root]) :: m.Element? && m != p ==>
          && (forall c <- m.children :: c.id != n.id)
          && Kept(policy, m.children, done + {n.id}) == Kept(policy, m.children, done))
  }

  lemma Isolates(doc: Document, policy: Policy, root: Node, done: set<Id>, n: Node) returns (p: Node)
    requires Parsed(root) && doc.AllVisited(policy, root, done)
    requires n in Preorder(root.children) && n.id !in done
    ensures Isolated(policy, root, done, n, p)
    ensures n.id in doc.parent && doc.parent[n.id] == p.id
  {
    PreorderOfRoot(root);
    p := StillAttached(doc, policy, root, done, n);
    forall m | m in Preorder([root]) && m.id == n.id
      ensures m == n
    {
      SameId(Preorder([root]), m, n);
    }
    forall m | m in Preorder([root]) && m.id == p.id
      ensures m == p
    {
      SameId(Preorder([root]), m, p);
    }
    forall m | m in Preorder([root]) && m.Element? && m != p
      ensures (forall c <- m.children :: c.id != n.id)
      ensures Kept(policy, m.children, done + {n.id}) == Kept(policy, m.children, done)
    {
      OthersKept(doc, policy, root, done, n, p, m);
    }
    ChildrenBelong([root], p);
  }

  /** An unlisted element leaves the tree. */
  method RemoveElement(policy: Policy, doc: Document, ghost root: Node, ghost done: set<Id>, el: Id, ghost n: Node,
                       ghost p: Node)
    requires Parsed(root) && doc.AllVisited(policy, root, done) && Isolated(policy, root, done, n, p)
    requires Bad(policy, n) && n.id == el && el in doc.parent && doc.parent[el] == p.id
    modifies doc`children, doc`parent
    ensures doc.AllVisited(policy, root, done + {el})
  {
    assert doc.Visited(policy, p, done);
    doc.RemoveChild(doc.parent[el], el);
    KeptLoses(policy, p.children, done, n);
    forall m | m in Preorder([root])
      ensures doc.Visited(policy, m, done + {el})
    {
      assert old(doc.Visited(policy, m, done));
    }
  }

  /** A listed element loses its disallowed attributes. */
  method KeepElement(policy: Policy, doc: Document, ghost root: Node, ghost done: set<Id>, el: Id, ghost n: Node,
                     ghost p: Node)
    requires Parsed(root) && doc.AllVisited(policy, root, done) && Isolated(policy, root, done, n, p)
    requires n.Element? && !Bad(policy, n) && n.id == el && el in doc.name && doc.name[el] == n.name
    modifies doc`attributes
    ensures doc.AllVisited(policy, root, done + {el})
  {
    assert doc.Visited(policy, n, done);
    CleanElement(policy, doc, el, RulesOf(policy, doc.name[el]));
    KeptIgnores(policy, p.children, done, el);
    forall m | m in Preorder([root])
      ensures doc.Visited(policy, m, done + {el})
    {
      assert old(doc.Visited(policy, m, done));
    }
  }

  /** One iteration of the loop. */
  method VisitElement(policy: Policy, doc: Document, el: Id, ghost root: Node, ghost done: set<Id>, ghost n: Node)
    requires Parsed(root) && doc.AllVisited(policy, root, done)
    requires n in Preorder(root.children) && n.Element? && n.id == el && el !in done
    modifies doc`attributes, doc`children, doc`parent
    ensures doc.AllVisited(policy, root, done + {el})
  {
    PreorderOfRoot(root);
    ghost var p := Isolates(doc, policy, root, done, n);
    assert doc.Visited(policy, n, done);
    if policy.lower(doc.name[el]) !in policy.whiteList.Keys {
      RemoveElement(policy, doc, root, done, el, n, p);
    } else {
      KeepElement(policy, doc, root, done, el, n, p);
    }
  }

  lemma NotListedTwice(snapshot: seq<Node>, i: nat, done: set<Id>)
    requires i < |snapshot| && Unique(Ids(snapshot))
    requires forall x :: x in done <==> x in Ids(snapshot[..i])
    ensures snapshot[i].id !in done
    ensures forall x :: x in done + {snapshot[i].id} <==> x in Ids(snapshot[..i + 1])
  {
    var front := Ids(snapshot[..i]);
    assert Ids(snapshot[..i + 1]) == front + [snapshot[i].id];
    forall k | 0 <= k < i
      ensures front[k] != snapshot[i].id
    {
      assert Ids(snapshot)[k] != Ids(snapshot)[i];
    }
  }

  lemma SnapshotFacts(root: Node)
    requires Parsed(root)
    ensures Unique(Ids(Snapshot(root)))
    ensures forall n <- Snapshot(root) :: n in Preorder(root.children) && n.Element?
    ensures root.id !in Ids(Snapshot(root))
  {
    PreorderOfRoot(root);
    UniqueParts([root], Preorder(root.children));
    ElementsOfUnique(Preorder(root.children));
    ElementsOfMembers(Preorder(root.children));
    forall k | 0 <= k < |Snapshot(root)|
      ensures Ids(Snapshot(root))[k] != root.id
    {
      assert Snapshot(root)[k] in Preorder(root.children);
      assert root in [root];
      assert root.id in IdSet([root]);
    }
  }

  /**
   * `sanitizeHtml` between parsing and serialising: the page ends up showing exactly the filtered
   * tree. Every `removeChild` finds the parent it needs.
   */
  method SanitizeHtml(policy: Policy, doc: Document, elements: seq<Id>, ghost root: Node)
    requires Untouched(doc, policy, root) && elements == Ids(Snapshot(root))
    modifies doc`attributes, doc`children, doc`parent
    ensures doc.Shows(root.(children := Clean(policy, root.children)))
    ensures forall n <- Preorder(root.children) :: n.Element? && policy.lower(n.name) in policy.whiteList ==>
              n.id in doc.attributes && doc.attributes[n.id] == Survivors(policy, n.name, n.attributes)
  {
    ghost var snapshot := Snapshot(root);
    ghost var done: set<Id> := {};
    SnapshotFacts(root);
    assert Ids(snapshot[..0]) == [];
    for i := 0 to |elements|
      invariant forall x :: x in done <==> x in Ids(snapshot[..i])
      invariant doc.AllVisited(policy, root, done)
    {
      ghost var n := snapshot[i];
      assert elements[i] == n.id && n in snapshot;
      NotListedTwice(snapshot, i, done);
      VisitElement(policy, doc, elements[i], root, done, n);
      done := done + {n.id};
    }
    assert snapshot[..|elements|] == snapshot;
    forall n | n in Preorder(root.children) && n.Element?
      ensures n.id in done
    {
      ElementsOfMembers(Preorder(root.children));
      var k :| 0 <= k < |snapshot| && snapshot[k] == n;
      assert Ids(snapshot)[k] == n.id;
    }
    PreorderOfRoot(root);
    assert doc.Visited(policy, root, done);
    assert root.id !in done;
    ShowsClean(doc, policy, root.children, done);
    assert Kept(policy, root.children, done) == Ids(Clean(policy, root.children));
    forall n | n in Preorder(root.children) && n.Element? && policy.lower(n.name) in policy.whiteList
      ensures n.id in doc.attributes && doc.attributes[n.id] == Survivors(policy, n.name, n.attributes)
    {
      assert doc.Visited(policy, n, done);
      AttributesSurvive(policy, n.name, n.attributes);
    }
  }

  /** When every element of the forest has been visited, the page shows the filtered forest. */
  lemma {:induction false} ShowsClean(doc: Document, policy: Policy, ts: seq<Node>, done: set<Id>)
    requires forall n <- Preorder(ts) :: doc.Visited(policy, n, done) && (n.Element? ==> n.id in done)
    ensures Kept(policy, ts, done) == Ids(Clean(policy, ts))
    ensures forall c <- Clean(policy, ts) :: doc.Shows(c)
  {
    if ts != [] {
      var t := ts[0];
      assert forall n <- Preorder(ts[1..]) :: n in Preorder(ts);
      ShowsClean(doc, policy, ts[1..], done);
      assert t in Preorder(ts);
      if t.Element? && !Bad(policy, t) {
        assert forall n <- Preorder(t.children) :: n in Preorder(ts);
        ShowsClean(doc, policy, t.children, done);
        ShowsElement(doc, policy, t, done);
      }
      ShowsFirst(doc, policy, ts, done);
    }
  }

  lemma ShowsElement(doc: Document, policy: Policy, t: Node, done: set<Id>)
    requires t.Element? && !Bad(policy, t) && t.id in done && doc.Visited(policy, t, done)
    requires Kept(policy, t.children, done) == Ids(Clean(policy, t.children))
    requires forall c <- Clean(policy, t.children) :: doc.Shows(c)
    ensures doc.Shows(Element(t.id, t.name, CleanAttributes(policy, t), Clean(policy, t.children)))
  {
  }

  lemma ShowsFirst(doc: Document, policy: Policy, ts: seq<Node>, done: set<Id>)
    requires ts != [] && doc.Visited(policy, ts[0], done) && (ts[0].Element? ==> ts[0].id in done)
    requires Kept(policy, ts[1..], done) == Ids(Clean(policy, ts[1..]))
    requires forall c <- Clean(policy, ts[1..]) :: doc.Shows(c)
    requires ts[0].Element? && !Bad(policy, ts[0]) ==>
               doc.Shows(Element(ts[0].id, ts[0].name, CleanAttributes(policy, ts[0]), Clean(policy, ts[0].children)))
    ensures Kept(policy, ts, done) == Ids(Clean(policy, ts))
    ensures forall c <- Clean(policy, ts) :: doc.Shows(c)
  {
    var t, rest := ts[0], Clean(policy, ts[1..]);
    if t.Leaf? {
      IdsAppend([t], rest);
      assert Ids([t]) == [t.id];
    } else if !Bad(policy, t) {
      var c := Element(t.id, t.name, CleanAttributes(policy, t), Clean(policy, t.children));
      IdsAppend([c], rest);
      assert Ids([c]) == [t.id];
    }
  }

  // ---------------------------------------------------------------- What the filter does

  /** The page determines the tree it shows, so nothing but the filtered tree can be read back. */
  lemma {:induction false} ShowsOneTree(doc: Document, a: Node, b: Node)
    requires doc.name.Keys !! doc.content.Keys
    requires doc.Shows(a) && doc.Shows(b) && a.id == b.id
    ensures a == b
    decreases a
  {
    if a.Element? && b.Element? {
      forall i | 0 <= i < |a.children|
        ensures i < |b.children| && a.children[i] == b.children[i]
      {
        assert Ids(a.children)[i] == Ids(b.children)[i];
        assert a.children[i] in a.children && b.children[i] in b.children;
        ShowsOneTree(doc, a.children[i], b.children[i]);
      }
      assert |Ids(a.children)| == |Ids(b.children)|;
      assert a.children == b.children;
    }
  }

  /** Sanitizing again changes nothing. */
  lemma {:induction false} CleanIsIdempotent(policy: Policy, ts: seq<Node>)
    ensures Clean(policy, Clean(policy, ts)) == Clean(policy, ts)
  {
    if ts != [] {
      CleanIsIdempotent(policy, ts[1..]);
      var t, rest := ts[0], Clean(policy, ts[1..]);
      if t.Element? && !Bad(policy, t) {
        CleanIsIdempotent(policy, t.children);
        AllowedOnlyAgain(policy, t.attributes, RulesOf(policy, t.name));
        var c := Element(t.id, t.name, CleanAttributes(policy, t), Clean(policy, t.children));
        assert Clean(policy, ts) == [c] + rest;
        assert ([c] + rest)[1..] == rest;
        assert CleanAttributes(policy, c) == c.attributes;
      } else if t.Leaf? {
        assert ([t] + rest)[1..] == rest;
      }
    }
  }

  lemma {:induction false} AllowedOnlyAgain(policy: Policy, attributes: seq<Attribute>, rules: seq<Rule>)
    ensures AllowedOnly(policy, AllowedOnly(policy, attributes, rules), rules) == AllowedOnly(policy, attributes, rules)
  {
    if attributes != [] {
      AllowedOnlyAgain(policy, attributes[1..], rules);
      var rest := AllowedOnly(policy, attributes[1..], rules);
      if Allowed(policy, attributes[0], rules) {
        assert ([attributes[0]] + rest)[1..] == rest;
      } else {
        assert [] + rest == rest;
      }
    }
  }

  /** A URL attribute that is listed by name goes if its value is unsafe, even where a pattern would allow the name. */
  lemma UnsafeUrlIsDropped(policy: Policy, n: Node, a: Attribute)
    requires n.Element? && Names(RulesOf(policy, n.name), policy.lower(a.name))
             && policy.lower(a.name) in URI_ATTRIBUTES
    ensures a in CleanAttributes(policy, n) <==> a in n.attributes && policy.isSafeUrl(a.value)
  {
    AllowedOnlyMembers(policy, n.attributes, RulesOf(policy, n.name));
  }

  /** Nothing unlisted or disallowed is left anywhere in the tree. */
  lemma {:induction false} CleanIsClean(policy: Policy, ts: seq<Node>)
    ensures forall n <- Preorder(Clean(policy, ts)) ::
              n.Element? ==> !Bad(policy, n) && forall a <- n.attributes :: Allowed(policy, a, RulesOf(policy, n.name))
  {
    if ts != [] {
      CleanIsClean(policy, ts[1..]);
      var t, rest := ts[0], Clean(policy, ts[1..]);
      if t.Element? && !Bad(policy, t) {
        CleanIsClean(policy, t.children);
        AllowedOnlyMembers(policy, t.attributes, RulesOf(policy, t.name));
        var c := Element(t.id, t.name, CleanAttributes(policy, t), Clean(policy, t.children));
        assert Clean(policy, ts) == [c] + rest;
        assert ([c] + rest)[1..] == rest;
      } else if t.Leaf? {
        assert ([t] + rest)[1..] == rest;
      }
    }
  }

  /** The nodes that are unlisted elements or lie below one. */
  function Doomed(policy: Policy, ts: seq<Node>): seq<Node> {
    if ts == [] then []
    else
      (if ts[0].Leaf? then []
       else if Bad(policy, ts[0]) then Preorder([ts[0]])
       else Doomed(policy, ts[0].children))
      + Doomed(policy, ts[1..])
  }

  /** The ids of `s` that are not among `dropped`, in order. */
  function Surviving(s: seq<Id>, dropped: set<Id>): seq<Id> {
    if s == [] then []
    else (if s[0] in dropped then [] else [s[0]]) + Surviving(s[1..], dropped)
  }

  function IdSet(ts: seq<Node>): set<Id> {
    set n <- ts :: n.id
  }

  lemma UniqueParts(a: seq<Node>, b: seq<Node>)
    requires Unique(Ids(a + b))
    ensures Unique(Ids(a)) && Unique(Ids(b)) && IdSet(a) !! IdSet(b)
  {
    var all := Ids(a + b);
    forall i, j | 0 <= i < j < |a|
      ensures Ids(a)[i] != Ids(a)[j]
    {
      assert all[i] != all[j];
    }
    forall i, j | 0 <= i < j < |b|
      ensures Ids(b)[i] != Ids(b)[j]
    {
      assert all[|a| + i] != all[|a| + j];
    }
    forall i, j | 0 <= i < |a| && 0 <= j < |b|
      ensures a[i].id != b[j].id
    {
      assert all[i] != all[|a| + j];
    }
  }

  lemma {:induction false} DoomedBelongs(policy: Policy, ts: seq<Node>)
    ensures forall n <- Doomed(policy, ts) :: n in Preorder(ts)
  {
    if ts != [] {
      DoomedBelongs(policy, ts[1..]);
      if ts[0].Element? && !Bad(policy, ts[0]) {
        DoomedBelongs(policy, ts[0].children);
      } else if ts[0].Element? {
        PreorderOfRoot(ts[0]);
      }
    }
  }

  lemma {:induction false} SurvivingAppend(a: seq<Id>, b: seq<Id>, dropped: set<Id>)
    ensures Surviving(a + b, dropped) == Surviving(a, dropped) + Surviving(b, dropped)
  {
    if a == [] {
      assert a + b == b;
    } else {
      assert (a + b)[1..] == a[1..] + b;
      SurvivingAppend(a[1..], b, dropped);
    }
  }

  lemma {:induction false} NoneSurvive(s: seq<Id>, dropped: set<Id>)
    requires forall x <- s :: x in dropped
    ensures Surviving(s, dropped) == []
  {
    if s != [] {
      NoneSurvive(s[1..], dropped);
    }
  }

  lemma IdsAppend(a: seq<Node>, b: seq<Node>)
    ensures Ids(a + b) == Ids(a) + Ids(b)
  {
  }

  /** `dropped` names exactly the doomed nodes of this forest, and possibly nodes elsewhere. */
  ghost predicate Drops(policy: Policy, ts: seq<Node>, dropped: set<Id>) {
    dropped * IdSet(Preorder(ts)) == IdSet(Doomed(policy, ts))
  }

  lemma SplitDropped(dropped: set<Id>, f: set<Id>, r: set<Id>, a: set<Id>, b: set<Id>)
    requires f !! r && dropped * (f + r) == a + b && a <= f && b <= r
    ensures dropped * f == a && dropped * r == b
  {
    assert dropped * f == (dropped * (f + r)) * f;
    assert dropped * r == (dropped * (f + r)) * r;
    assert (a + b) * f == a && (a + b) * r == b;
  }

  /** The nodes of the first tree, and those of them that are doomed. */
  function FirstTree(t: Node): seq<Node> {
    [t] + if t.Element? then Preorder(t.children) else []
  }

  function FirstDoomed(policy: Policy, t: Node): seq<Node> {
    if t.Leaf? then [] else if Bad(policy, t) then FirstTree(t) else Doomed(policy, t.children)
  }

  lemma FirstAndRest(policy: Policy, ts: seq<Node>)
    requires ts != []
    ensures Preorder(ts) == FirstTree(ts[0]) + Preorder(ts[1..])
    ensures Doomed(policy, ts) == FirstDoomed(policy, ts[0]) + Doomed(policy, ts[1..])
    ensures IdSet(FirstDoomed(policy, ts[0])) <= IdSet(FirstTree(ts[0]))
  {
    if ts[0].Element? {
      PreorderOfRoot(ts[0]);
      DoomedBelongs(policy, ts[0].children);
    }
  }

  lemma DropsParts(policy: Policy, ts: seq<Node>, dropped: set<Id>)
    requires ts != [] && Unique(Ids(Preorder(ts))) && Drops(policy, ts, dropped)
    ensures Unique(Ids(Preorder(ts[1..]))) && Drops(policy, ts[1..], dropped)
    ensures Unique(Ids(FirstTree(ts[0])))
    ensures dropped * IdSet(FirstTree(ts[0])) == IdSet(FirstDoomed(policy, ts[0]))
  {
    var t, rest := ts[0], ts[1..];
    FirstAndRest(policy, ts);
    UniqueParts(FirstTree(t), Preorder(rest));
    DoomedBelongs(policy, rest);
    IdSetAppend(FirstTree(t), Preorder(rest));
    IdSetAppend(FirstDoomed(policy, t), Doomed(policy, rest));
    SplitDropped(dropped, IdSet(FirstTree(t)), IdSet(Preorder(rest)),
                 IdSet(FirstDoomed(policy, t)), IdSet(Doomed(policy, rest)));
  }

  lemma DropsBelow(policy: Policy, t: Node, dropped: set<Id>)
    requires Unique(Ids(FirstTree(t))) && !Bad(policy, t)
    requires dropped * IdSet(FirstTree(t)) == IdSet(FirstDoomed(policy, t))
    ensures t.id !in dropped
    ensures t.Element? ==> Unique(Ids(Preorder(t.children))) && Drops(policy, t.children, dropped)
  {
    var below := if t.Element? then Preorder(t.children) else [];
    UniqueParts([t], below);
    IdSetAppend([t], below);
    if t.Element? {
      DoomedBelongs(policy, t.children);
    }
    assert t in [t];
    assert t.id in IdSet([t]);
    SplitDropped(dropped, IdSet([t]), IdSet(below), {}, IdSet(FirstDoomed(policy, t)));
  }

  lemma IdSetAppend(a: seq<Node>, b: seq<Node>)
    ensures IdSet(a + b) == IdSet(a) + IdSet(b)
  {
  }

  /**
   * In document order the nodes left are the original ones, minus exactly those that are unlisted
   * elements or lie below one.
   */
  lemma {:induction false} CleanKeepsTheRest(policy: Policy, ts: seq<Node>, dropped: set<Id>)
    requires Unique(Ids(Preorder(ts))) && Drops(policy, ts, dropped)
    ensures Ids(Preorder(Clean(policy, ts))) == Surviving(Ids(Preorder(ts)), dropped)
  {
    if ts != [] {
      var t := ts[0];
      DropsParts(policy, ts, dropped);
      FirstAndRest(policy, ts);
      CleanKeepsTheRest(policy, ts[1..], dropped);
      var front, rest := FirstTree(t), Preorder(ts[1..]);
      IdsAppend(front, rest);
      SurvivingAppend(Ids(front), Ids(rest), dropped);
      if Bad(policy, t) {
        forall x | x in Ids(front)
          ensures x in dropped
        {
          var k :| 0 <= k < |front| && Ids(front)[k] == x;
          assert front[k].id in IdSet(front);
        }
        NoneSurvive(Ids(front), dropped);
      } else {
        DropsBelow(policy, t, dropped);
        if t.Element? {
          CleanKeepsTheRest(policy, t.children, dropped);
        }
        CleanFront(policy, t, if t.Element? then Preorder(t.children) else [], Clean(policy, ts[1..]), dropped);
      }
    }
  }

  lemma CleanFront(policy: Policy, t: Node, below: seq<Node>, rest: seq<Node>, dropped: set<Id>)
    requires !Bad(policy, t) && t.id !in dropped
    requires below == if t.Element? then Preorder(t.children) else []
    requires t.Element? ==> Ids(Preorder(Clean(policy, t.children))) == Surviving(Ids(below), dropped)
    ensures var c :=
              if t.Leaf? then t
              else Element(t.id, t.name, CleanAttributes(policy, t), Clean(policy, t.children));
            Ids(Preorder([c] + rest)) == Surviving(Ids([t] + below), dropped) + Ids(Preorder(rest))
  {
    var c := if t.Leaf? then t else Element(t.id, t.name, CleanAttributes(policy, t), Clean(policy, t.children));
    var cleanBelow := if t.Element? then Preorder(Clean(policy, t.children)) else [];
    assert ([c] + rest)[1..] == rest;
    assert Preorder([c] + rest) == [c] + cleanBelow + Preorder(rest);
    IdsAppend([c] + cleanBelow, Preorder(rest));
    IdsAppend([c], cleanBelow);
    IdsAppend([t], below);
    assert Ids([t]) == [t.id] && Ids([c]) == [t.id];
    SurvivingAppend([t.id], Ids(below), dropped);
    assert [t.id][1..] == [];
    assert Surviving([t.id], dropped) == [t.id];
    if t.Leaf? {
      assert Ids(below) == [] && Ids(cleanBelow) == [];
    }
  }

  // ---------------------------------------------------------------- The policy, read from the whitelist

  /** The name is listed under the key, outright. */
  ghost predicate Lists(policy: Policy, key: string, name: string) {
    key in policy.whiteList && Exact(name) in policy.whiteList[key]
  }

  /** A pattern under the key matches the name. */
  ghost predicate Fits(policy: Policy, key: string, name: string) {
    key in policy.whiteList
    && exists i :: 0 <= i < |policy.whiteList[key]| && policy.whiteList[key][i].Pattern?
                   && policy.whiteList[key][i].matches(name)
  }

  /**
   * An attribute survives on an element called `element`: its name is listed for all elements or for
   * this one, and the value is safe if the name is one of the eight for URLs; or the name is not
   * listed and a pattern for all elements or for this one matches it.
   */
  ghost predicate Survives(policy: Policy, element: string, a: Attribute) {
    var name, key := policy.lower(a.name), policy.lower(element);
    if Lists(policy, "*", name) || Lists(policy, key, name) then
      name in {"background", "cite", "href", "itemtype", "longdesc", "poster", "src", "xlink:href"}
      ==> policy.isSafeUrl(a.value)
    else Fits(policy, "*", name) || Fits(policy, key, name)
  }

  lemma NamesIff(policy: Policy, element: string, name: string)
    ensures Names(RulesOf(policy, element), name)
            <==> Lists(policy, "*", name) || Lists(policy, policy.lower(element), name)
  {
    var all, own := RulesFor(policy, "*"), RulesFor(policy, policy.lower(element));
    var rules := all + own;
    if Names(rules, name) {
      var i :| 0 <= i < |rules| && rules[i].Exact? && rules[i].name == name;
      assert rules[i] == Exact(name);
      assert rules[i] in all || rules[i] in own;
    }
    if Exact(name) in all || Exact(name) in own {
      assert Exact(name) in rules;
    }
  }

  lemma MatchesIff(policy: Policy, element: string, name: string)
    ensures Matches(RulesOf(policy, element), name)
            <==> Fits(policy, "*", name) || Fits(policy, policy.lower(element), name)
  {
    var all, own := RulesFor(policy, "*"), RulesFor(policy, policy.lower(element));
    var rules := all + own;
    if Matches(rules, name) {
      var i :| 0 <= i < |rules| && rules[i].Pattern? && rules[i].matches(name);
      if i < |all| {
        assert all[i] == rules[i];
      } else {
        assert own[i - |all|] == rules[i];
      }
    }
    if Fits(policy, "*", name) {
      var i :| 0 <= i < |all| && all[i].Pattern? && all[i].matches(name);
      assert rules[i] == all[i];
    }
    if Fits(policy, policy.lower(element), name) {
      var i :| 0 <= i < |own| && own[i].Pattern? && own[i].matches(name);
      assert rules[|all| + i] == own[i];
    }
  }

  /** What the loops of `allowedAttribute` decide, in terms of the whitelist. */
  lemma AllowedIff(policy: Policy, element: string, a: Attribute)
    ensures Allowed(policy, a, RulesOf(policy, element)) <==> Survives(policy, element, a)
  {
    NamesIff(policy, element, policy.lower(a.name));
    MatchesIff(policy, element, policy.lower(a.name));
    UrlNames(policy.lower(a.name));
  }

  lemma UrlNames(name: string)
    ensures name in URI_ATTRIBUTES
            <==> name in {"background", "cite", "href", "itemtype", "longdesc", "poster", "src", "xlink:href"}
  {
    assert URI_ATTRIBUTES[0] == "background" && URI_ATTRIBUTES[1] == "cite" && URI_ATTRIBUTES[2] == "href";
    assert URI_ATTRIBUTES[3] == "itemtype" && URI_ATTRIBUTES[4] == "longdesc" && URI_ATTRIBUTES[5] == "poster";
    assert URI_ATTRIBUTES[6] == "src" && URI_ATTRIBUTES[7] == "xlink:href";
  }

  /** The attributes that survive, taken from the end. */
  ghost function Survivors(policy: Policy, element: string, attributes: seq<Attribute>): seq<Attribute> {
    if attributes == [] then []
    else
      var n := |attributes| - 1;
      Survivors(policy, element, attributes[..n])
      + if Survives(policy, element, attributes[n]) then [attributes[n]] else []
  }

  /** A kept element keeps exactly the surviving attributes, in their order. */
  lemma {:induction false} AttributesSurvive(policy: Policy, element: string, attributes: seq<Attribute>)
    ensures AllowedOnly(policy, attributes, RulesOf(policy, element)) == Survivors(policy, element, attributes)
  {
    if attributes != [] {
      var n := |attributes| - 1;
      assert attributes == attributes[..n] + [attributes[n]];
      AttributesSurvive(policy, element, attributes[..n]);
      AllowedOnlyAppend(policy, attributes[..n], attributes[n], RulesOf(policy, element));
      AllowedIff(policy, element, attributes[n]);
    }
  }

  /** `r` is what sanitizing leaves of the node `n`. */
  ghost predicate IsRemainder(policy: Policy, n: Node, r: Node) {
    match n
    case Leaf(_, _) => r == n
    case Element(id, name, attributes, _) =>
      && policy.lower(name) in policy.whiteList
      && r.Element? && r.id == id && r.name == name && r.attributes == Survivors(policy, name, attributes)
  }

  /**
   * Every node of the tree that the page shows in the end is one of the parsed page, with its own id
   * and name, listed if it is an element, and left with exactly its surviving attributes.
   */
  lemma {:induction false} ShownNodesAreParsed(policy: Policy, ts: seq<Node>, r: Node) returns (n: Node)
    requires r in Preorder(Clean(policy, ts))
    ensures n in Preorder(ts) && IsRemainder(policy, n, r)
  {
    var t, rest := ts[0], Clean(policy, ts[1..]);
    if t.Leaf? || !Bad(policy, t) {
      var c := if t.Leaf? then t else Element(t.id, t.name, CleanAttributes(policy, t), Clean(policy, t.children));
      assert Clean(policy, ts) == [c] + rest;
      assert ([c] + rest)[1..] == rest;
      if r == c {
        n := t;
        if t.Element? {
          AttributesSurvive(policy, t.name, t.attributes);
        }
      } else if c.Element? && r in Preorder(c.children) {
        n := ShownNodesAreParsed(policy, t.children, r);
      } else {
        n := ShownNodesAreParsed(policy, ts[1..], r);
      }
    } else {
      n := ShownNodesAreParsed(policy, ts[1..], r);
    }
  }

  /** The elements on the way to `n`, and `n` itself if it is one, are all listed. */
  ghost predicate PathIsListed(policy: Policy, ts: seq<Node>, n: Node) {
    forall m <- Preorder(ts) :: m.Element? && n in Preorder([m]) ==> policy.lower(m.name) in policy.whiteList
  }

  /** And every node all of whose path is listed is shown. */
  lemma {:induction false} ListedPathsAreShown(policy: Policy, ts: seq<Node>, n: Node) returns (r: Node)
    requires n in Preorder(ts) && PathIsListed(policy, ts, n)
    ensures r in Preorder(Clean(policy, ts)) && IsRemainder(policy, n, r)
  {
    var t, rest := ts[0], Clean(policy, ts[1..]);
    if t.Element? {
      PreorderOfRoot(t);
    }
    if n == t || (t.Element? && n in Preorder(t.children)) {
      assert t in Preorder(ts);
      assert t.Element? ==> !Bad(policy, t);
      var c := if t.Leaf? then t else Element(t.id, t.name, CleanAttributes(policy, t), Clean(policy, t.children));
      assert Clean(policy, ts) == [c] + rest;
      assert ([c] + rest)[1..] == rest;
      if n == t {
        r := c;
        if t.Element? {
          AttributesSurvive(policy, t.name, t.attributes);
        }
      } else {
        r := ListedPathsAreShown(policy, t.children, n);
      }
    } else {
      r := ListedPathsAreShown(policy, ts[1..], n);
      if t.Leaf? || !Bad(policy, t) {
        var c := if t.Leaf? then t else Element(t.id, t.name, CleanAttributes(policy, t), Clean(policy, t.children));
        assert Clean(policy, ts) == [c] + rest;
        assert ([c] + rest)[1..] == rest;
      }
    }
  }
}
