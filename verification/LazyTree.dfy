/** Lazily loaded tree nodes: a node's children are searched for when it is first
    expanded, and never again. */
module LazyTree {
  import opened Basics

  type Id = nat

  /** `hasChildren` is -1 unknown, 0 leaf, 1 inner; `children` is NULL until asked for. */
  datatype Node = Node(hasChildren: int, children: Option<seq<Id>>, loaded: bool)

  /** A found child entry. */
  datatype Child = Child(id: Id, hasChildren: int)

  /** `issued` lists every search sent, `inFlight` those unanswered, `answers` the rest. */
  datatype Tree = Tree(connected: bool, nodes: map<Id, Node>, issued: seq<Id>,
                       inFlight: set<Id>, answers: map<Id, Option<seq<Child>>>)

  datatype Step = Expand(id: Id) | Complete(id: Id, found: Option<seq<Child>>) | SetConnected(up: bool)

  function Ids(cs: seq<Child>): seq<Id> {
    seq(|cs|, i requires 0 <= i < |cs| => cs[i].id)
  }

  /** The store, created on first access. */
  function Store(n: Node): seq<Id> {
    if n.children.Some? then n.children.value else []
  }

  /** `create_child_model` on one node, and whether it sends a search. */
  function Expanded(n: Node, connected: bool): (Node, bool) {
    if n.hasChildren == 0 then (n, false)
    else if !n.loaded && connected then (n.(children := Some(Store(n)), loaded := true), true)
    else (n.(children := Some(Store(n))), false)
  }

  /** `on_children_loaded` on one node. */
  function Completed(n: Node, found: Option<seq<Child>>): Node {
    if found.None? then n.(loaded := true)
    else n.(loaded := true, children := Some(Store(n) + Ids(found.value)))
  }


  predicate Enabled(t: Tree, l: Step) {
    match l
    case Expand(id) => id in t.nodes
    case Complete(id, found) =>
      id in t.inFlight && id in t.nodes &&
      (found.Some? ==> NoDup(Ids(found.value)) && forall c :: c in found.value ==> c.id !in t.nodes)
    case SetConnected(_) => true
  }

  function NewNodes(cs: seq<Child>): map<Id, Node> {
    if cs == [] then map[]
    else NewNodes(cs[..|cs| - 1])[cs[|cs| - 1].id := Node(cs[|cs| - 1].hasChildren, None, false)]
  }

  function Apply(t: Tree, l: Step): Tree
    requires Enabled(t, l)
  {
    match l
    case Expand(id) =>
      var (n, sent) := Expanded(t.nodes[id], t.connected);
      var t' := t.(nodes := t.nodes[id := n]);
      if sent then t'.(issued := t.issued + [id], inFlight := t.inFlight + {id}) else t'
    case Complete(id, found) =>
      var added := if found.Some? then NewNodes(found.value) else map[];
      t.(nodes := t.nodes[id := Completed(t.nodes[id], found)] + added,
         inFlight := t.inFlight - {id}, answers := t.answers[id := found])
    case SetConnected(up) => t.(connected := up)
  }

  predicate Legal(t: Tree, ls: seq<Step>)
    decreases |ls|
  {
    ls == [] || (Enabled(t, ls[0]) && Legal(Apply(t, ls[0]), ls[1..]))
  }

  function After(t: Tree, ls: seq<Step>): Tree
    requires Legal(t, ls)
    decreases |ls|
  {
    if ls == [] then t else After(Apply(t, ls[0]), ls[1..])
  }

  /** A freshly reset tree: one root, nothing asked. */
  function Rooted(root: Id, connected: bool): Tree {
    Tree(connected, map[root := Node(-1, None, false)], [], {}, map[])
  }

  /** One node against the record of searches. */
  predicate NodeOk(t: Tree, id: Id)
    requires id in t.nodes
  {
    var n := t.nodes[id];
    && (n.loaded <==> id in t.issued)
    && (id in t.issued ==> n.hasChildren != 0 && n.children.Some? && (id in t.inFlight <==> id !in t.answers))
    && (id in t.answers ==> id in t.issued)
    && Store(n) == (if id in t.answers && t.answers[id].Some? then Ids(t.answers[id].value) else [])
    && (id in t.answers && t.answers[id].Some? ==> Reported(t, t.answers[id].value))
  }

  /** Every child found is in the tree, and is a leaf, an inner node or unknown as found. */
  predicate Reported(t: Tree, cs: seq<Child>) {
    forall i :: 0 <= i < |cs| ==> cs[i].id in t.nodes && t.nodes[cs[i].id].hasChildren == cs[i].hasChildren
  }

  ghost predicate Inv(t: Tree) {
    && NoDup(t.issued)
    && (forall id :: id in t.issued || id in t.inFlight || id in t.answers ==> id in t.nodes)
    && (forall id :: id in t.inFlight ==> id in t.issued)
    && (forall id {:trigger NodeOk(t, id)} :: id in t.nodes ==> NodeOk(t, id))
  }

  lemma {:induction false} NewNodesAre(cs: seq<Child>)
    ensures forall id :: id in NewNodes(cs) <==> id in Ids(cs)
    ensures forall id :: id in NewNodes(cs) ==> NewNodes(cs)[id].children == None && !NewNodes(cs)[id].loaded
    ensures NoDup(Ids(cs)) ==> forall i :: 0 <= i < |cs| ==> cs[i].id in NewNodes(cs) && NewNodes(cs)[cs[i].id].hasChildren == cs[i].hasChildren
    decreases |cs|
  {
    if cs != [] {
      var n := |cs| - 1;
      NewNodesAre(cs[..n]);
      assert Ids(cs) == Ids(cs[..n]) + [cs[n].id];
      if NoDup(Ids(cs)) {
        assert forall i :: 0 <= i < n ==> Ids(cs)[i] == Ids(cs[..n])[i];
        assert forall i :: 0 <= i < n ==> cs[..n][i] == cs[i] && cs[i].id == Ids(cs)[i] && Ids(cs)[i] != Ids(cs)[n];
      }
    }
  }

  lemma StepKeeps(t: Tree, l: Step)
    requires Inv(t) && Enabled(t, l)
    ensures Inv(Apply(t, l))
  {
    var t' := Apply(t, l);
    if l.Expand? || l.Complete? {
      assert NodeOk(t, l.id);
    }
    if l.Complete? && l.found.Some? {
      NewNodesAre(l.found.value);
      forall id | id in Ids(l.found.value) ensures id !in t.nodes {
        var k :| 0 <= k < |l.found.value| && Ids(l.found.value)[k] == id;
        assert l.found.value[k] in l.found.value;
      }
    }
    forall id | id in t'.nodes ensures NodeOk(t', id) {
      if id in t.nodes {
        assert NodeOk(t, id);
      }
    }
  }

  lemma {:induction false} RunKeeps(t: Tree, ls: seq<Step>)
    requires Inv(t) && Legal(t, ls)
    ensures Inv(After(t, ls))
    decreases |ls|
  {
    if ls != [] {
      StepKeeps(t, ls[0]);
      RunKeeps(Apply(t, ls[0]), ls[1..]);
    }
  }

  /** In every run no node is searched for twice, leaves never are, and an answered
      node's store holds exactly the answer, once; a failed search leaves it empty for
      good, since the node still counts as loaded. */
  lemma ChildrenLoadAtMostOnce(root: Id, connected: bool, ls: seq<Step>)
    requires Legal(Rooted(root, connected), ls)
    ensures var t := After(Rooted(root, connected), ls);
            && NoDup(t.issued)
            && (forall id :: id in t.issued ==> id in t.nodes && t.nodes[id].hasChildren != 0)
            && (forall id :: id in t.answers ==>
                  id in t.nodes && Store(t.nodes[id]) == if t.answers[id].Some? then Ids(t.answers[id].value) else [])
            && (forall id :: id in t.answers && t.answers[id].Some? ==> Reported(t, t.answers[id].value))
  {
    RunKeeps(Rooted(root, connected), ls);
    var t := After(Rooted(root, connected), ls);
    forall id | id in t.nodes ensures NodeOk(t, id) {
    }
  }

  /** Somewhere in the run the node was expanded with a connection and not known as a leaf. */
  predicate ExpandedOnline(t: Tree, ls: seq<Step>, id: Id)
    requires Legal(t, ls)
    decreases |ls|
  {
    ls != [] &&
    ((ls[0] == Expand(id) && t.connected && id in t.nodes && t.nodes[id].hasChildren != 0)
     || ExpandedOnline(Apply(t, ls[0]), ls[1..], id))
  }

  /** Searches are sent for exactly the nodes so expanded, whatever else happens. */
  lemma {:induction false} SearchedExactly(t: Tree, ls: seq<Step>, id: Id)
    requires Inv(t) && Legal(t, ls)
    ensures id in After(t, ls).issued <==> id in t.issued || ExpandedOnline(t, ls, id)
    decreases |ls|
  {
    if ls != [] {
      StepKeeps(t, ls[0]);
      if ls[0].Expand? {
        assert NodeOk(t, ls[0].id);
      }
      SearchedExactly(Apply(t, ls[0]), ls[1..], id);
    }
  }

  /** The first expansion of a node under a connection asks once, later ones ask nothing,
      and the answer fills its store. */
  lemma FirstExpansionLoads(t: Tree, id: Id, found: seq<Child>)
    requires Inv(t) && id in t.nodes && t.connected && t.nodes[id].hasChildren != 0 && id !in t.issued
    requires Enabled(Apply(t, Expand(id)), Complete(id, Some(found)))
    ensures var asked := Apply(t, Expand(id));
            var loaded := Apply(asked, Complete(id, Some(found)));
            && asked.issued == t.issued + [id] && id in asked.inFlight
            && Apply(asked, Expand(id)).issued == asked.issued
            && Apply(loaded, Expand(id)).issued == loaded.issued == asked.issued
            && id !in loaded.inFlight && loaded.nodes[id].children == Some(Ids(found))
  {
    assert NodeOk(t, id);
    NewNodesAre(found);
    StepKeeps(t, Expand(id));
    var asked := Apply(t, Expand(id));
    StepKeeps(asked, Complete(id, Some(found)));
    assert [] + Ids(found) == Ids(found);
  }

  /** Without a connection, or on a leaf, nothing is asked and the node stays as ready to
      ask as before; an inner node asks when expanded again after reconnecting. */
  lemma OfflineExpansionAsksNothing(t: Tree, id: Id)
    requires Enabled(t, Expand(id)) && (!t.connected || t.nodes[id].hasChildren == 0)
    ensures var t' := Apply(t, Expand(id));
            t'.issued == t.issued && t'.inFlight == t.inFlight && t'.nodes[id].loaded == t.nodes[id].loaded
    ensures var back := Apply(Apply(t, Expand(id)), SetConnected(true));
            !t.nodes[id].loaded && t.nodes[id].hasChildren != 0 ==> Apply(back, Expand(id)).issued == t.issued + [id]
  {
  }

  /** The node object. */
  class LdapNode {
    var hasChildren: int
    var children: Option<seq<Id>>
    var loaded: bool

    function View(): Node
      reads this
    {
      Node(hasChildren, children, loaded)
    }

    constructor ()
      ensures View() == Node(-1, None, false)
    {
      hasChildren, children, loaded := -1, None, false;
    }

    /** Allocates the store on first access. */
    method GetChildren() returns (store: seq<Id>)
      modifies this`children
      ensures View() == old(View()).(children := Some(Store(old(View())))) && Some(store) == children
    {
      if children.None? {
        children := Some([]);
      }
      store := children.value;
    }

    method CreateChildModel(connected: bool) returns (model: Option<seq<Id>>, search: bool)
      modifies this
      ensures (View(), search) == Expanded(old(View()), connected)
      ensures model == if hasChildren == 0 then None else children
    {
      if hasChildren == 0 {
        return None, false;
      }
      var store := GetChildren();
      search := false;
      if !loaded && connected {
        loaded := true;
        search := true;
      }
      model := Some(store);
    }

    method OnChildrenLoaded(found: Option<seq<Child>>)
      modifies this
      ensures View() == Completed(old(View()), found)
    {
      loaded := true;
      if found.None? {
        return;
      }
      var dest := GetChildren();
      var i := 0;
      assert dest + Ids(found.value)[..0] == dest;
      while i < |found.value|
        invariant 0 <= i <= |found.value|
        invariant children == Some(dest + Ids(found.value)[..i]) && loaded && hasChildren == old(hasChildren)
      {
        assert dest + Ids(found.value)[..i + 1] == dest + Ids(found.value)[..i] + [found.value[i].id];
        children := Some(children.value + [found.value[i].id]);
        i := i + 1;
      }
      assert Ids(found.value)[..i] == Ids(found.value);
    }
  }
}
