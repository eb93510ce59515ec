/** How a tree lies in the node pool: in document order, linked by child and sibling. */
module JsonNodes {
  import opened JsonText
  import opened JsonTree

  /** A node's value position and its child links share storage. A container without child has no last child set. */
  datatype Shared = ValueAt(at: nat) | Links(child: Option<nat>, last: nat)

  datatype Node = Node(sibling: Option<nat>, name: Option<nat>, u: Shared, typ: JsonType)

  function ContainerType(isObj: bool): JsonType {
    if isObj then JSON_OBJ else JSON_ARRAY
  }

  function NamePosition(name: Option<Placed>): Option<nat> {
    match name
    case None => None
    case Some(c) => Some(c.at)
  }

  function FirstAt(base: nat, ts: seq<Tree>): Option<nat> {
    if ts == [] then None else Some(base)
  }

  /** Node `i` and those after it are tree `t`, the node's sibling being `sibling`. */
  predicate Laid(nodes: seq<Node>, i: nat, t: Tree, sibling: Option<nat>)
    decreases t, 0
  {
    && i < |nodes| && nodes[i].sibling == sibling && nodes[i].name == NamePosition(t.name)
    && match t.value
       case Plain(typ, chars) => nodes[i].typ == typ && nodes[i].u == ValueAt(chars.at)
       case Nest(isObj, children) =>
         && nodes[i].typ == ContainerType(isObj) && nodes[i].u.Links? && nodes[i].u.child == FirstAt(i + 1, children)
         && LaidList(nodes, i + 1, children, None)
  }

  /**
   * The nodes from `base` on are the trees `ts`, each the sibling of the one before, the last's sibling being
   * `end`.
   */
  predicate LaidList(nodes: seq<Node>, base: nat, ts: seq<Tree>, end: Option<nat>)
    decreases ts, 1
  {
    ts == [] ||
    (&& Laid(nodes, base, ts[0], if |ts| == 1 then end else Some(base + Size(ts[0])))
     && LaidList(nodes, base + Size(ts[0]), ts[1..], end))
  }

  /** The last of the trees' nodes that are siblings. */
  function LastAt(base: nat, ts: seq<Tree>): nat
    requires ts != []
    decreases |ts|
  {
    if |ts| == 1 then base else LastAt(base + Size(ts[0]), ts[1..])
  }

  lemma {:induction false} LastInside(base: nat, ts: seq<Tree>)
    requires ts != []
    ensures base <= LastAt(base, ts) < base + Sizes(ts)
    decreases |ts|
  {
    if |ts| != 1 {
      LastInside(base + Size(ts[0]), ts[1..]);
    }
  }

  lemma {:induction false} SizesAppend(ts: seq<Tree>, t: Tree)
    ensures Sizes(ts + [t]) == Sizes(ts) + Size(t)
    decreases |ts|
  {
    if ts == [] {
      assert [t][1..] == [];
      assert ts + [t] == [t];
    } else {
      SizesAppend(ts[1..], t);
      assert (ts + [t])[1..] == ts[1..] + [t];
    }
  }

  lemma {:induction false} LastAppend(base: nat, ts: seq<Tree>, t: Tree)
    ensures LastAt(base, ts + [t]) == base + Sizes(ts)
    decreases |ts|
  {
    if ts != [] {
      LastAppend(base + Size(ts[0]), ts[1..], t);
      assert (ts + [t])[1..] == ts[1..] + [t];
    }
  }

  /** Only the tree's own nodes matter. */
  lemma {:induction false} LaidKept(nodes: seq<Node>, other: seq<Node>, i: nat, t: Tree, sibling: Option<nat>)
    requires Laid(nodes, i, t, sibling) && i + Size(t) <= |other|
    requires forall k :: i <= k < i + Size(t) && k < |nodes| ==> other[k] == nodes[k]
    ensures Laid(other, i, t, sibling)
    decreases t, 0
  {
    match t.value
    case Plain(_, _) =>
    case Nest(_, children) => LaidListKept(nodes, other, i + 1, children, None);
  }

  lemma {:induction false} LaidListKept(nodes: seq<Node>, other: seq<Node>, base: nat, ts: seq<Tree>, end: Option<nat>)
    requires LaidList(nodes, base, ts, end) && base + Sizes(ts) <= |other|
    requires forall k :: base <= k < base + Sizes(ts) && k < |nodes| ==> other[k] == nodes[k]
    ensures LaidList(other, base, ts, end)
    decreases ts, 1
  {
    if ts != [] {
      LaidKept(nodes, other, base, ts[0], if |ts| == 1 then end else Some(base + Size(ts[0])));
      LaidListKept(nodes, other, base + Size(ts[0]), ts[1..], end);
    }
  }

  lemma RelinkedOne(nodes: seq<Node>, i: nat, t: Tree, sibling: Option<nat>, other: Option<nat>)
    requires Laid(nodes, i, t, sibling) && i + Size(t) <= |nodes|
    ensures Laid(nodes[i := nodes[i].(sibling := other)], i, t, other)
  {
    match t.value
    case Plain(_, _) =>
    case Nest(_, children) => LaidListKept(nodes, nodes[i := nodes[i].(sibling := other)], i + 1, children, None);
  }

  lemma OneLaid(nodes: seq<Node>, base: nat, ts: seq<Tree>, end: Option<nat>)
    requires |ts| == 1 && Laid(nodes, base, ts[0], end)
    ensures LaidList(nodes, base, ts, end)
  {
    assert ts[1..] == [];
  }

  /** Linking the last tree to something else. */
  lemma {:induction false} Relinked(nodes: seq<Node>, base: nat, ts: seq<Tree>, end: Option<nat>, other: Option<nat>)
    requires ts != [] && LaidList(nodes, base, ts, end) && base + Sizes(ts) <= |nodes|
    ensures LastAt(base, ts) < |nodes|
    ensures var l := LastAt(base, ts); LaidList(nodes[l := nodes[l].(sibling := other)], base, ts, other)
    decreases |ts|
  {
    LastInside(base, ts);
    var l := LastAt(base, ts);
    var linked := nodes[l := nodes[l].(sibling := other)];
    if |ts| == 1 {
      RelinkedOne(nodes, base, ts[0], end, other);
      OneLaid(linked, base, ts, other);
    } else {
      LastInside(base + Size(ts[0]), ts[1..]);
      Relinked(nodes, base + Size(ts[0]), ts[1..], end, other);
      LaidKept(nodes, linked, base, ts[0], Some(base + Size(ts[0])));
    }
  }

  /** One more tree behind those that link to it. */
  lemma {:induction false} Appended(nodes: seq<Node>, base: nat, ts: seq<Tree>, t: Tree, end: Option<nat>)
    requires LaidList(nodes, base, ts, Some(base + Sizes(ts))) && Laid(nodes, base + Sizes(ts), t, end)
    ensures LaidList(nodes, base, ts + [t], end)
    decreases |ts|
  {
    if ts == [] {
      assert ts + [t] == [t];
      assert [t][1..] == [];
    } else {
      Appended(nodes, base + Size(ts[0]), ts[1..], t, end);
      assert (ts + [t])[1..] == ts[1..] + [t];
    }
  }

  // ---------- Following the links ----------

  /** The nodes met from `i`, each node's children before its sibling; `fuel` bounds their number. */
  function Walk(nodes: seq<Node>, i: Option<nat>, fuel: nat): seq<nat>
    decreases fuel
  {
    match i
    case None => []
    case Some(k) =>
      if fuel == 0 || k >= |nodes| then []
      else
        var inner := if nodes[k].u.Links? then Walk(nodes, nodes[k].u.child, fuel - 1) else [];
        [k] + inner + Walk(nodes, nodes[k].sibling, fuel - 1)
  }

  function Range(from: nat, n: nat): (r: seq<nat>)
    ensures |r| == n
    ensures forall k {:trigger r[k]} :: 0 <= k < n ==> r[k] == from + k
  {
    seq(n, k => from + k)
  }

  /** The links lead through the trees' nodes one by one in document order, to each once, and nowhere else. */
  lemma {:induction false} WalkVisitsAll(nodes: seq<Node>, base: nat, ts: seq<Tree>, fuel: nat)
    requires LaidList(nodes, base, ts, None) && Sizes(ts) <= fuel
    ensures Walk(nodes, FirstAt(base, ts), fuel) == Range(base, Sizes(ts))
    decreases Sizes(ts)
  {
    if ts != [] {
      var t, rest := ts[0], ts[1..];
      WalkVisitsAll(nodes, base + Size(t), rest, fuel - 1);
      assert nodes[base].sibling == FirstAt(base + Size(t), rest);
      match t.value {
        case Plain(_, _) =>
          assert Range(base, 1) == [base];
        case Nest(_, children) =>
          WalkVisitsAll(nodes, base + 1, children, fuel - 1);
          assert Range(base, Size(t)) == [base] + Range(base + 1, Sizes(children));
      }
      assert Range(base, Sizes(ts)) == Range(base, Size(t)) + Range(base + Size(t), Sizes(rest));
    }
  }

  // ---------- Open containers ----------

  /** Where the innermost open container's node is. */
  function Place(stack: seq<Open>): nat
    requires stack != []
    decreases |stack|
  {
    if |stack| == 1 then 0
    else Place(stack[..|stack| - 1]) + 1 + Sizes(stack[|stack| - 2].done)
  }

  /** An open container's sibling is its parent; the outermost has none. */
  function Parent(stack: seq<Open>): Option<nat>
    requires stack != []
  {
    if |stack| == 1 then None else Some(Place(stack[..|stack| - 1]))
  }

  predicate Header(n: Node, o: Open, parent: Option<nat>) {
    n.sibling == parent && n.name == NamePosition(o.name) && n.typ == ContainerType(o.isObj) && n.u.Links?
  }

  /** The innermost open container at `i`. */
  predicate TopLaid(nodes: seq<Node>, i: nat, o: Open, parent: Option<nat>) {
    && i < |nodes| && Header(nodes[i], o, parent)
    && nodes[i].u.child == FirstAt(i + 1, o.done) && (o.done != [] ==> nodes[i].u.last == LastAt(i + 1, o.done))
    && LaidList(nodes, i + 1, o.done, None)
  }

  /** An open container at `i` whose last child, at `next`, is open as well. */
  predicate UpperLaid(nodes: seq<Node>, i: nat, o: Open, parent: Option<nat>, next: nat) {
    && i < |nodes| && Header(nodes[i], o, parent)
    && nodes[i].u.child == Some(i + 1) && nodes[i].u.last == next && next == i + 1 + Sizes(o.done)
    && LaidList(nodes, i + 1, o.done, Some(next))
  }

  predicate BelowLaid(nodes: seq<Node>, stack: seq<Open>, next: nat)
    decreases |stack|
  {
    if stack == [] then next == 0
    else
      && UpperLaid(nodes, Place(stack), stack[|stack| - 1], Parent(stack), next)
      && BelowLaid(nodes, stack[..|stack| - 1], Place(stack))
  }

  /** All of the pool in use: the open containers and their members so far. */
  predicate StackLaid(nodes: seq<Node>, stack: seq<Open>)
    requires stack != []
  {
    && TopLaid(nodes, Place(stack), stack[|stack| - 1], Parent(stack))
    && BelowLaid(nodes, stack[..|stack| - 1], Place(stack))
  }

  function Used(stack: seq<Open>): nat
    requires stack != []
  {
    Place(stack) + 1 + Sizes(stack[|stack| - 1].done)
  }

  lemma {:induction false} BelowKept(nodes: seq<Node>, other: seq<Node>, stack: seq<Open>, next: nat)
    requires BelowLaid(nodes, stack, next) && next <= |other| && next <= |nodes| && nodes[..next] == other[..next]
    ensures BelowLaid(other, stack, next)
    decreases |stack|
  {
    if stack != [] {
      var i, o := Place(stack), stack[|stack| - 1];
      forall k | 0 <= k < next ensures other[k] == nodes[k] {
        assert nodes[..next][k] == other[..next][k];
      }
      LaidListKept(nodes, other, i + 1, o.done, Some(next));
      assert nodes[..i] == nodes[..next][..i] == other[..next][..i] == other[..i];
      BelowKept(nodes, other, stack[..|stack| - 1], i);
    }
  }

  // ---------- The steps on the pool ----------

  /** Links `new`, now holding `node`, behind the last child of `i`. */
  function Added(nodes: seq<Node>, i: nat, new_: nat, node: Node): (r: seq<Node>)
    requires i < |nodes| && new_ < |nodes| && nodes[i].u.Links? && i != new_
    requires nodes[i].u.child.Some? ==> nodes[i].u.last < |nodes|
    ensures |r| == |nodes|
  {
    var held := nodes[new_ := node];
    if held[i].u.child.None? then held[i := held[i].(u := Links(Some(new_), new_))]
    else
      var last := held[i].u.last;
      var linked := held[last := held[last].(sibling := Some(new_))];
      linked[i := linked[i].(u := Links(held[i].u.child, new_))]
  }

  lemma LastBeforeNew(nodes: seq<Node>, i: nat, o: Open, parent: Option<nat>)
    requires TopLaid(nodes, i, o, parent) && i + 1 + Sizes(o.done) < |nodes|
    ensures nodes[i].u.child.Some? ==> i < nodes[i].u.last < i + 1 + Sizes(o.done)
  {
    if o.done != [] {
      LastInside(i + 1, o.done);
    }
  }

  lemma ChildAdded(nodes: seq<Node>, i: nat, o: Open, parent: Option<nat>, node: Node)
    requires TopLaid(nodes, i, o, parent) && i + 1 + Sizes(o.done) < |nodes|
    ensures nodes[i].u.child.Some? ==> nodes[i].u.last < |nodes|
    ensures var a := Added(nodes, i, i + 1 + Sizes(o.done), node);
            && UpperLaid(a, i, o, parent, i + 1 + Sizes(o.done)) && a[i + 1 + Sizes(o.done)] == node
            && a[..i] == nodes[..i]
  {
    var n := i + 1 + Sizes(o.done);
    LastBeforeNew(nodes, i, o, parent);
    var a := Added(nodes, i, n, node);
    if o.done != [] {
      Relinked(nodes, i + 1, o.done, None, Some(n));
      var l := LastAt(i + 1, o.done);
      LaidListKept(nodes[l := nodes[l].(sibling := Some(n))], a, i + 1, o.done, Some(n));
    }
  }

  /** The open last child has become a finished one. */
  lemma UpperBecomesTop(nodes: seq<Node>, i: nat, o: Open, parent: Option<nat>, t: Tree)
    requires UpperLaid(nodes, i, o, parent, i + 1 + Sizes(o.done)) && Laid(nodes, i + 1 + Sizes(o.done), t, None)
    ensures TopLaid(nodes, i, o.(done := o.done + [t]), parent) && Sizes(o.done + [t]) == Sizes(o.done) + Size(t)
  {
    hide LaidList, Laid;
    Appended(nodes, i + 1, o.done, t, None);
    SizesAppend(o.done, t);
    LastAppend(i + 1, o.done, t);
  }

  /** A leaf is added: the innermost container has one member more. */
  lemma LeafAdded(nodes: seq<Node>, stack: seq<Open>, node: Node, t: Tree)
    requires stack != [] && StackLaid(nodes, stack) && Used(stack) < |nodes| && t.value.Plain?
    requires node == Node(None, NamePosition(t.name), ValueAt(t.value.chars.at), t.value.typ)
    ensures nodes[Place(stack)].u.Links? && (nodes[Place(stack)].u.child.Some? ==> nodes[Place(stack)].u.last < |nodes|)
    ensures StackLaid(Added(nodes, Place(stack), Used(stack), node), With(stack, t))
    ensures Used(With(stack, t)) == Used(stack) + 1
  {
    hide Added, LaidList, Laid, UpperLaid, BelowLaid, Place, Parent, Sizes;
    var i, o, below := Place(stack), stack[|stack| - 1], stack[..|stack| - 1];
    LinksInside(nodes, i, o, Parent(stack));
    ChildAdded(nodes, i, o, Parent(stack), node);
    var a := Added(nodes, i, Used(stack), node);
    LeafLaid(a, Used(stack), t);
    UpperBecomesTop(a, i, o, Parent(stack), t);
    BelowKept(nodes, a, below, i);
    SamePlace(stack, t);
  }

  lemma LinksInside(nodes: seq<Node>, i: nat, o: Open, parent: Option<nat>)
    requires TopLaid(nodes, i, o, parent)
    ensures nodes[i].u.Links?
  {
  }

  lemma LeafLaid(nodes: seq<Node>, i: nat, t: Tree)
    requires t.value.Plain? && i < |nodes|
    requires nodes[i] == Node(None, NamePosition(t.name), ValueAt(t.value.chars.at), t.value.typ)
    ensures Laid(nodes, i, t, None)
  {
  }

  lemma SamePlace(stack: seq<Open>, t: Tree)
    requires stack != []
    ensures With(stack, t)[..|stack| - 1] == stack[..|stack| - 1]
    ensures Place(With(stack, t)) == Place(stack) && Parent(With(stack, t)) == Parent(stack)
  {
  }

  /** A container is opened as the last child of the innermost, which is its sibling until it closes. */
  lemma NestAdded(nodes: seq<Node>, stack: seq<Open>, node: Node, o: Open)
    requires stack != [] && StackLaid(nodes, stack) && Used(stack) < |nodes| && o.done == []
    requires Header(node, o, Some(Place(stack))) && node.u.child == None
    ensures nodes[Place(stack)].u.Links? && (nodes[Place(stack)].u.child.Some? ==> nodes[Place(stack)].u.last < |nodes|)
    ensures var pushed := stack + [o];
            && StackLaid(Added(nodes, Place(stack), Used(stack), node), pushed)
            && Place(pushed) == Used(stack) && Used(pushed) == Used(stack) + 1
  {
    hide Added, Laid, LaidList, UpperLaid, TopLaid;
    var i, below, top := Place(stack), stack[..|stack| - 1], stack[|stack| - 1];
    LinksInside(nodes, i, top, Parent(stack));
    ChildAdded(nodes, i, top, Parent(stack), node);
    var added := Added(nodes, i, Used(stack), node);
    BelowKept(nodes, added, below, i);
    assert (stack + [o])[..|stack|] == stack;
    EmptyLaid(added, Used(stack), o, Some(i));
  }

  lemma EmptyLaid(nodes: seq<Node>, i: nat, o: Open, parent: Option<nat>)
    requires i < |nodes| && Header(nodes[i], o, parent) && nodes[i].u.child == None && o.done == []
    ensures TopLaid(nodes, i, o, parent)
  {
  }

  lemma ContainerLaid(nodes: seq<Node>, i: nat, o: Open, parent: Option<nat>)
    requires TopLaid(nodes, i, o, parent) && i + 1 + Sizes(o.done) <= |nodes|
    ensures Laid(nodes[i := nodes[i].(sibling := None)], i, Closed(o, []), None)
    ensures Size(Closed(o, [])) == 1 + Sizes(o.done)
  {
    assert o.done + [] == o.done;
    LaidListKept(nodes, nodes[i := nodes[i].(sibling := None)], i + 1, o.done, None);
  }

  lemma UpperKept(nodes: seq<Node>, other: seq<Node>, i: nat, o: Open, parent: Option<nat>, next: nat)
    requires UpperLaid(nodes, i, o, parent, next) && next <= |nodes| <= |other|
    requires forall k :: i <= k < next ==> other[k] == nodes[k]
    ensures UpperLaid(other, i, o, parent, next) && next == i + 1 + Sizes(o.done)
  {
    hide LaidList;
    LaidListKept(nodes, other, i + 1, o.done, Some(next));
  }

  /** The innermost container is closed and its own sibling link cleared: it is the last member of its parent. */
  lemma NestClosed(nodes: seq<Node>, stack: seq<Open>)
    requires |stack| > 1 && StackLaid(nodes, stack) && Used(stack) <= |nodes|
    ensures nodes[Place(stack)].sibling == Some(Place(stack[..|stack| - 1]))
    ensures var i, popped := Place(stack), With(stack[..|stack| - 1], Closed(stack[|stack| - 1], []));
            && StackLaid(nodes[i := nodes[i].(sibling := None)], popped)
            && Place(popped) == Place(stack[..|stack| - 1]) && Used(popped) == Used(stack)
  {
    hide LaidList, Laid, UpperLaid;
    var i, top, below := Place(stack), stack[|stack| - 1], stack[..|stack| - 1];
    var t, o, p := Closed(top, []), below[|below| - 1], Place(below);
    var a := nodes[i := nodes[i].(sibling := None)];
    ContainerLaid(nodes, i, top, Parent(stack));
    UpperKept(nodes, a, p, o, Parent(below), i);
    UpperBecomesTop(a, p, o, Parent(below), t);
    assert nodes[..p] == a[..p];
    BelowKept(nodes, a, below[..|below| - 1], p);
    SamePlace(below, t);
  }
}
