/** The tree a JSON text stands for, read recursively, and how a reader without recursion can keep its place. */
module JsonTree {
  import opened JsonText

  /** A name or value's characters, and the position of the first of them. */
  datatype Placed = Placed(at: nat, text: string)

  datatype Tree = Tree(name: Option<Placed>, value: Value)

  datatype Value = Plain(typ: JsonType, chars: Placed) | Nest(isObj: bool, children: seq<Tree>)

  /** The nodes of a tree, or of some trees. */
  function Size(t: Tree): (n: nat)
    ensures n >= 1
    decreases t, 0
  {
    1 + match t.value case Plain(_, _) => 0 case Nest(_, children) => Sizes(children)
  }

  function Sizes(ts: seq<Tree>): (n: nat)
    ensures n >= |ts|
    decreases ts, 1
  {
    if ts == [] then 0 else Size(ts[0]) + Sizes(ts[1..])
  }

  /** A property's name, from its opening quote on, and where its value begins. */
  datatype Named = Named(name: Placed, next: nat)

  function ReadName(s: string, p: nat): (n: Option<Named>)
    requires p < |s|
    ensures n.Some? ==> p < n.value.next < |s|
  {
    if s[p] != '\"' then None
    else match ReadString(s, p + 1)
      case None => None
      case Some(q) =>
        var colon := GoBlank(s, q.next);
        if colon.None? || s[colon.value] != ':' then None
        else match GoBlank(s, colon.value + 1)
          case None => None
          case Some(v) => Some(Named(Placed(p + 1, q.text), v))
  }

  /** A member's name, if it is to have one, and where its value begins. */
  datatype Start = Start(name: Option<Placed>, at: nat)

  function ReadStart(s: string, q: nat, isObj: bool): (r: Option<Start>)
    requires q < |s|
    ensures r.Some? ==> q <= r.value.at < |s|
  {
    if !isObj then Some(Start(None, q))
    else match ReadName(s, q)
      case None => None
      case Some(n) => Some(Start(Some(n.name), n.next))
  }

  /** The members of a container up to its closing bracket, where reading goes on, and the nodes left to use. */
  datatype Items = Items(children: seq<Tree>, next: nat, room: nat)

  function Front(t: Tree, rest: Option<Items>): Option<Items> {
    match rest
    case None => None
    case Some(items) => Some(items.(children := [t] + items.children))
  }

  /**
   * The members from position `p` on, with `room` nodes left. Commas are passed over wherever a member could
   * stand, and none is needed between members.
   */
  function ReadItems(s: string, p: nat, isObj: bool, room: nat): (items: Option<Items>)
    requires p <= |s|
    ensures items.Some? ==> p < items.value.next <= |s| && items.value.room + Sizes(items.value.children) == room
    decreases |s| - p
  {
    var blank := GoBlank(s, p);
    if blank.None? then None
    else
      var q := blank.value;
      if s[q] == ',' then ReadItems(s, q + 1, isObj, room)
      else if s[q] == Closing(isObj) then Some(Items([], q + 1, room))
      else if room == 0 then None
      else match ReadStart(s, q, isObj)
        case None => None
        case Some(Start(name, v)) =>
          if s[v] == '{' || s[v] == '[' then
            var inner := ReadItems(s, v + 1, s[v] == '{', room - 1);
            if inner.None? then None
            else Front(Tree(name, Nest(s[v] == '{', inner.value.children)),
                       ReadItems(s, inner.value.next, isObj, inner.value.room))
          else
            var leaf := ReadLeaf(s, v);
            if leaf.None? then None
            else Front(PlainTree(name, leaf.value), ReadItems(s, leaf.value.next, isObj, room - 1))
  }

  function PlainTree(name: Option<Placed>, l: Leaf): Tree {
    Tree(name, Plain(l.typ, Placed(l.at, l.text)))
  }

  function Closing(isObj: bool): char {
    if isObj then '}' else ']'
  }

  /** A whole document with `qty` nodes at hand: a container, whatever follows it. */
  datatype Document = Document(root: Tree, next: nat)

  function ReadDocument(s: string, qty: nat): (d: Option<Document>)
    requires qty >= 1
    ensures d.Some? ==> Size(d.value.root) <= qty && d.value.next <= |s|
  {
    var p := GoBlank(s, 0);
    if p.None? || !(s[p.value] == '{' || s[p.value] == '[') then None
    else match ReadItems(s, p.value + 1, s[p.value] == '{', qty - 1)
      case None => None
      case Some(items) => Some(Document(Tree(None, Nest(s[p.value] == '{', items.children)), items.next))
  }

  // ---------- Reading without recursion ----------

  /** An open container: its name, its kind, and the members it has so far. */
  datatype Open = Open(name: Option<Placed>, isObj: bool, done: seq<Tree>)

  function Closed(o: Open, more: seq<Tree>): Tree {
    Tree(o.name, Nest(o.isObj, o.done + more))
  }

  function With(stack: seq<Open>, t: Tree): (r: seq<Open>)
    requires stack != []
    ensures |r| == |stack|
  {
    var top := stack[|stack| - 1];
    stack[|stack| - 1 := top.(done := top.done + [t])]
  }

  /** What the recursive reading makes of the rest, the containers of `stack` being open, the innermost last. */
  function Resume(s: string, stack: seq<Open>, p: nat, room: nat): (d: Option<Document>)
    requires stack != [] && p <= |s|
    decreases |stack|
  {
    var top, below := stack[|stack| - 1], stack[..|stack| - 1];
    match ReadItems(s, p, top.isObj, room)
    case None => None
    case Some(items) =>
      if below == [] then Some(Document(Closed(top, items.children), items.next))
      else Resume(s, With(below, Closed(top, items.children)), items.next, items.room)
  }

  lemma StartIsDocument(s: string, qty: nat, p: nat)
    requires qty >= 1 && GoBlank(s, 0) == Some(p) && (s[p] == '{' || s[p] == '[')
    ensures Resume(s, [Open(None, s[p] == '{', [])], p + 1, qty - 1) == ReadDocument(s, qty)
  {
    hide ReadItems;
    var items := ReadItems(s, p + 1, s[p] == '{', qty - 1);
    if items.Some? {
      assert [] + items.value.children == items.value.children;
    }
  }

  lemma CommaPassed(s: string, stack: seq<Open>, p: nat, q: nat, room: nat)
    requires stack != [] && p <= |s| && GoBlank(s, p) == Some(q) && s[q] == ','
    ensures Resume(s, stack, p, room) == Resume(s, stack, q + 1, room)
  {
  }

  lemma BracketCloses(s: string, stack: seq<Open>, p: nat, q: nat, room: nat)
    requires stack != [] && p <= |s| && GoBlank(s, p) == Some(q) && s[q] == Closing(stack[|stack| - 1].isObj)
    ensures var top, below := stack[|stack| - 1], stack[..|stack| - 1];
            Resume(s, stack, p, room) ==
            if below == [] then Some(Document(Closed(top, []), q + 1))
            else Resume(s, With(below, Closed(top, [])), q + 1, room)
  {
  }

  /** A member read first and then the rest is the rest read with that member done. */
  lemma ResumeWith(s: string, stack: seq<Open>, p: nat, room: nat, t: Tree, next: nat, left: nat)
    requires stack != [] && p <= |s| && next <= |s|
    requires var isObj := stack[|stack| - 1].isObj;
             ReadItems(s, p, isObj, room) == Front(t, ReadItems(s, next, isObj, left))
    ensures Resume(s, stack, p, room) == Resume(s, With(stack, t), next, left)
  {
    hide ReadItems;
    var top := stack[|stack| - 1];
    var rest := ReadItems(s, next, top.isObj, left);
    if rest.Some? {
      assert top.done + ([t] + rest.value.children) == (top.done + [t]) + rest.value.children;
      assert With(stack, t)[..|stack| - 1] == stack[..|stack| - 1];
    }
  }

  lemma ItemsOfMember(s: string, p: nat, isObj: bool, room: nat, q: nat, name: Option<Placed>, v: nat)
    requires p <= |s| && MemberAt(s, p, isObj, room, q, name, v)
    ensures ReadItems(s, p, isObj, room) ==
            if s[v] == '{' || s[v] == '[' then
              match ReadItems(s, v + 1, s[v] == '{', room - 1)
              case None => None
              case Some(inner) =>
                Front(Tree(name, Nest(s[v] == '{', inner.children)), ReadItems(s, inner.next, isObj, inner.room))
            else
              match ReadLeaf(s, v)
              case None => None
              case Some(l) => Front(PlainTree(name, l), ReadItems(s, l.next, isObj, room - 1))
  {
    hide ReadLeaf, ReadString, GoBlank, ReadStart;
  }

  /** The value at `v`, of the member at `q`, is plain. */
  lemma LeafRead(s: string, stack: seq<Open>, p: nat, q: nat, room: nat, name: Option<Placed>, v: nat)
    requires stack != [] && p <= |s| && MemberAt(s, p, stack[|stack| - 1].isObj, room, q, name, v)
    requires s[v] != '{' && s[v] != '['
    ensures Resume(s, stack, p, room) ==
            match ReadLeaf(s, v)
            case None => None
            case Some(l) => Resume(s, With(stack, PlainTree(name, l)), l.next, room - 1)
  {
    hide ReadLeaf, ReadItems, ReadStart;
    ItemsOfMember(s, p, stack[|stack| - 1].isObj, room, q, name, v);
    var leaf := ReadLeaf(s, v);
    if leaf.Some? {
      ResumeWith(s, stack, p, room, PlainTree(name, leaf.value), leaf.value.next, room - 1);
    }
  }

  /** The value at `v`, of the member at `q`, is a container. */
  lemma NestOpens(s: string, stack: seq<Open>, p: nat, q: nat, room: nat, name: Option<Placed>, v: nat)
    requires stack != [] && p <= |s| && MemberAt(s, p, stack[|stack| - 1].isObj, room, q, name, v)
    requires s[v] == '{' || s[v] == '['
    ensures Resume(s, stack, p, room) == Resume(s, stack + [Open(name, s[v] == '{', [])], v + 1, room - 1)
  {
    hide ReadItems, ReadStart, GoBlank, ReadLeaf, PlainTree, Closing;
    ItemsOfMember(s, p, stack[|stack| - 1].isObj, room, q, name, v);
    var o := Open(name, s[v] == '{', []);
    assert (stack + [o])[..|stack|] == stack;
    var inner := ReadItems(s, v + 1, s[v] == '{', room - 1);
    if inner.Some? {
      assert [] + inner.value.children == inner.value.children;
      ResumeWith(s, stack, p, room, Closed(o, inner.value.children), inner.value.next, inner.value.room);
    }
  }

  /** After the blanks from `p` a member begins at `q`, with a node for it; its value begins at `v`. */
  predicate MemberAt(s: string, p: nat, isObj: bool, room: nat, q: nat, name: Option<Placed>, v: nat)
    requires p <= |s|
  {
    && GoBlank(s, p) == Some(q) && s[q] != ',' && s[q] != Closing(isObj) && room > 0
    && ReadStart(s, q, isObj) == Some(Start(name, v))
  }

  /** Where the recursive reading fails, so does the other. */
  lemma NoMember(s: string, stack: seq<Open>, p: nat, room: nat)
    requires stack != [] && p <= |s|
    requires var isObj := stack[|stack| - 1].isObj;
             || GoBlank(s, p) == None
             || (var q := GoBlank(s, p).value;
                 s[q] != ',' && s[q] != Closing(isObj) && (room == 0 || ReadStart(s, q, isObj) == None))
    ensures Resume(s, stack, p, room) == None
  {
  }

  // ---------- Names ----------

  predicate NamesAreTexts(ts: seq<Tree>) {
    forall k :: 0 <= k < |ts| ==> NameIsText(ts[k])
  }

  predicate NameIsText(t: Tree) {
    && (t.name.Some? ==> IsText(t.name.value.text))
    && match t.value
       case Plain(_, _) => true
       case Nest(_, children) => forall k :: 0 <= k < |children| ==> NameIsText(children[k])
  }

  lemma StartNameIsText(s: string, q: nat, isObj: bool)
    requires IsText(s) && q < |s| && ReadStart(s, q, isObj).Some?
    ensures var name := ReadStart(s, q, isObj).value.name; name.Some? ==> IsText(name.value.text)
  {
    if isObj {
      DecodedIsText(s, q + 1);
    }
  }

  lemma ItemsOfOther(s: string, p: nat, isObj: bool, room: nat)
    requires p <= |s|
    ensures GoBlank(s, p) == None ==> ReadItems(s, p, isObj, room) == None
    ensures GoBlank(s, p).Some? ==>
              var q := GoBlank(s, p).value;
              && (s[q] == ',' ==> ReadItems(s, p, isObj, room) == ReadItems(s, q + 1, isObj, room))
              && (s[q] == Closing(isObj) ==> ReadItems(s, p, isObj, room) == Some(Items([], q + 1, room)))
              && (s[q] != ',' && s[q] != Closing(isObj) && (room == 0 || ReadStart(s, q, isObj) == None) ==>
                    ReadItems(s, p, isObj, room) == None)
  {
    hide ReadStart, ReadLeaf;
  }

  lemma FrontNames(t: Tree, ts: seq<Tree>)
    requires NameIsText(t) && NamesAreTexts(ts)
    ensures NamesAreTexts([t] + ts)
  {
    hide NameIsText;
  }

  /** The names the recursive reading finds hold no NUL. */
  lemma {:induction false} ReadNamesAreTexts(s: string, p: nat, isObj: bool, room: nat)
    requires IsText(s) && p <= |s| && ReadItems(s, p, isObj, room).Some?
    ensures NamesAreTexts(ReadItems(s, p, isObj, room).value.children)
    decreases |s| - p
  {
    hide IsText, ReadLeaf, ReadStart, ReadItems, NamesAreTexts;
    ItemsOfOther(s, p, isObj, room);
    var q := GoBlank(s, p).value;
    if s[q] == ',' {
      ReadNamesAreTexts(s, q + 1, isObj, room);
    } else if s[q] == Closing(isObj) {
      NoNames();
    } else {
      var start := ReadStart(s, q, isObj).value;
      var v := start.at;
      StartNameIsText(s, q, isObj);
      ItemsOfMember(s, p, isObj, room, q, start.name, v);
      if s[v] == '{' || s[v] == '[' {
        var inner := ReadItems(s, v + 1, s[v] == '{', room - 1).value;
        ReadNamesAreTexts(s, v + 1, s[v] == '{', room - 1);
        ReadNamesAreTexts(s, inner.next, isObj, inner.room);
        NestNames(start.name, s[v] == '{', inner.children);
        FrontNames(Tree(start.name, Nest(s[v] == '{', inner.children)),
          ReadItems(s, inner.next, isObj, inner.room).value.children);
      } else {
        var l := ReadLeaf(s, v).value;
        ReadNamesAreTexts(s, l.next, isObj, room - 1);
        FrontNames(PlainTree(start.name, l), ReadItems(s, l.next, isObj, room - 1).value.children);
      }
    }
  }

  lemma NoNames()
    ensures NamesAreTexts([])
  {
  }

  lemma NestNames(name: Option<Placed>, isObj: bool, children: seq<Tree>)
    requires (name.Some? ==> IsText(name.value.text)) && NamesAreTexts(children)
    ensures NameIsText(Tree(name, Nest(isObj, children)))
  {
  }

  lemma DocumentNamesAreTexts(s: string, qty: nat)
    requires IsText(s) && qty >= 1 && ReadDocument(s, qty).Some?
    ensures NameIsText(ReadDocument(s, qty).value.root)
  {
    hide ReadItems, IsText;
    var p := GoBlank(s, 0).value;
    ReadNamesAreTexts(s, p + 1, s[p] == '{', qty - 1);
  }
}
