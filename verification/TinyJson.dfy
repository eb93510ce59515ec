/** The JSON parser as it runs: over the text in place, with the stack of open containers kept in sibling links. */
module TinyJson {
  import opened JsonText
  import opened JsonTree
  import opened JsonNodes
  import opened JsonInPlace

  // ---------- Primitive values ----------

  /** Puts a NUL over what ends a primitive, unless that closes a block. */
  method setToNull(str: array<char>, ptr: nat, e: nat, ghost s: string) returns (next: nat)
    requires IsText(s) && Unread(str[..], s, ptr) && ptr <= e < |s| && IsEndOfPrimitive(s[e])
    modifies str
    ensures next == if IsEndOfBlock(s[e]) then e else e + 1
    ensures str[..ptr] == old(str[..ptr]) && Unread(str[..], s, next) && Settled(str[..], next, Placed(ptr, s[ptr..e]))
  {
    UnreadAt(str[..], s, ptr, e);
    UnreadPart(str[..], s, ptr, e);
    ghost var before := str[..];
    if !IsEndOfBlock(str[e]) {
      UnreadAt(before, s, ptr, e + 1);
      str[e] := NUL;
      assert str[..] == before[e := NUL];
      UnreadKept(before, s, e + 1, e, NUL);
      assert str[..][ptr..e] == before[ptr..e];
      next := e + 1;
    } else {
      next := e;
    }
  }

  lemma UnreadPart(text: string, s: string, p: nat, e: nat)
    requires Unread(text, s, p) && p <= e <= |s|
    ensures text[p..e] == s[p..e]
  {
    assert text[p..e] == text[p..|s|][..e - p] == s[p..][..e - p];
  }

  lemma Differs(s: string, p: nat, word: string, k: nat)
    requires k < |word| && At(s, p + k) != word[k] && word[k] != NUL
    ensures !Stands(s, p, word)
  {
    if p + |word| <= |s| {
      assert s[p..p + |word|][k] == s[p + k];
    }
  }

  /** Compares with `word` up to the first difference. */
  method checkStr(str: array<char>, ptr: nat, word: string, ghost s: string) returns (ok: bool)
    requires IsText(s) && Unread(str[..], s, ptr) && NUL !in word
    ensures ok == Stands(s, ptr, word)
  {
    hide Unread;
    UnreadInside(str[..], s, ptr);
    var k := 0;
    while k < |word|
      invariant 0 <= k <= |word| && ptr + k <= |s|
      invariant s[ptr..ptr + k] == word[..k]
    {
      UnreadAt(str[..], s, ptr, ptr + k);
      if str[ptr + k] != word[k] {
        Differs(s, ptr, word, k);
        return false;
      }
      assert s[ptr..ptr + k + 1] == s[ptr..ptr + k] + [s[ptr + k]];
      assert word[..k + 1] == word[..k] + [word[k]];
      k := k + 1;
    }
    assert word[..k] == word;
    return true;
  }

  /** What a value routine leaves behind for the value read as `l`. */
  ghost predicate LeafLeft(text: string, s: string, l: Option<Leaf>, typ: JsonType, at: nat, next: Option<nat>) {
    match l
    case None => next == None
    case Some(leaf) =>
      && next == Some(leaf.next) && typ == leaf.typ && at == leaf.at
      && Unread(text, s, leaf.next) && Settled(text, leaf.next, Placed(leaf.at, leaf.text))
  }

  method primitiveValue(str: array<char>, ptr: nat, value: string, typ: JsonType, ghost s: string)
    returns (next: Option<nat>)
    requires IsText(s) && Unread(str[..], s, ptr) && NUL !in value
    modifies str
    ensures str[..ptr] == old(str[..ptr])
    ensures LeafLeft(str[..], s, ReadLiteral(s, ptr, value, typ), typ, ptr, next)
  {
    hide Unread, Settled;
    var ok := checkStr(str, ptr, value, s);
    if !ok {
      return None;
    }
    var e := ptr + |value|;
    UnreadInside(str[..], s, ptr);
    UnreadAt(str[..], s, ptr, e);
    if !IsEndOfPrimitive(str[e]) {
      return None;
    }
    var after := setToNull(str, ptr, e, s);
    return Some(after);
  }

  /** Whether the NUL-ended digits at `value` come after `limit` in the order of strings. */
  method exceeds(str: array<char>, value: nat, limit: string, ghost t: string) returns (more: bool)
    requires value + |t| < str.Length && str[value..value + |t|] == t && |t| == |limit|
    ensures more == Less(limit, t)
  {
    var k := 0;
    while k < |limit| && str[value + k] == limit[k]
      invariant 0 <= k <= |limit| && Less(limit, t) == Less(limit[k..], t[k..])
    {
      assert str[value + k] == str[value..value + |t|][k];
      k := k + 1;
    }
    if k < |limit| {
      assert str[value + k] == str[value..value + |t|][k];
    }
    return k < |limit| && limit[k] < str[value + k];
  }

  /** The range test: the digits are ended for the comparison, and what ended them is put back if they pass. */
  method integerFits(str: array<char>, ptr: nat, e: nat, ghost s: string) returns (ok: bool)
    requires IsText(s) && Unread(str[..], s, ptr) && ptr < e < |s|
    modifies str
    ensures ok == InRange(s[ptr..e])
    ensures str[..] == old(str[..]) || (!ok && str[..] == old(str[..])[e := NUL])
  {
    UnreadAt(str[..], s, ptr, ptr);
    UnreadPart(str[..], s, ptr, e);
    var negative := str[ptr] == '-';
    var limit := if negative then MIN else MAX;
    if e - ptr > |limit| {
      return false;
    }
    ok := true;
    if e - ptr == |limit| {
      ghost var before := str[..];
      var tmp := str[e];
      str[e] := NUL;
      assert str[..] == before[e := NUL];
      assert str[..][ptr..e] == before[ptr..e];
      var more := exceeds(str, ptr, limit, s[ptr..e]);
      if more {
        return false;
      }
      str[e] := tmp;
      assert str[..] == before;
    }
  }

  method wholeEnd(str: array<char>, ptr: nat, ghost s: string) returns (q: Option<nat>)
    requires IsText(s) && Unread(str[..], s, ptr)
    ensures q == WholeEnd(s, ptr)
  {
    hide Unread, GoNum;
    UnreadInside(str[..], s, ptr);
    UnreadAt(str[..], s, ptr, ptr);
    var d := if str[ptr] == '-' then ptr + 1 else ptr;
    UnreadAt(str[..], s, ptr, d);
    if !IsDigit(str[d]) {
      return None;
    }
    if str[d] != '0' {
      q := goNum(str, d, s);
    } else {
      UnreadAt(str[..], s, ptr, d + 1);
      q := if IsDigit(str[d + 1]) then None else Some(d + 1);
    }
  }

  method fraqEnd(str: array<char>, q: nat, ghost s: string) returns (r: Option<nat>)
    requires IsText(s) && Unread(str[..], s, q)
    ensures r == FractionEnd(s, q)
  {
    hide Unread, GoNum;
    UnreadInside(str[..], s, q);
    UnreadAt(str[..], s, q, q);
    if str[q] != '.' {
      return Some(q);
    }
    UnreadAt(str[..], s, q, q + 1);
    if !IsDigit(str[q + 1]) {
      return None;
    }
    UnreadAt(str[..], s, q, q + 2);
    r := goNum(str, q + 2, s);
  }

  method expEnd(str: array<char>, q: nat, ghost s: string) returns (r: Option<nat>)
    requires IsText(s) && Unread(str[..], s, q)
    ensures r == ExponentEnd(s, q)
  {
    hide Unread, GoNum;
    UnreadInside(str[..], s, q);
    UnreadAt(str[..], s, q, q);
    if str[q] != 'e' && str[q] != 'E' {
      return Some(q);
    }
    UnreadAt(str[..], s, q, q + 1);
    var d := if str[q + 1] == '-' || str[q + 1] == '+' then q + 2 else q + 1;
    UnreadAt(str[..], s, q, d);
    if !IsDigit(str[d]) {
      return None;
    }
    UnreadAt(str[..], s, q, d + 1);
    r := goNum(str, d + 1, s);
  }

  method numValue(str: array<char>, ptr: nat, ghost s: string) returns (next: Option<nat>, typ: JsonType)
    requires IsText(s) && Unread(str[..], s, ptr)
    modifies str
    ensures str[..ptr] == old(str[..ptr])
    ensures LeafLeft(str[..], s, ReadNumber(s, ptr), typ, ptr, next)
  {
    hide Unread, Settled, WholeEnd, FractionEnd, ExponentEnd, InRange;
    UnreadInside(str[..], s, ptr);
    next, typ := None, JSON_INTEGER;
    var whole := wholeEnd(str, ptr, s);
    if whole.None? {
      return;
    }
    UnreadAt(str[..], s, ptr, whole.value);
    var fraction := fraqEnd(str, whole.value, s);
    if fraction.None? {
      return;
    }
    UnreadAt(str[..], s, ptr, fraction.value);
    var exponent := expEnd(str, fraction.value, s);
    if exponent.None? {
      return;
    }
    var e := exponent.value;
    UnreadAt(str[..], s, ptr, e);
    typ := if e == whole.value then JSON_INTEGER else JSON_REAL;
    if !IsEndOfPrimitive(str[e]) {
      return;
    }
    if typ == JSON_INTEGER {
      var ok := integerFits(str, ptr, e, s);
      if !ok {
        return;
      }
    }
    var after := setToNull(str, ptr, e, s);
    next := Some(after);
  }

  /** A value that is no container, told by its first character. */
  method leafValue(str: array<char>, ptr: nat, ghost s: string) returns (next: Option<nat>, typ: JsonType, at: nat)
    requires IsText(s) && Unread(str[..], s, ptr) && ptr < |s|
    modifies str
    ensures str[..ptr] == old(str[..ptr])
    ensures LeafLeft(str[..], s, ReadLeaf(s, ptr), typ, at, next)
  {
    hide Unread, Settled, ReadNumber, ReadLiteral, ReadString;
    UnreadInside(str[..], s, ptr);
    UnreadAt(str[..], s, ptr, ptr);
    at := ptr;
    match str[ptr] {
    case '\"' =>
      UnreadAt(str[..], s, ptr, ptr + 1);
      next := parseString(str, ptr + 1, s);
      typ, at := JSON_TEXT, ptr + 1;
      TextLeft(str[..], s, ptr, next);
      assert str[..ptr] == str[..ptr + 1][..ptr] && old(str[..ptr]) == old(str[..ptr + 1])[..ptr];
    case 't' =>
      typ := JSON_BOOLEAN;
      next := primitiveValue(str, ptr, "true", typ, s);
    case 'f' =>
      typ := JSON_BOOLEAN;
      next := primitiveValue(str, ptr, "false", typ, s);
    case 'n' =>
      typ := JSON_NULL;
      next := primitiveValue(str, ptr, "null", typ, s);
    case _ =>
      next, typ := numValue(str, ptr, s);
    }
  }

  lemma TextLeft(text: string, s: string, ptr: nat, next: Option<nat>)
    requires ptr < |s| && s[ptr] == '\"'
    requires match ReadString(s, ptr + 1)
             case None => next == None
             case Some(q) => next == Some(q.next) && Unread(text, s, q.next) && Ended(text, Placed(ptr + 1, q.text))
    ensures LeafLeft(text, s, ReadLeaf(s, ptr), JSON_TEXT, ptr + 1, next)
  {
    hide ReadString;
  }

  // ---------- The reader ----------

  lemma LeafStart(s: string, v: nat)
    requires v < |s| && ReadLeaf(s, v).Some?
    ensures !IsEndOfBlock(s[v])
  {
  }

  lemma NotAtBracket(s: string, p: nat, q: nat)
    requires p <= |s| && GoBlank(s, p) == Some(q) && !IsEndOfBlock(s[q])
    ensures p <= q && !IsEndOfBlock(s[p])
  {
  }

  /** Links that only differ in what the new node holds. */
  lemma HeldLater(nodes: seq<Node>, i: nat, n: nat, node: Node, other: Node)
    requires i < |nodes| && n < |nodes| && nodes[i].u.Links? && i != n
    requires nodes[i].u.child.Some? ==> nodes[i].u.last < |nodes| && nodes[i].u.last != n
    ensures Added(nodes, i, n, node)[n := other] == Added(nodes, i, n, other)
  {
  }

  class JsonReader {
    const str: array<char>
    const mem: array<Node>
    var nextFree: nat
    ghost const s: string

    constructor (str: array<char>, mem: array<Node>, ghost s: string)
      ensures this.str == str && this.mem == mem && this.s == s && nextFree == 1
    {
      this.str, this.mem, this.s, nextFree := str, mem, s, 1;
    }

    /** The containers of `stack` are open, `obj` the innermost; the text is unread from `ptr` on. */
    ghost predicate Reading(stack: seq<Open>, obj: nat, ptr: nat)
      reads this, str, mem
    {
      && IsText(s) && stack != [] && Unread(str[..], s, ptr) && StackSettled(str[..], ptr, stack)
      && StackLaid(mem[..], stack) && obj == Place(stack) && nextFree == Used(stack) <= mem.Length
    }

    /** Passing a comma. */
    lemma CommaKeepsReading(stack: seq<Open>, obj: nat, ptr: nat, q: nat)
      requires Reading(stack, obj, ptr) && GoBlank(s, ptr) == Some(q) && s[q] == ','
      ensures Reading(stack, obj, q + 1)
    {
      hide StackLaid, StackSettled, Unread;
      UnreadInside(str[..], s, ptr);
      UnreadAt(str[..], s, ptr, ptr);
      UnreadAt(str[..], s, ptr, q + 1);
      NotAtBracket(s, ptr, q);
      StackOnwards(str[..], ptr, str[..], q + 1, stack);
    }

    /** The innermost container's closing bracket stands at `q`: a NUL is put over it and its parent goes on. */
    method closeContainer(obj: nat, ptr: nat, q: nat, ghost stack: seq<Open>) returns (parent: Option<nat>)
      requires Reading(stack, obj, ptr) && GoBlank(s, ptr) == Some(q) && s[q] == Closing(stack[|stack| - 1].isObj)
      requires stack[0].name == None
      modifies str, mem
      ensures nextFree == old(nextFree) && (parent.None? <==> |stack| == 1)
      ensures var closed := Closed(stack[|stack| - 1], []);
              if |stack| == 1 then
                Laid(mem[..], 0, closed, None) && TreeEnded(str[..], closed) && Size(closed) == nextFree
              else
                Reading(With(stack[..|stack| - 1], closed), parent.value, q + 1)
    {
      hide StackSettled, OpenSettled, Unread, LaidList, BelowLaid, TreeEnded;
      ghost var before, top, below := str[..], stack[|stack| - 1], stack[..|stack| - 1];
      ghost var closed := Closed(top, []);
      UnreadInside(str[..], s, ptr);
      NulOver(obj, ptr, q, stack);
      ghost var nodes := mem[..];
      parent := mem[obj].sibling;
      if parent.None? {
        ParentOf(nodes, stack);
        ContainerLaid(nodes, 0, top, None);
        assert nodes[0 := nodes[0].(sibling := None)] == nodes;
      } else {
        ParentOf(nodes, stack);
        NestClosed(nodes, stack);
        mem[obj] := mem[obj].(sibling := None);
        assert mem[..] == nodes[obj := nodes[obj].(sibling := None)];
      }
    }

    lemma ParentOf(nodes: seq<Node>, stack: seq<Open>)
      requires stack != [] && StackLaid(nodes, stack)
      ensures nodes[Place(stack)].sibling == Parent(stack)
    {
    }

    method NulOver(obj: nat, ptr: nat, q: nat, ghost stack: seq<Open>)
      requires Reading(stack, obj, ptr) && GoBlank(s, ptr) == Some(q) && IsEndOfBlock(s[q]) && stack[0].name == None
      modifies str
      ensures Unread(str[..], s, q + 1)
      ensures var closed := Closed(stack[|stack| - 1], []);
              && (|stack| == 1 ==> TreeEnded(str[..], closed))
              && (|stack| > 1 ==> StackSettled(str[..], q + 1, With(stack[..|stack| - 1], closed)))
    {
      hide StackLaid, OpenSettled, Unread, TreeEnded, TreeSettled;
      ghost var before, top, below := str[..], stack[|stack| - 1], stack[..|stack| - 1];
      UnreadInside(before, s, ptr);
      UnreadAt(before, s, ptr, ptr);
      UnreadAt(before, s, ptr, q + 1);
      str[q] := NUL;
      assert str[..] == before[q := NUL];
      UnreadKept(before, s, q + 1, q, NUL);
      BracketOnwards(before, ptr, q);
      assert OpenSettled(before, ptr, top);
      OpenOnwards(before, ptr, str[..], q + 1, top);
      if |stack| > 1 {
        StackOnwards(before, ptr, str[..], q + 1, below);
        WithSettled(str[..], q + 1, below, Closed(top, []));
      }
    }

    lemma BracketOnwards(before: string, ptr: nat, q: nat)
      requires ptr <= q < |before| && ptr <= |s| && GoBlank(s, ptr) == Some(q) && before[ptr] == At(s, ptr)
      ensures Onwards(before, ptr, before[q := NUL], q + 1)
    {
      assert before[q := NUL][..ptr] == before[..ptr];
    }

    /** A property's name, and where its value begins. */
    method propertyName(q: nat) returns (name: Option<nat>, v: nat)
      requires IsText(s) && Unread(str[..], s, q) && q < |s| && s[q] == '\"'
      modifies str
      ensures str[..q] == old(str[..q])
      ensures match ReadName(s, q)
              case None => name == None
              case Some(n) =>
                name == Some(n.name.at) && v == n.next && Unread(str[..], s, v) && Settled(str[..], v, n.name)
    {
      hide Unread, Settled, Ended, ReadString, GoBlank;
      UnreadInside(str[..], s, q);
      UnreadAt(str[..], s, q, q + 1);
      v := q;
      var after := parseString(str, q + 1, s);
      assert str[..q] == str[..q + 1][..q] && old(str[..q]) == old(str[..q + 1])[..q];
      if after.None? {
        return None, v;
      }
      var colon := goBlank(str, after.value, s);
      if colon.None? {
        return None, v;
      }
      UnreadAt(str[..], s, after.value, colon.value);
      if str[colon.value] != ':' {
        return None, v;
      }
      UnreadAt(str[..], s, after.value, colon.value + 1);
      var begin := goBlank(str, colon.value + 1, s);
      if begin.None? {
        return None, v;
      }
      UnreadAt(str[..], s, after.value, begin.value);
      name, v := Some(q + 1), begin.value;
      EndedSettled(str[..], v, Placed(q + 1, ReadString(s, q + 1).value.text));
    }

    lemma EndedSettled(text: string, p: nat, c: Placed)
      requires Ended(text, c) && c.at + |c.text| < p <= |text|
      ensures Settled(text, p, c)
    {
    }

    /** The name of the member at `q`, if it is to have one. */
    method readStart(ptr: nat, q: nat, isObj: bool, ghost stack: seq<Open>)
      returns (ok: bool, name: Option<nat>, v: nat)
      requires IsText(s) && Unread(str[..], s, ptr) && StackSettled(str[..], ptr, stack) && GoBlank(s, ptr) == Some(q)
      modifies str
      ensures ok <==> ReadStart(s, q, isObj).Some?
      ensures ok ==> var start := ReadStart(s, q, isObj).value;
                && name == NamePosition(start.name) && v == start.at && Unread(str[..], s, v)
                && NameSettled(str[..], v, start.name) && StackSettled(str[..], v, stack)
    {
      hide Unread, Settled, ReadName, OpenSettled;
      ghost var before := str[..];
      UnreadInside(before, s, ptr);
      UnreadAt(before, s, ptr, ptr);
      UnreadAt(before, s, ptr, q);
      ok, name, v := true, None, q;
      if isObj {
        if str[q] != '\"' {
          NoQuote(s, q);
          return false, None, q;
        }
        name, v := propertyName(q);
        ok := name.Some?;
      }
      if ok {
        assert str[..ptr] == before[..ptr] by {
          assert str[..ptr] == str[..q][..ptr] && before[..ptr] == before[..q][..ptr];
        }
        if ptr < v {
          NotBlankBracket(s, ptr, q, isObj);
          UnreadInside(str[..], s, v);
          StackOnwards(before, ptr, str[..], v, stack);
        }
      }
    }

    lemma NoQuote(s: string, q: nat)
      requires q < |s| && s[q] != '\"'
      ensures ReadName(s, q) == None
    {
    }

    lemma NotBlankBracket(s: string, ptr: nat, q: nat, isObj: bool)
      requires ptr <= |s| && GoBlank(s, ptr) == Some(q) && (ptr < q || s[q] == '\"')
      ensures !IsEndOfBlock(At(s, ptr))
    {
    }

    /** Adds node `property` to the members of `obj`, with its name and where its value begins. */
    method add(obj: nat, property: nat, name: Option<nat>, v: nat)
      requires obj < mem.Length && property < mem.Length && obj != property && mem[obj].u.Links?
      requires mem[obj].u.child.Some? ==> mem[obj].u.last < mem.Length && mem[obj].u.last != property
      modifies mem
      ensures mem[..] == Added(old(mem[..]), obj, property, Node(None, name, ValueAt(v), old(mem[property].typ)))
    {
      mem[property] := mem[property].(name := name, sibling := None);
      if mem[obj].u.child.None? {
        mem[obj] := mem[obj].(u := Links(Some(property), property));
      } else {
        var last := mem[obj].u.last;
        mem[last] := mem[last].(sibling := Some(property));
        mem[obj] := mem[obj].(u := Links(mem[obj].u.child, property));
      }
      mem[property] := mem[property].(u := ValueAt(v));
    }

    /** Where a new member of the innermost container can be linked. */
    lemma RoomForMember(stack: seq<Open>, nodes: seq<Node>)
      requires stack != [] && StackLaid(nodes, stack) && Used(stack) < |nodes|
      ensures Place(stack) < Used(stack) && nodes[Place(stack)].u.Links?
      ensures nodes[Place(stack)].u.child.Some? ==> nodes[Place(stack)].u.last < Used(stack)
    {
      hide LaidList;
      LastBeforeNew(nodes, Place(stack), stack[|stack| - 1], Parent(stack));
    }

    /**
     * A container begins at `v`: its node is the last member of `obj`, and has `obj` as its sibling while it is
     * open.
     */
    method openContainer(obj: nat, name: Option<nat>, v: nat, ghost stack: seq<Open>, ghost o: Open)
      returns (property: nat)
      requires Reading(stack, obj, v) && nextFree < mem.Length && v < |s| && (s[v] == '{' || s[v] == '[')
      requires o.done == []
      requires o.isObj == (s[v] == '{') && name == NamePosition(o.name) && NameSettled(str[..], v, o.name)
      modifies this, mem
      ensures Reading(stack + [o], property, v + 1) && nextFree == old(nextFree) + 1
    {
      hide StackSettled, Unread, StackLaid, Added, Settled;
      UnreadInside(str[..], s, v);
      UnreadAt(str[..], s, v, v);
      UnreadAt(str[..], s, v, v + 1);
      ghost var nodes := mem[..];
      RoomForMember(stack, nodes);
      property := nextFree;
      nextFree := nextFree + 1;
      add(obj, property, name, v);
      ghost var linked := mem[..];
      mem[property] := Node(Some(obj), mem[property].name, Links(None, 0),
                            if str[v] == '{' then JSON_OBJ else JSON_ARRAY);
      AddedHolds(nodes, obj, property, linked[property]);
      HeldLater(nodes, obj, property, linked[property], mem[property]);
      assert mem[..] == linked[property := mem[property]];
      NestAdded(nodes, stack, mem[property], o);
      StackOnwards(str[..], v, str[..], v + 1, stack);
      PushedSettled(str[..], v, stack, o);
    }

    lemma AddedHolds(nodes: seq<Node>, i: nat, n: nat, held: Node)
      requires i < |nodes| && n < |nodes| && nodes[i].u.Links? && i != n
      requires nodes[i].u.child.Some? ==> nodes[i].u.last < |nodes| && nodes[i].u.last != n
      ensures forall node :: Added(nodes, i, n, node)[n] == node
    {
    }

    lemma PushedSettled(text: string, v: nat, stack: seq<Open>, o: Open)
      requires StackSettled(text, v + 1, stack) && NameSettled(text, v, o.name) && o.done == []
      requires v < |text| && !IsEndOfBlock(text[v])
      ensures StackSettled(text, v + 1, stack + [o])
    {
      if o.name.Some? {
        CharsOnwards(text, v, text, v + 1, o.name.value);
      }
      forall k | 0 <= k < |stack + [o]| ensures OpenSettled(text, v + 1, (stack + [o])[k]) {
        if k < |stack| {
          assert OpenSettled(text, v + 1, stack[k]);
        }
      }
    }

    /** A value that is no container begins at `v`: its node is the last member of `obj`. */
    method addLeaf(obj: nat, name: Option<nat>, v: nat, ghost stack: seq<Open>, ghost placed: Option<Placed>)
      returns (next: Option<nat>)
      requires Reading(stack, obj, v) && nextFree < mem.Length && v < |s|
      requires name == NamePosition(placed) && NameSettled(str[..], v, placed)
      modifies this, str, mem
      ensures match ReadLeaf(s, v)
              case None => next == None
              case Some(l) =>
                && next == Some(l.next) && Reading(With(stack, PlainTree(placed, l)), obj, l.next)
                && nextFree == old(nextFree) + 1
    {
      hide StackSettled, Unread, StackLaid, Added, Settled, ReadLeaf, IsText;
      UnreadInside(str[..], s, v);
      ghost var nodes, text := mem[..], str[..];
      RoomForMember(stack, nodes);
      var property := nextFree;
      nextFree := nextFree + 1;
      add(obj, property, name, v);
      ghost var linked := mem[..];
      var typ, at;
      next, typ, at := leafValue(str, v, s);
      if next.None? {
        return;
      }
      ghost var l := ReadLeaf(s, v).value;
      mem[property] := mem[property].(u := ValueAt(at), typ := typ);
      AddedHolds(nodes, obj, property, linked[property]);
      HeldLater(nodes, obj, property, linked[property], mem[property]);
      assert mem[..] == linked[property := mem[property]];
      LeafAdded(nodes, stack, mem[property], PlainTree(placed, l));
      SamePlace(stack, PlainTree(placed, l));
      LeafSettled(text, str[..], v, stack, placed, l);
    }

    lemma LeafSettled(text: string, after: string, v: nat, stack: seq<Open>, placed: Option<Placed>, l: Leaf)
      requires stack != [] && v < |s| && ReadLeaf(s, v) == Some(l) && Unread(text, s, v)
      requires StackSettled(text, v, stack) && NameSettled(text, v, placed)
      requires |after| == |text| && after[..v] == text[..v] && Settled(after, l.next, Placed(l.at, l.text))
      ensures StackSettled(after, l.next, With(stack, PlainTree(placed, l)))
    {
      hide OpenSettled, StackSettled, Unread, Settled, ReadLeaf;
      LeafStart(s, v);
      UnreadInside(text, s, v);
      UnreadAt(text, s, v, v);
      StackOnwards(text, v, after, l.next, stack);
      if placed.Some? {
        CharsOnwards(text, v, after, l.next, placed.value);
      }
      WithSettled(after, l.next, stack, PlainTree(placed, l));
    }

    /** The document left in the pool and in the text. */
    ghost predicate Left(d: Document)
      reads this, str, mem
    {
      Laid(mem[..], 0, d.root, None) && TreeEnded(str[..], d.root) && nextFree == Size(d.root) <= mem.Length
    }

    /** The nodes not yet used. */
    ghost function Room(): int
      reads this
    {
      mem.Length - nextFree
    }

    lemma ReadingMeans(stack: seq<Open>, obj: nat, ptr: nat)
      requires Reading(stack, obj, ptr)
      ensures IsText(s) && stack != [] && ptr <= |s| < str.Length && Unread(str[..], s, ptr)
      ensures StackSettled(str[..], ptr, stack)
      ensures StackLaid(mem[..], stack) && obj == Place(stack) && nextFree == Used(stack) <= mem.Length
      ensures obj < mem.Length
      ensures mem[obj].typ == ContainerType(stack[|stack| - 1].isObj)
    {
    }

    lemma ReadingFrom(stack: seq<Open>, obj: nat, v: nat)
      requires IsText(s) && stack != [] && Unread(str[..], s, v) && StackSettled(str[..], v, stack)
      requires StackLaid(mem[..], stack) && obj == Place(stack) && nextFree == Used(stack) <= mem.Length
      ensures Reading(stack, obj, v)
    {
    }

    lemma StartReading(start: nat)
      requires IsText(s) && Unread(str[..], s, start) && start < |s| && nextFree == 1 <= mem.Length
      requires mem[0] == Node(None, None, Links(None, 0), ContainerType(s[start] == '{'))
      ensures Reading([Open(None, s[start] == '{', [])], 0, start + 1)
    {
      hide Unread;
      UnreadAt(str[..], s, start, start + 1);
    }

    lemma RootLeft(top: Open, next: nat)
      requires var closed := Closed(top, []);
               Laid(mem[..], 0, closed, None) && TreeEnded(str[..], closed) && Size(closed) == nextFree <= mem.Length
      ensures Left(Document(Closed(top, []), next))
    {
    }

    /** The value at `v` of a member of `obj`: a plain value is read, a container opened. */
    method value(obj: nat, name: Option<nat>, v: nat, ghost stack: seq<Open>, ghost placed: Option<Placed>)
      returns (ok: bool, obj': nat, ptr': nat, ghost stack': seq<Open>)
      requires Reading(stack, obj, v) && nextFree < mem.Length && v < |s|
      requires name == NamePosition(placed) && NameSettled(str[..], v, placed)
      modifies this, str, mem
      ensures ok ==> Reading(stack', obj', ptr') && nextFree == old(nextFree) + 1 && v < ptr'
      ensures if s[v] == '{' || s[v] == '['
              then ok && stack' == stack + [Open(placed, s[v] == '{', [])] && ptr' == v + 1
              else match ReadLeaf(s, v)
                case None => !ok
                case Some(l) => ok && stack' == With(stack, PlainTree(placed, l)) && ptr' == l.next
    {
      hide Reading, StackLaid, StackSettled, Unread, ReadLeaf, IsText, Settled;
      ok, obj', ptr', stack' := false, obj, v, stack;
      ReadingMeans(stack, obj, v);
      UnreadAt(str[..], s, v, v);
      if str[v] == '{' || str[v] == '[' {
        ghost var o := Open(placed, str[v] == '{', []);
        obj' := openContainer(obj, name, v, stack, o);
        ok, stack', ptr' := true, stack + [o], v + 1;
      } else {
        var next := addLeaf(obj, name, v, stack, placed);
        if next.Some? {
          ok, stack', ptr' := true, With(stack, PlainTree(placed, ReadLeaf(s, v).value)), next.value;
        }
      }
    }

    lemma ResumeMember(stack: seq<Open>, ptr: nat, q: nat, room: nat, start: Start)
      requires stack != [] && ptr <= |s| && MemberAt(s, ptr, stack[|stack| - 1].isObj, room, q, start.name, start.at)
      ensures Resume(s, stack, ptr, room) ==
              var v := start.at;
              if s[v] == '{' || s[v] == '[' then Resume(s, stack + [Open(start.name, s[v] == '{', [])], v + 1, room - 1)
              else match ReadLeaf(s, v)
                case None => None
                case Some(l) => Resume(s, With(stack, PlainTree(start.name, l)), l.next, room - 1)
    {
      hide Resume, ReadLeaf, ReadStart;
      if s[start.at] == '{' || s[start.at] == '[' {
        NestOpens(s, stack, ptr, q, room, start.name, start.at);
      } else {
        LeafRead(s, stack, ptr, q, room, start.name, start.at);
      }
    }

    /** A member of the innermost container begins at `q`. */
    method member(obj: nat, ptr: nat, q: nat, ghost stack: seq<Open>, ghost want: Option<Document>)
      returns (ok: bool, obj': nat, ptr': nat, ghost stack': seq<Open>)
      requires Reading(stack, obj, ptr) && GoBlank(s, ptr) == Some(q) && stack[0].name == None
      requires s[q] != ',' && s[q] != Closing(stack[|stack| - 1].isObj) && Resume(s, stack, ptr, Room()) == want
      modifies this, str, mem
      ensures !ok ==> want == None
      ensures ok ==> stack' != [] && stack'[0].name == None && ptr < ptr' && Reading(stack', obj', ptr')
      ensures ok ==> ptr' <= |s| && nextFree <= mem.Length && Resume(s, stack', ptr', Room()) == want
    {
      hide Reading, StackLaid, StackSettled, Unread, ReadLeaf, ReadStart, Resume, IsText, Settled;
      ok, obj', ptr', stack' := false, obj, ptr, stack;
      ReadingMeans(stack, obj, ptr);
      ghost var top, room := stack[|stack| - 1], Room();
      if nextFree >= mem.Length {
        NoMember(s, stack, ptr, room);
        return;
      }
      var found, name, v := readStart(ptr, q, mem[obj].typ == JSON_OBJ, stack);
      if !found {
        NoMember(s, stack, ptr, room);
        return;
      }
      ghost var start := ReadStart(s, q, top.isObj).value;
      ReadingFrom(stack, obj, v);
      ResumeMember(stack, ptr, q, room, start);
      ok, obj', ptr', stack' := value(obj, name, v, stack, start.name);
      if ok {
        ReadingMeans(stack', obj', ptr');
      }
    }

    /** The bracket at `q` closes the innermost container, and with the outermost the document is read. */
    method bracket(obj: nat, ptr: nat, q: nat, ghost stack: seq<Open>, ghost want: Option<Document>)
      returns (parent: Option<nat>, ghost stack': seq<Open>)
      requires Reading(stack, obj, ptr) && GoBlank(s, ptr) == Some(q) && stack[0].name == None && ptr <= |s|
      requires s[q] == Closing(stack[|stack| - 1].isObj) && nextFree <= mem.Length
      requires Resume(s, stack, ptr, Room()) == want
      modifies str, mem
      ensures parent.None? ==> want.Some? && Left(want.value)
      ensures parent.Some? ==> stack' != [] && stack'[0].name == None && nextFree <= mem.Length
      ensures parent.Some? ==> Reading(stack', parent.value, q + 1) && Resume(s, stack', q + 1, Room()) == want
    {
      hide Reading, Resume, Laid, TreeEnded, Left;
      ReadingMeans(stack, obj, ptr);
      ghost var top, below := stack[|stack| - 1], stack[..|stack| - 1];
      BracketCloses(s, stack, ptr, q, Room());
      parent := closeContainer(obj, ptr, q, stack);
      stack' := stack;
      if parent.None? {
        RootLeft(top, q + 1);
      } else {
        stack' := With(below, Closed(top, []));
      }
    }

    /**
     * Reads the container whose bracket is at `start` into node 0. The loop goes forward in the text in every
     * round; it succeeds just when the recursive reading does, with its tree in the pool and in the text.
     */
    method objValue(start: nat, ghost want: Option<Document>) returns (ok: bool)
      requires IsText(s) && Unread(str[..], s, start) && start < |s| && (s[start] == '{' || s[start] == '[')
      requires nextFree == 1 <= mem.Length && mem[0].name == None
      requires want == Resume(s, [Open(None, s[start] == '{', [])], start + 1, mem.Length - 1)
      modifies this, str, mem
      ensures ok <==> want.Some?
      ensures ok ==> Left(want.value)
    {
      hide Reading, StackLaid, StackSettled, Unread, ReadLeaf, ReadStart, Resume, Left, IsText;
      UnreadInside(str[..], s, start);
      UnreadAt(str[..], s, start, start);
      var isObj := str[start] == '{';
      mem[0] := Node(None, mem[0].name, Links(None, 0), if isObj then JSON_OBJ else JSON_ARRAY);
      var obj: nat, ptr: nat := 0, start + 1;
      ghost var stack := [Open(None, isObj, [])];
      StartReading(start);
      while true
        invariant stack != [] && stack[0].name == None && ptr <= |s| && nextFree <= mem.Length
        invariant Reading(stack, obj, ptr) && Resume(s, stack, ptr, Room()) == want
        decreases |s| - ptr
      {
        ReadingMeans(stack, obj, ptr);
        var q := goBlank(str, ptr, s);
        if q.None? {
          NoMember(s, stack, ptr, Room());
          return false;
        }
        UnreadAt(str[..], s, ptr, q.value);
        if str[q.value] == ',' {
          CommaKeepsReading(stack, obj, ptr, q.value);
          CommaPassed(s, stack, ptr, q.value, Room());
          ptr := q.value + 1;
          continue;
        }
        var endchar := if mem[obj].typ == JSON_OBJ then '}' else ']';
        if str[q.value] == endchar {
          var parent, rest := bracket(obj, ptr, q.value, stack, want);
          if parent.None? {
            return true;
          }
          stack, obj, ptr := rest, parent.value, q.value + 1;
          continue;
        }
        var ok', obj', ptr', stack' := member(obj, ptr, q.value, stack, want);
        if !ok' {
          return false;
        }
        obj, ptr, stack := obj', ptr', stack';
      }
    }
  }

  /**
   * Reads the document in `str` into `mem`. It succeeds, with node 0 the root, if and only if the recursive
   * reading does within as many nodes; then the pool holds that reading's tree, its nodes in document order and
   * no others in use, and every name and value stands decoded and ended in the text.
   */
  method json_create(str: array<char>, mem: array<Node>, ghost s: string) returns (obj: Option<nat>, used: nat)
    requires IsText(s) && |s| < str.Length && str[..|s|] == s && str[|s|] == NUL && mem.Length >= 1
    modifies str, mem
    ensures obj == if ReadDocument(s, mem.Length).Some? then Some(0) else None
    ensures obj.Some? ==>
              var root := ReadDocument(s, mem.Length).value.root;
              && Laid(mem[..], 0, root, None) && used == Size(root) <= mem.Length && TreeEnded(str[..], root)
              && root.value.Nest? && NameIsText(root)
  {
    hide Laid, TreeEnded, ReadItems, Resume;
    used := 0;
    TextUnread(str[..], s);
    var ptr := goBlank(str, 0, s);
    if ptr.None? {
      return None, 0;
    }
    UnreadAt(str[..], s, 0, ptr.value);
    if str[ptr.value] != '{' && str[ptr.value] != '[' {
      return None, 0;
    }
    var pool := new JsonReader(str, mem, s);
    mem[0] := mem[0].(name := None, sibling := None);
    StartIsDocument(s, mem.Length, ptr.value);
    var ok := pool.objValue(ptr.value, ReadDocument(s, mem.Length));
    obj := if ok then Some(0) else None;
    used := pool.nextFree;
    if ok {
      DocumentNamesAreTexts(s, mem.Length);
    }
  }

  lemma TextUnread(text: string, s: string)
    requires |s| < |text| && text[..|s|] == s && text[|s|] == NUL
    ensures Unread(text, s, 0)
  {
  }

  /** Following child and sibling links from the root meets every node used exactly once, in document order. */
  lemma LinksReachAll(nodes: seq<Node>, root: Tree)
    requires Laid(nodes, 0, root, None)
    ensures Walk(nodes, Some(0), Size(root)) == Range(0, Size(root))
  {
    assert [root][1..] == [];
    assert LaidList(nodes, 0, [root], None);
    assert Sizes([root]) == Size(root);
    WalkVisitsAll(nodes, 0, [root], Size(root));
  }

  // ---------- Looking up a property ----------

  /** The node of the first of `ts`, laid out from `base` on, that is named `property`. */
  function FindChild(base: nat, ts: seq<Tree>, property: string): Option<nat>
    decreases |ts|
  {
    if ts == [] then None
    else if ts[0].name.Some? && ts[0].name.value.text == property then Some(base)
    else FindChild(base + Size(ts[0]), ts[1..], property)
  }

  /** Whether the NUL-ended characters at `at` are those of `word`. */
  method sameString(str: array<char>, at: nat, word: string, ghost c: Placed) returns (same: bool)
    requires Ended(str[..], c) && c.at == at && IsText(c.text) && IsText(word)
    ensures same == (c.text == word)
  {
    ghost var e := at + |c.text|;
    var k := 0;
    while k < |word| && str[at + k] == word[k]
      invariant k <= |word| && k <= |c.text| && c.text[..k] == word[..k]
      invariant e < str.Length && str[..][at..e] == c.text && str[e] == NUL && str[at + k] == At(c.text, k)
    {
      TextGoesOn(c.text, word, k);
      k := k + 1;
      assert k < |c.text| ==> str[at + k] == str[..][at..e][k];
    }
    SameIff(c.text, word, k);
    same := k == |word| && str[at + k] == NUL;
  }

  lemma TextGoesOn(a: string, b: string, k: nat)
    requires k <= |a| && k < |b| && a[..k] == b[..k] && IsText(b) && At(a, k) == b[k]
    ensures k < |a| && a[..k + 1] == b[..k + 1]
  {
    assert b[k] in b;
    assert a[..k + 1] == a[..k] + [a[k]] && b[..k + 1] == b[..k] + [b[k]];
  }

  lemma SameIff(a: string, b: string, k: nat)
    requires k <= |a| && k <= |b| && a[..k] == b[..k] && IsText(a) && (k < |b| ==> At(a, k) != b[k])
    ensures a == b <==> k == |b| && At(a, k) == NUL
  {
    if k < |a| {
      assert a[k] in a;
    } else {
      assert a == a[..k];
    }
    assert k == |b| ==> b == b[..k];
  }

  /** Follows the sibling links from the first child to the first node of that name. */
  method json_getProperty(str: array<char>, mem: array<Node>, obj: nat, property: string,
    ghost t: Tree, ghost sibling: Option<nat>)
    returns (found: Option<nat>)
    requires Laid(mem[..], obj, t, sibling) && TreeEnded(str[..], t) && t.value.Nest? && NameIsText(t)
    requires IsText(property)
    ensures found == FindChild(obj + 1, t.value.children, property)
  {
    hide IsText, Ended;
    found := mem[obj].u.child;
    ghost var rest, base: nat := t.value.children, obj + 1;
    while found.Some?
      invariant LaidList(mem[..], base, rest, None) && found == FirstAt(base, rest)
      invariant forall k :: 0 <= k < |rest| ==> TreeEnded(str[..], rest[k]) && NameIsText(rest[k])
      invariant FindChild(obj + 1, t.value.children, property) == FindChild(base, rest, property)
      decreases |rest|
    {
      var name := mem[found.value].name;
      if name.Some? {
        var same := sameString(str, name.value, property, rest[0].name.value);
        if same {
          return;
        }
      }
      found := mem[found.value].sibling;
      base, rest := base + Size(rest[0]), rest[1..];
    }
  }
}
