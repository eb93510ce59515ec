/**
 * Whole documents as an independent writer puts them out, with any blanks and commas the parser lets pass, and
 * the tree, with the position of every name and value, that reading them gives.
 */
module JsonDocuments {
  import opened JsonText
  import opened JsonTree
  import opened JsonPrint

  /** A value as it is written; a block is an object or an array, `tail` stands before its closing bracket. */
  datatype Doc =
    | Text(pieces: seq<Piece>) | True | False | Null
    | Number(whole: string, fraction: string, exponent: string)
    | Block(isObj: bool, members: seq<Member>, tail: string)

  /** A member: what stands before it, in an object its name and the blanks around the colon, and its value. */
  datatype Member = Member(gap: string, name: seq<Piece>, before: string, after: string, value: Doc)

  predicate IsBlanks(t: string) {
    forall c <- t :: c in " \n\r\t\U{0C}"
  }

  predicate IsGap(t: string) {
    forall c <- t :: c in ", \n\r\t\U{0C}"
  }

  /** Numbers in JSON's syntax, integers of 64 bits, and something between a literal or number and what follows. */
  predicate Fine(v: Doc) {
    match v
    case Text(pieces) => ArePieces(pieces)
    case Number(whole, fraction, exponent) =>
      && IsWhole(whole) && IsFraction(fraction) && IsExponent(exponent)
      && (fraction == "" && exponent == "" ==> Fits64(whole))
    case Block(_, members, tail) => AllFine(members) && IsGap(tail)
    case _ => true
  }

  predicate AllFine(ms: seq<Member>) {
    ms != [] ==>
      && IsGap(ms[0].gap) && ArePieces(ms[0].name) && IsBlanks(ms[0].before) && IsBlanks(ms[0].after)
      && Fine(ms[0].value)
      && (|ms| > 1 && !ms[0].value.Text? && !ms[0].value.Block? ==> ms[1].gap != "")
      && AllFine(ms[1..])
  }

  function Write(v: Doc): string
    decreases v
  {
    match v
    case Text(pieces) => "\"" + (Spelled(pieces) + "\"")
    case True => "true"
    case False => "false"
    case Null => "null"
    case Number(whole, fraction, exponent) => whole + fraction + exponent
    case Block(isObj, members, tail) => (if isObj then "{" else "[") + Inner(isObj, members, tail)
  }

  /** A block's text behind its opening bracket. */
  function Inner(isObj: bool, ms: seq<Member>, tail: string): string
    decreases ms
  {
    if ms == [] then tail + if isObj then "}" else "]"
    else ms[0].gap + (Head(isObj, ms[0]) + (Write(ms[0].value) + Inner(isObj, ms[1..], tail)))
  }

  function Head(isObj: bool, m: Member): string {
    if isObj then "\"" + (Spelled(m.name) + "\"") + (m.before + ":" + m.after) else ""
  }

  // ---------- What it is to be read as ----------

  function ValueAt(p: nat, v: Doc): Value
    decreases v
  {
    match v
    case Text(pieces) => Plain(JSON_TEXT, Placed(p + 1, Meant(pieces)))
    case True => Plain(JSON_BOOLEAN, Placed(p, "true"))
    case False => Plain(JSON_BOOLEAN, Placed(p, "false"))
    case Null => Plain(JSON_NULL, Placed(p, "null"))
    case Number(whole, fraction, exponent) =>
      Plain(if fraction == "" && exponent == "" then JSON_INTEGER else JSON_REAL,
            Placed(p, whole + fraction + exponent))
    case Block(isObj, members, _) => Nest(isObj, TreesAt(p + 1, isObj, members))
  }

  function TreesAt(p: nat, isObj: bool, ms: seq<Member>): seq<Tree>
    decreases ms
  {
    if ms == [] then []
    else
      var q := p + |ms[0].gap|;
      var v := q + |Head(isObj, ms[0])|;
      [Tree(NameAt(q, isObj, ms[0]), ValueAt(v, ms[0].value))]
      + TreesAt(v + |Write(ms[0].value)|, isObj, ms[1..])
  }

  function NameAt(q: nat, isObj: bool, m: Member): Option<Placed> {
    if isObj then Some(Placed(q + 1, Meant(m.name))) else None
  }

  /** Reading uses one node for each value. */
  function Expected(ts: seq<Tree>, next: nat, room: nat): Option<Items> {
    if Sizes(ts) <= room then Some(Items(ts, next, room - Sizes(ts))) else None
  }

  // ---------- Blanks and commas ----------

  lemma {:induction false} BlanksPassed(s: string, p: nat, b: string)
    requires IsBlanks(b) && Stands(s, p, b) && p + |b| < |s| && !IsBlank(s[p + |b|])
    ensures GoBlank(s, p) == Some(p + |b|)
    decreases |b|
  {
    if b != "" {
      assert b[0] in b && b == [b[0]] + b[1..];
      StandsParts(s, p, [b[0]], b[1..]);
      StandsAt(s, p, b, 0);
      BlanksPassed(s, p + 1, b[1..]);
    }
  }

  lemma OnePassed(s: string, p: nat, isObj: bool, room: nat)
    requires p < |s| && s[p] in ", \n\r\t\U{0C}"
    ensures ReadItems(s, p, isObj, room) == ReadItems(s, p + 1, isObj, room)
  {
    hide ReadItems;
    if s[p] == ',' {
      ItemsOfOther(s, p, isObj, room);
    } else {
      SameItems(s, p, p + 1, isObj, room);
    }
  }

  lemma SameItems(s: string, p: nat, q: nat, isObj: bool, room: nat)
    requires p <= |s| && q <= |s| && GoBlank(s, p) == GoBlank(s, q)
    ensures ReadItems(s, p, isObj, room) == ReadItems(s, q, isObj, room)
  {
    hide GoBlank, ReadStart, ReadLeaf;
  }

  lemma {:induction false} GapPassed(s: string, p: nat, gap: string, isObj: bool, room: nat)
    requires IsGap(gap) && Stands(s, p, gap)
    ensures ReadItems(s, p, isObj, room) == ReadItems(s, p + |gap|, isObj, room)
    decreases |gap|
  {
    hide ReadItems;
    if gap != "" {
      assert gap[0] in gap && gap == [gap[0]] + gap[1..];
      StandsParts(s, p, [gap[0]], gap[1..]);
      StandsAt(s, p, gap, 0);
      OnePassed(s, p, isObj, room);
      GapPassed(s, p + 1, gap[1..], isObj, room);
    }
  }

  // ---------- Values ----------

  /** The first character of a value tells its kind. */
  lemma FirstTells(v: Doc)
    requires Fine(v)
    ensures var w := Write(v);
            && w != "" && w[0] !in ", \n\r\t\U{0C}}]:"
            && (v.Block? ==> w[0] == if v.isObj then '{' else '[')
            && (!v.Block? ==> w[0] != '{' && w[0] != '[')
            && (v.Text? <==> w[0] == '\"') && (v.Number? ==> w[0] == '-' || '0' <= w[0] <= '9')
  {
    hide Spelled, ArePieces, Inner, AllFine;
    if v.Number? {
      WholeStarts(v.whole);
    }
  }

  lemma WholeStarts(t: string)
    requires IsWhole(t)
    ensures t != "" && (t[0] == '-' || '0' <= t[0] <= '9')
  {
    if t != "" && t[0] != '-' {
      assert t[0] in t;
    }
  }

  /** What follows a value within a block ends it. */
  lemma FollowsWell(s: string, e: nat, isObj: bool, ms: seq<Member>, tail: string)
    requires AllFine(ms) && IsGap(tail) && Stands(s, e, Inner(isObj, ms, tail)) && (ms != [] ==> ms[0].gap != "")
    ensures e < |s| && Ends(s[e])
  {
    hide Write, Fine, Head;
    var w := Inner(isObj, ms, tail);
    assert w != "";
    StandsAt(s, e, w, 0);
    if ms != [] {
      assert w[0] == ms[0].gap[0] && ms[0].gap[0] in ms[0].gap;
    } else if tail != "" {
      assert w[0] == tail[0] && tail[0] in tail;
    }
  }

  /** A value that is no block is read as what it is. */
  lemma PlainRead(s: string, p: nat, v: Doc)
    requires Fine(v) && !v.Block? && Stands(s, p, Write(v))
    requires var e := p + |Write(v)|; !v.Text? ==> e < |s| && Ends(s[e])
    ensures p < |s|
    ensures var l, e := ReadLeaf(s, p), p + |Write(v)|;
            && l.Some? && ValueAt(p, v) == Plain(l.value.typ, Placed(l.value.at, l.value.text))
            && l.value.next == if v.Text? then e else After(s, e)
  {
    hide ReadNumber, ReadString, ReadLiteral, Spelled, ArePieces, Stands, Ends, After, IsWhole, IsFraction,
      IsExponent, Fits64;
    FirstTells(v);
    StandsAt(s, p, Write(v), 0);
    Inside(s, p, Write(v));
    match v
    case Text(pieces) =>
      StandsParts(s, p, "\"", Spelled(pieces) + "\"");
      PiecesRead(s, p + 1, pieces);
    case True => LiteralRead(s, p, "true", JSON_BOOLEAN);
    case False => LiteralRead(s, p, "false", JSON_BOOLEAN);
    case Null => LiteralRead(s, p, "null", JSON_NULL);
    case Number(whole, fraction, exponent) => NumberRead(s, p, whole, fraction, exponent);
  }

  // ---------- Members ----------

  lemma HeadParts(s: string, q: nat, m: Member)
    requires Stands(s, q, Head(true, m))
    ensures q < |s| && s[q] == '\"' && Stands(s, q + 1, Spelled(m.name) + "\"")
    ensures var next := q + 1 + |Spelled(m.name)| + 1;
            var colon := next + |m.before|;
            && Stands(s, next, m.before) && colon < |s| && s[colon] == ':' && Stands(s, colon + 1, m.after)
            && colon + 1 + |m.after| == q + |Head(true, m)|
  {
    hide Spelled, Stands;
    var quoted := Spelled(m.name) + "\"";
    StandsParts(s, q, "\"" + quoted, m.before + ":" + m.after);
    StandsParts(s, q, "\"", quoted);
    OneIs(s, q, '\"');
    ColonParts(s, q + 1 + |quoted|, m.before, m.after);
  }

  lemma ColonParts(s: string, next: nat, before: string, after: string)
    requires Stands(s, next, before + ":" + after)
    ensures var colon := next + |before|;
            Stands(s, next, before) && colon < |s| && s[colon] == ':' && Stands(s, colon + 1, after)
  {
    hide Stands;
    StandsParts(s, next, before + ":", after);
    StandsParts(s, next, before, ":");
    OneIs(s, next + |before|, ':');
  }

  lemma OneIs(s: string, q: nat, c: char)
    requires Stands(s, q, [c])
    ensures q < |s| && s[q] == c
  {
    StandsAt(s, q, [c], 0);
  }

  /** The name of a member, and where its value begins. */
  lemma NameRead(s: string, q: nat, m: Member)
    requires ArePieces(m.name) && IsBlanks(m.before) && IsBlanks(m.after) && Fine(m.value)
    requires Stands(s, q, Head(true, m) + Write(m.value))
    ensures q < |s| && s[q] == '\"'
    ensures ReadStart(s, q, true) == Some(Start(Some(Placed(q + 1, Meant(m.name))), q + |Head(true, m)|))
  {
    hide Spelled, ArePieces, ReadString, GoBlank, Stands, Write, IsBlanks, Fine, Head;
    var w, v := Write(m.value), q + |Head(true, m)|;
    FirstTells(m.value);
    StandsParts(s, q, Head(true, m), w);
    HeadParts(s, q, m);
    Inside(s, v, w);
    StandsAt(s, v, w, 0);
    PiecesRead(s, q + 1, m.name);
    var next := q + 1 + |Spelled(m.name)| + 1;
    BlanksPassed(s, next, m.before);
    BlanksPassed(s, next + |m.before| + 1, m.after);
  }

  /** At a member's first character its name and value are found. */
  lemma MemberFound(s: string, q: nat, isObj: bool, m: Member, room: nat)
    requires ArePieces(m.name) && IsBlanks(m.before) && IsBlanks(m.after) && Fine(m.value) && q <= |s|
    requires Stands(s, q, Head(isObj, m) + Write(m.value))
    ensures room > 0 ==> MemberAt(s, q, isObj, room, q, NameAt(q, isObj, m), q + |Head(isObj, m)|)
    ensures room == 0 ==> ReadItems(s, q, isObj, room) == None
  {
    hide Write, IsBlanks, Fine, Stands, ReadItems, ReadName;
    FirstTells(m.value);
    if isObj {
      NameRead(s, q, m);
    } else {
      assert Head(isObj, m) + Write(m.value) == Write(m.value);
      Inside(s, q, Write(m.value));
      StandsAt(s, q, Write(m.value), 0);
    }
    assert GoBlank(s, q) == Some(q);
    ItemsOfOther(s, q, isObj, room);
  }

  lemma BlockEnds(s: string, p: nat, isObj: bool, tail: string, room: nat)
    requires IsGap(tail) && Stands(s, p, Inner(isObj, [], tail))
    ensures ReadItems(s, p, isObj, room) == Some(Items([], p + |Inner(isObj, [], tail)|, room))
  {
    hide ReadItems, Stands, IsGap;
    var bracket := if isObj then "}" else "]";
    StandsParts(s, p, tail, bracket);
    GapPassed(s, p, tail, isObj, room);
    var q := p + |tail|;
    Inside(s, q, bracket);
    StandsAt(s, q, bracket, 0);
    assert GoBlank(s, q) == Some(q);
    ItemsOfOther(s, q, isObj, room);
  }

  lemma InnerParts(s: string, p: nat, isObj: bool, ms: seq<Member>, tail: string)
    requires ms != [] && Stands(s, p, Inner(isObj, ms, tail))
    ensures var q := p + |ms[0].gap|;
            var v := q + |Head(isObj, ms[0])|;
            var e := v + |Write(ms[0].value)|;
            && Stands(s, p, ms[0].gap) && Stands(s, q, Head(isObj, ms[0]) + Write(ms[0].value))
            && Stands(s, v, Write(ms[0].value)) && Stands(s, e, Inner(isObj, ms[1..], tail))
            && q <= v <= e <= |s| && e + |Inner(isObj, ms[1..], tail)| == p + |Inner(isObj, ms, tail)|
  {
    hide Write, Head, Stands;
    var gap, head, value, rest := ms[0].gap, Head(isObj, ms[0]), Write(ms[0].value), Inner(isObj, ms[1..], tail);
    StandsParts(s, p, gap, head + (value + rest));
    assert head + (value + rest) == (head + value) + rest;
    StandsParts(s, p + |gap|, head + value, rest);
    StandsParts(s, p + |gap|, head, value);
    Inside(s, p + |gap| + |head|, value);
  }

  /** A member whose value is a block: the block is read, then the rest. */
  lemma BlockMember(s: string, q: nat, isObj: bool, m: Member, room: nat, v: nat, e: nat)
    requires q <= |s| && m.value.Block? && room > 0 && v < |s| && e <= |s|
    requires MemberAt(s, q, isObj, room, q, NameAt(q, isObj, m), v)
    requires s[v] == if m.value.isObj then '{' else '['
    requires var ts := TreesAt(v + 1, m.value.isObj, m.value.members);
             ReadItems(s, v + 1, m.value.isObj, room - 1) == Expected(ts, e, room - 1)
    ensures var t := Tree(NameAt(q, isObj, m), ValueAt(v, m.value));
            ReadItems(s, q, isObj, room) ==
            if Size(t) > room then None else Front(t, ReadItems(s, e, isObj, room - Size(t)))
  {
    hide ReadItems, ReadLeaf, MemberAt, TreesAt;
    ItemsOfMember(s, q, isObj, room, q, NameAt(q, isObj, m), v);
  }

  /** A member whose value is no block, with nothing, a blank or a comma behind it passed over. */
  lemma PlainMember(s: string, q: nat, isObj: bool, m: Member, room: nat, v: nat, e: nat)
    requires q <= |s| && Fine(m.value) && !m.value.Block? && room > 0 && v <= e <= |s|
    requires MemberAt(s, q, isObj, room, q, NameAt(q, isObj, m), v)
    requires Stands(s, v, Write(m.value)) && e == v + |Write(m.value)| && (!m.value.Text? ==> e < |s| && Ends(s[e]))
    ensures var t := Tree(NameAt(q, isObj, m), ValueAt(v, m.value));
            Size(t) == 1 && ReadItems(s, q, isObj, room) == Front(t, ReadItems(s, e, isObj, room - 1))
  {
    hide ReadItems, ReadLeaf, MemberAt, Write, Stands, Fine;
    PlainRead(s, v, m.value);
    FirstTells(m.value);
    Inside(s, v, Write(m.value));
    StandsAt(s, v, Write(m.value), 0);
    ItemsOfMember(s, q, isObj, room, q, NameAt(q, isObj, m), v);
    if !m.value.Text? && s[e] !in "}]" {
      OnePassed(s, e, isObj, room - 1);
    }
  }

  lemma FirstAndRest(t: Tree, ts: seq<Tree>, next: nat, room: nat)
    requires Size(t) <= room
    ensures Front(t, Expected(ts, next, room - Size(t))) == Expected([t] + ts, next, room)
  {
    assert ([t] + ts)[1..] == ts;
  }

  lemma TooMany(t: Tree, ts: seq<Tree>, next: nat, room: nat)
    requires Size(t) > room
    ensures Expected([t] + ts, next, room) == None
  {
    assert ([t] + ts)[1..] == ts;
  }

  /** The first member is read, if it is a block by way of what is inside it, and then the rest. */
  lemma FirstMember(s: string, p: nat, isObj: bool, ms: seq<Member>, tail: string, room: nat, v: nat, e: nat)
    requires AllFine(ms) && ms != [] && IsGap(tail) && Stands(s, p, Inner(isObj, ms, tail)) && p <= |s|
    requires v == p + |ms[0].gap| + |Head(isObj, ms[0])| && e == v + |Write(ms[0].value)| && v < |s| && e <= |s|
    requires var b := ms[0].value;
             b.Block? && room > 0 ==>
               ReadItems(s, v + 1, b.isObj, room - 1) == Expected(TreesAt(v + 1, b.isObj, b.members), e, room - 1)
    ensures var t := Tree(NameAt(p + |ms[0].gap|, isObj, ms[0]), ValueAt(v, ms[0].value));
            ReadItems(s, p, isObj, room) ==
            if Size(t) > room then None else Front(t, ReadItems(s, e, isObj, room - Size(t)))
  {
    hide ReadItems, Inner, Head, IsBlanks, IsGap, Stands, MemberAt, NameAt, Write, Expected, ValueAt, TreesAt;
    var m, q := ms[0], p + |ms[0].gap|;
    InnerParts(s, p, isObj, ms, tail);
    GapPassed(s, p, m.gap, isObj, room);
    MemberFound(s, q, isObj, m, room);
    if room > 0 && m.value.Block? {
      BlockText(s, v, m.value);
      BlockMember(s, q, isObj, m, room, v, e);
    } else if room > 0 {
      if !m.value.Text? {
        FollowsWell(s, e, isObj, ms[1..], tail);
      }
      PlainMember(s, q, isObj, m, room, v, e);
    }
  }

  /** What is read from a block's text behind its opening bracket, with `room` nodes left. */
  lemma {:induction false} InnerRead(s: string, p: nat, isObj: bool, ms: seq<Member>, tail: string, room: nat)
    requires AllFine(ms) && IsGap(tail) && Stands(s, p, Inner(isObj, ms, tail)) && p <= |s|
    ensures ReadItems(s, p, isObj, room) == Expected(TreesAt(p, isObj, ms), p + |Inner(isObj, ms, tail)|, room)
    decreases ms
  {
    hide ReadItems, ReadLeaf, Inner, Head, IsBlanks, IsGap, Stands, NameAt, Write, Expected, ValueAt;
    if ms == [] {
      BlockEnds(s, p, isObj, tail, room);
      NoTrees(p, isObj, p + |Inner(isObj, ms, tail)|, room);
    } else {
      var q, b := p + |ms[0].gap|, ms[0].value;
      var v := q + |Head(isObj, ms[0])|;
      var e := v + |Write(b)|;
      InnerParts(s, p, isObj, ms, tail);
      FirstTells(b);
      if b.Block? && room > 0 {
        BlockText(s, v, b);
        InnerRead(s, v + 1, b.isObj, b.members, b.tail, room - 1);
      }
      FirstMember(s, p, isObj, ms, tail, room, v, e);
      var t, ts := Tree(NameAt(q, isObj, ms[0]), ValueAt(v, b)), TreesAt(e, isObj, ms[1..]);
      if Size(t) > room {
        TooMany(t, ts, p + |Inner(isObj, ms, tail)|, room);
      } else {
        FirstAndRest(t, ts, p + |Inner(isObj, ms, tail)|, room);
        InnerRead(s, e, isObj, ms[1..], tail, room - Size(t));
      }
    }
  }

  lemma NoTrees(p: nat, isObj: bool, next: nat, room: nat)
    ensures Expected(TreesAt(p, isObj, []), next, room) == Some(Items([], next, room))
  {
  }

  lemma BlockText(s: string, v: nat, b: Doc)
    requires b.Block? && Stands(s, v, Write(b))
    ensures v < |s| && s[v] == if b.isObj then '{' else '['
    ensures Stands(s, v + 1, Inner(b.isObj, b.members, b.tail))
    ensures v + 1 + |Inner(b.isObj, b.members, b.tail)| == v + |Write(b)|
  {
    hide Inner, Stands;
    var bracket := if b.isObj then "{" else "[";
    StandsParts(s, v, bracket, Inner(b.isObj, b.members, b.tail));
    Inside(s, v, bracket);
    StandsAt(s, v, bracket, 0);
  }

  /** What was written is read as what it is, whatever follows it, when there is a node for each of its values. */
  lemma WrittenIsRead(s: string, blank: string, v: Doc, qty: nat)
    requires Fine(v) && v.Block? && IsBlanks(blank) && blank + Write(v) <= s && qty >= 1
    ensures var t := Tree(None, ValueAt(|blank|, v));
            ReadDocument(s, qty) == if Size(t) <= qty then Some(Document(t, |blank + Write(v)|)) else None
  {
    hide ReadItems, Write, Inner, Stands, IsBlanks, TreesAt;
    var p := |blank|;
    TextStands(s, blank, Write(v));
    BlockText(s, p, v);
    BlanksPassed(s, 0, blank);
    InnerRead(s, p + 1, v.isObj, v.members, v.tail, qty - 1);
  }

  lemma TextStands(s: string, a: string, b: string)
    requires a + b <= s
    ensures Stands(s, 0, a) && Stands(s, |a|, b)
  {
    assert s[0..|a| + |b|] == a + b;
    StandsParts(s, 0, a, b);
  }

  // ---------- Nothing else is read ----------

  lemma {:induction false} BlanksThere(s: string, p: nat)
    requires p <= |s| && GoBlank(s, p).Some?
    ensures var q := GoBlank(s, p).value; p <= q < |s| && IsBlanks(s[p..q]) && Stands(s, p, s[p..q])
    decreases |s| - p
  {
    if IsBlank(s[p]) {
      BlanksThere(s, p + 1);
      var q := GoBlank(s, p).value;
      assert s[p..q] == [s[p]] + s[p + 1..q];
    }
  }

  /** A plain value that is read is written there. */
  lemma PlainThere(s: string, p: nat) returns (v: Doc)
    requires p < |s| && ReadLeaf(s, p).Some?
    ensures Fine(v) && !v.Block? && Stands(s, p, Write(v))
    ensures var e := p + |Write(v)|; !v.Text? ==> e < |s| && Ends(s[e])
  {
    hide ReadNumber, ReadString, ReadLiteral, Spelled, ArePieces, Stands, Ends, IsWhole, IsFraction, IsExponent, Fits64;
    match s[p]
    case '\"' =>
      var pieces := ReadAsPieces(s, p + 1);
      v := Text(pieces);
      OneStands(s, p);
      StandsBoth(s, p, "\"", Spelled(pieces) + "\"");
    case 't' =>
      v := True;
      LiteralThere(s, p, "true", JSON_BOOLEAN);
    case 'f' =>
      v := False;
      LiteralThere(s, p, "false", JSON_BOOLEAN);
    case 'n' =>
      v := Null;
      LiteralThere(s, p, "null", JSON_NULL);
    case _ =>
      var whole, fraction, exponent := NumberThere(s, p);
      v := Number(whole, fraction, exponent);
  }

  /** A name that is read is written there, with its colon. */
  lemma NameThere(s: string, q: nat) returns (m: Member)
    requires q < |s| && ReadStart(s, q, true).Some?
    ensures ArePieces(m.name) && IsBlanks(m.before) && IsBlanks(m.after) && Stands(s, q, Head(true, m))
    ensures ReadStart(s, q, true).value.at == q + |Head(true, m)|
  {
    hide ReadString, GoBlank, Spelled, ArePieces, IsBlanks, Stands;
    var name := ReadAsPieces(s, q + 1);
    var next := q + 1 + |Spelled(name)| + 1;
    var colon := GoBlank(s, next).value;
    var v := GoBlank(s, colon + 1).value;
    BlanksThere(s, next);
    BlanksThere(s, colon + 1);
    m := Member("", name, s[next..colon], s[colon + 1..v], True);
    OneStands(s, q);
    StandsBoth(s, q, "\"", Spelled(name) + "\"");
    OneStands(s, colon);
    StandsBoth(s, next, m.before, ":");
    StandsBoth(s, next, m.before + ":", m.after);
    StandsBoth(s, q, "\"" + (Spelled(name) + "\""), m.before + ":" + m.after);
  }

  /** More blanks or commas in front of a block's text. */
  lemma Prepended(gap: string, isObj: bool, ms: seq<Member>, tail: string) returns (more: seq<Member>, rest: string)
    requires IsGap(gap) && AllFine(ms) && IsGap(tail)
    ensures AllFine(more) && IsGap(rest) && Inner(isObj, more, rest) == gap + Inner(isObj, ms, tail)
    ensures |more| == |ms| && (gap != "" && more != [] ==> more[0].gap != "")
  {
    hide Write, Head, Fine, IsBlanks, ArePieces;
    if ms == [] {
      more, rest := [], gap + tail;
      GapsJoined(gap, tail);
    } else {
      more, rest := [ms[0].(gap := gap + ms[0].gap)] + ms[1..], tail;
      GapsJoined(gap, ms[0].gap);
      HeadSame(isObj, ms[0], gap + ms[0].gap, ms[0].value);
      assert more[1..] == ms[1..];
    }
  }

  lemma GapsJoined(a: string, b: string)
    requires IsGap(a) && IsGap(b)
    ensures IsGap(a + b)
  {
  }

  lemma HeadSame(isObj: bool, m: Member, gap: string, value: Doc)
    ensures Head(isObj, m.(gap := gap, value := value)) == Head(isObj, m)
  {
  }

  /** Where something that ends a value stands, a member can only begin behind a gap. */
  lemma GapBetween(s: string, e: nat, isObj: bool, ms: seq<Member>, tail: string)
    requires AllFine(ms) && Stands(s, e, Inner(isObj, ms, tail)) && e < |s| && Ends(s[e])
    ensures ms == [] || ms[0].gap != ""
  {
    hide Write, Fine, Stands;
    if ms != [] && ms[0].gap == "" {
      FirstTells(ms[0].value);
      StandsAt(s, e, Inner(isObj, ms, tail), 0);
    }
  }

  /** One member in front of a block's text. */
  lemma MemberStands(s: string, p: nat, isObj: bool, ms: seq<Member>, tail: string)
    requires ms != []
    requires var q := p + |ms[0].gap|;
             var v := q + |Head(isObj, ms[0])|;
             && Stands(s, p, ms[0].gap) && Stands(s, q, Head(isObj, ms[0])) && Stands(s, v, Write(ms[0].value))
             && Stands(s, v + |Write(ms[0].value)|, Inner(isObj, ms[1..], tail))
    ensures Stands(s, p, Inner(isObj, ms, tail))
  {
    hide Write, Head, Stands;
    var gap, head, value, rest := ms[0].gap, Head(isObj, ms[0]), Write(ms[0].value), Inner(isObj, ms[1..], tail);
    StandsBoth(s, p + |gap| + |head|, value, rest);
    StandsBoth(s, p + |gap|, head, value + rest);
    StandsBoth(s, p, gap, head + (value + rest));
  }

  /** The value at `v` where a member is read, and how much of the text behind it is passed over with it. */
  lemma PlainMemberThere(s: string, q: nat, isObj: bool, room: nat, name: Option<Placed>, v: nat)
    returns (value: Doc, e: nat)
    requires q <= |s| && MemberAt(s, q, isObj, room, q, name, v) && v < |s| && s[v] != '{' && s[v] != '['
    requires ReadItems(s, q, isObj, room).Some?
    ensures Fine(value) && !value.Block? && Stands(s, v, Write(value)) && e == v + |Write(value)| <= |s|
    ensures value.Text? || (e < |s| && Ends(s[e]))
    ensures ReadItems(s, e, isObj, room - 1).Some?
    ensures ReadItems(s, e, isObj, room - 1).value.next == ReadItems(s, q, isObj, room).value.next
    ensures v < e
  {
    hide ReadItems, ReadLeaf, MemberAt, Write, Stands, Fine;
    assert room > 0 by { RoomThere(s, q, isObj, room, name, v); }
    ItemsOfMember(s, q, isObj, room, q, name, v);
    value := PlainThere(s, v);
    e := v + |Write(value)|;
    Inside(s, v, Write(value));
    FirstTells(value);
    PlainRead(s, v, value);
    if !value.Text? && s[e] !in "}]" {
      OnePassed(s, e, isObj, room - 1);
    }
  }

  lemma RoomThere(s: string, q: nat, isObj: bool, room: nat, name: Option<Placed>, v: nat)
    requires q <= |s| && MemberAt(s, q, isObj, room, q, name, v)
    ensures room > 0
  {
  }

  /** A head that is read stands there. */
  lemma HeadThere(s: string, q: nat, isObj: bool) returns (m: Member)
    requires q < |s| && ReadStart(s, q, isObj).Some?
    ensures ArePieces(m.name) && IsBlanks(m.before) && IsBlanks(m.after) && Stands(s, q, Head(isObj, m))
    ensures ReadStart(s, q, isObj).value.at == q + |Head(isObj, m)|
  {
    hide ReadName;
    if isObj {
      m := NameThere(s, q);
    } else {
      m := Member("", [], "", "", True);
    }
  }

  /** What is read as a block's text is one. */
  lemma {:induction false} ItemsThere(s: string, p: nat, isObj: bool, room: nat)
    returns (ms: seq<Member>, tail: string)
    requires p <= |s| && ReadItems(s, p, isObj, room).Some?
    ensures AllFine(ms) && IsGap(tail) && Stands(s, p, Inner(isObj, ms, tail))
    ensures p + |Inner(isObj, ms, tail)| == ReadItems(s, p, isObj, room).value.next
    decreases |s| - p, 1
  {
    hide ReadItems, ReadStart, GoBlank, Write, Inner, Head, Fine, AllFine, ArePieces, IsBlanks, IsGap, Stands, MemberAt;
    ItemsOfOther(s, p, isObj, room);
    BlanksThere(s, p);
    var q := GoBlank(s, p).value;
    var gap := s[p..q];
    BlanksAreGaps(gap);
    if s[q] == ',' {
      var ms1, tail1 := ItemsThere(s, q + 1, isObj, room);
      OneStands(s, q);
      StandsBoth(s, p, gap, ",");
      CommaIsGap();
      GapsJoined(gap, ",");
      StandsBoth(s, p, gap + ",", Inner(isObj, ms1, tail1));
      ms, tail := Prepended(gap + ",", isObj, ms1, tail1);
    } else if s[q] == Closing(isObj) {
      ms, tail := [], gap;
      OneStands(s, q);
      StandsBoth(s, p, gap, [s[q]]);
      EmptyInner(isObj, gap);
    } else {
      ms, tail := MembersThere(s, p, q, isObj, room);
    }
  }

  lemma {:induction false} MembersThere(s: string, p: nat, q: nat, isObj: bool, room: nat)
    returns (ms: seq<Member>, tail: string)
    requires p <= q < |s| && GoBlank(s, p) == Some(q) && s[q] != ',' && s[q] != Closing(isObj)
    requires ReadItems(s, p, isObj, room).Some?
    ensures AllFine(ms) && IsGap(tail) && Stands(s, p, Inner(isObj, ms, tail))
    ensures p + |Inner(isObj, ms, tail)| == ReadItems(s, p, isObj, room).value.next
    decreases |s| - p, 0
  {
    hide ReadItems, ReadStart, Write, Inner, Head, Fine, AllFine, ArePieces, IsBlanks, IsGap, Stands, MemberAt, Ends;
    BlanksThere(s, p);
    SameItems(s, p, q, isObj, room);
    ItemsOfOther(s, q, isObj, room);
    var m := HeadThere(s, q, isObj);
    var name, v := ReadStart(s, q, isObj).value.name, q + |Head(isObj, m)|;
    assert MemberAt(s, q, isObj, room, q, name, v) by { MemberIs(s, q, isObj, room, name, v); }
    var value: Doc, e: nat, left: nat;
    if s[v] == '{' || s[v] == '[' {
      ItemsOfMember(s, q, isObj, room, q, name, v);
      var inner := ReadItems(s, v + 1, s[v] == '{', room - 1).value;
      var ms1, tail1 := ItemsThere(s, v + 1, s[v] == '{', room - 1);
      value, e, left := Block(s[v] == '{', ms1, tail1), inner.next, inner.room;
      BlockStands(s, v, value);
    } else {
      value, e := PlainMemberThere(s, q, isObj, room, name, v);
      left := room - 1;
    }
    var rest;
    rest, tail := ItemsThere(s, e, isObj, left);
    if !value.Text? && !value.Block? {
      GapBetween(s, e, isObj, rest, tail);
    }
    ms := [m.(gap := s[p..q], value := value)] + rest;
    HeadSame(isObj, m, s[p..q], value);
    BlanksAreGaps(s[p..q]);
    assert ms[1..] == rest;
    MemberStands(s, p, isObj, ms, tail);
    FineMembers(ms);
    InnerParts(s, p, isObj, ms, tail);
  }

  lemma MemberIs(s: string, q: nat, isObj: bool, room: nat, name: Option<Placed>, v: nat)
    requires q < |s| && GoBlank(s, q) == Some(q) && s[q] != ',' && s[q] != Closing(isObj) && room > 0
    requires ReadStart(s, q, isObj) == Some(Start(name, v))
    ensures MemberAt(s, q, isObj, room, q, name, v)
  {
  }

  lemma FineMembers(ms: seq<Member>)
    requires ms != [] && IsGap(ms[0].gap) && ArePieces(ms[0].name) && IsBlanks(ms[0].before) && IsBlanks(ms[0].after)
    requires Fine(ms[0].value) && AllFine(ms[1..])
    requires ms[1..] == [] || ms[1].gap != "" || ms[0].value.Text? || ms[0].value.Block?
    ensures AllFine(ms)
  {
  }

  lemma BlockStands(s: string, v: nat, b: Doc)
    requires b.Block? && v < |s| && s[v] == (if b.isObj then '{' else '[')
    requires Stands(s, v + 1, Inner(b.isObj, b.members, b.tail)) && AllFine(b.members) && IsGap(b.tail)
    ensures Fine(b) && Stands(s, v, Write(b)) && |Write(b)| == 1 + |Inner(b.isObj, b.members, b.tail)|
  {
    hide Inner, Stands, AllFine;
    OneStands(s, v);
    StandsBoth(s, v, [s[v]], Inner(b.isObj, b.members, b.tail));
  }

  lemma EmptyInner(isObj: bool, gap: string)
    ensures AllFine([]) && Inner(isObj, [], gap) == gap + [Closing(isObj)]
  {
  }

  lemma CommaIsGap()
    ensures IsGap(",")
  {
  }

  lemma BlanksAreGaps(b: string)
    requires IsBlanks(b)
    ensures IsGap(b)
  {
  }

  /** The document `v` stands behind `blank` at the beginning of `s`. */
  predicate Written(s: string, blank: string, v: Doc) {
    IsBlanks(blank) && v.Block? && Fine(v) && blank + Write(v) <= s
  }

  function RootAt(p: nat, v: Doc): Tree {
    Tree(None, ValueAt(p, v))
  }

  lemma DocumentThere(s: string, qty: nat) returns (blank: string, v: Doc)
    requires qty >= 1 && ReadDocument(s, qty).Some?
    ensures Written(s, blank, v)
  {
    hide ReadItems, Write, Inner, Stands, IsBlanks, Fine, AllFine, IsGap;
    var p := GoBlank(s, 0).value;
    BlanksThere(s, 0);
    blank := s[..p];
    assert s[0..p] == blank;
    var ms, tail := ItemsThere(s, p + 1, s[p] == '{', qty - 1);
    v := Block(s[p] == '{', ms, tail);
    BlockStands(s, p, v);
    StandsBoth(s, 0, blank, Write(v));
    Inside(s, 0, blank + Write(v));
    assert s[..|blank + Write(v)|] == blank + Write(v);
  }

  /**
   * The parser reads exactly the documents of this grammar, of which there is a node for each value, as the trees
   * they stand for.
   */
  lemma DocumentIff(s: string, qty: nat, d: Document)
    requires qty >= 1
    ensures ReadDocument(s, qty) == Some(d) <==>
            exists blank: string, v: Doc ::
              Written(s, blank, v) && d == Document(RootAt(|blank|, v), |blank| + |Write(v)|) && Size(d.root) <= qty
  {
    hide ReadDocument, Write, Written, ValueAt, Size;
    if ReadDocument(s, qty) == Some(d) {
      var blank, v := DocumentThere(s, qty);
      DocumentRead(s, blank, v, qty);
    }
    forall blank: string, v: Doc | Written(s, blank, v)
      ensures ReadDocument(s, qty) ==
              if Size(RootAt(|blank|, v)) <= qty then Some(Document(RootAt(|blank|, v), |blank| + |Write(v)|)) else None
    {
      DocumentRead(s, blank, v, qty);
    }
  }

  lemma DocumentRead(s: string, blank: string, v: Doc, qty: nat)
    requires Written(s, blank, v) && qty >= 1
    ensures ReadDocument(s, qty) ==
            if Size(RootAt(|blank|, v)) <= qty then Some(Document(RootAt(|blank|, v), |blank| + |Write(v)|)) else None
  {
    hide ReadDocument, Write, ValueAt, Size;
    WrittenIsRead(s, blank, v, qty);
  }

  /** A block with one member in it, whose value is the literal true. */
  lemma OneTrue(gap: string, tail: string)
    requires IsGap(gap) && IsGap(tail)
    ensures var v := Block(false, [Member(gap, [], "", "", True)], tail);
            && Fine(v) && Write(v) == "[" + gap + "true" + tail + "]"
            && RootAt(0, v) == Tree(None, Nest(false, [Tree(None, Plain(JSON_BOOLEAN, Placed(1 + |gap|, "true")))]))
            && Size(RootAt(0, v)) == 2
  {
    var m := Member(gap, [], "", "", True);
    assert [m][1..] == [];
    assert AllFine([m]);
    assert Inner(false, [m], tail) == gap + ("" + ("true" + (tail + "]")));
    var t := Tree(None, Plain(JSON_BOOLEAN, Placed(1 + |gap|, "true")));
    assert TreesAt(1, false, [m]) == [t];
    assert [t][1..] == [] && Sizes([t]) == 1;
  }

  /** A document that is no JSON, with commas before its only member and after it. */
  lemma LenientExample()
    ensures ReadDocument("[,true,]", 2) ==
            Some(Document(Tree(None, Nest(false, [Tree(None, Plain(JSON_BOOLEAN, Placed(2, "true")))])), 8))
  {
    hide ReadDocument, Write, Fine, Size, ValueAt;
    OneTrue(",", ",");
    assert "[" + "," + "true" + "," + "]" == "[,true,]";
    WrittenIsRead("[,true,]", "", Block(false, [Member(",", [], "", "", True)], ","), 2);
  }
}
