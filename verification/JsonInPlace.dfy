/** Names and values stand in the text itself, decoded over their own source and ended by a NUL. */
module JsonInPlace {
  import opened JsonText
  import opened JsonTree

  /** The text from `p` on is still as it was, up to its terminator. */
  predicate Unread(text: string, s: string, p: nat) {
    p <= |s| < |text| && text[p..|s|] == s[p..] && text[|s|] == NUL
  }

  /** The characters stand at their place and a NUL ends them. */
  predicate Ended(text: string, c: Placed) {
    c.at + |c.text| < |text| && text[c.at..c.at + |c.text|] == c.text && text[c.at + |c.text|] == NUL
  }

  /** The same, but the NUL may still have to be put over a closing bracket at `p`. */
  predicate Settled(text: string, p: nat, c: Placed) {
    && c.at + |c.text| <= p <= |text| && c.at + |c.text| < |text| && text[c.at..c.at + |c.text|] == c.text
    && if c.at + |c.text| < p then text[c.at + |c.text|] == NUL else IsEndOfBlock(text[p])
  }

  predicate NameSettled(text: string, p: nat, name: Option<Placed>) {
    name.Some? ==> Settled(text, p, name.value)
  }

  predicate TreeSettled(text: string, p: nat, t: Tree) {
    && NameSettled(text, p, t.name)
    && match t.value
       case Plain(_, chars) => Settled(text, p, chars)
       case Nest(_, children) => forall k :: 0 <= k < |children| ==> TreeSettled(text, p, children[k])
  }

  predicate TreeEnded(text: string, t: Tree) {
    && (t.name.Some? ==> Ended(text, t.name.value))
    && match t.value
       case Plain(_, chars) => Ended(text, chars)
       case Nest(_, children) => forall k :: 0 <= k < |children| ==> TreeEnded(text, children[k])
  }

  predicate OpenSettled(text: string, p: nat, o: Open) {
    NameSettled(text, p, o.name) && forall k :: 0 <= k < |o.done| ==> TreeSettled(text, p, o.done[k])
  }

  predicate StackSettled(text: string, p: nat, stack: seq<Open>) {
    forall k :: 0 <= k < |stack| ==> OpenSettled(text, p, stack[k])
  }

  /** Nothing before `p` is written any more, and a bracket at `p` is only passed by putting a NUL over it. */
  predicate Onwards(text: string, p: nat, other: string, q: nat) {
    && p < q <= |other| == |text| && other[..p] == text[..p]
    && (IsEndOfBlock(text[p]) ==> other[p] == NUL)
  }

  lemma CharsOnwards(text: string, p: nat, other: string, q: nat, c: Placed)
    requires Settled(text, p, c) && Onwards(text, p, other, q)
    ensures Settled(other, q, c) && Ended(other, c)
  {
    var e := c.at + |c.text|;
    assert other[c.at..e] == other[..p][c.at..e] == text[..p][c.at..e] == text[c.at..e];
    if e < p {
      assert other[e] == other[..p][e] == text[..p][e];
    }
  }

  lemma {:induction false} TreeOnwards(text: string, p: nat, other: string, q: nat, t: Tree)
    requires TreeSettled(text, p, t) && Onwards(text, p, other, q)
    ensures TreeSettled(other, q, t) && TreeEnded(other, t)
    decreases t
  {
    hide Settled, Ended, Onwards;
    if t.name.Some? {
      CharsOnwards(text, p, other, q, t.name.value);
    }
    match t.value
    case Plain(_, chars) => CharsOnwards(text, p, other, q, chars);
    case Nest(_, children) =>
      forall k | 0 <= k < |children| ensures TreeSettled(other, q, children[k]) && TreeEnded(other, children[k]) {
        TreeOnwards(text, p, other, q, children[k]);
      }
  }

  lemma OpenOnwards(text: string, p: nat, other: string, q: nat, o: Open)
    requires OpenSettled(text, p, o) && Onwards(text, p, other, q)
    ensures OpenSettled(other, q, o) && TreeEnded(other, Closed(o, []).(name := None))
    ensures TreeSettled(other, q, Closed(o, []))
  {
    hide Settled, Ended, Onwards;
    if o.name.Some? {
      CharsOnwards(text, p, other, q, o.name.value);
    }
    forall k | 0 <= k < |o.done| ensures TreeSettled(other, q, o.done[k]) && TreeEnded(other, o.done[k]) {
      TreeOnwards(text, p, other, q, o.done[k]);
    }
    assert o.done + [] == o.done;
  }

  /** Reading on keeps what has been read. */
  lemma StackOnwards(text: string, p: nat, other: string, q: nat, stack: seq<Open>)
    requires StackSettled(text, p, stack) && Onwards(text, p, other, q)
    ensures StackSettled(other, q, stack)
  {
    hide OpenSettled, Onwards;
    forall k | 0 <= k < |stack| ensures OpenSettled(other, q, stack[k]) {
      OpenOnwards(text, p, other, q, stack[k]);
    }
  }

  lemma WithSettled(text: string, p: nat, stack: seq<Open>, t: Tree)
    requires stack != [] && StackSettled(text, p, stack) && TreeSettled(text, p, t)
    ensures StackSettled(text, p, With(stack, t))
  {
    hide TreeSettled, NameSettled;
    var top := stack[|stack| - 1];
    assert OpenSettled(text, p, top);
    forall k | 0 <= k < |stack| ensures OpenSettled(text, p, With(stack, t)[k]) {
      assert OpenSettled(text, p, stack[k]);
    }
  }

  // ---------- The lexical routines ----------

  lemma UnreadAt(text: string, s: string, p: nat, k: nat)
    requires Unread(text, s, p) && p <= k <= |s|
    ensures text[k] == At(s, k) && Unread(text, s, k)
  {
    if k < |s| {
      assert text[k] == text[p..|s|][k - p] == s[p..][k - p];
    }
    assert text[k..|s|] == text[p..|s|][k - p..] == s[p..][k - p..] == s[k..];
  }

  /** Moves on over blanks; no position if the text ends there. */
  method goBlank(str: array<char>, ptr: nat, ghost s: string) returns (q: Option<nat>)
    requires IsText(s) && Unread(str[..], s, ptr)
    ensures q == GoBlank(s, ptr)
  {
    hide Unread;
    var p := ptr;
    UnreadInside(str[..], s, ptr);
    UnreadAt(str[..], s, ptr, p);
    while str[p] != NUL && IsBlank(str[p])
      invariant ptr <= p <= |s| < str.Length && str[p] == At(s, p)
      invariant GoBlank(s, ptr) == GoBlank(s, p)
      decreases |s| - p
    {
      UnreadAt(str[..], s, ptr, p + 1);
      p := p + 1;
    }
    q := if str[p] == NUL then None else Some(p);
  }

  lemma UnreadInside(text: string, s: string, p: nat)
    requires Unread(text, s, p)
    ensures p <= |s| < |text|
  {
  }

  /** Moves on over digits; no position if the text ends there. */
  method goNum(str: array<char>, ptr: nat, ghost s: string) returns (q: Option<nat>)
    requires IsText(s) && Unread(str[..], s, ptr)
    ensures q == GoNum(s, ptr)
  {
    hide Unread;
    var p := ptr;
    UnreadInside(str[..], s, ptr);
    UnreadAt(str[..], s, ptr, p);
    while str[p] != NUL && IsDigit(str[p])
      invariant ptr <= p <= |s| < str.Length && str[p] == At(s, p)
      invariant GoNum(s, ptr) == GoNum(s, p)
      decreases |s| - p
    {
      UnreadAt(str[..], s, ptr, p + 1);
      p := p + 1;
    }
    q := if str[p] == NUL then None else Some(p);
  }

  /** Whether four hexadecimal digits stand at `ptr`, looking no further than the first that does not fit. */
  method getCharFromUnicode(str: array<char>, ptr: nat, ghost s: string) returns (ok: bool)
    requires IsText(s) && Unread(str[..], s, ptr)
    ensures ok == IsUnicode(s, ptr)
  {
    hide Unread;
    UnreadInside(str[..], s, ptr);
    var i := 0;
    while i < 4
      invariant 0 <= i <= 4 && ptr + i <= |s|
      invariant (i > 0 ==> IsHexDigit(At(s, ptr))) && (i > 1 ==> IsHexDigit(At(s, ptr + 1)))
      invariant (i > 2 ==> IsHexDigit(At(s, ptr + 2))) && (i > 3 ==> IsHexDigit(At(s, ptr + 3)))
    {
      UnreadAt(str[..], s, ptr, ptr + i);
      if !IsHexDigit(str[ptr + i]) {
        return false;
      }
      i := i + 1;
    }
    return true;
  }

  lemma UnreadKept(text: string, s: string, p: nat, k: nat, c: char)
    requires Unread(text, s, p) && k < p
    ensures k < |text| && Unread(text[k := c], s, p)
  {
    assert text[k := c][p..|s|] == text[p..|s|];
  }

  /** `head` before what a string is read as further on. */
  function Prepend(head: string, q: Option<Quoted>): Option<Quoted> {
    if q.None? then None else Some(Quoted(head + q.value.text, q.value.next))
  }

  lemma PrependBehind(head: string, c: char, q: Option<Quoted>)
    ensures Prepend(head, Behind(c, q)) == Prepend(head + [c], q)
  {
    if q.Some? {
      assert head + ([c] + q.value.text) == head + [c] + q.value.text;
    }
  }

  /** Puts a decoded character behind those decoded so far; what is unread from `head` on stays so. */
  method PutDecoded(str: array<char>, from: nat, tail: nat, c: char, ghost s: string, ghost head: nat)
    requires from <= tail < head && Unread(str[..], s, head) && tail < str.Length
    modifies str
    ensures Unread(str[..], s, head) && str[..from] == old(str[..from])
    ensures str[from..tail + 1] == old(str[from..tail]) + [c]
  {
    UnreadKept(str[..], s, head, tail, c);
    ghost var before := str[..];
    str[tail] := c;
    assert str[..] == before[tail := c];
    assert str[..from] == before[..from];
    assert str[from..tail + 1] == before[from..tail] + [c];
  }

  lemma PrependNothing(q: Option<Quoted>)
    ensures Prepend("", q) == q
  {
    if q.Some? {
      assert "" + q.value.text == q.value.text;
    }
  }

  /** The character that stands, or is escaped, at `head`, and how far its source reaches; NUL for a bad escape. */
  method decodeChar(str: array<char>, head: nat, ghost s: string) returns (c: char, step: nat)
    requires IsText(s) && Unread(str[..], s, head) && head < |s| && s[head] != '\"'
    ensures c == NUL ==> ReadString(s, head) == None
    ensures c != NUL ==> step >= 1 && head + step <= |s| && ReadString(s, head) == Behind(c, ReadString(s, head + step))
  {
    hide Unread;
    UnreadInside(str[..], s, head);
    UnreadAt(str[..], s, head, head);
    c, step := str[head], 1;
    if c == '\\' {
      UnreadAt(str[..], s, head, head + 1);
      if str[head + 1] == 'u' {
        UnreadAt(str[..], s, head, head + 2);
        var ok := getCharFromUnicode(str, head + 2, s);
        if ok {
          UnicodeInside(s, head + 2);
        }
        c, step := if ok then '?' else NUL, 6;
      } else {
        c, step := Escape(str[head + 1]), 2;
      }
    }
  }

  lemma QuoteEnds(s: string, p: nat, done: string)
    requires p < |s| && s[p] == '\"'
    ensures Prepend(done, ReadString(s, p)) == Some(Quoted(done, p + 1))
  {
    assert done + "" == done;
  }

  lemma EndOfTextEnds(s: string, done: string)
    ensures Prepend(done, ReadString(s, |s|)) == None
  {
  }

  lemma BadEscapeEnds(done: string)
    ensures Prepend(done, None) == None
  {
  }

  /** Puts the NUL behind a decoded string whose closing quote is at `head`. */
  method endString(str: array<char>, ptr: nat, tail: nat, head: nat, ghost s: string, ghost done: string)
    requires ptr <= tail <= head < |s| && Unread(str[..], s, head) && str[ptr..tail] == done
    modifies str
    ensures str[..ptr] == old(str[..ptr]) && Unread(str[..], s, head + 1) && Ended(str[..], Placed(ptr, done))
  {
    hide Unread;
    UnreadInside(str[..], s, head);
    UnreadAt(str[..], s, head, head + 1);
    PutDecoded(str, ptr, tail, NUL, s, head + 1);
    assert str[..][ptr..tail] == str[ptr..tail + 1][..tail - ptr] == done;
    assert str[tail] == str[ptr..tail + 1][tail - ptr];
  }

  /**
   * Decodes a string over itself from `ptr`, the first character after its quote, and ends it with a NUL. The
   * writing position never passes the reading position.
   */
  method parseString(str: array<char>, ptr: nat, ghost s: string) returns (next: Option<nat>)
    requires IsText(s) && Unread(str[..], s, ptr)
    modifies str
    ensures str[..ptr] == old(str[..ptr])
    ensures match ReadString(s, ptr)
            case None => next == None
            case Some(q) =>
              next == Some(q.next) && Unread(str[..], s, q.next) && Ended(str[..], Placed(ptr, q.text))
  {
    hide Unread, ReadString, Prepend, Behind, Ended;
    UnreadInside(str[..], s, ptr);
    var head, tail := ptr, ptr;
    UnreadAt(str[..], s, ptr, ptr);
    ghost var done := "";
    PrependNothing(ReadString(s, ptr));
    while str[head] != NUL
      invariant ptr <= tail <= head <= |s| < str.Length && str[head] == At(s, head)
      invariant Unread(str[..], s, head) && str[..ptr] == old(str[..ptr]) && str[ptr..tail] == done
      invariant ReadString(s, ptr) == Prepend(done, ReadString(s, head))
      decreases |s| - head
    {
      if str[head] == '\"' {
        QuoteEnds(s, head, done);
        endString(str, ptr, tail, head, s, done);
        return Some(head + 1);
      }
      var c, step := decodeChar(str, head, s);
      if c == NUL {
        BadEscapeEnds(done);
        return None;
      }
      UnreadAt(str[..], s, head, head + step);
      PrependBehind(done, c, ReadString(s, head + step));
      PutDecoded(str, ptr, tail, c, s, head + step);
      done := done + [c];
      head, tail := head + step, tail + 1;
      UnreadAt(str[..], s, head, head);
    }
    EndOfTextEnds(s, done);
    return None;
  }
}
