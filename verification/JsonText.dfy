/**
 * JSON text as the parser reads it: blanks, strings with their escapes, literals and numbers. A text is a
 * string without its terminating NUL; reading at its end gives that NUL.
 */
module JsonText {

  datatype Option<+T> = None | Some(value: T)

  datatype JsonType = JSON_OBJ | JSON_ARRAY | JSON_TEXT | JSON_BOOLEAN | JSON_INTEGER | JSON_REAL | JSON_NULL

  const NUL: char := '\0'

  predicate IsText(s: string) {
    NUL !in s
  }

  function At(s: string, p: nat): char {
    if p < |s| then s[p] else NUL
  }

  predicate IsBlank(c: char) {
    c == ' ' || c == '\n' || c == '\r' || c == '\t' || c == '\U{0C}'
  }

  predicate IsDigit(c: char) {
    '0' <= c <= '9'
  }

  predicate IsHexDigit(c: char) {
    IsDigit(c) || 'a' <= c <= 'f' || 'A' <= c <= 'F'
  }

  predicate IsEndOfBlock(c: char) {
    c == '}' || c == ']'
  }

  predicate IsEndOfPrimitive(c: char) {
    c == ',' || IsBlank(c) || IsEndOfBlock(c)
  }

  /** The first position from `p` that is not blank, if the text goes on to it. */
  function GoBlank(s: string, p: nat): (q: Option<nat>)
    requires p <= |s|
    ensures q.Some? ==> p <= q.value < |s| && !IsBlank(s[q.value])
    decreases |s| - p
  {
    if p == |s| then None else if IsBlank(s[p]) then GoBlank(s, p + 1) else Some(p)
  }

  /** The first position from `p` that is no digit, if the text goes on to it. */
  function GoNum(s: string, p: nat): (q: Option<nat>)
    requires p <= |s|
    ensures q.Some? ==> p <= q.value < |s| && !IsDigit(s[q.value])
    ensures q.Some? ==> forall k :: p <= k < q.value ==> IsDigit(s[k])
    decreases |s| - p
  {
    if p == |s| then None else if IsDigit(s[p]) then GoNum(s, p + 1) else Some(p)
  }

  // ---------- Strings ----------

  /** The character an escape stands for; none for an unknown one. */
  function Escape(c: char): char {
    match c
    case '\"' => '\"'
    case '\\' => '\\'
    case '/' => '/'
    case 'b' => '\U{08}'
    case 'f' => '\U{0C}'
    case 'n' => '\n'
    case 'r' => '\r'
    case 't' => '\t'
    case _ => NUL
  }

  predicate IsUnicode(s: string, p: nat) {
    IsHexDigit(At(s, p)) && IsHexDigit(At(s, p + 1)) && IsHexDigit(At(s, p + 2)) && IsHexDigit(At(s, p + 3))
  }

  /** A decoded string and the position after its closing quote. */
  datatype Quoted = Quoted(text: string, next: nat)

  /** The string whose first character is at `p`. A `\u` escape becomes a question mark. */
  function ReadString(s: string, p: nat): (q: Option<Quoted>)
    requires p <= |s|
    ensures q.Some? ==> p + |q.value.text| < q.value.next <= |s|
    decreases |s| - p
  {
    if p == |s| then None
    else if s[p] == '\"' then Some(Quoted("", p + 1))
    else if s[p] != '\\' then Behind(s[p], ReadString(s, p + 1))
    else if At(s, p + 1) == 'u' then
      if IsUnicode(s, p + 2) then (UnicodeInside(s, p + 2); Behind('?', ReadString(s, p + 6))) else None
    else if p + 1 == |s| || Escape(s[p + 1]) == NUL then None
    else Behind(Escape(s[p + 1]), ReadString(s, p + 2))
  }

  lemma UnicodeInside(s: string, p: nat)
    requires IsUnicode(s, p)
    ensures p + 4 <= |s|
  {
  }

  function Behind(c: char, q: Option<Quoted>): (r: Option<Quoted>) {
    if q.None? then None else Some(Quoted([c] + q.value.text, q.value.next))
  }

  /** Decoded strings hold no NUL. */
  lemma {:induction false} DecodedIsText(s: string, p: nat)
    requires IsText(s) && p <= |s| && ReadString(s, p).Some?
    ensures IsText(ReadString(s, p).value.text)
    decreases |s| - p
  {
    if s[p] == '\"' {
    } else if s[p] != '\\' {
      DecodedIsText(s, p + 1);
    } else if At(s, p + 1) == 'u' {
      UnicodeInside(s, p + 2);
      DecodedIsText(s, p + 6);
    } else {
      DecodedIsText(s, p + 2);
    }
  }

  // ---------- Primitives ----------

  /** A value that is no container: its type, where its characters stand, what they are, where reading goes on. */
  datatype Leaf = Leaf(typ: JsonType, at: nat, text: string, next: nat)

  /** A primitive from `p` to `e`: what ends it is passed over unless it closes a block. */
  function Primitive(s: string, p: nat, e: nat, typ: JsonType): (l: Option<Leaf>)
    requires p <= e <= |s|
    ensures l.Some? ==> e < |s| && e <= l.value.next <= |s|
  {
    if !IsEndOfPrimitive(At(s, e)) then None
    else Some(Leaf(typ, p, s[p..e], if IsEndOfBlock(At(s, e)) then e else e + 1))
  }

  /** Whether `word` stands at `p`. */
  predicate Stands(s: string, p: nat, word: string) {
    p + |word| <= |s| && s[p..p + |word|] == word
  }

  function ReadLiteral(s: string, p: nat, word: string, typ: JsonType): (l: Option<Leaf>)
    requires p <= |s|
    ensures l.Some? ==> p + |word| <= l.value.next <= |s|
  {
    if Stands(s, p, word) then Primitive(s, p, p + |word|, typ) else None
  }

  const MIN := "-9223372036854775808"
  const MAX := "9223372036854775807"

  /** Order of strings as `strcmp` has it. */
  predicate Less(a: string, b: string) {
    if b == [] then false
    else if a == [] then true
    else if a[0] != b[0] then a[0] < b[0]
    else Less(a[1..], b[1..])
  }

  /** The program's test that an integer's digits are within 64 bits. */
  predicate InRange(t: string)
    requires t != ""
  {
    var limit := if t[0] == '-' then MIN else MAX;
    |t| < |limit| || (|t| == |limit| && !Less(limit, t))
  }

  /** Where the digits before point and exponent end. */
  function WholeEnd(s: string, p: nat): (q: Option<nat>)
    requires p <= |s|
    ensures q.Some? ==> p < q.value <= |s|
  {
    var d := if At(s, p) == '-' then p + 1 else p;
    if !IsDigit(At(s, d)) then None
    else if s[d] != '0' then GoNum(s, d)
    else if IsDigit(At(s, d + 1)) then None
    else Some(d + 1)
  }

  /** Past a fraction that starts at `q`, if there is one. */
  function FractionEnd(s: string, q: nat): (r: Option<nat>)
    requires q <= |s|
    ensures r.Some? ==> q <= r.value <= |s|
  {
    if At(s, q) != '.' then Some(q)
    else if !IsDigit(At(s, q + 1)) then None
    else GoNum(s, q + 2)
  }

  /** Past an exponent that starts at `q`, if there is one. */
  function ExponentEnd(s: string, q: nat): (r: Option<nat>)
    requires q <= |s|
    ensures r.Some? ==> q <= r.value <= |s|
  {
    if At(s, q) != 'e' && At(s, q) != 'E' then Some(q)
    else
      var d := if At(s, q + 1) == '-' || At(s, q + 1) == '+' then q + 2 else q + 1;
      if !IsDigit(At(s, d)) then None else GoNum(s, d + 1)
  }

  function ReadNumber(s: string, p: nat): (l: Option<Leaf>)
    requires p <= |s|
    ensures l.Some? ==> p < l.value.next <= |s|
  {
    var whole := WholeEnd(s, p);
    if whole.None? then None
    else
      var fraction := FractionEnd(s, whole.value);
      if fraction.None? then None
      else
        var exponent := ExponentEnd(s, fraction.value);
        if exponent.None? then None
        else if exponent.value == whole.value && IsEndOfPrimitive(At(s, whole.value)) && !InRange(s[p..whole.value])
        then None
        else Primitive(s, p, exponent.value, if exponent.value == whole.value then JSON_INTEGER else JSON_REAL)
  }

  function ReadLeaf(s: string, p: nat): (l: Option<Leaf>)
    requires p < |s|
    ensures l.Some? ==> p < l.value.next <= |s|
  {
    match s[p]
    case '\"' =>
      (match ReadString(s, p + 1)
       case None => None
       case Some(q) => Some(Leaf(JSON_TEXT, p + 1, q.text, q.next)))
    case 't' => ReadLiteral(s, p, "true", JSON_BOOLEAN)
    case 'f' => ReadLiteral(s, p, "false", JSON_BOOLEAN)
    case 'n' => ReadLiteral(s, p, "null", JSON_NULL)
    case _ => ReadNumber(s, p)
  }

  // ---------- Integers ----------

  function DigitOf(c: char): nat
    requires IsDigit(c)
  {
    c as int - '0' as int
  }

  function Power10(n: nat): (p: nat)
    ensures p > 0
  {
    if n == 0 then 1 else 10 * Power10(n - 1)
  }

  predicate AllDigits(t: string) {
    forall c <- t :: IsDigit(c)
  }

  /** The number a string of digits is. */
  function ValueOf(t: string): (v: nat)
    requires AllDigits(t)
  {
    if t == "" then 0 else DigitOf(t[0]) * Power10(|t| - 1) + ValueOf(t[1..])
  }

  lemma {:induction false} Times(a: nat, b: nat, p: nat)
    requires a < b
    ensures a * p + p <= b * p
    decreases b
  {
    if a + 1 < b {
      Times(a, b - 1, p);
    }
  }

  lemma {:induction false} ValueBelow(t: string)
    requires AllDigits(t)
    ensures ValueOf(t) < Power10(|t|)
  {
    if t != "" {
      ValueBelow(t[1..]);
      Times(DigitOf(t[0]), 10, Power10(|t| - 1));
    }
  }

  /** Numerals of the same length are ordered as the numbers they are. */
  lemma {:induction false} LessIsLess(a: string, b: string)
    requires AllDigits(a) && AllDigits(b) && |a| == |b|
    ensures Less(a, b) <==> ValueOf(a) < ValueOf(b)
  {
    if a != "" {
      var p := Power10(|a| - 1);
      ValueBelow(a[1..]);
      ValueBelow(b[1..]);
      if a[0] < b[0] {
        Times(DigitOf(a[0]), DigitOf(b[0]), p);
      } else if b[0] < a[0] {
        Times(DigitOf(b[0]), DigitOf(a[0]), p);
      } else {
        LessIsLess(a[1..], b[1..]);
      }
    }
  }

  lemma Digits(c: char, rest: string)
    requires IsDigit(c) && AllDigits(rest)
    ensures AllDigits([c] + rest) && ValueOf([c] + rest) == DigitOf(c) * Power10(|rest|) + ValueOf(rest)
  {
    assert ([c] + rest)[1..] == rest;
  }

  lemma {:induction false} Joined(a: string, b: string)
    requires AllDigits(a) && AllDigits(b)
    ensures AllDigits(a + b) && ValueOf(a + b) == ValueOf(a) * Power10(|b|) + ValueOf(b)
  {
    if a == "" {
      assert a + b == b;
    } else {
      Joined(a[1..], b);
      assert a + b == [a[0]] + (a[1..] + b);
      Digits(a[0], a[1..] + b);
      PowerSum(|a| - 1, |b|);
      Distribute(DigitOf(a[0]), Power10(|a| - 1), ValueOf(a[1..]), Power10(|b|));
    }
  }

  lemma Distribute(d: nat, p: nat, v: nat, q: nat)
    ensures (d * p + v) * q == d * (p * q) + v * q
  {
  }

  lemma {:induction false} PowerSum(m: nat, n: nat)
    ensures Power10(m + n) == Power10(m) * Power10(n)
  {
    if m != 0 {
      PowerSum(m - 1, n);
    }
  }

  lemma SixDigits(a: char, b: char, c: char, d: char, e: char, f: char)
    requires AllDigits([a, b, c, d, e, f])
    ensures ValueOf([a, b, c, d, e, f]) ==
            100000 * DigitOf(a) + 10000 * DigitOf(b) + 1000 * DigitOf(c)
            + 100 * DigitOf(d) + 10 * DigitOf(e) + DigitOf(f)
  {
    hide DigitOf, ValueOf;
    Digits(a, [b, c, d, e, f]);
    Digits(b, [c, d, e, f]);
    Digits(c, [d, e, f]);
    Digits(d, [e, f]);
    Digits(e, [f]);
    Digits(f, []);
    assert [a] + [b, c, d, e, f] == [a, b, c, d, e, f] && [b] + [c, d, e, f] == [b, c, d, e, f];
    assert [c] + [d, e, f] == [c, d, e, f] && [d] + [e, f] == [d, e, f] && [e] + [f] == [e, f] && [f] + [] == [f];
    Powers();
    NoDigits();
  }

  lemma NoDigits()
    ensures ValueOf("") == 0
  {
  }

  lemma Powers()
    ensures Power10(0) == 1 && Power10(1) == 10 && Power10(2) == 100 && Power10(3) == 1000 && Power10(4) == 10000
    ensures Power10(5) == 100000 && Power10(6) == 1000000
  {
  }

  const HEAD := "9" + "223372" + "036854"

  lemma HeadValue()
    ensures AllDigits(HEAD) && ValueOf(HEAD) == 9223372036854
  {
    hide ValueOf, Power10;
    SixDigits('2', '2', '3', '3', '7', '2');
    SixDigits('0', '3', '6', '8', '5', '4');
    Powers();
    NoDigits();
    Digits('9', "");
    assert ['9'] + "" == "9";
    Joined("9", "223372");
    Joined("9" + "223372", "036854");
  }

  lemma LimitValues()
    ensures AllDigits(MAX) && ValueOf(MAX) == 0x7FFF_FFFF_FFFF_FFFF
    ensures AllDigits(MIN[1..]) && ValueOf(MIN[1..]) == 0x8000_0000_0000_0000
    ensures |MIN[1..]| == |MAX| == 19
  {
    hide ValueOf, Power10, AllDigits;
    HeadValue();
    EndsAreDigits();
    SixDigits('7', '7', '5', '8', '0', '7');
    SixDigits('7', '7', '5', '8', '0', '8');
    Powers();
    Joined(HEAD, "775807");
    Joined(HEAD, "775808");
    assert MAX == HEAD + "775807";
    assert MIN[1..] == HEAD + "775808";
  }

  lemma EndsAreDigits()
    ensures AllDigits("775807") && AllDigits("775808")
  {
  }

  lemma {:induction false} LeadingDigit(t: string)
    requires AllDigits(t) && t != "" && t[0] != '0'
    ensures Power10(|t| - 1) <= ValueOf(t)
  {
    Times(0, DigitOf(t[0]), Power10(|t| - 1));
  }

  /** A numeral of fewer or more digits than the limit is below or above it. */
  lemma LengthDecides(t: string, limit: string)
    requires AllDigits(t) && AllDigits(limit) && t != "" && limit != "" && limit[0] != '0' && (t[0] == '0' ==> |t| == 1)
    requires |t| != |limit|
    ensures if |t| < |limit| then ValueOf(t) < ValueOf(limit) else ValueOf(limit) < ValueOf(t)
  {
    if |t| < |limit| {
      ValueBelow(t);
      LeadingDigit(limit);
      PowerGrows(|t|, |limit| - 1);
    } else {
      ValueBelow(limit);
      LeadingDigit(t);
      PowerGrows(|limit|, |t| - 1);
    }
  }

  lemma {:induction false} PowerGrows(m: nat, n: nat)
    requires m <= n
    ensures Power10(m) <= Power10(n)
  {
    if m < n {
      PowerGrows(m, n - 1);
    }
  }

  /** An integer without leading zeros, perhaps after a minus sign. */
  predicate IsNumeral(t: string) {
    var d := if t != "" && t[0] == '-' then t[1..] else t;
    d != "" && AllDigits(d) && (d[0] == '0' ==> |d| == 1)
  }

  function IntegerOf(t: string): int
    requires IsNumeral(t)
  {
    if t[0] == '-' then -(ValueOf(t[1..]) as int) else ValueOf(t)
  }

  /** Comparing the characters is right: an integer passes the test just when it fits 64 bits. */
  lemma InRangeIffFits(t: string)
    requires IsNumeral(t)
    ensures InRange(t) <==> -0x8000_0000_0000_0000 <= IntegerOf(t) <= 0x7FFF_FFFF_FFFF_FFFF
  {
    hide Power10, ValueOf;
    LimitValues();
    if t[0] == '-' {
      var d := t[1..];
      assert MIN[0] == '-';
      if |d| == 19 {
        LessIsLess(MIN[1..], d);
      } else {
        LengthDecides(d, MIN[1..]);
      }
    } else {
      if |t| == 19 {
        LessIsLess(MAX, t);
      } else {
        LengthDecides(t, MAX);
      }
    }
  }

  lemma {:induction false} GoNumSpans(s: string, p: nat, e: nat)
    requires p <= e < |s| && (forall k :: p <= k < e ==> IsDigit(s[k])) && !IsDigit(s[e])
    ensures GoNum(s, p) == Some(e)
    decreases e - p
  {
    if p < e {
      GoNumSpans(s, p + 1, e);
    }
  }

  /** A numeral where a value can stand is accepted, as an integer of those digits, just when it fits 64 bits. */
  lemma IntegerAcceptedIff(s: string, p: nat, t: string)
    requires IsNumeral(t) && Stands(s, p, t) && IsEndOfPrimitive(At(s, p + |t|)) && IsText(s)
    ensures ReadNumber(s, p).Some? <==> -0x8000_0000_0000_0000 <= IntegerOf(t) <= 0x7FFF_FFFF_FFFF_FFFF
    ensures ReadNumber(s, p).Some? ==> ReadNumber(s, p).value.typ == JSON_INTEGER && ReadNumber(s, p).value.text == t
  {
    hide InRange, IntegerOf;
    InRangeIffFits(t);
    var d, e := if t[0] == '-' then p + 1 else p, p + |t|;
    assert forall k :: p <= k < e ==> s[k] == s[p..e][k - p];
    assert s[p] == t[0];
    assert forall k :: d <= k < e ==> IsDigit(s[k]) by {
      forall k | d <= k < e ensures IsDigit(s[k]) {
        assert s[k] == t[k - p] && (t[0] == '-' ==> t[k - p] == t[1..][k - p - 1]);
      }
    }
    if s[d] == '0' {
      assert e == d + 1;
    } else {
      GoNumSpans(s, d, e);
    }
    assert WholeEnd(s, p) == Some(e);
  }
}
