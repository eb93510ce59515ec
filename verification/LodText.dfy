/** The lines of a LOD file: hexadecimal words, block bases and attributes. */
module LodText {

  datatype Option<+T> = None | Some(value: T)

  // ---------- Hexadecimal ----------

  function HexDigit(n: nat): (c: char)
    requires n < 16
    ensures IsHex(c) && HexValue(c) == n
  {
    if n < 10 then '0' + n as char else 'a' + (n - 10) as char
  }

  predicate IsHex(c: char) {
    '0' <= c <= '9' || 'a' <= c <= 'f' || 'A' <= c <= 'F'
  }

  function HexValue(c: char): (n: nat)
    requires IsHex(c)
    ensures n < 16
  {
    if c <= '9' then c as int - '0' as int
    else if c <= 'F' then c as int - 'A' as int + 10
    else c as int - 'a' as int + 10
  }

  predicate AllHex(s: string) {
    forall c <- s :: IsHex(c)
  }

  function Value(s: string): nat
    requires AllHex(s)
  {
    if s == "" then 0 else 16 * Value(s[..|s| - 1]) + HexValue(s[|s| - 1])
  }

  /** At least `width` digits, lower case. */
  function Format(n: nat, width: nat): (s: string)
    ensures AllHex(s) && |s| >= width && Value(s) == n
    decreases n + width
  {
    if n == 0 && width == 0 then ""
    else
      var front := Format(n / 16, if width == 0 then 0 else width - 1);
      assert (front + [HexDigit(n % 16)])[..|front|] == front;
      front + [HexDigit(n % 16)]
  }

  lemma {:induction false} FormatWidth(n: nat, width: nat)
    ensures |Format(n, width)| == width <==> n < Power16(width)
    decreases width
  {
    if width != 0 {
      FormatWidth(n / 16, width - 1);
      Below16(n, Power16(width - 1));
    }
  }

  lemma Below16(n: nat, p: nat)
    ensures n / 16 < p <==> n < 16 * p
  {
  }

  function Power16(n: nat): nat {
    if n == 0 then 1 else 16 * Power16(n - 1)
  }

  const WORD := 0x1_0000_0000

  lemma EightDigits(n: nat)
    requires n < WORD
    ensures |Format(n, 8)| == 8
  {
    FormatWidth(n, 8);
    assert Power16(4) == 0x1_0000;
    assert Power16(8) == WORD;
  }

  // ---------- Searching a line ----------

  predicate Eight(s: string, i: nat) {
    i + 8 <= |s| && AllHex(s[i..i + 8])
  }

  /** The first run of eight digits from `i` on. */
  function SearchWord(s: string, i: nat): (r: Option<nat>)
    requires i <= |s|
    ensures r.Some? ==> Eight(s, r.value)
    decreases |s| - i
  {
    if Eight(s, i) then Some(i) else if i == |s| then None else SearchWord(s, i + 1)
  }

  /** The first `@` with eight digits behind it. */
  function SearchBase(s: string, i: nat): (r: Option<nat>)
    requires i <= |s|
    ensures r.Some? ==> Eight(s, r.value)
    decreases |s| - i
  {
    if i < |s| && s[i] == '@' && Eight(s, i + 1) then Some(i + 1)
    else if i == |s| then None
    else SearchBase(s, i + 1)
  }

  function WordIn(s: string): Option<nat> {
    match SearchWord(s, 0) case None => None case Some(i) => Some(Value(s[i..i + 8]))
  }

  function BaseIn(s: string): Option<nat> {
    match SearchBase(s, 0) case None => None case Some(i) => Some(Value(s[i..i + 8]))
  }

  lemma WordRead(n: nat, rest: string)
    requires n < WORD
    ensures WordIn(Format(n, 8) + rest) == Some(n) && BaseIn("@" + Format(n, 8) + rest) == Some(n)
  {
    EightDigits(n);
    var w := Format(n, 8);
    assert (w + rest)[0..8] == w;
    assert ("@" + w + rest)[1..9] == w;
  }

  // ---------- Attributes ----------

  predicate IsSpace(c: char) {
    c == ' ' || '\t' <= c <= '\r' || '\U{1C}' <= c <= '\U{1F}'
  }

  function StripLeft(s: string): string {
    if s != "" && IsSpace(s[0]) then StripLeft(s[1..]) else s
  }

  function StripRight(s: string): string {
    if s != "" && IsSpace(s[|s| - 1]) then StripRight(s[..|s| - 1]) else s
  }

  function Strip(s: string): string {
    StripRight(StripLeft(s))
  }

  lemma StripLine(s: string)
    requires s != "" && !IsSpace(s[0]) && !IsSpace(s[|s| - 1])
    ensures Strip(s + "\n") == s && Strip(s) == s
  {
    var line := s + "\n";
    assert line[0] == s[0] && line[|line| - 1] == '\n' && line[..|line| - 1] == s;
    assert StripLeft(line) == line && StripLeft(s) == s && StripRight(s) == s;
  }

  // ---------- Numbers as Python's int() reads them ----------

  predicate IsDigitOf(c: char, radix: nat) {
    IsHex(c) && HexValue(c) < radix
  }

  /** Digits, with single underscores between them. */
  function Numeral(s: string, radix: nat): Option<nat> {
    if s == "" || !IsDigitOf(s[|s| - 1], radix) then None
    else
      var d, front := HexValue(s[|s| - 1]), s[..|s| - 1];
      if front == "" then Some(d)
      else
        match Numeral(if front[|front| - 1] == '_' then front[..|front| - 1] else front, radix)
        case None => None
        case Some(v) => Some(radix * v + d)
  }

  /** The digits' radix, the digits, and whether only zero is allowed: a decimal number has no leading zeros. */
  function Radix(u: string, base: nat): (nat, string, bool) {
    var second := if |u| >= 2 && u[0] == '0' then u[1] else ' ';
    if second in "xX" && (base == 0 || base == 16) then (16, PastUnderscore(u[2..]), false)
    else if second in "oO" && (base == 0 || base == 8) then (8, PastUnderscore(u[2..]), false)
    else if second in "bB" && (base == 0 || base == 2) then (2, PastUnderscore(u[2..]), false)
    else if base == 0 then (10, u, u != "" && u[0] == '0')
    else (base, u, false)
  }

  function PastUnderscore(s: string): string {
    if s != "" && s[0] == '_' then s[1..] else s
  }

  /** The value of `int(text, base)`; none if it raises an exception. Base 0 takes the base from the text. */
  function PyInt(text: string, base: nat): Option<int> {
    var t := Strip(text);
    var signed := t != "" && (t[0] == '-' || t[0] == '+');
    var (radix, digits, zero) := Radix(if signed then t[1..] else t, base);
    match Numeral(digits, radix)
    case None => None
    case Some(v) => if zero && v != 0 then None else if signed && t[0] == '-' then Some(0 - v) else Some(v)
  }

  lemma {:induction false} NumeralOfHex(s: string)
    requires AllHex(s) && s != ""
    ensures Numeral(s, 16) == Some(Value(s))
    decreases |s|
  {
    var front := s[..|s| - 1];
    assert s[|s| - 1] in s;
    if front != "" {
      assert front[|front| - 1] in s;
      NumeralOfHex(front);
    }
  }

  lemma HexRead(s: string)
    requires AllHex(s) && s != ""
    ensures PyInt(s, 16) == Some(Value(s))
  {
    assert s[0] in s && s[|s| - 1] in s && (|s| >= 2 ==> s[1] in s);
    StripLine(s);
    NumeralOfHex(s);
  }

  // ---------- Fields ----------

  /** Where the first `c` is; the length if there is none. */
  function IndexOf(s: string, c: char): (i: nat)
    ensures i <= |s| && (i < |s| ==> s[i] == c) && forall k :: 0 <= k < i ==> s[k] != c
  {
    if s == "" || s[0] == c then 0 else 1 + IndexOf(s[1..], c)
  }

  lemma IndexIs(s: string, c: char, i: nat)
    requires i < |s| && s[i] == c && forall k :: 0 <= k < i ==> s[k] != c
    ensures IndexOf(s, c) == i
  {
  }

  /** The two fields of a text with a single `=`. */
  function SplitPair(s: string): Option<(string, string)> {
    var i := IndexOf(s, '=');
    if i == |s| || '=' in s[i + 1..] then None else Some((s[..i], s[i + 1..]))
  }

  predicate AttrOk(name: string, value: string) {
    && '=' !in name && '=' !in value
    && (name != "" ==> !IsSpace(name[0])) && (value != "" ==> !IsSpace(value[|value| - 1]))
  }

  lemma PairRead(name: string, value: string)
    requires AttrOk(name, value)
    ensures SplitPair(Strip(name + "=" + value + "\n")) == Some((name, value))
  {
    var s := name + "=" + value;
    StripLine(s);
    assert s[|name|] == '=';
    IndexIs(s, '=', |name|);
    assert s[..|name|] == name && s[|name| + 1..] == value;
  }
}
