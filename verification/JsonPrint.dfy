/**
 * An independent writer of JSON: what it writes the parser reads as what was written, in any of the lenient
 * layouts.
 */
module JsonPrint {
  import opened JsonText
  import opened JsonTree

  // ---------- Strings ----------

  /** One way of writing a character inside quotes. */
  datatype Piece = Piece(source: string, letter: char)

  predicate IsHexChar(c: char) {
    '0' <= c <= '9' || 'a' <= c <= 'f' || 'A' <= c <= 'F'
  }

  /** A character stands for itself, an escape for another, and a `\u` with four digits for a question mark. */
  predicate IsPiece(x: Piece) {
    var w, c := x.source, x.letter;
    || (|w| == 1 && w[0] == c && c != '\"' && c != '\\')
    || (w == "\\\"" && c == '\"') || (w == "\\\\" && c == '\\') || (w == "\\/" && c == '/')
    || (w == "\\b" && c == '\U{08}') || (w == "\\f" && c == '\U{0C}') || (w == "\\n" && c == '\n')
    || (w == "\\r" && c == '\r') || (w == "\\t" && c == '\t')
    || (|w| == 6 && w[0] == '\\' && w[1] == 'u' && c == '?'
        && IsHexChar(w[2]) && IsHexChar(w[3]) && IsHexChar(w[4]) && IsHexChar(w[5]))
  }

  predicate ArePieces(xs: seq<Piece>) {
    forall k :: 0 <= k < |xs| ==> IsPiece(xs[k])
  }

  /** How the pieces are written. */
  function Spelled(xs: seq<Piece>): string {
    if xs == [] then "" else xs[0].source + Spelled(xs[1..])
  }

  /** What they stand for. */
  function Meant(xs: seq<Piece>): (t: string)
    ensures |t| == |xs|
  {
    if xs == [] then "" else [xs[0].letter] + Meant(xs[1..])
  }

  lemma StandsParts(s: string, p: nat, a: string, b: string)
    requires Stands(s, p, a + b)
    ensures Stands(s, p, a) && Stands(s, p + |a|, b)
  {
    var w := s[p..p + |a + b|];
    assert s[p..p + |a|] == w[..|a|] == a;
    assert s[p + |a|..p + |a| + |b|] == w[|a|..] == b;
  }

  lemma StandsAt(s: string, p: nat, w: string, k: nat)
    requires Stands(s, p, w) && k < |w|
    ensures s[p + k] == w[k]
  {
    assert s[p..p + |w|][k] == s[p + k];
  }

  lemma Inside(s: string, p: nat, t: string)
    requires Stands(s, p, t)
    ensures p + |t| <= |s| && s[p..p + |t|] == t
  {
  }

  lemma Backslash(s: string, q: nat)
    requires q < |s| && s[q] == '\\'
    ensures q + 1 == |s| ==> ReadString(s, q) == None
    ensures q + 1 < |s| && s[q + 1] != 'u' ==>
              ReadString(s, q) ==
              if Escape(s[q + 1]) == NUL then None else Behind(Escape(s[q + 1]), ReadString(s, q + 2))
    ensures q + 1 < |s| && s[q + 1] == 'u' && !IsUnicode(s, q + 2) ==> ReadString(s, q) == None
    ensures q + 1 < |s| && s[q + 1] == 'u' && IsUnicode(s, q + 2) ==>
              q + 6 <= |s| && ReadString(s, q) == Behind('?', ReadString(s, q + 6))
  {
    if IsUnicode(s, q + 2) {
      UnicodeInside(s, q + 2);
    }
  }

  lemma Itself(s: string, q: nat)
    requires q < |s| && s[q] != '\\' && s[q] != '\"'
    ensures ReadString(s, q) == Behind(s[q], ReadString(s, q + 1))
  {
  }

  lemma EndQuote(s: string, q: nat)
    requires q < |s| && s[q] == '\"'
    ensures ReadString(s, q) == Some(Quoted("", q + 1))
  {
  }

  lemma NothingThere(s: string)
    ensures ReadString(s, |s|) == None
  {
  }

  /** A piece is read as its character. */
  lemma PieceRead(s: string, p: nat, x: Piece)
    requires IsPiece(x) && Stands(s, p, x.source)
    ensures ReadString(s, p) == Behind(x.letter, ReadString(s, p + |x.source|))
  {
    hide ReadString, Stands;
    var w := x.source;
    StandsAt(s, p, w, 0);
    Inside(s, p, w);
    if |w| == 1 {
      Itself(s, p);
    } else {
      StandsAt(s, p, w, 1);
      Backslash(s, p);
      if |w| == 6 {
        StandsAt(s, p, w, 2);
        StandsAt(s, p, w, 3);
        StandsAt(s, p, w, 4);
        StandsAt(s, p, w, 5);
      }
    }
  }

  /** What stands before a piece of text is read, with the text, as what it stands for. */
  lemma {:induction false} SpelledRead(s: string, p: nat, xs: seq<Piece>)
    requires ArePieces(xs) && Stands(s, p, Spelled(xs))
    ensures p + |Spelled(xs)| <= |s|
    ensures var rest := ReadString(s, p + |Spelled(xs)|);
            ReadString(s, p) ==
            if rest.None? then None else Some(Quoted(Meant(xs) + rest.value.text, rest.value.next))
    decreases |xs|
  {
    hide ReadString, IsPiece, Stands;
    Inside(s, p, Spelled(xs));
    var rest := ReadString(s, p + |Spelled(xs)|);
    if xs == [] {
      if rest.Some? {
        assert "" + rest.value.text == rest.value.text;
      }
    } else {
      var x := xs[0];
      StandsParts(s, p, x.source, Spelled(xs[1..]));
      SpelledRead(s, p + |x.source|, xs[1..]);
      PieceRead(s, p, x);
      if rest.Some? {
        assert [x.letter] + (Meant(xs[1..]) + rest.value.text) == Meant(xs) + rest.value.text;
      }
    }
  }

  /** Reading undoes writing, whatever pieces, wherever they stand and whatever follows. */
  lemma PiecesRead(s: string, p: nat, xs: seq<Piece>)
    requires ArePieces(xs) && Stands(s, p, Spelled(xs) + "\"")
    ensures ReadString(s, p) == Some(Quoted(Meant(xs), p + |Spelled(xs)| + 1))
  {
    hide ReadString, Spelled, Stands, ArePieces, Meant;
    StandsParts(s, p, Spelled(xs), "\"");
    SpelledRead(s, p, xs);
    Inside(s, p + |Spelled(xs)|, "\"");
    StandsAt(s, p + |Spelled(xs)|, "\"", 0);
    EndQuote(s, p + |Spelled(xs)|);
    assert Meant(xs) + "" == Meant(xs);
  }

  lemma PieceThere(s: string, p: nat) returns (x: Piece)
    requires p < |s| && s[p] != '\"' && ReadString(s, p).Some?
    ensures IsPiece(x) && Stands(s, p, x.source) && ReadString(s, p) == Behind(x.letter, ReadString(s, p + |x.source|))
    ensures x.source != ""
  {
    hide ReadString;
    if s[p] != '\\' {
      Itself(s, p);
      x := Piece(s[p..p + 1], s[p]);
    } else {
      Backslash(s, p);
      if s[p + 1] == 'u' {
        x := Piece(s[p..p + 6], '?');
      } else {
        x := Piece(s[p..p + 2], Escape(s[p + 1]));
        assert x.source == [s[p], s[p + 1]];
      }
    }
  }

  /** A string that is read is made of pieces up to its closing quote. */
  lemma {:induction false} ReadAsPieces(s: string, p: nat) returns (xs: seq<Piece>)
    requires p <= |s| && ReadString(s, p).Some?
    ensures ArePieces(xs) && Stands(s, p, Spelled(xs) + "\"")
    ensures ReadString(s, p) == Some(Quoted(Meant(xs), p + |Spelled(xs)| + 1))
    decreases |s| - p
  {
    hide ReadString, IsPiece, Stands;
    if p == |s| {
      NothingThere(s);
    }
    if s[p] == '\"' {
      EndQuote(s, p);
      xs := [];
      OneStands(s, p);
      assert Spelled(xs) + "\"" == [s[p]];
    } else {
      var x := PieceThere(s, p);
      Inside(s, p, x.source);
      var rest := ReadAsPieces(s, p + |x.source|);
      xs := [x] + rest;
      StandsBoth(s, p, x.source, Spelled(rest) + "\"");
      assert Spelled(xs) + "\"" == x.source + (Spelled(rest) + "\"");
    }
  }

  lemma OneStands(s: string, p: nat)
    requires p < |s|
    ensures Stands(s, p, [s[p]])
  {
  }

  lemma StandsBoth(s: string, p: nat, a: string, b: string)
    requires Stands(s, p, a) && Stands(s, p + |a|, b)
    ensures Stands(s, p, a + b)
  {
    assert s[p..p + |a + b|] == s[p..p + |a|] + s[p + |a|..p + |a| + |b|];
  }

  // ---------- The shortest writing ----------

  /** A character as it is usually written inside quotes. */
  function QuoteChar(c: char): string {
    match c
    case '\"' => "\\\""
    case '\\' => "\\\\"
    case '/' => "\\/"
    case '\U{08}' => "\\b"
    case '\U{0C}' => "\\f"
    case '\n' => "\\n"
    case '\r' => "\\r"
    case '\t' => "\\t"
    case _ => [c]
  }

  function Quote(t: string): string {
    if t == "" then "" else QuoteChar(t[0]) + Quote(t[1..])
  }

  lemma {:induction false} QuoteIsSpelled(t: string) returns (xs: seq<Piece>)
    ensures ArePieces(xs) && Spelled(xs) == Quote(t) && Meant(xs) == t
    decreases |t|
  {
    xs := [];
    if t != "" {
      var rest := QuoteIsSpelled(t[1..]);
      xs := [Piece(QuoteChar(t[0]), t[0])] + rest;
    }
  }

  /** Reading undoes quoting, whatever text and whatever follows. */
  lemma QuoteRoundTrip(t: string, rest: string)
    ensures ReadString(Quote(t) + "\"" + rest, 0) == Some(Quoted(t, |Quote(t)| + 1))
  {
    hide ReadString, Quote;
    var xs := QuoteIsSpelled(t);
    var w := Quote(t) + "\"";
    assert (w + rest)[0..|w|] == w;
    PiecesRead(w + rest, 0, xs);
  }

  /** Behind any text: a backslash before another character is refused, and so is a text that is not ended. */
  lemma BadStringRefused(s: string, p: nat, xs: seq<Piece>, c: char)
    requires ArePieces(xs) && Stands(s, p, Spelled(xs))
    ensures Stands(s, p, Spelled(xs) + ['\\', c]) && c !in "\"\\/bfnrtu" ==> ReadString(s, p) == None
    ensures Stands(s, p, Spelled(xs) + ['\\', 'u']) && !IsUnicode(s, p + |Spelled(xs)| + 2) ==> ReadString(s, p) == None
    ensures p + |Spelled(xs)| == |s| || s[p + |Spelled(xs)|..] == "\\" ==> ReadString(s, p) == None
  {
    hide ReadString, Spelled, ArePieces, IsUnicode, Stands;
    var q := p + |Spelled(xs)|;
    SpelledRead(s, p, xs);
    NothingThere(s);
    if q < |s| && s[q..] == "\\" {
      assert s[q] == s[q..][0];
      Backslash(s, q);
    }
    if Stands(s, p, Spelled(xs) + ['\\', c]) {
      BackslashThere(s, p, Spelled(xs), c);
      Backslash(s, q);
    }
    if Stands(s, p, Spelled(xs) + ['\\', 'u']) {
      BackslashThere(s, p, Spelled(xs), 'u');
      Backslash(s, q);
    }
  }

  lemma BackslashThere(s: string, p: nat, w: string, c: char)
    requires Stands(s, p, w + ['\\', c])
    ensures p + |w| + 1 < |s| && s[p + |w|] == '\\' && s[p + |w| + 1] == c
  {
    StandsParts(s, p, w, ['\\', c]);
    StandsAt(s, p + |w|, ['\\', c], 0);
    StandsAt(s, p + |w|, ['\\', c], 1);
  }

  // ---------- Numbers ----------

  predicate Decimal(d: string) {
    d != "" && forall c <- d :: '0' <= c <= '9'
  }

  predicate IsWhole(t: string) {
    var d := if t != "" && t[0] == '-' then t[1..] else t;
    Decimal(d) && (d[0] == '0' ==> |d| == 1)
  }

  predicate IsFraction(t: string) {
    t == "" || (t[0] == '.' && Decimal(t[1..]))
  }

  predicate IsExponent(t: string) {
    t == "" || ((t[0] == 'e' || t[0] == 'E') && Decimal(if |t| >= 2 && t[1] in "+-" then t[2..] else t[1..]))
  }

  /** What can follow a value: a comma, a blank or a bracket that closes. */
  predicate Ends(c: char) {
    c in ", \n\r\t\U{0C}}]"
  }

  /** The digits of `t` from `k` on are passed over, from the first or from the second. */
  lemma DigitsSpan(s: string, p: nat, t: string, k: nat)
    requires Stands(s, p, t) && k <= |t| && (forall c <- t[k..] :: '0' <= c <= '9')
    requires p + |t| < |s| && !IsDigit(s[p + |t|])
    ensures GoNum(s, p + k) == Some(p + |t|)
    ensures k < |t| ==> GoNum(s, p + k + 1) == Some(p + |t|) && s[p + k] == t[k] && IsDigit(s[p + k])
  {
    hide GoNum, Stands;
    assert p + |t| <= |s| by { Inside(s, p, t); }
    forall j | p + k <= j < p + |t| ensures IsDigit(s[j]) && s[j] == t[j - p] {
      StandsAt(s, p, t, j - p);
      assert t[j - p] == t[k..][j - p - k] && t[j - p] in t[k..];
    }
    GoNumSpans(s, p + k, p + |t|);
    if k < |t| {
      GoNumSpans(s, p + k + 1, p + |t|);
    }
  }

  lemma WholeRead(s: string, p: nat, t: string)
    requires IsWhole(t) && Stands(s, p, t) && p + |t| < |s| && !IsDigit(s[p + |t|])
    ensures WholeEnd(s, p) == Some(p + |t|)
  {
    hide GoNum, Stands;
    StandsAt(s, p, t, 0);
    var k := if t[0] == '-' then 1 else 0;
    DigitsSpan(s, p, t, k);
    assert t[k] == t[k..][0];
  }

  lemma FractionRead(s: string, p: nat, t: string)
    requires IsFraction(t) && Stands(s, p, t) && p + |t| < |s| && !IsDigit(s[p + |t|]) && (t == "" ==> s[p] != '.')
    ensures FractionEnd(s, p) == Some(p + |t|)
  {
    hide GoNum, Stands;
    if t != "" {
      StandsAt(s, p, t, 0);
      DigitsSpan(s, p, t, 1);
    }
  }

  lemma ExponentRead(s: string, p: nat, t: string)
    requires IsExponent(t) && Stands(s, p, t) && p + |t| < |s| && !IsDigit(s[p + |t|])
    requires t == "" ==> s[p] != 'e' && s[p] != 'E'
    ensures ExponentEnd(s, p) == Some(p + |t|)
  {
    hide GoNum, Stands;
    if t != "" {
      var k := if |t| >= 2 && t[1] in "+-" then 2 else 1;
      StandsAt(s, p, t, 0);
      StandsAt(s, p, t, 1);
      DigitsSpan(s, p, t, k);
      assert t[k..] != "";
    }
  }

  predicate Fits64(whole: string)
    requires IsWhole(whole)
  {
    WholesAreNumerals(whole);
    -0x8000_0000_0000_0000 <= IntegerOf(whole) <= 0x7FFF_FFFF_FFFF_FFFF
  }

  lemma WholesAreNumerals(t: string)
    requires IsWhole(t)
    ensures IsNumeral(t)
  {
  }

  /** A number followed by what can follow it: an integer must fit 64 bits, with fraction or exponent it is a real. */
  lemma NumberRead(s: string, p: nat, whole: string, fraction: string, exponent: string)
    requires IsWhole(whole) && IsFraction(fraction) && IsExponent(exponent)
    requires var t := whole + fraction + exponent; Stands(s, p, t) && p + |t| < |s| && Ends(s[p + |t|])
    ensures var t := whole + fraction + exponent;
            ReadNumber(s, p) ==
            if fraction == "" && exponent == "" && !Fits64(whole) then None
            else
              Some(Leaf(if fraction == "" && exponent == "" then JSON_INTEGER else JSON_REAL, p, t, After(s, p + |t|)))
  {
    hide IsWhole, IsFraction, IsExponent, WholeEnd, FractionEnd, ExponentEnd, InRange, IntegerOf, Ends, Stands;
    var t := whole + fraction + exponent;
    NumberEnds(s, p, whole, fraction, exponent);
    Inside(s, p, t);
    if fraction == "" && exponent == "" {
      assert t == whole;
      WholesAreNumerals(whole);
      InRangeIffFits(whole);
    }
  }

  lemma NumberEnds(s: string, p: nat, whole: string, fraction: string, exponent: string)
    requires IsWhole(whole) && IsFraction(fraction) && IsExponent(exponent)
    requires var t := whole + fraction + exponent; Stands(s, p, t) && p + |t| < |s| && Ends(s[p + |t|])
    ensures var a := p + |whole|;
            var b := a + |fraction|;
            && WholeEnd(s, p) == Some(a) && a <= |s| && FractionEnd(s, a) == Some(b) && b <= |s|
            && ExponentEnd(s, b) == Some(b + |exponent|)
    ensures IsEndOfPrimitive(s[p + |whole + fraction + exponent|])
    ensures (s[p + |whole + fraction + exponent|] in "}]") == IsEndOfBlock(s[p + |whole + fraction + exponent|])
  {
    hide IsWhole, IsFraction, IsExponent, WholeEnd, FractionEnd, ExponentEnd, Ends, Stands;
    var t, a, b := whole + fraction + exponent, p + |whole|, p + |whole| + |fraction|;
    assert t == whole + (fraction + exponent);
    StandsParts(s, p, whole, fraction + exponent);
    StandsParts(s, a, fraction, exponent);
    EndsNumber(s, a, b, p + |t|, fraction, exponent);
    WholeRead(s, p, whole);
    FractionRead(s, a, fraction);
    ExponentRead(s, b, exponent);
  }

  lemma EndsNumber(s: string, a: nat, b: nat, e: nat, fraction: string, exponent: string)
    requires IsFraction(fraction) && IsExponent(exponent) && e < |s| && Ends(s[e])
    requires b == a + |fraction| && e == b + |exponent| && Stands(s, a, fraction) && Stands(s, b, exponent)
    ensures !IsDigit(s[a]) && !IsDigit(s[b]) && !IsDigit(s[e]) && IsEndOfPrimitive(s[e])
    ensures (fraction == "" ==> s[a] != '.') && (exponent == "" ==> s[b] != 'e' && s[b] != 'E')
  {
    if fraction != "" {
      StandsAt(s, a, fraction, 0);
    }
    if exponent != "" {
      StandsAt(s, b, exponent, 0);
    }
  }

  /** Where reading goes on after a value that ends at `e`: what ends it is passed over unless it closes a block. */
  function After(s: string, e: nat): nat
    requires e < |s|
  {
    if s[e] in "}]" then e else e + 1
  }

  lemma LiteralRead(s: string, p: nat, word: string, typ: JsonType)
    requires Stands(s, p, word) && p + |word| < |s| && Ends(s[p + |word|])
    ensures ReadLiteral(s, p, word, typ) == Some(Leaf(typ, p, word, After(s, p + |word|)))
  {
  }

  // ---------- What stands where a number or a literal was read ----------

  lemma SliceStands(s: string, p: nat, e: nat)
    requires p <= e <= |s|
    ensures Stands(s, p, s[p..e])
  {
  }

  lemma DigitsThere(s: string, p: nat, e: nat)
    requires p < e <= |s| && IsDigit(s[p]) && GoNum(s, p + 1) == Some(e)
    ensures Decimal(s[p..e]) && e < |s|
  {
    var d := s[p..e];
    forall c | c in d ensures '0' <= c <= '9' {
      var k :| 0 <= k < |d| && d[k] == c;
      assert d[k] == s[p + k];
    }
  }

  lemma WholeThere(s: string, p: nat, e: nat)
    requires p <= |s| && WholeEnd(s, p) == Some(e)
    ensures p < e <= |s| && IsWhole(s[p..e])
  {
    hide GoNum;
    var d := if s[p] == '-' then p + 1 else p;
    if s[d] != '0' {
      DigitsFrom(s, d, e);
    } else {
      assert s[d..e] == [s[d]];
    }
    assert s[p] == '-' ==> s[p..e][1..] == s[d..e];
    assert s[p..e][0] == s[p];
  }

  lemma DigitsFrom(s: string, p: nat, e: nat)
    requires p < |s| && IsDigit(s[p]) && GoNum(s, p) == Some(e)
    ensures p < e <= |s| && Decimal(s[p..e])
  {
    DigitsThere(s, p, e);
  }

  lemma FractionThere(s: string, p: nat, e: nat)
    requires p <= |s| && FractionEnd(s, p) == Some(e)
    ensures p <= e <= |s| && IsFraction(s[p..e])
  {
    hide GoNum;
    if e > p {
      DigitsThere(s, p + 1, e);
      assert s[p..e][1..] == s[p + 1..e];
    }
  }

  lemma ExponentThere(s: string, p: nat, e: nat)
    requires p <= |s| && ExponentEnd(s, p) == Some(e)
    ensures p <= e <= |s| && IsExponent(s[p..e])
  {
    hide GoNum, Decimal;
    if e > p {
      var d := if At(s, p + 1) == '-' || At(s, p + 1) == '+' then p + 2 else p + 1;
      DigitsThere(s, d, e);
      assert s[p..e][d - p..] == s[d..e];
      assert s[p..e][1] == s[p + 1];
    }
  }

  /** A number that is read is one in JSON's syntax, and something that can follow it stands behind it. */
  lemma NumberThere(s: string, p: nat) returns (whole: string, fraction: string, exponent: string)
    requires p <= |s| && ReadNumber(s, p).Some?
    ensures IsWhole(whole) && IsFraction(fraction) && IsExponent(exponent)
    ensures fraction == "" && exponent == "" ==> Fits64(whole)
    ensures var t := whole + fraction + exponent; Stands(s, p, t) && p + |t| < |s| && Ends(s[p + |t|])
  {
    hide WholeEnd, FractionEnd, ExponentEnd, IsWhole, IsFraction, IsExponent, InRange, IntegerOf;
    var a := WholeEnd(s, p).value;
    var b := FractionEnd(s, a).value;
    var e := ExponentEnd(s, b).value;
    WholeThere(s, p, a);
    FractionThere(s, a, b);
    ExponentThere(s, b, e);
    whole, fraction, exponent := s[p..a], s[a..b], s[b..e];
    assert s[p..a] + s[a..b] + s[b..e] == s[p..e];
    if fraction == "" && exponent == "" {
      WholesAreNumerals(whole);
      InRangeIffFits(whole);
    }
  }

  lemma LiteralThere(s: string, p: nat, word: string, typ: JsonType)
    requires p <= |s| && ReadLiteral(s, p, word, typ).Some?
    ensures Stands(s, p, word) && p + |word| < |s| && Ends(s[p + |word|])
  {
  }
}
