/** Decimal fields of NMEA sentences as scaled 32-bit integers. */
module Minmea {

  const INT_LEAST32_MAX := 0x7FFF_FFFF

  /** A decimal number `value / scale`; an absent one has scale 0. */
  datatype Float = Float(value: int, scale: int)

  datatype Option<+T> = None | Some(value: T)

  // ---------- Scanning ----------

  predicate IsField(c: char) {
    ' ' <= c <= '~' && c != ',' && c != '*'
  }

  predicate IsDigit(c: char) {
    '0' <= c <= '9'
  }

  function DigitOf(c: char): (d: nat)
    requires IsDigit(c)
    ensures d <= 9
  {
    c as int - '0' as int
  }

  /** The scanner's variables: no sign yet is 0, no digit yet is value -1, no point yet is scale 0. */
  datatype State = State(sign: int, value: int, scale: int)

  datatype Progress = Going(f: State) | Full(f: State) | Failed | Overflow

  /**
   * One character: a digit that no longer fits ends the scan if there is a point, and fails it if there is none.
   * There is no test that the scale fits 32 bits; what the program does when it does not is undefined.
   */
  function Further(f: State, c: char): Progress {
    if (c == '+' || c == '-') && f.sign == 0 && f.value == -1 then Going(f.(sign := if c == '+' then 1 else -1))
    else if IsDigit(c) then
      var value := if f.value == -1 then 0 else f.value;
      if 10 * value + DigitOf(c) > INT_LEAST32_MAX then if f.scale != 0 then Full(f.(value := value)) else Failed
      else if 10 * f.scale > INT_LEAST32_MAX then Overflow
      else Going(State(f.sign, 10 * value + DigitOf(c), 10 * f.scale))
    else if c == '.' && f.scale == 0 then Going(f.(scale := 1))
    else if c == ' ' && f.sign == 0 && f.value == -1 && f.scale == 0 then Going(f)
    else Failed
  }

  function Scanned(s: string): Progress {
    if s == "" then Going(State(0, -1, 0))
    else match Scanned(s[..|s| - 1])
      case Going(f) => Further(f, s[|s| - 1])
      case other => other
  }

  /** A field is refused, read as a number, or overflows the scale. */
  datatype Field = Refused | Overflown | Read(number: Float)

  /** What the field is taken for. */
  function Taken(f: State): Field {
    if f.value == -1 then if f.sign != 0 || f.scale != 0 then Refused else Read(Float(0, 0))
    else Read(Float(if f.sign != 0 then f.sign * f.value else f.value, if f.scale == 0 then 1 else f.scale))
  }

  function ScanField(s: string): Field {
    match Scanned(s)
    case Failed => Refused
    case Overflow => Overflown
    case Going(f) => Taken(f)
    case Full(f) => Taken(f)
  }

  /** The characters of the field at the beginning of a sentence. */
  function FieldOf(sentence: string): (s: string)
    ensures s <= sentence
    ensures forall c <- s :: IsField(c)
    ensures |s| < |sentence| ==> !IsField(sentence[|s|])
  {
    if sentence == "" || !IsField(sentence[0]) then ""
    else
      var rest := FieldOf(sentence[1..]);
      assert sentence == [sentence[0]] + sentence[1..];
      [sentence[0]] + rest
  }

  lemma {:induction false} ScannedPrefix(s: string, k: nat)
    requires k <= |s| && !Scanned(s[..k]).Going?
    ensures Scanned(s) == Scanned(s[..k])
    decreases |s|
  {
    if k < |s| {
      assert s[..|s| - 1][..k] == s[..k];
      ScannedPrefix(s[..|s| - 1], k);
    } else {
      assert s[..k] == s;
    }
  }

  /** The case 'f' of the scanner, on the field at the beginning of `sentence`; it stops where the scale overflows. */
  method ScanFloat(sentence: string) returns (ok: bool, overflown: bool, value: int, scale: int)
    ensures var r := ScanField(FieldOf(sentence));
            if ok then !overflown && r == Read(Float(value, scale)) else r == if overflown then Overflown else Refused
    ensures ok <==> Acceptable(FieldOf(sentence))
    ensures overflown <==> exists k :: BurstAt(FieldOf(sentence), k)
  {
    hide FieldOf, Taken, Further, Acceptable, BurstAt;
    AcceptedIff(FieldOf(sentence));
    ghost var s := FieldOf(sentence);
    var sign, k := 0, 0;
    value, scale := -1, 0;
    ok, overflown := false, false;
    assert s[..0] == "";
    FieldEnds(sentence);
    while k < |sentence| && IsField(sentence[k])
      invariant 0 <= k <= |s| && Scanned(s[..k]) == Going(State(sign, value, scale))
      decreases |sentence| - k
    {
      FieldStep(s, k);
      var next := further(sign, value, scale, sentence[k]);
      if next.Failed? || next.Overflow? {
        ScannedPrefix(s, k + 1);
        overflown := next.Overflow?;
        return;
      }
      sign, value, scale := next.f.sign, next.f.value, next.f.scale;
      if next.Full? {
        ScannedPrefix(s, k + 1);
        ok, value, scale := finish(sign, value, scale);
        return;
      }
      k := k + 1;
    }
    assert s[..k] == s;
    ok, value, scale := finish(sign, value, scale);
  }

  /** A field of printable characters ends at a comma, at an asterisk, or where the sentence does. */
  lemma {:induction false} FieldUpTo(s: string, rest: string)
    requires forall i :: 0 <= i < |s| ==> 0x20 <= s[i] as int <= 0x7E && s[i] != ',' && s[i] != '*'
    requires rest == "" || rest[0] == ',' || rest[0] == '*' || rest[0] as int < 0x20 || rest[0] as int > 0x7E
    ensures FieldOf(s + rest) == s
    decreases |s|
  {
    if s == "" {
      assert s + rest == rest;
    } else {
      assert (s + rest)[1..] == s[1..] + rest && (s + rest)[0] == s[0];
      FieldUpTo(s[1..], rest);
    }
  }

  lemma FieldEnds(sentence: string)
    ensures forall k :: 0 <= k <= |FieldOf(sentence)| ==>
              (k < |FieldOf(sentence)| <==> k < |sentence| && IsField(sentence[k]))
    ensures forall k :: 0 <= k < |FieldOf(sentence)| ==> FieldOf(sentence)[k] == sentence[k]
    ensures |FieldOf(sentence)| <= |sentence|
  {
    hide IsField;
    var s := FieldOf(sentence);
    forall k | 0 <= k < |s| ensures s[k] == sentence[k] && IsField(s[k]) {
      assert s[k] in s;
    }
  }

  lemma FieldStep(s: string, k: nat)
    requires k < |s| && Scanned(s[..k]).Going?
    ensures Scanned(s[..k + 1]) == Further(Scanned(s[..k]).f, s[k])
  {
    assert s[..k + 1][..k] == s[..k];
  }

  /** The loop's body. The test for room is made without going over 32 bits. */
  method further(sign: int, value: int, scale: int, c: char) returns (next: Progress)
    ensures next == Further(State(sign, value, scale), c)
  {
    var f := State(sign, value, scale);
    if c == '+' && sign == 0 && value == -1 {
      next := Going(f.(sign := 1));
    } else if c == '-' && sign == 0 && value == -1 {
      next := Going(f.(sign := -1));
    } else if IsDigit(c) {
      var digit := DigitOf(c);
      var v := value;
      if v == -1 {
        v := 0;
      }
      if v > (INT_LEAST32_MAX - digit) / 10 {
        next := if scale != 0 then Full(f.(value := v)) else Failed;
      } else if scale != 0 && scale * 10 > INT_LEAST32_MAX {
        next := Overflow;
      } else {
        next := Going(State(sign, 10 * v + digit, if scale != 0 then scale * 10 else scale));
      }
    } else if c == '.' && scale == 0 {
      next := Going(f.(scale := 1));
    } else if c == ' ' {
      next := if sign != 0 || value != -1 || scale != 0 then Failed else Going(f);
    } else {
      next := Failed;
    }
  }

  method finish(sign: int, value: int, scale: int) returns (ok: bool, v: int, sc: int)
    ensures var r := Taken(State(sign, value, scale)); if ok then r == Read(Float(v, sc)) else r == Refused
  {
    ok, v, sc := true, value, scale;
    if (sign != 0 || scale != 0) && value == -1 {
      return false, 0, 0;
    }
    if value == -1 {
      v, sc := 0, 0;
    } else if scale == 0 {
      sc := 1;
    }
    if sign != 0 {
      v := v * sign;
    }
  }

  // ---------- What a field means ----------

  /** The digits of a field, and how many of them come after its point. */
  function Digits(s: string): (d: string)
    ensures forall c <- d :: IsDigit(c)
  {
    if s == "" then "" else if IsDigit(s[|s| - 1]) then Digits(s[..|s| - 1]) + [s[|s| - 1]] else Digits(s[..|s| - 1])
  }

  predicate HasPoint(s: string) {
    '.' in s
  }

  function Places(s: string): nat {
    if s == "" then 0
    else if IsDigit(s[|s| - 1]) && HasPoint(s[..|s| - 1]) then Places(s[..|s| - 1]) + 1
    else Places(s[..|s| - 1])
  }

  function Number(d: string): nat
    requires forall c <- d :: IsDigit(c)
  {
    if d == "" then 0 else 10 * Number(d[..|d| - 1]) + DigitOf(d[|d| - 1])
  }

  function Power10(n: nat): (p: nat)
    ensures p > 0
  {
    if n == 0 then 1 else 10 * Power10(n - 1)
  }

  /** What the variables hold after the characters `s`. */
  predicate Means(f: State, s: string) {
    && (f.sign == 0 || f.sign == 1 || f.sign == -1)
    && (f.sign == -1 <==> '-' in s) && (f.sign == 1 <==> '+' in s)
    && f.value == (if Digits(s) == "" then -1 else Number(Digits(s))) && f.value <= INT_LEAST32_MAX
    && f.scale == (if HasPoint(s) then Power10(Places(s)) else 0) && f.scale <= INT_LEAST32_MAX
  }

  lemma StepMeans(f: State, s: string, c: char)
    requires Means(f, s) && Further(f, c).Going?
    ensures Means(Further(f, c).f, s + [c])
  {
    hide Digits, Places, Number, Power10;
    OneMore(s, c);
    PlacesNeedPoint(s);
    if IsDigit(c) {
      DigitMore(Digits(s), c);
      PowerMore(Places(s));
    }
    if c == '.' {
      PowerMore(0);
    }
  }

  lemma OneMore(s: string, c: char)
    ensures Digits(s + [c]) == if IsDigit(c) then Digits(s) + [c] else Digits(s)
    ensures Places(s + [c]) == if IsDigit(c) && HasPoint(s) then Places(s) + 1 else Places(s)
    ensures forall x :: x in s + [c] <==> x in s || x == c
  {
    assert (s + [c])[..|s|] == s;
  }

  lemma DigitMore(d: string, c: char)
    requires IsDigit(c) && forall x <- d :: IsDigit(x)
    ensures forall x <- d + [c] :: IsDigit(x)
    ensures Number(d + [c]) == 10 * Number(d) + DigitOf(c)
    ensures d == "" ==> Number(d) == 0
  {
    assert (d + [c])[..|d|] == d;
  }

  lemma PowerMore(n: nat)
    ensures Power10(n + 1) == 10 * Power10(n) && Power10(0) == 1
  {
  }

  lemma {:induction false} PlacesNeedPoint(s: string)
    ensures !HasPoint(s) ==> Places(s) == 0
    decreases |s|
  {
    if s != "" {
      PlacesNeedPoint(s[..|s| - 1]);
    }
  }

  lemma {:induction false} ScannedMeans(s: string)
    requires Scanned(s).Going?
    ensures Means(Scanned(s).f, s)
    decreases |s|
  {
    if s != "" {
      var front := s[..|s| - 1];
      ScannedMeans(front);
      StepMeans(Scanned(front).f, front, s[|s| - 1]);
      assert front + [s[|s| - 1]] == s;
    }
  }

  /** The characters of a field that count: all, or those before the digit that did not fit. */
  function Held(s: string): (p: string)
    ensures p <= s && Scanned(p).Going?
  {
    if Scanned(s).Going? then s else Held(s[..|s| - 1])
  }

  lemma {:induction false} HeldUntil(s: string)
    requires !Scanned(s).Going?
    ensures var p := Held(s); |p| < |s| && Further(Scanned(p).f, s[|p|]) == Scanned(s)
    decreases |s|
  {
    var front := s[..|s| - 1];
    if !Scanned(front).Going? {
      HeldUntil(front);
    }
  }

  /**
   * An accepted field: an empty one has scale 0. Another has a power of ten as its scale and at most 31 bits;
   * it is the decimal the field says, or, if a digit after the point did not fit, the decimal up to that digit.
   */
  lemma FieldMeans(s: string)
    requires ScanField(s).Read?
    ensures var r, p := ScanField(s).number, Held(s);
            if Digits(p) == "" then r == Float(0, 0) && p == s && !HasPoint(s) && '-' !in s && '+' !in s
            else
              && r.value == (if '-' in p then -(Number(Digits(p)) as int) else Number(Digits(p)))
              && Number(Digits(p)) <= INT_LEAST32_MAX
              && r.scale == Power10(Places(p)) <= INT_LEAST32_MAX
              && (p != s ==>
                    HasPoint(p) && IsDigit(s[|p|]) && 10 * Number(Digits(p)) + DigitOf(s[|p|]) > INT_LEAST32_MAX)
  {
    var p := Held(s);
    ScannedMeans(p);
    if !Scanned(s).Going? {
      HeldUntil(s);
    }
    PlacesNeedPoint(p);
  }

  // ---------- Digits that do not fit ----------

  lemma {:induction false} DigitsOfSum(p: string, q: string)
    ensures Digits(p + q) == Digits(p) + Digits(q)
    ensures HasPoint(p) ==> HasPoint(p + q) && Places(p + q) == Places(p) + |Digits(q)|
    decreases |q|
  {
    if q == "" {
      assert p + q == p;
    } else {
      var front := q[..|q| - 1];
      assert (p + q)[..|p + q| - 1] == p + front;
      DigitsOfSum(p, front);
    }
  }

  lemma {:induction false} PowerSum(m: nat, n: nat)
    ensures Power10(m + n) == Power10(m) * Power10(n)
    decreases n
  {
    if n > 0 {
      PowerSum(m, n - 1);
      Tenfold(Power10(m), Power10(n - 1));
    }
  }

  /**
   * With all the field's digits counted, `value / scale` is the decimal truncated toward zero: of the decimals with
   * that scale, the one of greatest size not beyond it.
   */
  lemma FieldTruncates(s: string)
    requires ScanField(s).Read? && Digits(Held(s)) != ""
    ensures var r := ScanField(s).number;
            var size, all, unit := if r.value < 0 then -r.value else r.value, Number(Digits(s)), Power10(Places(s));
            size * unit <= all * r.scale < (size + 1) * unit
  {
    hide ScanField, Held, Digits, Places, Number, Power10, IsDigit;
    var r, p := ScanField(s).number, Held(s);
    var more := s[|p|..];
    FieldMeans(s);
    var size := Number(Digits(p));
    assert p + more == s;
    if p == s {
      InUnits(size, size, r.scale, 1);
    } else {
      DigitsOfSum(p, more);
      LeftAway(Digits(p), Digits(more));
      PowerSum(Places(p), |Digits(more)|);
      InUnits(size, Number(Digits(s)), r.scale, Power10(|Digits(more)|));
    }
  }

  lemma InUnits(size: nat, all: nat, scale: nat, p: nat)
    requires size * p <= all < (size + 1) * p && scale > 0
    ensures size * (scale * p) <= all * scale < (size + 1) * (scale * p)
  {
    var d, e := all - size * p, (size + 1) * p - all;
    assert all * scale == size * p * scale + d * scale;
    assert (size + 1) * p * scale == all * scale + e * scale;
    assert d * scale >= 0 && e * scale > 0;
  }

  /** Digits that are left away make the number smaller by less than one unit: it is truncated toward zero. */
  lemma {:induction false} LeftAway(d: string, more: string)
    requires (forall c <- d :: IsDigit(c)) && forall c <- more :: IsDigit(c)
    ensures forall c <- d + more :: IsDigit(c)
    ensures Number(d) * Power10(|more|) <= Number(d + more) < (Number(d) + 1) * Power10(|more|)
    decreases |more|
  {
    if more == "" {
      assert d + more == d;
    } else {
      var front, c := more[..|more| - 1], more[|more| - 1];
      LeftAway(d, front);
      assert (d + more)[..|d + more| - 1] == d + front;
      var n, p := Number(d), Power10(|front|);
      Tenfold(n, p);
      Tenfold(n + 1, p);
    }
  }

  lemma Tenfold(n: nat, p: nat)
    ensures n * (10 * p) == 10 * (n * p)
  {
  }

  lemma {:induction false} PowerGrows(m: nat, n: nat)
    requires m <= n
    ensures Power10(m) <= Power10(n)
  {
    if m < n {
      PowerGrows(m, n - 1);
    }
  }

  /**
   * The scale overflows just when a tenth digit comes after the point while there is still room for it in the
   * value: `p` are the characters before it.
   */
  lemma OverflowIff(s: string)
    ensures ScanField(s) == Overflown <==>
            var p := Held(s);
            && p != s && IsDigit(s[|p|]) && HasPoint(p) && Places(p) == 9
            && 10 * Number(Digits(p)) + DigitOf(s[|p|]) <= INT_LEAST32_MAX
  {
    var p := Held(s);
    ScannedMeans(p);
    if p != s {
      HeldUntil(s);
      PlacesNeedPoint(p);
      assert Power10(0) == 1;
      TenTimesFits(Places(p));
      NoDigitsIsZero(Digits(p));
    }
  }

  lemma NoDigitsIsZero(d: string)
    requires forall c <- d :: IsDigit(c)
    ensures d == "" ==> Number(d) == 0
  {
  }

  lemma TenTimesFits(n: nat)
    requires Power10(n) <= INT_LEAST32_MAX
    ensures n <= 9 && (10 * Power10(n) > INT_LEAST32_MAX <==> n == 9)
  {
    assert Power10(9) == 1000000000 && Power10(10) == 10000000000;
    if n <= 8 {
      PowerGrows(n, 8);
    } else if n >= 10 {
      PowerGrows(10, n);
    }
  }

  // ---------- Which fields are accepted ----------

  /** Blanks, then digits, points and signs: one point, and one sign, with no digit before it. */
  predicate Shaped(s: string) {
    && (forall i :: 0 <= i < |s| ==> s[i] in " 0123456789.+-")
    && (forall i, j :: 0 <= i < j < |s| ==>
          && (s[j] == ' ' ==> s[i] == ' ') && !(s[i] == '.' && s[j] == '.')
          && (s[j] in "+-" ==> s[i] in " ."))
  }

  /** So far a decimal whose digits fit 31 bits, with at most nine of them after the point. */
  predicate Counts(s: string) {
    Shaped(s) && Number(Digits(s)) <= 0x7FFF_FFFF && Places(s) <= 9
  }

  /** The digit at `k` comes after the point and no longer fits. */
  predicate CutAt(s: string, k: nat) {
    && k < |s| && Counts(s[..k]) && '.' in s[..k] && '0' <= s[k] <= '9'
    && Number(Digits(s[..k + 1])) > 0x7FFF_FFFF
  }

  /** The digit at `k` fits, but it is the tenth after the point. */
  predicate BurstAt(s: string, k: nat) {
    && k < |s| && Counts(s[..k]) && '.' in s[..k] && '0' <= s[k] <= '9'
    && Number(Digits(s[..k + 1])) <= 0x7FFF_FFFF && Places(s[..k + 1]) == 10
  }

  /** What is accepted: a decimal that fits, blanks, or anything behind a decimal cut after the point. */
  ghost predicate Acceptable(s: string) {
    || (Counts(s) && (Digits(s) != "" || forall i :: 0 <= i < |s| ==> s[i] == ' '))
    || exists k :: CutAt(s, k)
  }

  lemma ShapedMore(s: string, c: char)
    requires Shaped(s)
    ensures Shaped(s + [c]) <==>
            || IsDigit(c) || (c == '.' && '.' !in s) || (c == ' ' && forall i :: 0 <= i < |s| ==> s[i] == ' ')
            || ((c == '+' || c == '-') && forall i :: 0 <= i < |s| ==> s[i] in " .")
  {
    var t := s + [c];
    assert t[|s|] == c && forall i :: 0 <= i < |s| ==> t[i] == s[i];
  }

  lemma {:induction false} NoDigits(s: string)
    ensures Digits(s) == "" <==> forall i :: 0 <= i < |s| ==> !IsDigit(s[i])
    decreases |s|
  {
    if s != "" {
      NoDigits(s[..|s| - 1]);
    }
  }

  lemma OnlyBlanks(s: string)
    requires Shaped(s)
    ensures (forall i :: 0 <= i < |s| ==> s[i] in " .") <==> Digits(s) == "" && '+' !in s && '-' !in s
    ensures (forall i :: 0 <= i < |s| ==> s[i] == ' ') <==> Digits(s) == "" && '+' !in s && '-' !in s && '.' !in s
  {
    hide Digits, Shaped;
    NoDigits(s);
    assert forall i :: 0 <= i < |s| ==> s[i] in " 0123456789.+-" by { ShapedKinds(s); }
  }

  lemma ShapedKinds(s: string)
    requires Shaped(s)
    ensures forall i :: 0 <= i < |s| ==> s[i] in " 0123456789.+-"
  {
  }

  /** Every prefix of what counts counts. */
  lemma CountsBefore(s: string, c: char)
    requires Counts(s + [c])
    ensures Counts(s)
  {
    hide Digits, Places, Number;
    OneMore(s, c);
    assert Shaped(s) by { ShapedBefore(s, c); }
    if IsDigit(c) {
      DigitMore(Digits(s), c);
    }
  }

  lemma ShapedBefore(s: string, c: char)
    requires Shaped(s + [c])
    ensures Shaped(s)
  {
    assert forall i :: 0 <= i < |s| ==> (s + [c])[i] == s[i];
  }

  /** What one more character does, told by the characters. */
  lemma FurtherTold(f: State, s: string, c: char)
    requires Means(f, s) && Counts(s)
    ensures Further(f, c).Going? <==> Counts(s + [c])
    ensures Further(f, c).Full? <==> '.' in s && IsDigit(c) && Number(Digits(s + [c])) > 0x7FFF_FFFF
    ensures Further(f, c).Overflow? <==>
            '.' in s && IsDigit(c) && Number(Digits(s + [c])) <= 0x7FFF_FFFF && Places(s + [c]) == 10
  {
    hide Digits, Places, Number, Power10, Shaped;
    OneMore(s, c);
    OnlyBlanks(s);
    ShapedMore(s, c);
    PlacesNeedPoint(s);
    PowerMore(0);
    TenTimesFits(Places(s));
    if IsDigit(c) {
      DigitMore(Digits(s), c);
    }
  }

  lemma {:induction false} GoingIff(s: string)
    ensures Scanned(s).Going? <==> Counts(s)
    decreases |s|
  {
    hide Counts, Further;
    if s == "" {
      NothingCounts();
    } else {
      var front, c := s[..|s| - 1], s[|s| - 1];
      assert front + [c] == s;
      GoingIff(front);
      if Counts(front) {
        ScannedMeans(front);
        FurtherTold(Scanned(front).f, front, c);
      } else if Counts(s) {
        CountsBefore(front, c);
      }
    }
  }

  lemma NothingCounts()
    ensures Counts("")
  {
  }

  /** Where the scan stops early, and why. */
  lemma StoppedAt(s: string, k: nat)
    requires k < |s| && Counts(s[..k])
    ensures CutAt(s, k) <==> Scanned(s[..k + 1]).Full?
    ensures BurstAt(s, k) <==> Scanned(s[..k + 1]).Overflow?
  {
    hide Counts, Further, Scanned, Digits, Number, Places;
    var p, c := s[..k], s[k];
    GoingIff(p);
    ScannedMeans(p);
    FurtherTold(Scanned(p).f, p, c);
    FieldStep(s, k);
    assert p + [c] == s[..k + 1];
  }

  /** How a scan ends, told by the characters alone. */
  lemma ScannedIff(s: string)
    ensures Scanned(s).Going? <==> Counts(s)
    ensures Scanned(s).Full? <==> exists k :: CutAt(s, k)
    ensures Scanned(s).Overflow? <==> exists k :: BurstAt(s, k)
  {
    hide Counts, Scanned, CutAt, BurstAt;
    GoingIff(s);
    if !Scanned(s).Going? {
      StopsSomewhere(s);
    }
    forall k | CutAt(s, k) || BurstAt(s, k)
      ensures Scanned(s).Full? == CutAt(s, k) && Scanned(s).Overflow? == BurstAt(s, k)
    {
      StopStays(s, k);
    }
  }

  lemma StopsSomewhere(s: string)
    requires !Scanned(s).Going?
    ensures Scanned(s).Full? ==> exists k :: CutAt(s, k)
    ensures Scanned(s).Overflow? ==> exists k :: BurstAt(s, k)
  {
    hide Counts, CutAt, BurstAt, Scanned, Further;
    var p := Held(s);
    var k := |p|;
    HeldUntil(s);
    assert s[..k] == p;
    GoingIff(p);
    FieldStep(s, k);
    StoppedAt(s, k);
  }

  lemma StopStays(s: string, k: nat)
    requires CutAt(s, k) || BurstAt(s, k)
    ensures Scanned(s).Full? == CutAt(s, k) && Scanned(s).Overflow? == BurstAt(s, k)
  {
    hide Counts, Scanned, Digits, Number, Places;
    StoppedAt(s, k);
    ScannedPrefix(s, k + 1);
  }

  /** Which fields are accepted, and which overflow the scale, told by their characters alone. */
  lemma AcceptedIff(s: string)
    ensures ScanField(s).Read? <==> Acceptable(s)
    ensures ScanField(s) == Overflown <==> exists k :: BurstAt(s, k)
  {
    hide CutAt, BurstAt, Scanned, Digits, Number, Places;
    ScannedIff(s);
    if Scanned(s).Going? {
      ScannedMeans(s);
      OnlyBlanks(s);
    } else if Scanned(s).Full? {
      FullIsRead(s);
    }
  }

  lemma FullIsRead(s: string)
    requires Scanned(s).Full?
    ensures ScanField(s).Read?
  {
    var p := Held(s);
    HeldUntil(s);
    ScannedMeans(p);
  }

  /** The number a decimal stands for: a sign anywhere before its digits, and as many places as follow the point. */
  function Decimal(s: string): Float {
    Float(if '-' in s then -(Number(Digits(s)) as int) else Number(Digits(s)),
          if '.' in s then Power10(Places(s)) else 1)
  }

  /** What an accepted field is taken for: nothing, the decimal, or the decimal before the digit that does not fit. */
  lemma TakenFor(s: string, k: nat)
    ensures Counts(s) && Digits(s) != "" ==> ScanField(s) == Read(Decimal(s))
    ensures (forall i :: 0 <= i < |s| ==> s[i] == ' ') ==> ScanField(s) == Read(Float(0, 0))
    ensures CutAt(s, k) ==> ScanField(s) == Read(Decimal(s[..k]))
  {
    hide CutAt, Scanned, Digits, Number, Places, Power10, Shaped;
    GoingIff(s);
    if Counts(s) {
      ScannedMeans(s);
    }
    if forall i :: 0 <= i < |s| ==> s[i] == ' ' {
      BlanksCount(s);
      ScannedMeans(s);
      OnlyBlanks(s);
    }
    if CutAt(s, k) {
      CutTaken(s, k);
    }
  }

  lemma {:induction false} BlanksCount(s: string)
    requires forall i :: 0 <= i < |s| ==> s[i] == ' '
    ensures Counts(s)
    decreases |s|
  {
    if s != "" {
      BlanksCount(s[..|s| - 1]);
    }
  }

  lemma CutTaken(s: string, k: nat)
    requires CutAt(s, k)
    ensures ScanField(s) == Read(Decimal(s[..k]))
  {
    hide Counts, Scanned, Digits, Number, Places, Power10;
    var p := s[..k];
    GoingIff(p);
    ScannedMeans(p);
    StopStays(s, k);
    StoppedAt(s, k);
    ScannedPrefix(s, k + 1);
    FieldStep(s, k);
    NoDigitsIsZero(Digits(p));
    PlacesNeedPoint(p);
  }

  /** The digits before the point. */
  function Whole(s: string): (d: string)
    ensures forall c <- d :: IsDigit(c)
  {
    if s == "" then ""
    else if IsDigit(s[|s| - 1]) && !HasPoint(s[..|s| - 1]) then Whole(s[..|s| - 1]) + [s[|s| - 1]]
    else Whole(s[..|s| - 1])
  }

  lemma {:induction false} WholeIsAll(s: string)
    requires !HasPoint(s)
    ensures Whole(s) == Digits(s)
    decreases |s|
  {
    if s != "" {
      WholeIsAll(s[..|s| - 1]);
    }
  }

  /** A field in shape fails while it is scanned just when the digits before the point do not fit. */
  lemma {:induction false} FailedIff(s: string)
    requires Shaped(s)
    ensures Scanned(s).Failed? <==> Number(Whole(s)) > 0x7FFF_FFFF
    ensures Scanned(s).Full? || Scanned(s).Overflow? ==> HasPoint(s)
    decreases |s|
  {
    hide Digits, Number, Shaped, Places, Power10, Further, Whole;
    if s == "" {
      NothingFits();
    } else {
      var front, c := s[..|s| - 1], s[|s| - 1];
      assert front + [c] == s;
      ShapedBefore(front, c);
      FailedIff(front);
      if Scanned(front).Going? {
        FailsNow(front, c);
      }
      WholeMore(front, c);
      if IsDigit(c) {
        DigitMore(Whole(front), c);
      }
    }
  }

  lemma NothingFits()
    ensures Number(Whole("")) == 0
  {
  }

  lemma FailsNow(s: string, c: char)
    requires Shaped(s + [c]) && Scanned(s).Going? && Number(Whole(s)) <= 0x7FFF_FFFF
    ensures var f := Scanned(s).f;
            && (Further(f, c).Failed? <==> Number(Whole(s + [c])) > 0x7FFF_FFFF)
            && (Further(f, c).Full? || Further(f, c).Overflow? ==> HasPoint(s))
  {
    hide Digits, Number, Shaped, Places, Power10, Scanned;
    GoingIff(s);
    ScannedMeans(s);
    FurtherTold(Scanned(s).f, s, c);
    ShapedBefore(s, c);
    ShapedMore(s, c);
    OnlyBlanks(s);
    WholeMore(s, c);
    if IsDigit(c) && !HasPoint(s) {
      WholeIsAll(s);
      DigitMore(Digits(s), c);
    }
  }

  lemma WholeMore(s: string, c: char)
    ensures Whole(s + [c]) == if IsDigit(c) && !HasPoint(s) then Whole(s) + [c] else Whole(s)
  {
    assert (s + [c])[..|s|] == s;
  }

  /**
   * A field in shape is accepted just when it has a digit or nothing but blanks, the digits before the point fit
   * 31 bits, and no tenth digit after the point fits.
   */
  lemma ShapedAcceptedIff(s: string)
    requires Shaped(s)
    ensures ScanField(s).Read? <==>
            && (Digits(s) != "" || forall i :: 0 <= i < |s| ==> s[i] == ' ')
            && Number(Whole(s)) <= 0x7FFF_FFFF && !exists k :: BurstAt(s, k)
  {
    hide CutAt, BurstAt, Scanned, Digits, Number, Places, Power10, Shaped;
    FailedIff(s);
    ScannedIff(s);
    if Scanned(s).Going? {
      ScannedMeans(s);
      OnlyBlanks(s);
    } else if Scanned(s).Full? {
      FullIsRead(s);
      FullHasDigits(s);
    }
  }

  lemma FullHasDigits(s: string)
    requires Scanned(s).Full?
    ensures Digits(s) != ""
  {
    hide Number, Places, Power10;
    var p := Held(s);
    HeldUntil(s);
    ScannedMeans(p);
    assert s == p + s[|p|..];
    DigitsOfSum(p, s[|p|..]);
    NoDigitsIsZero("");
  }

  /** A field whose scale does not fit: one ten-thousand-millionth. */
  lemma ScaleTooLarge()
    ensures ScanField("0.0000000001") == Overflown
  {
    ZerosScanned(9);
    var s := "0.0000000001";
    assert s[..11] == "0." + seq(9, _ => '0');
    assert Power10(9) == 1000000000;
  }

  lemma {:induction false} ZerosScanned(n: nat)
    requires n <= 9
    ensures Scanned("0." + seq(n, _ => '0')) == Going(State(0, 0, Power10(n)))
  {
    var s := "0." + seq(n, _ => '0');
    if n == 0 {
      assert "0"[..0] == "" && "0."[..1] == "0";
      assert Scanned("0") == Going(State(0, 0, 0));
      assert s == "0.";
    } else {
      ZerosScanned(n - 1);
      PowerGrows(n, 9);
      assert Power10(9) == 1000000000;
      assert s[..|s| - 1] == "0." + seq(n - 1, _ => '0');
    }
  }

  /** The sign may follow the point as well as stand before it: in any field the two places mean the same. */
  lemma SignAfterPoint(before: string, sign: char, rest: string)
    requires sign == '-' || sign == '+'
    ensures ScanField(before + [sign, '.'] + rest) == ScanField(before + ['.', sign] + rest)
  {
    var a, b := before + [sign, '.'], before + ['.', sign];
    assert a[..|a| - 1] == before + [sign] && b[..|b| - 1] == before + ['.'];
    assert (before + [sign])[..|before|] == before == (before + ['.'])[..|before|];
    assert Scanned(a) == Scanned(b);
    SameOnwards(a, b, rest);
  }

  lemma SignAfterPointExample()
    ensures ScanField(".-5") == ScanField("-.5") == Read(Float(-5, 10))
  {
    assert ".-5"[..2] == ".-" && ".-"[..1] == "." && "."[..0] == "";
    assert "-.5"[..2] == "-." && "-."[..1] == "-" && "-"[..0] == "";
  }

  lemma {:induction false} SameOnwards(a: string, b: string, rest: string)
    requires Scanned(a) == Scanned(b)
    ensures Scanned(a + rest) == Scanned(b + rest)
    decreases |rest|
  {
    if rest == "" {
      assert a + rest == a && b + rest == b;
    } else {
      var front := rest[..|rest| - 1];
      SameOnwards(a, b, front);
      assert (a + rest)[..|a + rest| - 1] == a + front && (b + rest)[..|b + rest| - 1] == b + front;
    }
  }

  // ---------- Rescaling ----------

  /** Division as C has it, toward zero. */
  function Div(a: int, b: int): int
    requires b > 0
  {
    if a >= 0 then a / b else -((-a) / b)
  }

  function Sign(a: int): int {
    if a > 0 then 1 else if a < 0 then -1 else 0
  }

  predicate Fits32(x: int) {
    -0x8000_0000 <= x <= INT_LEAST32_MAX
  }

  /** None if the sum, or the product, leaves the 32 bits it is computed in. */
  function minmea_rescale(f: Float, new_scale: int): (r: Option<int>)
    requires f.scale >= 0 && new_scale > 0
    ensures f.scale == 0 ==> r == Some(0)
    ensures f.scale == new_scale ==> r == Some(f.value)
  {
    if f.scale == 0 then Some(0)
    else if f.scale == new_scale then Some(f.value)
    else if f.scale > new_scale then
      Nonzero(f.scale, new_scale);
      var sum := f.value + Div(Div(Sign(f.value) * f.scale, new_scale), 2);
      if Fits32(sum) then Some(Div(sum, Div(f.scale, new_scale))) else None
    else
      var product := f.value * Div(new_scale, f.scale);
      if Fits32(product) then Some(product) else None
  }

  /** Half a unit away from zero still fits. */
  predicate RoomForHalf(value: int, q: int) {
    if value >= 0 then value + q / 2 <= INT_LEAST32_MAX else -value + q / 2 <= 0x8000_0000
  }

  lemma Nonzero(a: int, b: int)
    requires a > b > 0
    ensures Div(a, b) > 0
  {
    if a / b == 0 {
      QuotientRest(a, b);
    }
  }

  lemma QuotientRest(a: nat, b: nat)
    requires b > 0
    ensures a == (a / b) * b + a % b && 0 <= a % b < b
  {
  }

  lemma ExactDiv(q: nat, b: nat)
    requires b > 0
    ensures (q * b) / b == q
  {
    QuotientRest(q * b, b);
    var d := (q * b) / b;
    Multiples(d, q, b);
    Multiples(q, d, b);
  }

  lemma Multiples(m: nat, n: nat, b: nat)
    ensures m < n ==> m * b + b <= n * b
  {
    if m < n {
      var k := n - m - 1;
      assert k * b >= 0;
      assert n * b == m * b + b + k * b;
    }
  }

  /** Going to a smaller scale that divides the larger adds half a unit away from zero, and then cuts. */
  lemma DownwardForm(value: int, new_scale: int, q: int)
    requires Fits32(value) && new_scale > 0 && 2 <= q <= q * new_scale <= INT_LEAST32_MAX
    ensures q * new_scale > new_scale
    ensures minmea_rescale(Float(value, q * new_scale), new_scale) ==
            if RoomForHalf(value, q) then Some(Div(value + Sign(value) * (q / 2), q)) else None
  {
    hide Div;
    Multiples(1, q, new_scale);
    HalfUnit(Sign(value), q, new_scale);
    HalfUnit(1, q, new_scale);
  }

  lemma HalfUnit(sign: int, q: nat, n: nat)
    requires -1 <= sign <= 1 && n > 0
    ensures Div(Div(sign * (q * n), n), 2) == sign * (q / 2) && Div(q * n, n) == q
  {
    ExactDiv(q, n);
    ExactDiv(0, n);
    if sign == 0 {
      assert sign * (q * n) == 0 * n;
    }
  }

  /**
   * Going down it has a result if and only if adding half a unit stays within 32 bits; it then rounds to the
   * nearest, and halfway away from zero. The comment beside the program has it round toward zero.
   */
  lemma RescaleRounds(value: int, new_scale: int, q: int)
    requires Fits32(value) && new_scale > 0 && 2 <= q <= q * new_scale <= INT_LEAST32_MAX
    ensures q * new_scale > new_scale
    ensures var r := minmea_rescale(Float(value, q * new_scale), new_scale);
            && (r.Some? <==> RoomForHalf(value, q))
            && (r.Some? ==>
                  && -q <= 2 * (r.value * q - value) <= q
                  && (2 * (r.value * q - value) == q ==> value > 0)
                  && (2 * (r.value * q - value) == -q ==> value < 0))
  {
    hide minmea_rescale;
    DownwardForm(value, new_scale, q);
    Nearest(value, q);
  }

  /** It is the value cut toward zero, as that comment says, just when less than half a unit is cut off. */
  lemma TowardZeroIff(value: int, new_scale: int, q: int)
    requires Fits32(value) && new_scale > 0 && 2 <= q <= q * new_scale <= INT_LEAST32_MAX
    ensures q * new_scale > new_scale
    ensures minmea_rescale(Float(value, q * new_scale), new_scale) == Some(Div(value, q)) <==>
            RoomForHalf(value, q) && 2 * ((if value < 0 then -value else value) % q) < q
  {
    hide minmea_rescale;
    DownwardForm(value, new_scale, q);
    if value != 0 {
      CutOff(if value < 0 then -value else value, q);
    }
  }

  lemma CutOff(n: nat, q: nat)
    requires q >= 2
    ensures (n + q / 2) / q == n / q <==> 2 * (n % q) < q
    ensures 2 * (n % q) >= q ==> (n + q / 2) / q == n / q + 1
  {
    var d, r := n / q, n % q;
    QuotientRest(n, q);
    if 2 * r < q {
      NearMultiple(d, q, r + q / 2);
    } else {
      NearMultiple(d + 1, q, r + q / 2 - q);
      assert (d + 1) * q == d * q + q;
    }
  }

  /** One half is rounded to 1, and minus three halves to -2. */
  lemma HalfRoundedAway()
    ensures minmea_rescale(Float(5, 10), 1) == Some(1) && Div(5, 10) == 0
    ensures minmea_rescale(Float(-15, 10), 1) == Some(-2) && Div(-15, 10) == -1
  {
  }

  lemma Nearest(value: int, q: int)
    requires q >= 2
    ensures var r := Div(value + Sign(value) * (q / 2), q);
            && -q <= 2 * (r * q - value) <= q
            && (2 * (r * q - value) == q ==> value > 0) && (2 * (r * q - value) == -q ==> value < 0)
  {
    if value > 0 {
      NearestBelow(value, q);
    } else if value < 0 {
      NearestBelow(-value, q);
      Negated((-value + q / 2) / q, q);
    } else {
      ExactDiv(0, q);
    }
  }

  lemma Negated(d: nat, q: nat)
    ensures (-(d as int)) * q == -((d * q) as int)
  {
  }

  lemma NearestBelow(n: nat, q: int)
    requires q >= 2
    ensures var d := (n + q / 2) / q; -q < 2 * (d * q - n) <= q
  {
    QuotientRest(n + q / 2, q);
  }

  /**
   * Going up has a result if and only if the product fits 32 bits. Coming down again has one if and only if there
   * is room for half a unit besides, and then gives the number back.
   */
  lemma UpAndDown(value: int, scale: int, q: int)
    requires Fits32(value) && scale > 0 && 1 <= q <= scale * q <= INT_LEAST32_MAX
    ensures var up := minmea_rescale(Float(value, scale), scale * q);
            && up == (if Fits32(value * q) then Some(value * q) else None)
            && (up.Some? ==>
                  minmea_rescale(Float(up.value, scale * q), scale) ==
                  if q == 1 || RoomForHalf(value * q, q) then Some(value) else None)
  {
    hide minmea_rescale;
    UpwardForm(value, scale, q);
    if q == 1 {
      SameScale(value * q, scale);
    } else if Fits32(value * q) {
      assert scale * q == q * scale;
      DownwardForm(value * q, scale, q);
      BackAgain(value, q);
    }
  }

  lemma UpwardForm(value: int, scale: int, q: nat)
    requires Fits32(value) && scale > 0 && q >= 1
    ensures scale * q > 0
    ensures minmea_rescale(Float(value, scale), scale * q) == if Fits32(value * q) then Some(value * q) else None
  {
    hide Div;
    Multiples(1, q, scale);
    HalfUnit(1, q, scale);
    assert scale * q == q * scale;
  }

  lemma SameScale(value: int, scale: int)
    requires scale > 0
    ensures minmea_rescale(Float(value, scale), scale) == Some(value)
  {
    hide Div;
  }

  /**
   * An accepted field without a result at scale 1, a number without one at scale 1000, and one that cannot come
   * back.
   */
  lemma RescaleOverflows()
    ensures ScanField("214748364.7") == Read(Float(2147483647, 10))
    ensures minmea_rescale(Float(2147483647, 10), 1) == None
    ensures minmea_rescale(Float(21474837, 1), 1000) == None
    ensures minmea_rescale(Float(21474836, 1), 100) == Some(2147483600)
    ensures minmea_rescale(Float(2147483600, 100), 1) == None
  {
    var s := "214748364.7";
    assert s[..0] == "" && s[..11] == s;
    for k := 0 to 9
      invariant Scanned(s[..k]) == Going(State(0, if k == 0 then -1 else LEADING[k], 0))
    {
      FieldStep(s, k);
    }
    FieldStep(s, 9);
    FieldStep(s, 10);
  }

  /** What the digits of 214748364 come to one after the other. */
  const LEADING := [0, 2, 21, 214, 2147, 21474, 214748, 2147483, 21474836, 214748364]

  lemma BackAgain(value: int, q: nat)
    requires q >= 2
    ensures Div(value * q + Sign(value * q) * (q / 2), q) == value
  {
    SignOfProduct(value, q);
    if value > 0 {
      NearMultiple(value, q, q / 2);
    } else if value < 0 {
      NearMultiple(-value, q, q / 2);
      assert (-value) * q == -(value * q);
    } else {
      ExactDiv(0, q);
    }
  }

  lemma SignOfProduct(value: int, q: int)
    requires q >= 1
    ensures Sign(value * q) == Sign(value)
  {
  }

  lemma NearMultiple(n: nat, q: nat, h: nat)
    requires h < q
    ensures (n * q + h) / q == n
  {
    QuotientRest(n * q + h, q);
    var d := (n * q + h) / q;
    Multiples(d, n, q);
    Multiples(n, d, q);
  }
}
