/** The ASCII transmission mode, section 2.5.2 of MODBUS over Serial Line V1.02: its two machines and its check sum. */
module Ascii {
  import opened Bytes
  import opened Modbus

  datatype RcvState = STATE_RX_IDLE | STATE_RX_RCV | STATE_RX_WAIT_EOF

  datatype SndState = STATE_TX_IDLE | STATE_TX_START | STATE_TX_DATA | STATE_TX_END | STATE_TX_NOTIFY

  datatype BytePos = BYTE_HIGH_NIBBLE | BYTE_LOW_NIBBLE

  datatype Event = EV_READY | EV_FRAME_RECEIVED | EV_EXECUTE | EV_FRAME_SENT

  const COLON: byte := 0x3A
  const CR: byte := 0x0D
  const LF: byte := 0x0A

  const ASCII_SIZE_MIN := 3
  const SIZE := MB_SER_PDU_SIZE_MAX

  // ---------- Characters ----------

  /** The half octet a character stands for; 255 if it is no upper-case hexadecimal digit. */
  function Char2Bin(c: byte): byte {
    if 0x30 <= c <= 0x39 then c - 0x30 else if 0x41 <= c <= 0x46 then c - 0x41 + 0x0A else 0xFF
  }

  function Bin2Char(n: byte): (c: byte)
    requires n < 16
    ensures Char2Bin(c) == n && c != COLON && c != CR && c != LF
  {
    if n <= 9 then 0x30 + n else n - 0x0A + 0x41
  }

  /** The left shift of a half octet, as an octet. */
  function Shifted(r: byte): (x: byte)
    ensures x % 16 == 0
  {
    (16 * r) % 0x100
  }

  /** The bitwise or of an octet whose low half is clear with a half octet, or with 255. */
  function Or(x: byte, r: byte): byte
    requires x % 16 == 0 && (r < 16 || r == 0xFF)
  {
    if r < 16 then x + r else 0xFF
  }

  function CharRange(c: byte): (r: byte)
    ensures r == Char2Bin(c) && (r < 16 || r == 0xFF)
  {
    Char2Bin(c)
  }

  /** Two characters for each octet, the high half first. */
  function Hex(f: seq<byte>): (w: seq<byte>)
    ensures |w| == 2 * |f|
  {
    if f == [] then [] else Hex(f[..|f| - 1]) + [Bin2Char(f[|f| - 1] / 16), Bin2Char(f[|f| - 1] % 16)]
  }

  /** The octets pairs of characters stand for; a last single character is passed over. */
  function Decode(w: seq<byte>): (f: seq<byte>)
    ensures |f| == |w| / 2
    decreases |w|
  {
    if |w| < 2 then []
    else if |w| % 2 == 1 then Decode(w[..|w| - 1])
    else Decode(w[..|w| - 2]) + [Or(Shifted(Char2Bin(w[|w| - 2])), CharRange(w[|w| - 1]))]
  }

  /** A frame as it goes over the line. */
  function Text(f: seq<byte>): seq<byte> {
    [COLON] + Hex(f) + [CR, LF]
  }

  /** The digits, as they are sent. */
  const DIGITS: seq<byte> := [
    0x30, 0x31, 0x32, 0x33, 0x34, 0x35, 0x36, 0x37, 0x38, 0x39, 0x41, 0x42, 0x43, 0x44, 0x45, 0x46]

  predicate IsDigit(c: byte) {
    c in DIGITS
  }

  /** The text of a frame, octet by octet: a colon, two upper-case digits each, CR and LF. */
  lemma TextOctets(f: seq<byte>)
    ensures var t := Text(f);
            && |t| == 2 * |f| + 3 && t[0] == 0x3A && t[2 * |f| + 1] == 0x0D && t[2 * |f| + 2] == 0x0A
            && forall k :: 0 <= k < |f| ==> t[2 * k + 1] == DIGITS[f[k] / 16] && t[2 * k + 2] == DIGITS[f[k] % 16]
  {
    HexOctets(f);
  }

  /** The digits of the octets `f`, two of each. */
  predicate AreDigitsOf(w: seq<byte>, f: seq<byte>) {
    |w| == 2 * |f| && forall k :: 0 <= k < |f| ==> w[2 * k] == DIGITS[f[k] / 16] && w[2 * k + 1] == DIGITS[f[k] % 16]
  }

  lemma {:induction false} HexOctets(f: seq<byte>)
    ensures AreDigitsOf(Hex(f), f)
    decreases |f|
  {
    hide Bin2Char, AreDigitsOf;
    if f == [] {
      NoDigits();
    } else {
      var front, b := f[..|f| - 1], f[|f| - 1];
      HexOctets(front);
      DigitSent(b / 16);
      DigitSent(b % 16);
      MoreDigits(Hex(front), front, b);
      assert f == front + [b];
    }
  }

  lemma NoDigits()
    ensures AreDigitsOf([], [])
  {
  }

  lemma MoreDigits(w: seq<byte>, f: seq<byte>, b: byte)
    requires AreDigitsOf(w, f)
    ensures AreDigitsOf(w + [DIGITS[b / 16], DIGITS[b % 16]], f + [b])
  {
  }

  lemma DigitSent(n: byte)
    requires n < 16
    ensures Bin2Char(n) == DIGITS[n]
  {
  }

  /**
   * What two characters are taken for: the octet of two digits. A high character that is no digit counts as 15, a
   * low one makes the octet 255.
   */
  lemma PairTaken(w: seq<byte>, c: byte, d: byte, hi: byte, lo: byte)
    requires |w| % 2 == 0 && hi < 16 && lo < 16
    ensures var f, n := Decode(w + [c, d]), |w| / 2;
            && |f| == n + 1 && f[..n] == Decode(w)
            && (c == DIGITS[hi] && d == DIGITS[lo] ==> f[n] == 16 * hi + lo)
            && (!IsDigit(c) && d == DIGITS[lo] ==> f[n] == 0xF0 + lo) && (!IsDigit(d) ==> f[n] == 0xFF)
  {
    hide Decode, Or, Shifted, Char2Bin, IsDigit;
    DecodePair(w, c, d);
    PairOctet(c, d, hi, lo);
  }

  lemma PairOctet(c: byte, d: byte, hi: byte, lo: byte)
    requires hi < 16 && lo < 16
    ensures var b := Or(Shifted(Char2Bin(c)), CharRange(d));
            && (c == DIGITS[hi] && d == DIGITS[lo] ==> b == 16 * hi + lo)
            && (!IsDigit(c) && d == DIGITS[lo] ==> b == 0xF0 + lo) && (!IsDigit(d) ==> b == 0xFF)
  {
    hide Char2Bin;
    DigitTaken(c, hi);
    DigitTaken(d, lo);
  }

  lemma DigitTaken(c: byte, n: byte)
    requires n < 16
    ensures c == DIGITS[n] ==> Char2Bin(c) == n
    ensures !IsDigit(c) ==> Char2Bin(c) == 0xFF
  {
  }

  lemma DecodeSingle(w: seq<byte>, c: byte)
    requires |w| % 2 == 0
    ensures Decode(w + [c]) == Decode(w)
  {
    if w != [] {
      assert (w + [c])[..|w|] == w;
    }
  }

  lemma DecodePair(w: seq<byte>, c: byte, d: byte)
    requires |w| % 2 == 0
    ensures Decode(w + [c, d]) == Decode(w) + [Or(Shifted(Char2Bin(c)), CharRange(d))]
  {
    hide Or, Shifted, Char2Bin, CharRange;
    assert (w + [c, d])[..|w|] == w;
  }

  lemma {:induction false} DecodeHex(f: seq<byte>)
    ensures Decode(Hex(f)) == f
    decreases |f|
  {
    hide Bin2Char, Char2Bin, CharRange, Shifted, Or, Decode;
    if f == [] {
      DecodeNothing();
    } else {
      var front, b := f[..|f| - 1], f[|f| - 1];
      DecodeHex(front);
      DecodePair(Hex(front), Bin2Char(b / 16), Bin2Char(b % 16));
      PairIsOctet(b);
    }
  }

  lemma DecodeNothing()
    ensures Decode([]) == []
  {
  }

  lemma PairIsOctet(b: byte)
    ensures Or(Shifted(Char2Bin(Bin2Char(b / 16))), CharRange(Bin2Char(b % 16))) == b
  {
    hide Bin2Char, Char2Bin;
  }

  lemma {:induction false} HexIsPlain(f: seq<byte>)
    ensures forall k :: 0 <= k < |Hex(f)| ==> Hex(f)[k] != COLON && Hex(f)[k] != CR && Hex(f)[k] != LF
    decreases |f|
  {
    if f != [] {
      HexIsPlain(f[..|f| - 1]);
    }
  }

  // ---------- The check sum ----------

  /** Addition of octets without carry. */
  function Plus(a: byte, b: byte): byte {
    if a + b < 0x100 then a + b else a + b - 0x100
  }

  function Sum(f: seq<byte>): byte {
    if f == [] then 0 else Plus(Sum(f[..|f| - 1]), f[|f| - 1])
  }

  /** The two's complement of the sum without carries. */
  function Lrc(f: seq<byte>): byte {
    if Sum(f) == 0 then 0 else 0x100 - Sum(f)
  }

  predicate Acceptable(f: seq<byte>) {
    |f| >= ASCII_SIZE_MIN && Lrc(f) == 0
  }

  lemma SumAppend(f: seq<byte>, b: byte)
    ensures Sum(f + [b]) == Plus(Sum(f), b)
  {
    assert (f + [b])[..|f|] == f;
  }

  /** The octets added up. */
  function Total(f: seq<byte>): nat {
    if f == [] then 0 else Total(f[..|f| - 1]) + f[|f| - 1]
  }

  lemma {:induction false} SumIsTotal(f: seq<byte>)
    ensures Sum(f) == Total(f) % 256
    decreases |f|
  {
    if f != [] {
      SumIsTotal(f[..|f| - 1]);
    }
  }

  /** Accepted are three octets or more whose sum is a multiple of 256. */
  lemma AcceptedTotalIff(f: seq<byte>)
    ensures Acceptable(f) <==> |f| >= 3 && Total(f) % 256 == 0
  {
    SumIsTotal(f);
  }

  /** A frame is accepted if and only if its last octet is the check sum of the others. */
  lemma AcceptedIff(f: seq<byte>, b: byte)
    requires |f| >= 2
    ensures Acceptable(f + [b]) <==> b == Lrc(f)
  {
    SumAppend(f, b);
  }

  lemma PlusAssociates(a: byte, b: byte, c: byte)
    ensures Plus(Plus(a, b), c) == Plus(a, Plus(b, c))
  {
  }

  lemma {:induction false} SumSplit(f: seq<byte>, g: seq<byte>)
    ensures Sum(f + g) == Plus(Sum(f), Sum(g))
    decreases |g|
  {
    if g == [] {
      assert f + g == f;
    } else {
      var front, b := g[..|g| - 1], g[|g| - 1];
      SumSplit(f, front);
      assert f + g == (f + front) + [b];
      SumAppend(f + front, b);
      PlusAssociates(Sum(f), Sum(front), b);
    }
  }

  lemma Cancels(a: byte, b: byte, f: byte, h: byte)
    requires a != b
    ensures Plus(Plus(f, a), h) != Plus(Plus(f, b), h)
  {
  }

  lemma Exchanged(f: byte, a: byte, g: byte, b: byte)
    ensures Plus(Plus(Plus(f, a), g), b) == Plus(Plus(Plus(f, b), g), a)
  {
  }

  lemma SumOfParts(f: seq<byte>, a: byte, g: seq<byte>, b: byte, h: seq<byte>)
    ensures Sum(f + [a] + h) == Plus(Plus(Sum(f), a), Sum(h))
    ensures Sum(f + [a] + g + [b] + h) == Plus(Plus(Plus(Plus(Sum(f), a), Sum(g)), b), Sum(h))
  {
    hide Plus, Sum;
    SumAppend(f, a);
    SumSplit(f + [a], h);
    SumSplit(f + [a], g);
    SumAppend(f + [a] + g, b);
    SumSplit(f + [a] + g + [b], h);
  }

  /** One octet changed is noticed; two octets exchanged are not. */
  lemma WhatTheSumSees(f: seq<byte>, a: byte, g: seq<byte>, b: byte, h: seq<byte>)
    ensures a != b && Acceptable(f + [a] + h) ==> !Acceptable(f + [b] + h)
    ensures Acceptable(f + [a] + g + [b] + h) <==> Acceptable(f + [b] + g + [a] + h)
  {
    hide Plus, Sum;
    SumOfParts(f, a, g, b, h);
    SumOfParts(f, b, g, a, h);
    Exchanged(Sum(f), a, Sum(g), b);
    if a != b {
      Cancels(a, b, Sum(f), Sum(h));
    }
  }

  // ---------- The machines ----------

  /** `next` and `count` are what is left to send of `buf`; `posted` are the events posted, in order. */
  datatype Port = Port(
    rcv: RcvState, snd: SndState, bytePos: BytePos, buf: seq<byte>, pos: nat, next: nat, count: nat,
    rxOn: bool, txOn: bool, timerOn: bool, posted: seq<Event>)

  predicate Shaped(p: Port) {
    && |p.buf| == SIZE && p.pos <= SIZE && p.next + p.count <= SIZE
    && (p.rcv == STATE_RX_RCV && p.bytePos == BYTE_LOW_NIBBLE ==> p.pos < SIZE && p.buf[p.pos] % 16 == 0)
  }

  function Started(p: Port): Port {
    p.(rxOn := true, txOn := false, rcv := STATE_RX_IDLE, posted := p.posted + [EV_READY])
  }

  function Sent(p: Port, address: byte, length: nat): (t: Port)
    requires Shaped(p) && length + 2 <= SIZE
    ensures Shaped(t)
  {
    if p.rcv == STATE_RX_IDLE then
      var buf := p.buf[0 := address];
      p.(buf := buf[1 + length := Lrc(buf[..1 + length])], next := 0, count := length + 2, snd := STATE_TX_START,
         rxOn := false, txOn := true)
    else p
  }

  function Emptied(p: Port): Port {
    p.(bytePos := BYTE_HIGH_NIBBLE, pos := 0, rcv := STATE_RX_RCV, timerOn := true)
  }

  function Received(p: Port, c: byte): (t: Port)
    requires Shaped(p)
    ensures Shaped(t)
  {
    match p.rcv
    case STATE_RX_RCV =>
      var q := p.(timerOn := true);
      if c == COLON then Emptied(q)
      else if c == CR then q.(rcv := STATE_RX_WAIT_EOF)
      else if p.bytePos == BYTE_HIGH_NIBBLE then
        if p.pos < SIZE then q.(buf := p.buf[p.pos := Shifted(Char2Bin(c))], bytePos := BYTE_LOW_NIBBLE)
        else q.(rcv := STATE_RX_IDLE, timerOn := false)
      else q.(buf := p.buf[p.pos := Or(p.buf[p.pos], CharRange(c))], pos := p.pos + 1, bytePos := BYTE_HIGH_NIBBLE)
    case STATE_RX_WAIT_EOF =>
      if c == LF then p.(timerOn := false, rcv := STATE_RX_IDLE, posted := p.posted + [EV_FRAME_RECEIVED])
      else if c == COLON then Emptied(p)
      else p.(rcv := STATE_RX_IDLE)
    case STATE_RX_IDLE => if c == COLON then Emptied(p) else p
  }

  function TimerExpired(p: Port): Port {
    p.(rcv := STATE_RX_IDLE, timerOn := false)
  }

  /** The next character for the line, if the transmitter has one. */
  function CharOut(p: Port): seq<byte>
    requires Shaped(p)
  {
    match p.snd
    case STATE_TX_START => [COLON]
    case STATE_TX_DATA =>
      if p.count == 0 then [CR]
      else if p.bytePos == BYTE_HIGH_NIBBLE then [Bin2Char(p.buf[p.next] / 16)]
      else [Bin2Char(p.buf[p.next] % 16)]
    case STATE_TX_END => [LF]
    case STATE_TX_NOTIFY => []
    case STATE_TX_IDLE => []
  }

  /** The transmitter is empty. The callback asserts that nothing is being received. */
  function TransmitterEmpty(p: Port): (t: Port)
    requires Shaped(p) && p.rcv == STATE_RX_IDLE
    ensures Shaped(t)
  {
    match p.snd
    case STATE_TX_START => p.(snd := STATE_TX_DATA, bytePos := BYTE_HIGH_NIBBLE)
    case STATE_TX_DATA =>
      if p.count == 0 then p.(snd := STATE_TX_END)
      else if p.bytePos == BYTE_HIGH_NIBBLE then p.(bytePos := BYTE_LOW_NIBBLE)
      else p.(next := p.next + 1, count := p.count - 1, bytePos := BYTE_HIGH_NIBBLE)
    case STATE_TX_END => p.(snd := STATE_TX_NOTIFY)
    case STATE_TX_NOTIFY => p.(snd := STATE_TX_IDLE, posted := p.posted + [EV_FRAME_SENT], rxOn := true, txOn := false)
    case STATE_TX_IDLE => p.(rxOn := true, txOn := false)
  }

  // ---------- What is received of a stream ----------

  datatype Step = CharIn(c: byte) | TimeOut

  /** Between frames; inside one, with its characters so far; or after its CR. */
  datatype Progress = Between | Body(w: seq<byte>) | Whole(w: seq<byte>)

  function Further(g: Progress, step: Step): Progress {
    match step
    case TimeOut => Between
    case CharIn(c) =>
      if c == COLON then Body([])
      else match g
        case Between => Between
        case Body(w) => if c == CR then Whole(w) else if |w| == 2 * SIZE then Between else Body(w + [c])
        case Whole(_) => Between
  }

  function ProgressOf(stream: seq<Step>): Progress {
    if stream == [] then Between else Further(ProgressOf(stream[..|stream| - 1]), stream[|stream| - 1])
  }

  function Run(p: Port, stream: seq<Step>): (t: Port)
    requires Shaped(p)
    ensures Shaped(t)
  {
    if stream == [] then p
    else
      var q := Run(p, stream[..|stream| - 1]);
      match stream[|stream| - 1] case TimeOut => TimerExpired(q) case CharIn(c) => Received(q, c)
  }

  /** The receiver has what the progress says. */
  predicate Follows(p: Port, g: Progress)
    requires Shaped(p)
  {
    match g
    case Between => p.rcv == STATE_RX_IDLE
    case Body(w) =>
      && p.rcv == STATE_RX_RCV && Holds(p, w)
      && p.bytePos == (if |w| % 2 == 0 then BYTE_HIGH_NIBBLE else BYTE_LOW_NIBBLE)
      && (|w| % 2 == 1 ==> p.pos < SIZE && p.buf[p.pos] == Shifted(Char2Bin(w[|w| - 1])))
    case Whole(w) => p.rcv == STATE_RX_WAIT_EOF && Holds(p, w)
  }

  predicate Holds(p: Port, w: seq<byte>)
    requires Shaped(p)
  {
    |w| <= 2 * SIZE && p.pos == |w| / 2 && p.buf[..p.pos] == Decode(w)
  }

  lemma HighFollows(p: Port, w: seq<byte>, c: byte)
    requires Shaped(p) && Follows(p, Body(w)) && |w| % 2 == 0 && |w| < 2 * SIZE && c != COLON && c != CR
    ensures Follows(Received(p, c), Body(w + [c]))
  {
    hide Decode, Shifted, Char2Bin;
    DecodeSingle(w, c);
    var t := Received(p, c);
    assert t.buf[..t.pos] == p.buf[..p.pos];
  }

  lemma LowFollows(p: Port, w: seq<byte>, c: byte)
    requires Shaped(p) && Follows(p, Body(w)) && |w| % 2 == 1 && |w| < 2 * SIZE && c != COLON && c != CR
    ensures Follows(Received(p, c), Body(w + [c]))
  {
    hide Decode, Shifted, Char2Bin, Or, CharRange;
    var front, d := w[..|w| - 1], w[|w| - 1];
    assert front + [d] == w && front + [d, c] == w + [c];
    DecodeSingle(front, d);
    DecodePair(front, d, c);
    var t := Received(p, c);
    assert t.buf[..t.pos] == p.buf[..p.pos] + [t.buf[p.pos]];
  }

  lemma StepFollows(p: Port, g: Progress, c: byte)
    requires Shaped(p) && Follows(p, g)
    ensures Follows(Received(p, c), Further(g, CharIn(c)))
  {
    hide Decode, Shifted, Char2Bin, Or, CharRange;
    if g.Body? && c != COLON && c != CR && |g.w| < 2 * SIZE {
      hide Received, Follows;
      if |g.w| % 2 == 0 {
        HighFollows(p, g.w, c);
      } else {
        LowFollows(p, g.w, c);
      }
    } else {
      OtherFollows(p, g, c);
    }
  }

  lemma OtherFollows(p: Port, g: Progress, c: byte)
    requires Shaped(p) && Follows(p, g) && (g.Body? ==> c == COLON || c == CR || |g.w| == 2 * SIZE)
    ensures Follows(Received(p, c), Further(g, CharIn(c)))
  {
    hide Decode, Shifted, Char2Bin, Or, CharRange;
    DecodeNothing();
    assert p.buf[..0] == [];
  }

  /**
   * Whatever characters and timeouts come, a frame is reported exactly when a LF follows a colon, at most 512
   * characters that are neither colon nor CR, and a CR; what it reports is what those characters stand for.
   */
  lemma {:induction false} ReceiverFollows(p: Port, stream: seq<Step>)
    requires Shaped(p) && p.rcv == STATE_RX_IDLE
    ensures Follows(Run(p, stream), ProgressOf(stream))
    decreases |stream|
  {
    hide Received, Further, Holds;
    if stream != [] {
      var front := stream[..|stream| - 1];
      ReceiverFollows(p, front);
      match stream[|stream| - 1]
      case TimeOut => Silence(Run(p, front), ProgressOf(front));
      case CharIn(c) => StepFollows(Run(p, front), ProgressOf(front), c);
    }
  }

  lemma Silence(p: Port, g: Progress)
    requires Shaped(p)
    ensures Follows(TimerExpired(p), Further(g, TimeOut))
  {
  }

  lemma ReportedIff(p: Port, stream: seq<Step>, c: byte)
    requires Shaped(p) && p.rcv == STATE_RX_IDLE
    ensures var q, t := Run(p, stream), Received(Run(p, stream), c);
            && (t.posted == q.posted + [EV_FRAME_RECEIVED] <==> ProgressOf(stream).Whole? && c == LF)
            && (t.posted == q.posted <==> !(ProgressOf(stream).Whole? && c == LF))
            && (ProgressOf(stream).Whole? ==> q.buf[..q.pos] == Decode(ProgressOf(stream).w))
  {
    hide Run, Decode, ProgressOf;
    ReceiverFollows(p, stream);
    var q := Run(p, stream);
    assert q.posted + [EV_FRAME_RECEIVED] != q.posted;
  }

  function Chars(s: seq<byte>): (r: seq<Step>)
    ensures |r| == |s|
  {
    seq(|s|, k requires 0 <= k < |s| => CharIn(s[k]))
  }

  lemma {:induction false} BodyGrows(stream: seq<Step>, w: seq<byte>)
    requires |w| <= 2 * SIZE && forall k :: 0 <= k < |w| ==> w[k] != COLON && w[k] != CR
    ensures ProgressOf(stream + Chars([COLON] + w)) == Body(w)
    decreases |w|
  {
    if w == [] {
      assert stream + Chars([COLON] + w) == stream + [CharIn(COLON)];
      assert (stream + [CharIn(COLON)])[..|stream|] == stream;
    } else {
      var front, c := w[..|w| - 1], w[|w| - 1];
      BodyGrows(stream, front);
      var s := stream + Chars([COLON] + w);
      assert s[..|s| - 1] == stream + Chars([COLON] + front) && s[|s| - 1] == CharIn(c);
      assert front + [c] == w;
    }
  }

  /** After anything at all, a frame's text is received as that frame, and reported once, at its end. */
  lemma TextReceived(p: Port, stream: seq<Step>, f: seq<byte>)
    requires Shaped(p) && p.rcv == STATE_RX_IDLE && |f| <= SIZE
    ensures var before, t := Run(p, stream + Chars([COLON] + Hex(f) + [CR])), Run(p, stream + Chars(Text(f)));
            && t.posted == before.posted + [EV_FRAME_RECEIVED] && t.rcv == STATE_RX_IDLE && !t.timerOn
            && t.pos == |f| && t.buf[..t.pos] == f
  {
    hide Run, ProgressOf, Hex, Decode, Received;
    var body := [COLON] + Hex(f);
    HexIsPlain(f);
    BodyGrows(stream, Hex(f));
    var s := stream + Chars(body + [CR]);
    assert s == (stream + Chars(body)) + [CharIn(CR)];
    RunMore(p, stream + Chars(body), CR);
    ReceiverFollows(p, s);
    DecodeHex(f);
    assert stream + Chars(Text(f)) == s + [CharIn(LF)];
    RunMore(p, s, LF);
    LineFeedEnds(Run(p, s), Hex(f));
  }

  lemma RunMore(p: Port, stream: seq<Step>, c: byte)
    requires Shaped(p)
    ensures Run(p, stream + [CharIn(c)]) == Received(Run(p, stream), c)
    ensures ProgressOf(stream + [CharIn(c)]) == Further(ProgressOf(stream), CharIn(c))
  {
    assert (stream + [CharIn(c)])[..|stream|] == stream;
  }

  lemma LineFeedEnds(q: Port, w: seq<byte>)
    requires Shaped(q) && Follows(q, Whole(w))
    ensures var t := Received(q, LF);
            && t.posted == q.posted + [EV_FRAME_RECEIVED] && t.rcv == STATE_RX_IDLE && !t.timerOn
            && t.pos == |w| / 2 && t.buf[..t.pos] == Decode(w)
  {
    hide Decode;
  }

  // ---------- What is transmitted ----------

  /** The characters put out in `n` transmitter interrupts. */
  function Output(p: Port, n: nat): seq<byte>
    requires Shaped(p) && p.rcv == STATE_RX_IDLE
    decreases n
  {
    if n == 0 then [] else CharOut(p) + Output(TransmitterEmpty(p), n - 1)
  }

  function After(p: Port, n: nat): (t: Port)
    requires Shaped(p) && p.rcv == STATE_RX_IDLE
    ensures Shaped(t)
    decreases n
  {
    if n == 0 then p else After(TransmitterEmpty(p), n - 1)
  }

  lemma HexFirst(f: seq<byte>)
    requires f != []
    ensures Hex(f) == [Bin2Char(f[0] / 16), Bin2Char(f[0] % 16)] + Hex(f[1..])
  {
    HexSplit([f[0]], f[1..]);
    assert [f[0]] + f[1..] == f;
    assert [f[0]][..0] == [];
  }

  lemma {:induction false} HexSplit(f: seq<byte>, g: seq<byte>)
    ensures Hex(f + g) == Hex(f) + Hex(g)
    decreases |g|
  {
    if g == [] {
      assert f + g == f;
    } else {
      HexSplit(f, g[..|g| - 1]);
      assert (f + g)[..|f + g| - 1] == f + g[..|g| - 1];
    }
  }

  lemma {:induction false} DataOut(p: Port)
    requires Shaped(p) && p.rcv == STATE_RX_IDLE && p.snd == STATE_TX_DATA && p.bytePos == BYTE_HIGH_NIBBLE
    ensures Output(p, 2 * p.count + 3) == Hex(p.buf[p.next..p.next + p.count]) + [CR, LF]
    ensures After(p, 2 * p.count + 3) ==
            p.(next := p.next + p.count, count := 0, snd := STATE_TX_IDLE,
              posted := p.posted + [EV_FRAME_SENT], rxOn := true, txOn := false)
    decreases p.count
  {
    hide Output, After, Hex, CharOut, TransmitterEmpty;
    if p.count == 0 {
      EndOut(p);
      assert p.buf[p.next..p.next] == [];
      assert Hex([]) + [CR, LF] == [CR, LF] by { NoHex(); }
    } else {
      var r := p.(next := p.next + 1, count := p.count - 1);
      OctetOut(p, 2 * p.count + 3);
      DataOut(r);
      var f := p.buf[p.next..p.next + p.count];
      HexFirst(f);
      assert f[1..] == r.buf[r.next..r.next + r.count];
    }
  }

  lemma NoHex()
    ensures Hex([]) == []
  {
  }

  lemma OctetOut(p: Port, n: nat)
    requires Shaped(p) && p.rcv == STATE_RX_IDLE && p.snd == STATE_TX_DATA
      && p.bytePos == BYTE_HIGH_NIBBLE && p.count > 0 && n >= 2
    ensures var r, b := p.(next := p.next + 1, count := p.count - 1), p.buf[p.next];
            && Output(p, n) == [Bin2Char(b / 16), Bin2Char(b % 16)] + Output(r, n - 2) && After(p, n) == After(r, n - 2)
  {
    hide Output, After, Bin2Char;
    OneOut(p, n);
    OneOut(TransmitterEmpty(p), n - 1);
  }

  lemma EndOut(p: Port)
    requires Shaped(p) && p.rcv == STATE_RX_IDLE && p.snd == STATE_TX_DATA && p.count == 0
    ensures Output(p, 3) == [CR, LF]
    ensures After(p, 3) == p.(snd := STATE_TX_IDLE, posted := p.posted + [EV_FRAME_SENT], rxOn := true, txOn := false)
  {
    hide Output, After;
    var q := TransmitterEmpty(p);
    var r := TransmitterEmpty(q);
    OneOut(p, 3);
    OneOut(q, 2);
    OneOut(r, 1);
    NothingOut(TransmitterEmpty(r));
  }

  lemma OneOut(p: Port, n: nat)
    requires Shaped(p) && p.rcv == STATE_RX_IDLE && n > 0
    ensures Output(p, n) == CharOut(p) + Output(TransmitterEmpty(p), n - 1)
    ensures After(p, n) == After(TransmitterEmpty(p), n - 1)
  {
  }

  lemma NothingOut(p: Port)
    requires Shaped(p) && p.rcv == STATE_RX_IDLE
    ensures Output(p, 0) == [] && After(p, 0) == p
  {
  }

  lemma SentFrame(p: Port, address: byte, length: nat)
    requires Shaped(p) && p.rcv == STATE_RX_IDLE && length + 2 <= SIZE
    ensures var body := [address] + p.buf[1..1 + length];
            Sent(p, address, length).buf[..length + 2] == body + [Lrc(body)]
  {
    hide Lrc;
    assert p.buf[0 := address][..1 + length] == [address] + p.buf[1..1 + length];
  }

  /** Sending a PDU puts out its frame's text, character by character, and then says so. */
  lemma SendPutsOutText(p: Port, address: byte, length: nat)
    requires Shaped(p) && p.rcv == STATE_RX_IDLE && length + 2 <= SIZE
    ensures var s, body := Sent(p, address, length), [address] + p.buf[1..1 + length];
            && Output(s, 2 * length + 8) == Text(body + [Lrc(body)])
            && After(s, 2 * length + 8).posted == p.posted + [EV_FRAME_SENT]
            && After(s, 2 * length + 8).snd == STATE_TX_IDLE
  {
    hide Lrc, Hex;
    var s, body := Sent(p, address, length), [address] + p.buf[1..1 + length];
    SentFrame(p, address, length);
    var d := TransmitterEmpty(s);
    DataOut(d);
    assert d.buf[0..length + 2] == s.buf[..length + 2];
    assert [COLON] + (Hex(body + [Lrc(body)]) + [CR, LF]) == Text(body + [Lrc(body)]);
  }

  lemma SliceOfPrefix(s: seq<byte>, n: nat, a: nat, b: nat)
    requires a <= b <= n <= |s|
    ensures s[..n][a..b] == s[a..b]
  {
  }

  /**
   * Round trip: what one side's transmitter puts out for a PDU, fed to the other side's receiver whatever came
   * before, is received as that address and PDU with a check sum the receiver accepts, and reported once.
   */
  lemma RoundTrip(p: Port, address: byte, length: nat, q: Port, stream: seq<Step>)
    requires Shaped(p) && p.rcv == STATE_RX_IDLE && 1 <= length && length + 2 < 256
    requires Shaped(q) && q.rcv == STATE_RX_IDLE
    ensures var out := Output(Sent(p, address, length), 2 * length + 8);
            var before, t := Run(q, stream + Chars(out[..|out| - 1])), Run(q, stream + Chars(out));
            && |out| > 0 && t.posted == before.posted + [EV_FRAME_RECEIVED] && t.pos == length + 2 < SIZE
            && t.buf[0] == address && t.buf[1..1 + length] == p.buf[1..1 + length] && Acceptable(t.buf[..t.pos])
  {
    hide Lrc, Output, Hex, Run;
    var body := [address] + p.buf[1..1 + length];
    var f := body + [Lrc(body)];
    SendPutsOutText(p, address, length);
    TextReceived(q, stream, f);
    assert Text(f)[..|Text(f)| - 1] == [COLON] + Hex(f) + [CR];
    AcceptedIff(body, Lrc(body));
    var t := Run(q, stream + Chars(Text(f)));
    assert t.buf[..t.pos] == f && t.buf[0] == f[0];
    SliceOfPrefix(t.buf, t.pos, 1, 1 + length);
    assert f[1..1 + length] == p.buf[1..1 + length];
  }

  // ---------- The receive function's assertion ----------

  /**
   * The receive function asserts that fewer than 256 octets were received, though the receiver has room for 256.
   * When a frame is reported that fails just when 512 characters stood between its colon and its CR.
   */
  lemma ReceiveAssertionFailsIff(p: Port, stream: seq<Step>)
    requires Shaped(p) && p.rcv == STATE_RX_IDLE && ProgressOf(stream).Whole?
    ensures var q, t := Run(p, stream), Run(p, stream + [CharIn(LF)]);
            && t.posted == q.posted + [EV_FRAME_RECEIVED]
            && (!(t.pos < SIZE) <==> |ProgressOf(stream).w| == 512)
  {
    hide Run, ProgressOf, Decode, Received;
    ReceiverFollows(p, stream);
    RunMore(p, stream, LF);
    LineFeedEnds(Run(p, stream), ProgressOf(stream).w);
  }

  /** The text of any frame of 256 octets does it, after anything at all. */
  lemma LongFrameFails(p: Port, stream: seq<Step>, f: seq<byte>)
    requires Shaped(p) && p.rcv == STATE_RX_IDLE && |f| == 256
    ensures var before, t := Run(p, stream + Chars([COLON] + Hex(f) + [CR])), Run(p, stream + Chars(Text(f)));
            t.posted == before.posted + [EV_FRAME_RECEIVED] && t.pos == SIZE
  {
    hide Run, Hex;
    TextReceived(p, stream, f);
  }

  // ---------- The receiver's timer ----------

  /**
   * The timer callback asserts that a frame is being received. After a stream the assertion would fail if the
   * timer ran out, just when a character other than LF and colon came after a CR, and no colon since.
   */
  predicate Orphaned(stream: seq<Step>) {
    stream != [] &&
    (var front, last := stream[..|stream| - 1], stream[|stream| - 1];
     last.CharIn? && last.c != COLON &&
     (Orphaned(front) || (ProgressOf(front).Whole? && last.c != LF)))
  }

  predicate TimerStands(t: Port, orphaned: bool) {
    (t.timerOn && t.rcv == STATE_RX_IDLE <==> orphaned) && (t.rcv != STATE_RX_IDLE ==> t.timerOn)
  }

  lemma TimerAfterChar(q: Port, g: Progress, orphaned: bool, c: byte)
    requires Shaped(q) && Follows(q, g) && TimerStands(q, orphaned)
    ensures TimerStands(Received(q, c), c != COLON && (orphaned || (g.Whole? && c != LF)))
  {
    hide Holds;
  }

  lemma {:induction false} TimerAssertionFailsIff(p: Port, stream: seq<Step>)
    requires Shaped(p) && p.rcv == STATE_RX_IDLE && !p.timerOn
    ensures TimerStands(Run(p, stream), Orphaned(stream))
    decreases |stream|
  {
    hide Received, Follows;
    if stream != [] {
      var front := stream[..|stream| - 1];
      TimerAssertionFailsIff(p, front);
      ReceiverFollows(p, front);
      match stream[|stream| - 1]
      case TimeOut =>
      case CharIn(c) => TimerAfterChar(Run(p, front), ProgressOf(front), Orphaned(front), c);
    }
  }

  // ---------- The callbacks' assertions ----------

  /** What happens to a started device: the port's callbacks, and the poll loop's sending of a PDU in its buffer. */
  datatype Call = Char(c: byte) | Expiry | Interrupt | Send(address: byte, length: nat)

  predicate Callable(p: Port, call: Call) {
    match call
    case Char(_) => p.rxOn
    case Expiry => p.timerOn
    case Interrupt => p.txOn
    case Send(_, length) => length + 2 <= SIZE
  }

  /**
   * The receiver is on just when nothing is being sent, the transmitter when something is, and then no frame comes
   * in.
   */
  predicate Halved(p: Port) {
    && Shaped(p) && (p.rxOn <==> p.snd == STATE_TX_IDLE) && (p.txOn <==> p.snd != STATE_TX_IDLE)
    && (p.txOn ==> p.rcv == STATE_RX_IDLE)
  }

  function Called(p: Port, call: Call): (t: Port)
    requires Halved(p) && Callable(p, call)
    ensures Halved(t)
  {
    hide Lrc;
    match call
    case Char(c) => Received(p, c)
    case Expiry => TimerExpired(p)
    case Interrupt => TransmitterEmpty(p)
    case Send(address, length) => Sent(p, address, length)
  }

  predicate CanRun(p: Port, calls: seq<Call>)
    requires Halved(p)
    decreases |calls|
  {
    calls == [] || (Callable(p, calls[0]) && CanRun(Called(p, calls[0]), calls[1..]))
  }

  function AfterCalls(p: Port, calls: seq<Call>): (t: Port)
    requires Halved(p) && CanRun(p, calls)
    ensures Halved(t)
    decreases |calls|
  {
    if calls == [] then p else AfterCalls(Called(p, calls[0]), calls[1..])
  }

  /**
   * In no run of a device started with nothing to send does a character or a transmitter interrupt meet a wrong
   * state.
   */
  lemma NoAssertionFails(p: Port, calls: seq<Call>, call: Call)
    requires Shaped(p) && p.snd == STATE_TX_IDLE && CanRun(Started(p), calls)
    requires Callable(AfterCalls(Started(p), calls), call)
    ensures var t := AfterCalls(Started(p), calls);
            (call.Char? ==> t.snd == STATE_TX_IDLE) && (call.Interrupt? ==> t.rcv == STATE_RX_IDLE)
  {
  }

  /** The characters and timeouts among the calls. */
  function Stream(calls: seq<Call>): (stream: seq<Step>) {
    if calls == [] then []
    else
      (if calls[0].Char? then [CharIn(calls[0].c)] else if calls[0].Expiry? then [TimeOut] else []) + Stream(calls[1..])
  }

  /** Sending leaves the receiver and its timer alone: while a frame comes in nothing is sent. */
  lemma CallFollows(p: Port, history: seq<Step>, call: Call)
    requires Halved(p) && Callable(p, call) && Follows(p, ProgressOf(history)) && TimerStands(p, Orphaned(history))
    ensures Follows(Called(p, call), ProgressOf(history + Stream([call])))
    ensures TimerStands(Called(p, call), Orphaned(history + Stream([call])))
  {
    hide Lrc, Received, Orphaned, Holds;
    match call
    case Char(c) =>
      assert Stream([call]) == [CharIn(c)] + [] == [CharIn(c)];
      Appended(history, CharIn(c));
      StepFollows(p, ProgressOf(history), c);
      TimerAfterChar(p, ProgressOf(history), Orphaned(history), c);
    case Expiry =>
      assert Stream([call]) == [TimeOut] + [] == [TimeOut];
      Appended(history, TimeOut);
      Silence(p, ProgressOf(history));
    case _ =>
      assert Stream([call]) == [] + [] == [];
      assert history + [] == history;
  }

  lemma Appended(history: seq<Step>, step: Step)
    ensures ProgressOf(history + [step]) == Further(ProgressOf(history), step)
    ensures Orphaned(history + [step]) <==>
            step.CharIn? && step.c != COLON && (Orphaned(history) || (ProgressOf(history).Whole? && step.c != LF))
  {
    assert (history + [step])[..|history|] == history;
  }

  lemma NoCalls()
    ensures Stream([]) == []
  {
  }

  lemma StreamParts(calls: seq<Call>)
    requires calls != []
    ensures Stream(calls) == Stream([calls[0]]) + Stream(calls[1..])
  {
    assert [calls[0]][1..] == [];
  }

  lemma {:induction false} CallsFollow(p: Port, history: seq<Step>, calls: seq<Call>)
    requires Halved(p) && CanRun(p, calls) && Follows(p, ProgressOf(history)) && TimerStands(p, Orphaned(history))
    ensures TimerStands(AfterCalls(p, calls), Orphaned(history + Stream(calls)))
    decreases |calls|
  {
    hide Called, Follows, TimerStands, Orphaned, Callable, Stream, ProgressOf;
    if calls == [] {
      assert Stream(calls) == [] by { NoCalls(); }
      assert history + [] == history;
    } else {
      CallFollows(p, history, calls[0]);
      StreamParts(calls);
      assert history + Stream(calls) == (history + Stream([calls[0]])) + Stream(calls[1..]);
      CallsFollow(Called(p, calls[0]), history + Stream([calls[0]]), calls[1..]);
    }
  }

  /**
   * In a run with sends too the timer can run out in the idle state just when the characters received leave it so.
   */
  lemma ExpiryAssertionFailsIff(p: Port, calls: seq<Call>)
    requires Shaped(p) && p.snd == STATE_TX_IDLE && !p.timerOn && CanRun(Started(p), calls)
    ensures var t := AfterCalls(Started(p), calls);
            Callable(t, Expiry) && t.rcv == STATE_RX_IDLE <==> Orphaned(Stream(calls))
  {
    hide Stream, AfterCalls, CanRun;
    CallsFollow(Started(p), [], calls);
    assert [] + Stream(calls) == Stream(calls);
  }
}
