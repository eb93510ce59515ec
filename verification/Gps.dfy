/** Cutting the GPS receiver's byte stream into frames, while no command is under way. */
module Gps {
  import opened Bytes
  import opened Search
  import opened Buffer

  const GPS_NMEA_FRAME_BUFFER_LENGTH := 1024
  const GPS_DATA_BUFFER_MAX_LENGTH := 2048

  /** "VTG", and the line end. */
  const VTG: seq<byte> := [0x56, 0x54, 0x47]
  const CRLF: seq<byte> := [0x0D, 0x0A]

  /** The other patterns the receiver is searched for: a command's header, and a binary acknowledgement's. */
  const COMMAND: seq<byte> := [0x24, 0x50, 0x47, 0x4B, 0x43]
  const BINARY: seq<byte> := [0xAA, 0xF0]

  lemma PatternsAreSafe()
    ensures NeverGoesBack(VTG) && NeverGoesBack(CRLF) && NeverGoesBack(COMMAND) && NeverGoesBack(BINARY)
  {
    FreshStart(VTG);
    FreshStart(CRLF);
    FreshStart(COMMAND);
    FreshStart(BINARY);
  }

  /**
   * The length of the buffered bytes up to and with the first line end at or after the first "VTG"; 0 if there is
   * none.
   */
  function FrameEnd(b: seq<byte>): (n: nat)
    ensures n <= |b|
  {
    var v := First(b, VTG);
    if v == |b| then 0
    else
      var c := FirstFrom(b, CRLF, v);
      if c == |b| then 0 else c + 2
  }

  /** What is taken of a frame. */
  function Clipped(n: nat): nat {
    if n > GPS_NMEA_FRAME_BUFFER_LENGTH then GPS_NMEA_FRAME_BUFFER_LENGTH else n
  }

  /** The bytes that fit are taken, all or none, of as many as a 16-bit length says. */
  function Taken(b: seq<byte>, data: seq<byte>): (t: seq<byte>) {
    var d := data[..|data| % 0x1_0000];
    if |b| + |d| < GPS_DATA_BUFFER_MAX_LENGTH then d else []
  }

  datatype Outcome = Outcome(frame: seq<byte>, rest: seq<byte>)

  /** The frame delivered, empty if none, and what stays buffered. */
  function Delivered(b: seq<byte>): (o: Outcome)
    ensures o.frame + o.rest == b
  {
    var n := Clipped(FrameEnd(b));
    Outcome(b[..n], b[n..])
  }

  function Update(b: seq<byte>, data: seq<byte>): Outcome {
    Delivered(b + Taken(b, data))
  }

  class Receiver {
    const gpsNmeaBuffer: Queue
    const tmp: array<byte>

    ghost predicate Valid()
      reads gpsNmeaBuffer
    {
      && gpsNmeaBuffer.Valid() && gpsNmeaBuffer.buffer.Length == GPS_DATA_BUFFER_MAX_LENGTH
      && tmp.Length == GPS_NMEA_FRAME_BUFFER_LENGTH + 1 && tmp != gpsNmeaBuffer.buffer
    }

    constructor ()
      ensures Valid() && gpsNmeaBuffer.Contents() == []
      ensures fresh(gpsNmeaBuffer) && fresh(gpsNmeaBuffer.buffer) && fresh(tmp)
    {
      var gpsDataBuffer := new byte[GPS_DATA_BUFFER_MAX_LENGTH];
      gpsNmeaBuffer := new Queue(gpsDataBuffer);
      tmp := new byte[GPS_NMEA_FRAME_BUFFER_LENGTH + 1];
    }

    /** Bytes have come: buffers them, and hands on the first frame the buffer holds. `frame` is what is parsed. */
    method GPS_Update(data: seq<byte>) returns (frame: seq<byte>)
      requires Valid()
      modifies gpsNmeaBuffer, gpsNmeaBuffer.buffer, tmp
      ensures Valid()
      ensures Outcome(frame, gpsNmeaBuffer.Contents()) == Update(old(gpsNmeaBuffer.Contents()), data)
      ensures frame != [] ==> tmp[..|frame|] == frame && forall k :: |frame| <= k < tmp.Length ==> tmp[k] == 0
    {
      hide Queue.Contents;
      frame := [];
      var ret := gpsNmeaBuffer.Puts(data[..|data| % 0x1_0000]);
      ghost var b := gpsNmeaBuffer.Contents();
      assert b == old(gpsNmeaBuffer.Contents()) + Taken(old(gpsNmeaBuffer.Contents()), data);
      var end := FindFrame();
      if end == 0 {
        assert Delivered(b) == Outcome([], b);
        return;
      }
      forall k | 0 <= k < tmp.Length {
        tmp[k] := 0;
      }
      var len := if end > GPS_NMEA_FRAME_BUFFER_LENGTH then GPS_NMEA_FRAME_BUFFER_LENGTH else end;
      ret := gpsNmeaBuffer.Gets(tmp, len);
      frame := tmp[..len];
      assert b[..len] == frame && b[len..] == gpsNmeaBuffer.Contents();
      forall k | len <= k < tmp.Length ensures tmp[k] == 0 {
        assert tmp[k] == tmp[len..][k - len];
      }
    }

    /** The two searches, and the length up to the line end found. */
    method FindFrame() returns (end: nat)
      requires Valid()
      ensures end == FrameEnd(gpsNmeaBuffer.Contents())
    {
      hide Scan, First, FirstFrom, Around;
      PatternsAreSafe();
      ghost var b := gpsNmeaBuffer.Contents();
      var start := gpsNmeaBuffer.StartPostion();
      var index := gpsNmeaBuffer.Query(VTG, start, 0);
      assert b[0..] == b;
      ScanFinds(b, VTG, 0, 0);
      ghost var v := First(b, VTG);
      if index < 0 {
        return 0;
      }
      index := gpsNmeaBuffer.Query(CRLF, index, v);
      ScanFinds(b[v..], CRLF, 0, 0);
      FirstInTail(b, CRLF, v);
      if index < 0 {
        return 0;
      }
      var size := gpsNmeaBuffer.Size2(index);
      end := size + 1;
    }
  }

  lemma FirstInTail(t: seq<byte>, pat: seq<byte>, v: nat)
    requires pat != [] && v <= |t|
    ensures FirstFrom(t, pat, v) == v + First(t[v..], pat)
  {
    TailFrom(t, pat, v, 0);
  }

  lemma {:induction false} TailFrom(t: seq<byte>, pat: seq<byte>, v: nat, k: nat)
    requires pat != [] && v + k <= |t|
    ensures FirstFrom(t, pat, v + k) == v + FirstFrom(t[v..], pat, k)
    decreases |t| - v - k
  {
    if v + k < |t| {
      if v + k + |pat| <= |t| {
        assert t[v..][k..k + |pat|] == t[v + k..v + k + |pat|];
      }
      if !OccursAt(t, pat, v + k) {
        TailFrom(t, pat, v, k + 1);
      }
    }
  }

  // ---------- Over a whole stream ----------

  function Join(frames: seq<seq<byte>>): seq<byte> {
    if frames == [] then [] else Join(frames[..|frames| - 1]) + frames[|frames| - 1]
  }

  /** What is buffered after the updates `inputs`, what was taken in and what was handed on by each. */
  datatype Stream = Stream(buffered: seq<byte>, taken: seq<seq<byte>>, frames: seq<seq<byte>>)

  function Run(inputs: seq<seq<byte>>): (s: Stream)
    ensures |s.taken| == |s.frames| == |inputs|
  {
    if inputs == [] then Stream([], [], [])
    else
      var s, data := Run(inputs[..|inputs| - 1]), inputs[|inputs| - 1];
      var o := Update(s.buffered, data);
      Stream(o.rest, s.taken + [Taken(s.buffered, data)], s.frames + [o.frame])
  }

  /** Nothing is lost, added or put out of order: what was handed on and what is buffered is what was taken in. */
  lemma {:induction false} StreamConserved(inputs: seq<seq<byte>>)
    ensures Join(Run(inputs).frames) + Run(inputs).buffered == Join(Run(inputs).taken)
    ensures |Run(inputs).buffered| < 2048
    decreases |inputs|
  {
    hide Join, FrameEnd, Clipped;
    if inputs == [] {
      NothingJoined();
    } else {
      var s := Run(inputs[..|inputs| - 1]);
      StreamConserved(inputs[..|inputs| - 1]);
      var t, o := Taken(s.buffered, inputs[|inputs| - 1]), Update(s.buffered, inputs[|inputs| - 1]);
      JoinMore(s.frames, o.frame);
      JoinMore(s.taken, t);
      Regroup(Join(s.frames), o.frame, o.rest, s.buffered, t);
    }
  }

  lemma NothingJoined()
    ensures Join([]) == []
  {
  }

  lemma JoinMore(frames: seq<seq<byte>>, f: seq<byte>)
    ensures Join(frames + [f]) == Join(frames) + f
  {
    assert (frames + [f])[..|frames|] == frames;
  }

  lemma Regroup(a: seq<byte>, f: seq<byte>, r: seq<byte>, b: seq<byte>, t: seq<byte>)
    requires f + r == b + t
    ensures a + f + r == a + b + t
  {
    assert a + f + r == a + (f + r) && a + b + t == a + (b + t);
  }

  /**
   * What a frame is: unless it was clipped it ends with the first line end at or after the first "VTG" that
   * was buffered; a clipped one is the first 1024 bytes up to that line end.
   */
  lemma FrameIsLine(b: seq<byte>)
    requires Delivered(b).frame != []
    ensures var f, v := Delivered(b).frame, First(b, VTG);
            && v < |b| && OccursAt(b, VTG, v) && f <= b
            && if |f| < GPS_NMEA_FRAME_BUFFER_LENGTH || FrameEnd(b) == GPS_NMEA_FRAME_BUFFER_LENGTH then
                 && |f| >= v + 2 && OccursAt(b, CRLF, |f| - 2) && f[|f| - 2..] == CRLF
                 && forall k :: v <= k < |f| - 2 ==> !OccursAt(b, CRLF, k)
               else |f| == GPS_NMEA_FRAME_BUFFER_LENGTH < FrameEnd(b)
  {
  }

  predicate VtgAt(b: seq<byte>, j: nat) {
    j + 3 <= |b| && b[j] == 'V' as int && b[j + 1] == 'T' as int && b[j + 2] == 'G' as int
  }

  predicate LineEndAt(b: seq<byte>, j: nat) {
    j + 2 <= |b| && b[j] == '\r' as int && b[j + 1] == '\n' as int
  }

  lemma PatternsTold(b: seq<byte>, j: nat)
    ensures OccursAt(b, VTG, j) <==> VtgAt(b, j)
    ensures OccursAt(b, CRLF, j) <==> LineEndAt(b, j)
  {
    if j + 3 <= |b| {
      assert b[j..j + 3] == [b[j], b[j + 1], b[j + 2]];
    }
    if j + 2 <= |b| {
      assert b[j..j + 2] == [b[j], b[j + 1]];
    }
  }

  lemma {:induction false} FirstIs(b: seq<byte>, pat: seq<byte>, from: nat, j: nat)
    requires pat != [] && from <= j && OccursAt(b, pat, j) && forall k :: from <= k < j ==> !OccursAt(b, pat, k)
    ensures j < |b| && FirstFrom(b, pat, from) == j
    decreases j - from
  {
    if from < j {
      FirstIs(b, pat, from + 1, j);
    }
  }

  /**
   * Told by the characters: with the first "VTG" at `v` and the first line end from there on at `e`, all up to it
   * is handed on, or the first 1024 bytes of that; without them nothing is.
   */
  lemma FrameTold(b: seq<byte>, v: nat, e: nat)
    ensures VtgAt(b, v) && LineEndAt(b, e) && v <= e
            && (forall j :: 0 <= j < v ==> !VtgAt(b, j)) && (forall j :: v <= j < e ==> !LineEndAt(b, j)) ==>
              Delivered(b) == (if e + 2 <= 1024 then Outcome(b[..e + 2], b[e + 2..]) else Outcome(b[..1024], b[1024..]))
    ensures (forall i, j :: VtgAt(b, i) && i <= j ==> !LineEndAt(b, j)) ==> Delivered(b) == Outcome([], b)
  {
    hide VtgAt, LineEndAt, OccursAt;
    forall j: nat ensures OccursAt(b, VTG, j) <==> VtgAt(b, j) {
      PatternsTold(b, j);
    }
    forall j: nat ensures OccursAt(b, CRLF, j) <==> LineEndAt(b, j) {
      PatternsTold(b, j);
    }
    if VtgAt(b, v) && forall j :: 0 <= j < v ==> !VtgAt(b, j) {
      FirstIs(b, VTG, 0, v);
      if LineEndAt(b, e) && v <= e && forall j :: v <= j < e ==> !LineEndAt(b, j) {
        FirstIs(b, CRLF, v, e);
      }
    }
  }

  /** Nothing is handed on just when there is no line end at or after the first "VTG". */
  lemma NothingIff(b: seq<byte>)
    ensures Delivered(b).frame == [] <==>
            First(b, VTG) == |b| || forall k :: First(b, VTG) <= k < |b| ==> !OccursAt(b, CRLF, k)
  {
  }

  // ---------- When the receiver is stuck ----------

  /** Nothing of `data` is taken: there is nothing to take, or no place for all of it. */
  predicate NotTaken(b: seq<byte>, data: seq<byte>) {
    var n := |data| % 0x1_0000;
    n == 0 || |b| + n >= 2048
  }

  /** An update takes nothing in and hands nothing on just when the buffer holds no frame and `data` does not fit. */
  lemma RefusedIff(b: seq<byte>, data: seq<byte>)
    ensures Update(b, data) == Outcome([], b) <==> FrameEnd(b) == 0 && NotTaken(b, data)
  {
    hide FrameEnd;
    var t := Taken(b, data);
    assert t == [] <==> NotTaken(b, data);
    assert Update(b, data).frame + Update(b, data).rest == b + t;
    if t == [] {
      assert b + t == b;
    } else {
      assert |b + t| > |b|;
    }
  }

  /** No update whatever has an effect just when the buffer is full and holds no frame. */
  lemma FrozenIff(b: seq<byte>)
    ensures (forall data :: Update(b, data) == Outcome([], b)) <==>
            |b| >= 2047 && FrameEnd(b) == 0
  {
    hide Update, FrameEnd;
    forall data {
      RefusedIff(b, data);
    }
    RefusedIff(b, [0]);
  }

  /** From `n` updates on nothing was taken in and nothing handed on. */
  predicate IdleSince(s: Stream, n: nat)
    requires |s.taken| == |s.frames|
  {
    forall k :: n <= k < |s.taken| ==> s.taken[k] == [] && s.frames[k] == []
  }

  /**
   * In a run: after the updates `inputs`, the updates `more` are all without effect just when the buffer holds no
   * frame and has no place for any of them; it then stays as it is.
   */
  lemma {:induction false} StuckIff(inputs: seq<seq<byte>>, more: seq<seq<byte>>)
    requires more != []
    ensures IdleSince(Run(inputs + more), |inputs|) <==>
            && FrameEnd(Run(inputs).buffered) == 0
            && forall data <- more :: NotTaken(Run(inputs).buffered, data)
    ensures IdleSince(Run(inputs + more), |inputs|) ==> Run(inputs + more).buffered == Run(inputs).buffered
    decreases |more|
  {
    hide FrameEnd, Update, Taken, Run;
    var front, data := more[..|more| - 1], more[|more| - 1];
    var b, s, t := Run(inputs).buffered, Run(inputs + front), Run(inputs + more);
    RunStep(inputs + front, data);
    assert inputs + more == (inputs + front) + [data];
    IdleFurther(s, Taken(s.buffered, data), Update(s.buffered, data), |inputs|);
    if front == [] {
      assert inputs + front == inputs;
    } else {
      StuckIff(inputs, front);
    }
    NoEffect(s.buffered, data);
    RefusedIff(s.buffered, data);
    assert more == front + [data];
  }

  lemma RunStep(inputs: seq<seq<byte>>, data: seq<byte>)
    ensures var s, o := Run(inputs), Update(Run(inputs).buffered, data);
            Run(inputs + [data]) == Stream(o.rest, s.taken + [Taken(s.buffered, data)], s.frames + [o.frame])
  {
    assert (inputs + [data])[..|inputs|] == inputs;
  }

  lemma IdleFurther(s: Stream, taken: seq<byte>, o: Outcome, n: nat)
    requires n <= |s.taken| == |s.frames|
    ensures IdleSince(Stream(o.rest, s.taken + [taken], s.frames + [o.frame]), n) <==>
            IdleSince(s, n) && taken == [] && o.frame == []
  {
    var t := Stream(o.rest, s.taken + [taken], s.frames + [o.frame]);
    assert t.taken[|s.taken|] == taken && t.frames[|s.taken|] == o.frame;
    if IdleSince(t, n) {
      forall k | n <= k < |s.taken| ensures s.taken[k] == [] && s.frames[k] == [] {
        assert t.taken[k] == s.taken[k] && t.frames[k] == s.frames[k];
      }
    }
  }

  lemma NoEffect(b: seq<byte>, data: seq<byte>)
    ensures Taken(b, data) == [] && Update(b, data).frame == [] <==> Update(b, data) == Outcome([], b)
  {
    hide FrameEnd;
    var o := Update(b, data);
    assert o.frame + o.rest == b + Taken(b, data);
    assert b + [] == b;
  }

  function Zeros(n: nat): seq<byte> {
    seq(n, _ => 0)
  }

  /**
   * Such runs begin with any bytes without "VTG". After 2047 of them nothing that comes has an effect; after 2000
   * no piece of 48 bytes or more has, however many come.
   */
  lemma StuckExample(more: seq<seq<byte>>)
    ensures forall data :: Update(Run([Zeros(2047)]).buffered, data) == Outcome([], Zeros(2047))
    ensures (forall data <- more :: 48 <= |data| < 0x1_0000) ==>
              && IdleSince(Run([Zeros(2000)] + more), 1)
              && Run([Zeros(2000)] + more).buffered == Zeros(2000)
  {
    hide Run, Update, FrameEnd, Zeros;
    ZerosBuffered(2047);
    ZerosBuffered(2000);
    FrozenIff(Zeros(2047));
    if more == [] {
      assert [Zeros(2000)] + more == [Zeros(2000)];
    } else {
      StuckIff([Zeros(2000)], more);
    }
  }

  lemma ZerosBuffered(n: nat)
    requires n < GPS_DATA_BUFFER_MAX_LENGTH
    ensures |Zeros(n)| == n && FrameEnd(Zeros(n)) == 0
    ensures Run([Zeros(n)]) == Stream(Zeros(n), [Zeros(n)], [[]])
  {
    hide FrameEnd;
    var z := Zeros(n);
    NoneIn(z);
    assert z[..n % 0x1_0000] == z;
    assert [] + z == z;
    RunStep([], z);
    assert [] + [z] == [z];
    assert z[..0] == [] && z[0..] == z;
  }

  lemma NoneIn(z: seq<byte>)
    requires forall k :: 0 <= k < |z| ==> z[k] == 0
    ensures FrameEnd(z) == 0
  {
    forall k | 0 <= k < |z| ensures !OccursAt(z, VTG, k) {
      if OccursAt(z, VTG, k) {
        BeginsThere(z, VTG, k);
      }
    }
  }
}
