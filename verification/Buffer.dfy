/** The byte queue: a fixed array used in a circle, of which one place always stays empty. */
module Buffer {
  import opened Bytes
  import opened Search

  /** The place `k` steps after place `a` of the circle. */
  function Place(a: nat, k: nat, size: nat): (p: nat)
    requires a < size && k <= size
    ensures p < size
  {
    if a + k < size then a + k else a + k - size
  }

  /** How many steps it is round the circle from `a` to `b`. */
  function Distance(a: nat, b: nat, size: nat): (d: nat)
    requires a < size && b < size
    ensures d < size && Place(a, d, size) == b
  {
    if a <= b then b - a else b + size - a
  }

  /** The program's `%`. */
  function Mod(x: nat, size: nat): (r: nat)
    requires size > 0
  {
    x % size
  }

  lemma Times(a: nat, b: nat, size: nat)
    requires a <= b
    ensures a * size <= b * size
  {
    assert (b - a) * size >= 0;
  }

  lemma OneRound(r: nat, size: nat)
    requires r < size
    ensures (r + size) / size == 1
  {
    var d := (r + size) / size;
    Times(if d >= 2 then 2 else d, d, size);
  }

  lemma QuotientAndRest(x: nat, size: nat)
    requires size > 0
    ensures x == (x / size) * size + x % size
  {
  }

  lemma ModOnce(x: nat, size: nat)
    requires size > 0 && x <= 2 * size
    ensures Mod(x, size) == if x < size then x else if x < 2 * size then x - size else 0
  {
    QuotientAndRest(x, size);
    if x < size {
      assert x / size == 0;
    } else if x < 2 * size {
      OneRound(x - size, size);
    } else {
      assert x / size == 2;
    }
  }

  /** `n` bytes of the circle after place `front`. */
  function Around(data: seq<byte>, front: nat, n: nat): (s: seq<byte>)
    requires front < |data| && n < |data|
    ensures |s| == n
    ensures forall k {:trigger s[k]} :: 0 <= k < n ==> s[k] == data[Place(front, k + 1, |data|)]
  {
    seq(n, k requires 0 <= k < n => data[Place(front, k + 1, |data|)])
  }

  /** A byte put behind the others. */
  lemma PutAround(data: seq<byte>, front: nat, n: nat, b: byte)
    requires front < |data| && n + 1 < |data|
    ensures Around(data[Place(front, n + 1, |data|) := b], front, n + 1) == Around(data, front, n) + [b]
  {
  }

  /** A byte taken from the front. */
  lemma GetAround(data: seq<byte>, front: nat, n: nat)
    requires front < |data| && 0 < n < |data|
    ensures Around(data, front, n) == [data[Place(front, 1, |data|)]] + Around(data, Place(front, 1, |data|), n - 1)
  {
  }

  lemma ScanStep(t: seq<byte>, pat: seq<byte>, i: nat, m: nat)
    requires m < |pat| && m <= i < |t|
    ensures t[i] == pat[m] && m + 1 == |pat| ==> Scan(t, pat, i, m) == i - m
    ensures t[i] == pat[m] && m + 1 < |pat| ==> Scan(t, pat, i, m) == Scan(t, pat, i + 1, m + 1)
    ensures t[i] != pat[m] && t[i] == pat[0] && |pat| > 1 ==> Scan(t, pat, i, m) == Scan(t, pat, i + 1, 1)
    ensures t[i] != pat[m] && t[i] != pat[0] ==> Scan(t, pat, i, m) == Scan(t, pat, i + 1, 0)
  {
  }

  class Queue {
    var front: nat
    var rear: nat
    const buffer: array<byte>

    /** Positions are 16 bits wide. */
    ghost predicate Valid()
      reads this
    {
      1 <= buffer.Length <= 0x1_0000 && front < buffer.Length && rear < buffer.Length
    }

    ghost function Contents(): (s: seq<byte>)
      requires Valid()
      reads this, buffer
    {
      Around(buffer[..], front, Distance(front, rear, buffer.Length))
    }

    constructor (dataBuffer: array<byte>)
      requires 1 <= dataBuffer.Length <= 0x1_0000
      modifies dataBuffer
      ensures Valid() && buffer == dataBuffer && Contents() == []
    {
      buffer, front, rear := dataBuffer, 0, 0;
      new;
      for i := 0 to buffer.Length
        invariant Valid() && front == rear == 0
      {
        buffer[i] := 0;
      }
      buffer[0] := 0x20;
    }

    method Size() returns (n: nat)
      requires Valid()
      ensures n == |Contents()|
    {
      hide Mod;
      ModOnce(rear - front + buffer.Length, buffer.Length);
      n := Mod(rear - front + buffer.Length, buffer.Length);
    }

    /** From the front up to the byte at `index`. */
    method Size2(index: nat) returns (n: nat)
      requires Valid() && index < buffer.Length
      ensures n == Distance(front, index, buffer.Length)
    {
      hide Mod;
      ModOnce(index - front + buffer.Length, buffer.Length);
      n := Mod(index - front + buffer.Length, buffer.Length);
    }

    method StartPostion() returns (p: nat)
      requires Valid()
      ensures p == Place(front, 1, buffer.Length)
    {
      hide Mod;
      ModOnce(front + 1, buffer.Length);
      p := Mod(front + 1, buffer.Length);
    }

    /** All of the bytes, or, if there is no room for them, none. */
    method Puts(data: seq<byte>) returns (ok: bool)
      requires Valid() && |data| < 0x1_0000
      modifies this, buffer
      ensures Valid()
      ensures ok <==> |old(Contents())| + |data| < buffer.Length
      ensures Contents() == if ok then old(Contents()) + data else old(Contents())
    {
      hide Around, Contents, Mod;
      var size := Size();
      if buffer.Length - size <= |data| {
        return false;
      }
      ghost var held := Contents();
      for i := 0 to |data|
        invariant Valid() && Contents() == held + data[..i]
      {
        Put(data[i]);
        assert held + data[..i] + [data[i]] == held + data[..i + 1];
      }
      assert data[..|data|] == data;
      return true;
    }

    method Put(b: byte)
      requires Valid() && |Contents()| + 1 < buffer.Length
      modifies `rear, buffer
      ensures Valid() && Contents() == old(Contents()) + [b]
    {
      hide Around, Mod;
      ghost var before := buffer[..];
      ModOnce(rear + 1, buffer.Length);
      PutAround(before, front, |Contents()|, b);
      rear := Mod(rear + 1, buffer.Length);
      buffer[rear] := b;
      assert buffer[..] == before[rear := b];
    }

    method Get() returns (b: byte)
      requires Valid() && Contents() != []
      modifies `front
      ensures Valid() && old(Contents()) == [b] + Contents()
    {
      hide Around, Mod;
      ModOnce(front + 1, buffer.Length);
      GetAround(buffer[..], front, |Contents()|);
      front := Mod(front + 1, buffer.Length);
      b := buffer[front];
    }

    /** The first `length` bytes, or, if there are not so many, none. */
    method Gets(data: array<byte>, length: nat) returns (ok: bool)
      requires Valid() && data != buffer && length <= data.Length
      modifies `front, data
      ensures Valid() && (ok <==> length <= |old(Contents())|)
      ensures ok ==> old(Contents()) == data[..length] + Contents() && data[length..] == old(data[length..])
      ensures !ok ==> Contents() == old(Contents()) && data[..] == old(data[..])
    {
      hide Around, Contents, Mod;
      var size := Size();
      if size < length {
        return false;
      }
      ghost var held := Contents();
      for i := 0 to length
        invariant Valid() && held == data[..i] + Contents() && data[length..] == old(data[length..])
      {
        ghost var taken := data[..i];
        var b := Get();
        data[i] := b;
        assert data[..i + 1] == taken + [b];
        assert taken + ([b] + Contents()) == taken + [b] + Contents();
      }
      return true;
    }

    /**
     * Looks for `data` in what is queued from the byte at `startPosition`, `k` bytes from the first, to the
     * last: the place of the one pass's find, or -1.
     */
    method Query(data: seq<byte>, startPosition: nat, ghost k: nat) returns (place: int)
      requires Valid() && 1 <= |data| < 0x1_0000
      requires k <= |Contents()| && startPosition == Place(front, k + 1, buffer.Length)
      ensures var t := Contents()[k..];
              var j := Scan(t, data, 0, 0);
              place == if j == |t| then -1 else Place(front, k + j + 1, buffer.Length)
    {
      hide Scan, Mod, Around;
      ghost var t := Contents()[k..];
      StartSize(k, startPosition);
      var size := Mod(rear - startPosition + 1 + buffer.Length, buffer.Length);
      var index, indexData, indexReturn: int := startPosition, 0, -1;
      ghost var i := 0;
      while size > 0
        invariant 0 <= i <= |t| && size == |t| - i && 0 <= indexData < |data| && indexData <= i
        invariant size > 0 ==> index == Place(front, k + i + 1, buffer.Length)
        invariant indexData > 0 ==> indexReturn == Place(front, k + (i - indexData) + 1, buffer.Length)
        invariant Scan(t, data, 0, 0) == Scan(t, data, i, indexData)
        decreases size
      {
        ByteAt(k, i);
        ScanStep(t, data, i, indexData);
        ScanInside(t, data, i, indexData);
        if buffer[index] == data[indexData] {
          if indexData == 0 {
            indexReturn := index;
          }
          indexData := indexData + 1;
          if indexData == |data| {
            return indexReturn;
          }
        } else {
          indexData, indexReturn := 0, -1;
          if buffer[index] == data[indexData] {
            indexReturn := index;
            indexData := indexData + 1;
            if indexData == |data| {
              return indexReturn;
            }
          }
        }
        ModOnce(index + 1, buffer.Length);
        index := Mod(index + 1, buffer.Length);
        size, i := size - 1, i + 1;
      }
      ScanEnds(t, data, indexData);
      return -1;
    }

    lemma StartSize(k: nat, startPosition: nat)
      requires Valid() && k <= |Contents()| && startPosition == Place(front, k + 1, buffer.Length)
      ensures 0 <= rear - startPosition + 1 + buffer.Length
      ensures Mod(rear - startPosition + 1 + buffer.Length, buffer.Length) == |Contents()| - k
    {
      ModOnce(rear - startPosition + 1 + buffer.Length, buffer.Length);
    }

    lemma ByteAt(k: nat, i: nat)
      requires Valid() && k + i < |Contents()|
      ensures Contents()[k..][i] == buffer[Place(front, k + i + 1, buffer.Length)]
    {
    }
  }

  lemma ScanInside(t: seq<byte>, pat: seq<byte>, i: nat, m: nat)
    requires m < |pat| && m <= i < |t|
    ensures i - m < |t|
  {
  }

  lemma ScanEnds(t: seq<byte>, pat: seq<byte>, m: nat)
    requires m < |pat| && m <= |t|
    ensures Scan(t, pat, |t|, m) == |t|
  {
  }
}
