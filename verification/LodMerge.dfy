/** Merging a boot loader's image with an application's: what the merged image says of every address. */
module LodMerge {
  import opened LodText
  import opened Lod

  /** Address `a` holds word `w`. */
  ghost predicate HasWord(blocks: map<nat, seq<nat>>, a: nat, w: nat) {
    exists k, i :: WordAt(blocks, k, i, a, w)
  }

  predicate WordAt(blocks: map<nat, seq<nat>>, k: nat, i: nat, a: nat, w: nat) {
    k in blocks && i < |blocks[k]| && a == k + 4 * i && blocks[k][i] == w
  }

  function BlockEnd(k: nat, words: seq<nat>): nat {
    k + 4 * |words|
  }

  /** The end of the block that goes furthest. */
  function EndOver(blocks: map<nat, seq<nat>>, s: set<nat>): (e: nat)
    requires s <= blocks.Keys
    ensures forall k :: k in s ==> BlockEnd(k, blocks[k]) <= e
    ensures s != {} ==> exists k :: k in s && BlockEnd(k, blocks[k]) == e
    ensures s == {} ==> e == 0
    decreases |s|
  {
    if s == {} then 0
    else
      var k := Least(s);
      var rest := s - {k};
      assert s == rest + {k};
      var e := EndOver(blocks, rest);
      if BlockEnd(k, blocks[k]) > e then BlockEnd(k, blocks[k]) else e
  }

  function EndAddress(blocks: map<nat, seq<nat>>): nat {
    EndOver(blocks, blocks.Keys)
  }

  /** No word of four bytes goes beyond the end address, and the last block ends there; it is 0 without blocks. */
  lemma EndTold(blocks: map<nat, seq<nat>>)
    ensures forall a: nat, w: nat :: HasWord(blocks, a, w) ==> a + 4 <= EndAddress(blocks)
    ensures if blocks == map[] then EndAddress(blocks) == 0
            else exists k :: k in blocks && k + 4 * |blocks[k]| == EndAddress(blocks)
    ensures forall k :: k in blocks ==> k <= EndAddress(blocks)
  {
    forall a: nat, w: nat | HasWord(blocks, a, w) ensures a + 4 <= EndAddress(blocks) {
      var k, i :| WordAt(blocks, k, i, a, w);
      assert BlockEnd(k, blocks[k]) <= EndAddress(blocks);
    }
    forall k | k in blocks ensures k <= EndAddress(blocks) {
      assert BlockEnd(k, blocks[k]) <= EndAddress(blocks);
    }
    if blocks != map[] {
      var k: nat :| k in blocks && BlockEnd(k, blocks[k]) == EndAddress(blocks);
      assert k + 4 * |blocks[k]| == EndAddress(blocks);
    } else {
      assert blocks.Keys == {};
    }
  }

  /** The size of the next padding block: 64 kilobytes or 4, aligned. */
  function PadSize(pa: nat, end: nat): (n: Option<nat>)
    requires pa < end
    ensures n.Some? ==> 0 < n.value <= end - pa && n.value % 4 == 0
  {
    if pa % 0x1_0000 == 0 && end - pa >= 0x1_0000 then Some(0x1_0000)
    else if pa % 0x1000 == 0 && end - pa >= 0x1000 then Some(0x1000)
    else None
  }

  const ERASED: nat := 0xFFFF_FFFF

  /** The padding from `pa` to `end`. */
  function Padding(pa: nat, end: nat): (p: Option<map<nat, seq<nat>>>)
    decreases end - pa
  {
    if pa >= end then Some(map[])
    else match PadSize(pa, end)
      case None => None
      case Some(n) =>
        match Padding(pa + n, end)
        case None => None
        case Some(rest) => Some(rest[pa := seq(n / 4, _ => ERASED)])
  }

  /** A block of 4 kilobytes or 64 fits in front of the gap just when one of 4 does. */
  lemma PadSizeIff(pa: nat, end: nat)
    requires pa < end
    ensures PadSize(pa, end).Some? <==> pa % 0x1000 == 0 && end - pa >= 0x1000
    ensures PadSize(pa, end).Some? ==> PadSize(pa, end).value == 0x1_0000 || PadSize(pa, end).value == 0x1000
  {
    if pa % 0x1_0000 == 0 {
      Divided(pa, 0x1000, 16 * (pa / 0x1_0000), 0);
    }
  }

  lemma BoundariesApart(pa: nat, end: nat)
    requires pa < end && pa % 0x1000 == 0 && end % 0x1000 == 0
    ensures end - pa >= 0x1000
  {
    var p, e := pa / 0x1000, end / 0x1000;
    assert pa == 0x1000 * p && end == 0x1000 * e;
  }

  lemma BoundaryKept(pa: nat, n: nat)
    requires n == 0x1_0000 || n == 0x1000
    ensures (pa + n) % 0x1000 == pa % 0x1000
  {
  }

  /** A gap can be filled just when both its ends are at 4-kilobyte boundaries. */
  lemma {:induction false} PaddingIff(pa: nat, end: nat)
    requires pa < end
    ensures Padding(pa, end).Some? <==> pa % 0x1000 == 0 && end % 0x1000 == 0
    decreases end - pa
  {
    hide PadSize;
    PadSizeIff(pa, end);
    if pa % 0x1000 == 0 && end % 0x1000 == 0 {
      BoundariesApart(pa, end);
    }
    var n := PadSize(pa, end);
    if n.Some? {
      BoundaryKept(pa, n.value);
      if pa + n.value < end {
        PaddingIff(pa + n.value, end);
      }
    }
  }

  /** Padding blocks lie in the gap, and hold an erased word at every fourth address of it. */
  lemma {:induction false} PaddingCovers(pa: nat, end: nat)
    requires Padding(pa, end).Some?
    ensures forall k :: k in Padding(pa, end).value ==> pa <= k && BlockEnd(k, Padding(pa, end).value[k]) <= end
    ensures forall a: nat, w: nat ::
              HasWord(Padding(pa, end).value, a, w) <==> pa <= a < end && (a - pa) % 4 == 0 && w == ERASED
    decreases end - pa
  {
    if pa < end {
      var n, p := PadSize(pa, end).value, Padding(pa, end).value;
      var rest := Padding(pa + n, end).value;
      PaddingCovers(pa + n, end);
      forall a: nat, w: nat
        ensures HasWord(p, a, w) <==> pa <= a < end && (a - pa) % 4 == 0 && w == ERASED
      {
        FrontBlock(rest, p, pa, n, a, w);
      }
    }
  }

  /** How the padding is cut up: a block of 64 kilobytes wherever one fits at a multiple of that, else one of 4. */
  lemma {:induction false} PaddingBlocks(pa: nat, end: nat)
    requires Padding(pa, end).Some?
    ensures var p := Padding(pa, end).value;
            forall k :: k in p ==>
              && k < end && |p[k]| == (if k % 65536 == 0 && end - k >= 65536 then 16384 else 1024)
              && forall i :: 0 <= i < |p[k]| ==> p[k][i] == 0xFFFF_FFFF
    decreases end - pa
  {
    if pa < end {
      PaddingBlocks(pa + PadSize(pa, end).value, end);
    }
  }

  lemma FrontBlock(rest: map<nat, seq<nat>>, p: map<nat, seq<nat>>, pa: nat, n: nat, a: nat, w: nat)
    requires 0 < n && n % 4 == 0 && p == rest[pa := seq(n / 4, _ => ERASED)] && forall k :: k in rest ==> pa + n <= k
    ensures HasWord(p, a, w) <==> (pa <= a < pa + n && (a - pa) % 4 == 0 && w == ERASED) || HasWord(rest, a, w)
  {
    if HasWord(p, a, w) {
      var k, i :| WordAt(p, k, i, a, w);
      assert k == pa || WordAt(rest, k, i, a, w);
    }
    if pa <= a < pa + n && (a - pa) % 4 == 0 && w == ERASED {
      assert WordAt(p, pa, (a - pa) / 4, a, w);
    }
    if HasWord(rest, a, w) {
      var k, i :| WordAt(rest, k, i, a, w);
      assert WordAt(p, k, i, a, w);
    }
  }

  // ---------- Merging ----------

  /** An image's USER_BASE attribute as an address: bit 27 is set. None if it is no number. */
  function UserBase(i: Image): Option<int>
    requires Storable(i) && "USER_BASE" in i.attrnames
  {
    match PyInt(i.attrs["USER_BASE"], 0)
    case None => None
    case Some(n) => Some(WithBit27(n))
  }

  /** `n | 0x08000000`, of a negative number too. */
  function WithBit27(n: int): int {
    if n / 0x0800_0000 % 2 == 1 then n else n + 0x0800_0000
  }

  /** Bit 27 is set and every other bit is as it was. */
  lemma OnlyBit27(n: int)
    ensures var b := WithBit27(n);
            b / 0x0800_0000 % 2 == 1 && b % 0x0800_0000 == n % 0x0800_0000 && b / 0x1000_0000 == n / 0x1000_0000
  {
    var low, bit, high := n % 0x0800_0000, n / 0x0800_0000 % 2, n / 0x0800_0000 / 2;
    Bits(n, low, bit, high);
    Bits(WithBit27(n), low, 1, high);
  }

  /** An integer's bits below 27, bit 27 and those above. */
  lemma Bits(n: int, low: int, bit: int, high: int)
    requires 0 <= low < 0x0800_0000 && 0 <= bit < 2 && n == low + 0x0800_0000 * bit + 0x1000_0000 * high
    ensures n % 0x0800_0000 == low && n / 0x0800_0000 == bit + 2 * high
    ensures n / 0x0800_0000 % 2 == bit && n / 0x1000_0000 == high
  {
    Divided(n, 0x0800_0000, bit + 2 * high, low);
    Divided(n, 0x1000_0000, high, low + 0x0800_0000 * bit);
    Divided(bit + 2 * high, 2, high, bit);
  }

  lemma Divided(n: int, d: int, q: int, r: int)
    requires 0 <= r < d && n == d * q + r
    ensures n / d == q && n % d == r
  {
    Quotients(d, n / d, n % d, q, r);
  }

  lemma Quotients(d: int, k: int, m: int, q: int, r: int)
    requires 0 <= r < d && 0 <= m < d && d * k + m == d * q + r
    ensures k == q && m == r
  {
    if k > q {
      Larger(d, k, q);
    } else if q > k {
      Larger(d, q, k);
    }
  }

  lemma Larger(d: int, k: int, q: int)
    requires d > 0 && k > q
    ensures d * k >= d * q + d
  {
    assert d * (k - q - 1) >= 0;
  }

  /** Where the application begins. */
  function Base(lod: Image): nat
    requires lod.blocks != map[]
  {
    Least(lod.blocks.Keys)
  }

  /** The boot loader ends before the application begins, and the gap can be filled. */
  predicate CanPlace(bl: Image, lod: Image) {
    && lod.blocks != map[] && EndAddress(bl.blocks) <= Base(lod)
    && Padding(EndAddress(bl.blocks), Base(lod)).Some?
  }

  predicate HaveBases(bl: Image, lod: Image) {
    Storable(bl) && Storable(lod) && "USER_BASE" in bl.attrnames && "USER_BASE" in lod.attrnames
  }

  /** When the merge is made at all. */
  predicate CanMerge(bl: Image, lod: Image) {
    && HaveBases(bl, lod) && CanPlace(bl, lod) && UserBase(bl) == UserBase(lod) == Some(Base(lod))
  }

  /** When it ends in an exception: a base is no number, or the application has no blocks to begin with. */
  predicate MergeRaises(bl: Image, lod: Image) {
    && HaveBases(bl, lod)
    && (UserBase(bl) == None || UserBase(lod) == None || (UserBase(bl) == UserBase(lod) && lod.blocks == map[]))
  }

  /** The application, the padding and, over both, the boot loader. */
  function Merged(bl: Image, lod: Image): map<nat, seq<nat>>
    requires CanPlace(bl, lod)
  {
    lod.blocks + Padding(EndAddress(bl.blocks), Base(lod)).value + bl.blocks
  }

  /** The words of a sum of two maps, when the second replaces no block with a word in it. */
  lemma WordOfSum(m: map<nat, seq<nat>>, n: map<nat, seq<nat>>, a: nat, w: nat)
    requires forall k :: k in m && k in n ==> m[k] == []
    ensures HasWord(m + n, a, w) <==> HasWord(m, a, w) || HasWord(n, a, w)
  {
    if HasWord(m + n, a, w) {
      var k, i :| WordAt(m + n, k, i, a, w);
      assert WordAt(n, k, i, a, w) || WordAt(m, k, i, a, w);
    }
    if HasWord(m, a, w) {
      var k, i :| WordAt(m, k, i, a, w);
      assert WordAt(m + n, k, i, a, w);
    }
    if HasWord(n, a, w) {
      var k, i :| WordAt(n, k, i, a, w);
      assert WordAt(m + n, k, i, a, w);
    }
  }

  /** Where the words of the three parts are: they do not overlap. */
  lemma PartsApart(bl: Image, lod: Image)
    requires CanPlace(bl, lod)
    ensures forall a: nat, w: nat :: HasWord(bl.blocks, a, w) ==> a < EndAddress(bl.blocks)
    ensures forall a: nat, w: nat :: HasWord(lod.blocks, a, w) ==> Base(lod) <= a
    ensures EndAddress(bl.blocks) <= Base(lod)
  {
    forall a: nat, w: nat | HasWord(bl.blocks, a, w) ensures a < EndAddress(bl.blocks) {
      var k, i :| WordAt(bl.blocks, k, i, a, w);
      assert BlockEnd(k, bl.blocks[k]) <= EndAddress(bl.blocks);
    }
    forall a: nat, w: nat | HasWord(lod.blocks, a, w) ensures Base(lod) <= a {
      var k, i :| WordAt(lod.blocks, k, i, a, w);
    }
  }

  /** Both images' words, and erased words on the gap between them. */
  ghost predicate InUnion(bl: Image, lod: Image, a: nat, w: nat)
    requires CanPlace(bl, lod)
  {
    var e := EndAddress(bl.blocks);
    HasWord(bl.blocks, a, w) || HasWord(lod.blocks, a, w) || (e <= a < Base(lod) && (a - e) % 4 == 0 && w == ERASED)
  }

  /**
   * The boot loader has a block, which can only be an empty one, at its own end address, and that takes the place
   * of a block with words: of padding, or of the application's first.
   */
  predicate EndBlockReplaces(bl: Image, lod: Image)
    requires CanPlace(bl, lod)
  {
    var e := EndAddress(bl.blocks);
    e in bl.blocks && (e < Base(lod) || lod.blocks[Base(lod)] != [])
  }

  /** The merged image is the two images and erased words exactly on the gap, if and only if no block is so replaced. */
  lemma MergeIsUnion(bl: Image, lod: Image)
    requires CanPlace(bl, lod)
    ensures (forall a: nat, w: nat :: HasWord(Merged(bl, lod), a, w) <==> InUnion(bl, lod, a, w)) <==>
            !EndBlockReplaces(bl, lod)
  {
    hide HasWord;
    if EndBlockReplaces(bl, lod) {
      EmptyBlockReplaces(bl, lod);
    } else {
      forall a: nat, w: nat ensures HasWord(Merged(bl, lod), a, w) <==> InUnion(bl, lod, a, w) {
        UnionUnlessReplaced(bl, lod, a, w);
      }
    }
  }

  lemma UnionUnlessReplaced(bl: Image, lod: Image, a: nat, w: nat)
    requires CanPlace(bl, lod) && !EndBlockReplaces(bl, lod)
    ensures HasWord(Merged(bl, lod), a, w) <==> InUnion(bl, lod, a, w)
  {
    hide HasWord;
    var e, base := EndAddress(bl.blocks), Base(lod);
    var pad := Padding(e, base).value;
    PaddingCovers(e, base);
    PaddingKeysBelow(e, base);
    forall k | k in bl.blocks ensures k <= e {
      assert BlockEnd(k, bl.blocks[k]) <= e;
    }
    WordOfSum(lod.blocks, pad, a, w);
    WordOfSum(lod.blocks + pad, bl.blocks, a, w);
  }

  lemma {:induction false} PaddingKeysBelow(pa: nat, end: nat)
    requires Padding(pa, end).Some?
    ensures forall k :: k in Padding(pa, end).value ==> k < end
    ensures pa < end ==> pa in Padding(pa, end).value
    decreases end - pa
  {
    if pa < end {
      PaddingKeysBelow(pa + PadSize(pa, end).value, end);
    }
  }

  /** The word that is lost with the block replaced: an erased one, or the application's first. */
  lemma EmptyBlockReplaces(bl: Image, lod: Image)
    requires CanPlace(bl, lod) && EndBlockReplaces(bl, lod)
    ensures var e := EndAddress(bl.blocks);
            var w := if e < Base(lod) then ERASED else lod.blocks[Base(lod)][0];
            && Merged(bl, lod)[e] == bl.blocks[e] == []
            && InUnion(bl, lod, e, w) && !HasWord(Merged(bl, lod), e, w)
  {
    var e := EndAddress(bl.blocks);
    var w := if e < Base(lod) then ERASED else lod.blocks[Base(lod)][0];
    assert BlockEnd(e, bl.blocks[e]) <= e;
    PaddingCovers(e, Base(lod));
    if e == Base(lod) {
      assert WordAt(lod.blocks, e, 0, e, w);
    }
    forall k, i ensures !WordAt(Merged(bl, lod), k, i, e, w) {
      if k in bl.blocks {
        assert BlockEnd(k, bl.blocks[k]) <= e;
      }
    }
  }

  /** An image with USER_BASE "0", which is address 0x08000000. */
  function AtZero(blocks: map<nat, seq<nat>>): Image {
    Image(["USER_BASE"], map["USER_BASE" := "0"], blocks)
  }

  /** Two merges that are made and lose a word: the application's only one, and the first of the padding. */
  lemma MergeLosesWord()
    ensures var bl, lod := AtZero(map[0x0800_0000 := []]), AtZero(map[0x0800_0000 := [7]]);
            CanMerge(bl, lod) && HasWord(lod.blocks, 0x0800_0000, 7) && !HasWord(Merged(bl, lod), 0x0800_0000, 7)
    ensures var bl, lod := AtZero(map[0x07FF_F000 := []]), AtZero(map[0x0800_0000 := [7]]);
            CanMerge(bl, lod) && InUnion(bl, lod, 0x07FF_F000, ERASED) && !HasWord(Merged(bl, lod), 0x07FF_F000, ERASED)
  {
    hide HasWord, EndAddress, Padding, Least, PyInt;
    EmptyAt(0x0800_0000);
    EmptyAt(0x07FF_F000);
    HoldsWord(map[0x0800_0000 := [7]], 0x0800_0000, 0);
  }

  lemma HoldsWord(blocks: map<nat, seq<nat>>, k: nat, i: nat)
    requires k in blocks && i < |blocks[k]|
    ensures HasWord(blocks, k + 4 * i, blocks[k][i])
  {
    assert WordAt(blocks, k, i, k + 4 * i, blocks[k][i]);
  }

  lemma EmptyAt(at: nat)
    requires at == 0x0800_0000 || at == 0x07FF_F000
    ensures var bl, lod := AtZero(map[at := []]), AtZero(map[0x0800_0000 := [7]]);
            var w := if at < 0x0800_0000 then ERASED else 7;
            CanMerge(bl, lod) && InUnion(bl, lod, at, w) && !HasWord(Merged(bl, lod), at, w)
  {
    hide HasWord, EndAddress, Padding, Least, PyInt;
    var bl, lod := AtZero(map[at := []]), AtZero(map[0x0800_0000 := [7]]);
    ZeroRead();
    OneBlock(at, []);
    OneBlock(0x0800_0000, [7]);
    PaddingAt(at);
    EmptyBlockReplaces(bl, lod);
  }

  lemma PaddingAt(at: nat)
    requires at == 0x0800_0000 || at == 0x07FF_F000
    ensures Padding(at, 0x0800_0000).Some?
  {
    if at < 0x0800_0000 {
      PaddingIff(at, 0x0800_0000);
    }
  }

  lemma ZeroRead()
    ensures PyInt("0", 0) == Some(0)
  {
    assert Strip("0") == "0" by { assert StripLeft("0") == "0" && StripRight("0") == "0"; }
    assert Numeral("0", 10) == Some(0);
  }

  lemma OneBlock(at: nat, words: seq<nat>)
    ensures var m := map[at := words]; m.Keys == {at} && Least(m.Keys) == at && EndAddress(m) == BlockEnd(at, words)
  {
    var m := map[at := words];
    assert m.Keys == {at};
    assert BlockEnd(at, m[at]) <= EndAddress(m);
  }

  // ---------- The program ----------

  class LOD {
    var attrnames: seq<string>
    var attrs: map<string, string>
    var blocks: map<nat, seq<nat>>

    ghost function State(): Image
      reads this
    {
      Image(attrnames, attrs, blocks)
    }

    constructor ()
      ensures State() == Image([], map[], map[])
    {
      attrnames, attrs, blocks := [], map[], map[];
    }

    /** The blocks are taken in any order. */
    method checksum() returns (sum: nat)
      ensures sum == Checksum(blocks)
    {
      sum := 0;
      var rest := blocks.Keys;
      while rest != {}
        invariant rest <= blocks.Keys && sum + SumOver(blocks, rest) == SumOver(blocks, blocks.Keys)
        decreases |rest|
      {
        var base: nat :| base in rest;
        AnyOrder(blocks, rest, base);
        var i, words := 0, blocks[base];
        ghost var before := sum;
        assert words[..0] == [];
        while i < |words|
          invariant 0 <= i <= |words| && sum == before + Sum(words[..i])
        {
          assert words[..i + 1][..i] == words[..i];
          sum := sum + words[i];
          i := i + 1;
        }
        assert words[..i] == words;
        rest := rest - {base};
      }
      sum := sum % WORD;
    }

    /**
     * Reads the lines of a file. It fails on a line of no known form, on a word before any base, and on a check
     * sum that does not agree. `raised` is the exception of a check sum that is no number.
     */
    method load(lines: seq<string>) returns (ok: bool, raised: bool)
      modifies this
      ensures ok <==> Load(lines).Reading?
      ensures raised <==> Load(lines).NumberError?
      ensures ok ==> State() == Load(lines).image
    {
      hide SplitPair, Strip, BaseIn, WordIn, Checksum, LoadLines, LoadLine, Flushed;
      attrnames, attrs, blocks := [], map[], map[];
      var base: Option<nat>, data: seq<nat> := None, [];
      NothingLoaded();
      assert lines[..0] == [];
      for i := 0 to |lines|
        invariant LoadLines(lines[..i]) == Reading(State(), base, data)
      {
        assert lines[..i + 1] == lines[..i] + [lines[i]];
        LoadMore(lines[..i], lines[i]);
        ok, raised, base, data := loadLine(lines[i], base, data);
        if !ok {
          Failed(lines, i + 1);
          return;
        }
      }
      assert lines[..|lines|] == lines;
      enter(base, data);
      return true, false;
    }

    lemma {:induction false} Failed(lines: seq<string>, k: nat)
      requires k <= |lines| && !LoadLines(lines[..k]).Reading?
      ensures LoadLines(lines) == LoadLines(lines[..k])
      decreases |lines|
    {
      hide LoadLine;
      if k < |lines| {
        assert lines[..|lines| - 1][..k] == lines[..k];
        Failed(lines[..|lines| - 1], k);
      } else {
        assert lines[..k] == lines;
      }
    }

    /** Enters the block being read, if there is one. */
    method enter(base: Option<nat>, data: seq<nat>)
      modifies `blocks
      ensures Flushed(Reading(old(State()), base, data)) == Reading(State(), None, if base == None then data else [])
    {
      if base.Some? {
        blocks := blocks[base.value := data];
      }
    }

    method loadLine(line: string, base: Option<nat>, data: seq<nat>)
      returns (ok: bool, raised: bool, base': Option<nat>, data': seq<nat>)
      modifies this
      ensures var r := LoadLine(Reading(old(State()), base, data), line);
              (if ok then r == Reading(State(), base', data') else !r.Reading?) && (raised <==> r.NumberError?)
    {
      hide SplitPair, Strip, PyInt, BaseIn, WordIn, Checksum, Flushed;
      ok, raised, base', data' := true, false, base, data;
      if StartsWith(line, "#$") {
        var fields := SplitPair(Strip(line[2..]));
        if fields.None? {
          ok := false;
        } else {
          attrnames := attrnames + [fields.value.0];
          attrs := attrs[fields.value.0 := fields.value.1];
        }
      } else if StartsWith(line, "#checksum=") {
        enter(base, data);
        base', data' := None, if base == None then data else [];
        var t := Strip(line);
        var digits := if |t| < 10 then "" else t[10..];
        var expected := checksum();
        var read := PyInt(digits, 16);
        raised := read == None;
        ok := read.Some? && read.value == expected;
      } else if StartsWith(line, "@") {
        var b := BaseIn(line);
        if b.None? {
          ok := false;
        } else {
          enter(base, data);
          base', data' := b, if base == None then data else [];
        }
      } else {
        var w := WordIn(line);
        if w.None? || base.None? {
          ok := false;
        } else {
          data' := data + [w.value];
        }
      }
    }

    method attrLines() returns (lines: seq<string>)
      requires Storable(State())
      ensures lines == AttrLines(attrnames, attrs)
    {
      lines := [];
      for i := 0 to |attrnames|
        invariant lines == AttrLines(attrnames[..i], attrs)
      {
        assert attrnames[..i + 1][..i] == attrnames[..i];
        lines := lines + ["#$" + attrnames[i] + "=" + attrs[attrnames[i]] + "\n"];
      }
      assert attrnames[..|attrnames|] == attrnames;
    }

    static method dataLines(words: seq<nat>) returns (lines: seq<string>)
      ensures lines == DataLines(words)
    {
      hide Format;
      lines := [];
      for j := 0 to |words|
        invariant lines == DataLines(words[..j])
      {
        assert words[..j + 1][..j] == words[..j];
        lines := lines + [Format(words[j], 8) + "\n"];
      }
      assert words[..|words|] == words;
    }

    method store() returns (lines: seq<string>)
      requires Storable(State())
      ensures lines == Store(State())
    {
      hide Format, Ordered, Checksum, DataLines;
      lines := attrLines();
      ghost var head := lines;
      var keys := Ordered(blocks.Keys);
      for i := 0 to |keys|
        invariant forall k <- keys :: k in blocks
        invariant lines == head + BlockLines(blocks, keys[..i])
      {
        assert keys[..i + 1][..i] == keys[..i];
        var data := dataLines(blocks[keys[i]]);
        lines := lines + ["@" + Format(keys[i], 8) + "\n"] + data;
        assert lines == head + (BlockLines(blocks, keys[..i]) + ["@" + Format(keys[i], 8) + "\n"] + data);
      }
      assert keys[..|keys|] == keys;
      var chk := checksum();
      lines := lines + [SumLine(chk)];
    }

    method end_address() returns (ea: nat)
      ensures ea == EndAddress(blocks)
    {
      ea := 0;
      var rest := blocks.Keys;
      while rest != {}
        invariant rest <= blocks.Keys
        invariant forall k :: k in blocks.Keys - rest ==> BlockEnd(k, blocks[k]) <= ea
        invariant ea == 0 || exists k :: k in blocks.Keys && BlockEnd(k, blocks[k]) == ea
        decreases |rest|
      {
        var base: nat :| base in rest;
        var bea := base + |blocks[base]| * 4;
        if bea > ea {
          ea := bea;
        }
        rest := rest - {base};
      }
    }
  }

  /**
   * The merge. The merged image shares its blocks with the application's, which is changed along. `raised` is
   * the exception of a base that is no number, or of an application without blocks.
   */
  method dual_merge(bl: LOD, lod: LOD) returns (output: LOD?, raised: bool)
    requires bl != lod && Storable(bl.State()) && Storable(lod.State())
    modifies lod
    ensures raised <==> MergeRaises(bl.State(), old(lod.State()))
    ensures output != null <==> CanMerge(bl.State(), old(lod.State()))
    ensures output != null ==> fresh(output) && output.blocks == lod.blocks == Merged(bl.State(), old(lod.State()))
    ensures lod.attrnames == old(lod.attrnames) && lod.attrs == old(lod.attrs)
    ensures output != null ==> output.attrnames == lod.attrnames && output.attrs == Restricted(lod.attrnames, lod.attrs)
  {
    hide EndAddress, Padding, Least, PyInt, WithBit27;
    output, raised := null, false;
    if "USER_BASE" !in bl.attrnames || "USER_BASE" !in lod.attrnames {
      return;
    }
    var base1 := UserBase(Image(bl.attrnames, bl.attrs, bl.blocks));
    var base2 := UserBase(Image(lod.attrnames, lod.attrs, lod.blocks));
    if base1 == None || base2 == None {
      return null, true;
    }
    if base1 != base2 {
      return;
    }
    if lod.blocks == map[] {
      return null, true;
    }
    var sa2 := Least(lod.blocks.Keys);
    if base2.value != sa2 {
      return;
    }
    var ea1 := bl.end_address();
    if ea1 > sa2 {
      return;
    }
    ghost var before := lod.blocks;
    var ok := pad(lod, ea1, sa2);
    if !ok {
      return;
    }
    output := copyAttrs(lod);
    lod.blocks := lod.blocks + bl.blocks;
    output.blocks := lod.blocks;
  }

  method copyAttrs(lod: LOD) returns (output: LOD)
    requires Storable(lod.State())
    ensures fresh(output) && output.attrnames == lod.attrnames && output.attrs == Restricted(lod.attrnames, lod.attrs)
  {
    output := new LOD();
    output.attrnames := lod.attrnames;
    var i := 0;
    while i < |lod.attrnames|
      invariant 0 <= i <= |lod.attrnames| && Storable(lod.State()) && output.attrnames == lod.attrnames && fresh(output)
      invariant output.attrs == Restricted(lod.attrnames[..i], lod.attrs)
    {
      assert lod.attrnames[..i + 1] == lod.attrnames[..i] + [lod.attrnames[i]];
      output.attrs := output.attrs[lod.attrnames[i] := lod.attrs[lod.attrnames[i]]];
      i := i + 1;
    }
    assert lod.attrnames[..i] == lod.attrnames;
  }

  /** The padding loop, into the application's blocks. */
  method pad(lod: LOD, ea1: nat, sa2: nat) returns (ok: bool)
    modifies lod`blocks
    ensures ok <==> Padding(ea1, sa2).Some?
    ensures ok ==> lod.blocks == old(lod.blocks) + Padding(ea1, sa2).value
  {
    hide PadSize, Padding;
    var pa := ea1;
    NothingFilled(Padding(ea1, sa2));
    ghost var filled: map<nat, seq<nat>> := map[];
    while pa < sa2
      invariant Padding(ea1, sa2).Some? <==> Padding(pa, sa2).Some?
      invariant Padding(pa, sa2).Some? ==> Padding(ea1, sa2).value == filled + Padding(pa, sa2).value
      invariant lod.blocks == old(lod.blocks) + filled && forall k :: k in filled ==> k < pa
      decreases sa2 - pa
    {
      var size := PadSize(pa, sa2);
      if size.None? {
        NoPadding(pa, sa2);
        return false;
      }
      var data := seq(size.value / 4, _ => ERASED);
      PadStep(pa, sa2, filled, size.value);
      lod.blocks := lod.blocks[pa := data];
      filled := filled[pa := data];
      pa := pa + size.value;
    }
    PaddingDone(pa, sa2);
    return true;
  }

  lemma NothingFilled(p: Option<map<nat, seq<nat>>>)
    ensures p.Some? ==> p.value == map[] + p.value
  {
  }

  lemma NoPadding(pa: nat, end: nat)
    requires pa < end && PadSize(pa, end).None?
    ensures Padding(pa, end) == None
  {
  }

  lemma PaddingDone(pa: nat, end: nat)
    requires pa >= end
    ensures Padding(pa, end) == Some(map[])
  {
  }

  lemma PadStep(pa: nat, end: nat, filled: map<nat, seq<nat>>, n: nat)
    requires pa < end && PadSize(pa, end) == Some(n)
    ensures Padding(pa, end).Some? <==> Padding(pa + n, end).Some?
    ensures Padding(pa, end).Some? ==>
              filled + Padding(pa, end).value == filled[pa := seq(n / 4, _ => ERASED)] + Padding(pa + n, end).value
  {
    if Padding(pa + n, end).Some? {
      PaddingAbove(pa + n, end);
    }
  }

  lemma PaddingAbove(pa: nat, end: nat)
    requires Padding(pa, end).Some?
    ensures forall k :: k in Padding(pa, end).value ==> pa <= k
  {
    PaddingCovers(pa, end);
  }
}
