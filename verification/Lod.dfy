/** LOD images: what is stored and loaded again, and what the merge of two images holds. */
module Lod {
  import opened LodText

  datatype Image = Image(attrnames: seq<string>, attrs: map<string, string>, blocks: map<nat, seq<nat>>)

  // ---------- Sums and orders over the blocks ----------

  lemma {:induction false} LeastExists(s: set<nat>) returns (m: nat)
    requires s != {}
    ensures m in s && forall k :: k in s ==> m <= k
    decreases |s|
  {
    var k :| k in s;
    m := k;
    var rest := s - {k};
    assert s == rest + {k};
    if rest != {} {
      var r := LeastExists(rest);
      m := if r < k then r else k;
    }
  }

  function Least(s: set<nat>): (m: nat)
    requires s != {}
    ensures m in s && forall k :: k in s ==> m <= k
  {
    assert exists m: nat :: m in s && forall k :: k in s ==> m <= k by {
      var m := LeastExists(s);
    }
    var m: nat :| m in s && forall k :: k in s ==> m <= k;
    m
  }

  lemma LeastIs(s: set<nat>, m: nat)
    requires m in s && forall k :: k in s ==> m <= k
    ensures Least(s) == m
  {
  }

  function Ordered(s: set<nat>): (r: seq<nat>)
    ensures forall k :: k in r <==> k in s
    decreases |s|
  {
    if s == {} then [] else [Least(s)] + Ordered(s - {Least(s)})
  }

  function Sum(words: seq<nat>): nat {
    if words == [] then 0 else Sum(words[..|words| - 1]) + words[|words| - 1]
  }

  function SumOver(blocks: map<nat, seq<nat>>, s: set<nat>): nat
    requires s <= blocks.Keys
    decreases |s|
  {
    if s == {} then 0 else Sum(blocks[Least(s)]) + SumOver(blocks, s - {Least(s)})
  }

  /** The blocks may be added up in any order. */
  lemma {:induction false} AnyOrder(blocks: map<nat, seq<nat>>, s: set<nat>, k: nat)
    requires s <= blocks.Keys && k in s
    ensures SumOver(blocks, s) == Sum(blocks[k]) + SumOver(blocks, s - {k})
    decreases |s|
  {
    var m := Least(s);
    if k != m {
      AnyOrder(blocks, s - {m}, k);
      assert s - {m} - {k} == s - {k} - {m};
      LeastIs(s - {k}, m);
    }
  }

  function Checksum(blocks: map<nat, seq<nat>>): nat {
    SumOver(blocks, blocks.Keys) % WORD
  }

  // ---------- Storing ----------

  function AttrLines(names: seq<string>, attrs: map<string, string>): seq<string>
    requires forall a <- names :: a in attrs
  {
    if names == [] then []
    else AttrLines(names[..|names| - 1], attrs) + ["#$" + names[|names| - 1] + "=" + attrs[names[|names| - 1]] + "\n"]
  }

  function DataLines(words: seq<nat>): seq<string> {
    if words == [] then [] else DataLines(words[..|words| - 1]) + [Format(words[|words| - 1], 8) + "\n"]
  }

  function BlockLines(blocks: map<nat, seq<nat>>, keys: seq<nat>): seq<string>
    requires forall k <- keys :: k in blocks
  {
    if keys == [] then []
    else
      var k := keys[|keys| - 1];
      BlockLines(blocks, keys[..|keys| - 1]) + ["@" + Format(k, 8) + "\n"] + DataLines(blocks[k])
  }

  function SumLine(chk: nat): string {
    "#checksum=" + Format(chk, 8) + "\n"
  }

  predicate Storable(i: Image) {
    forall a <- i.attrnames :: a in i.attrs
  }

  function Store(i: Image): seq<string>
    requires Storable(i)
  {
    AttrLines(i.attrnames, i.attrs) + BlockLines(i.blocks, Ordered(i.blocks.Keys)) + [SumLine(Checksum(i.blocks))]
  }

  // ---------- Loading ----------

  /** What has been read: the image so far and the block being read. */
  datatype Reading =
    | Reading(image: Image, base: Option<nat>, data: seq<nat>)
    | SyntaxError | ChecksumError | NumberError

  /** Enters the block being read, if there is one. */
  function Flushed(r: Reading): (f: Reading)
    requires r.Reading?
    ensures f.Reading?
  {
    match r.base
    case None => r
    case Some(b) => Reading(r.image.(blocks := r.image.blocks[b := r.data]), None, [])
  }

  predicate StartsWith(line: string, head: string) {
    head <= line
  }

  function LoadLine(r: Reading, line: string): Reading
    requires r.Reading?
  {
    if StartsWith(line, "#$") then
      match SplitPair(Strip(line[2..]))
      case None => SyntaxError
      case Some((name, value)) =>
        r.(image := r.image.(attrnames := r.image.attrnames + [name], attrs := r.image.attrs[name := value]))
    else if StartsWith(line, "#checksum=") then
      var f := Flushed(r);
      var digits := var t := Strip(line); if |t| < 10 then "" else t[10..];
      match PyInt(digits, 16)
      case None => NumberError
      case Some(v) => if v != Checksum(f.image.blocks) then ChecksumError else f
    else if StartsWith(line, "@") then
      match BaseIn(line)
      case None => SyntaxError
      case Some(b) => Flushed(r).(base := Some(b))
    else
      match WordIn(line)
      case None => SyntaxError
      case Some(w) => if r.base == None then SyntaxError else r.(data := r.data + [w])
  }

  const NOTHING := Reading(Image([], map[], map[]), None, [])

  function LoadLines(lines: seq<string>): Reading {
    if lines == [] then NOTHING
    else
      var r := LoadLines(lines[..|lines| - 1]);
      if r.Reading? then LoadLine(r, lines[|lines| - 1]) else r
  }

  function Load(lines: seq<string>): Reading {
    var r := LoadLines(lines); if r.Reading? then Flushed(r) else r
  }

  lemma LoadMore(lines: seq<string>, line: string)
    requires LoadLines(lines).Reading?
    ensures LoadLines(lines + [line]) == LoadLine(LoadLines(lines), line)
  {
    assert (lines + [line])[..|lines|] == lines;
  }

  // ---------- The round trip ----------

  /** Names and values that survive the attribute syntax, bases and words of 32 bits. */
  predicate Plain(i: Image) {
    && Storable(i) && (forall a <- i.attrnames :: AttrOk(a, i.attrs[a]))
    && (forall k :: k in i.blocks ==> k < WORD && forall w <- i.blocks[k] :: w < WORD)
  }

  function Restricted(names: seq<string>, attrs: map<string, string>): map<string, string>
    requires forall a <- names :: a in attrs
  {
    map a | a in names :: attrs[a]
  }

  function BlocksOf(blocks: map<nat, seq<nat>>, keys: seq<nat>): map<nat, seq<nat>>
    requires forall k <- keys :: k in blocks
  {
    map k | k in keys :: blocks[k]
  }

  lemma {:induction false} LoadsAttrs(names: seq<string>, attrs: map<string, string>)
    requires forall a <- names :: a in attrs && AttrOk(a, attrs[a])
    ensures LoadLines(AttrLines(names, attrs)) == Reading(Image(names, Restricted(names, attrs), map[]), None, [])
    decreases |names|
  {
    hide LoadLines, LoadLine, AttrOk;
    if names == [] {
      NothingLoaded();
      assert Restricted(names, attrs) == map[];
    } else {
      var front, a := names[..|names| - 1], names[|names| - 1];
      LoadsAttrs(front, attrs);
      var line := "#$" + a + "=" + attrs[a] + "\n";
      LoadMore(AttrLines(front, attrs), line);
      AttrLine(LoadLines(AttrLines(front, attrs)), a, attrs[a]);
      assert front + [a] == names;
      assert Restricted(front, attrs)[a := attrs[a]] == Restricted(names, attrs);
    }
  }

  lemma NothingLoaded()
    ensures LoadLines([]) == NOTHING
  {
  }

  lemma AttrLine(r: Reading, name: string, value: string)
    requires r.Reading? && AttrOk(name, value)
    ensures LoadLine(r, "#$" + name + "=" + value + "\n") ==
            r.(image := r.image.(attrnames := r.image.attrnames + [name], attrs := r.image.attrs[name := value]))
  {
    hide SplitPair, Strip;
    var line := "#$" + name + "=" + value + "\n";
    assert line[2..] == name + "=" + value + "\n";
    PairRead(name, value);
  }

  lemma {:induction false} LoadsData(lines: seq<string>, words: seq<nat>, image: Image, b: nat)
    requires LoadLines(lines) == Reading(image, Some(b), []) && forall w <- words :: w < WORD
    ensures LoadLines(lines + DataLines(words)) == Reading(image, Some(b), words)
    decreases |words|
  {
    hide LoadLines, LoadLine;
    if words == [] {
      assert lines + DataLines(words) == lines;
    } else {
      var front, w := words[..|words| - 1], words[|words| - 1];
      assert forall x <- front :: x in words;
      assert w in words;
      LoadsData(lines, front, image, b);
      var line := Format(w, 8) + "\n";
      assert lines + DataLines(words) == (lines + DataLines(front)) + [line];
      LoadMore(lines + DataLines(front), line);
      WordLine(LoadLines(lines + DataLines(front)), w);
      assert front + [w] == words;
    }
  }

  lemma WordLine(r: Reading, w: nat)
    requires r.Reading? && r.base.Some? && w < WORD
    ensures LoadLine(r, Format(w, 8) + "\n") == r.(data := r.data + [w])
  {
    hide WordIn;
    EightDigits(w);
    WordRead(w, "\n");
    assert (Format(w, 8) + "\n")[0] == Format(w, 8)[0] && Format(w, 8)[0] in Format(w, 8);
  }

  lemma BaseLine(r: Reading, b: nat)
    requires r.Reading? && b < WORD
    ensures var f := Flushed(r); LoadLine(r, "@" + Format(b, 8) + "\n") == Reading(f.image, Some(b), f.data)
  {
    hide BaseIn;
    WordRead(b, "\n");
    assert ("@" + Format(b, 8) + "\n")[0] == '@';
    assert "@" <= "@" + Format(b, 8) + "\n";
  }

  /** One block, the one before it being entered. */
  lemma LoadsBlock(head: seq<string>, k: nat, words: seq<nat>, image: Image)
    requires LoadLines(head).Reading? && Flushed(LoadLines(head)) == Reading(image, None, [])
    requires k < WORD && forall w <- words :: w < WORD
    ensures LoadLines(head + (["@" + Format(k, 8) + "\n"] + DataLines(words))) == Reading(image, Some(k), words)
  {
    hide LoadLines, LoadLine, DataLines, Flushed;
    var line := "@" + Format(k, 8) + "\n";
    LoadMore(head, line);
    BaseLine(LoadLines(head), k);
    LoadsData(head + [line], words, image, k);
    assert head + ([line] + DataLines(words)) == head + [line] + DataLines(words);
  }

  lemma BlockLinesAfter(lines: seq<string>, blocks: map<nat, seq<nat>>, keys: seq<nat>)
    requires forall k <- keys :: k in blocks
    ensures lines + BlockLines(blocks, keys) ==
            if keys == [] then lines
            else
              var k := keys[|keys| - 1];
              lines + BlockLines(blocks, keys[..|keys| - 1]) + (["@" + Format(k, 8) + "\n"] + DataLines(blocks[k]))
  {
    hide Format, DataLines;
  }

  lemma {:induction false} LoadsBlocks(lines: seq<string>, blocks: map<nat, seq<nat>>, keys: seq<nat>, image: Image)
    requires LoadLines(lines) == Reading(image, None, []) && image.blocks == map[]
    requires forall k <- keys :: k in blocks && k < WORD && forall w <- blocks[k] :: w < WORD
    ensures var r := LoadLines(lines + BlockLines(blocks, keys));
            r.Reading? && Flushed(r) == Reading(image.(blocks := BlocksOf(blocks, keys)), None, [])
    decreases |keys|
  {
    hide LoadLines, LoadLine, Format, DataLines, BlockLines;
    BlockLinesAfter(lines, blocks, keys);
    if keys == [] {
      assert BlocksOf(blocks, keys) == map[];
    } else {
      var front, k := keys[..|keys| - 1], keys[|keys| - 1];
      assert k in keys && forall x <- front :: x in keys;
      LoadsBlocks(lines, blocks, front, image);
      var head := lines + BlockLines(blocks, front);
      LoadsBlock(head, k, blocks[k], image.(blocks := BlocksOf(blocks, front)));
      assert BlocksOf(blocks, front)[k := blocks[k]] == BlocksOf(blocks, keys);
    }
  }

  lemma SumLineRead(r: Reading, chk: nat)
    requires r.Reading? && chk < WORD && Checksum(Flushed(r).image.blocks) == chk
    ensures LoadLine(r, SumLine(chk)) == Flushed(r)
  {
    hide Checksum, Strip, PyInt;
    EightDigits(chk);
    var t := "#checksum=" + Format(chk, 8);
    assert t[|t| - 1] == Format(chk, 8)[7] && Format(chk, 8)[7] in Format(chk, 8);
    StripLine(t);
    assert t + "\n" == SumLine(chk);
    assert t[10..] == Format(chk, 8);
    HexRead(Format(chk, 8));
    assert SumLine(chk)[1] == 'c' && "#checksum=" <= SumLine(chk);
  }

  /** Loading what was stored gives the same blocks and the stored attributes back; the check sum always agrees. */
  lemma LoadAfterStore(i: Image)
    requires Plain(i)
    ensures Load(Store(i)) == Reading(i.(attrs := Restricted(i.attrnames, i.attrs)), None, [])
  {
    hide Checksum, Ordered;
    var attrs, keys := AttrLines(i.attrnames, i.attrs), Ordered(i.blocks.Keys);
    var image := Image(i.attrnames, Restricted(i.attrnames, i.attrs), map[]);
    LoadsAttrs(i.attrnames, i.attrs);
    LoadsBlocks(attrs, i.blocks, keys, image);
    var lines := attrs + BlockLines(i.blocks, keys);
    assert BlocksOf(i.blocks, keys) == i.blocks;
    SumBelow(i.blocks);
    LoadMore(lines, SumLine(Checksum(i.blocks)));
    SumLineRead(LoadLines(lines), Checksum(i.blocks));
  }

  lemma SumBelow(blocks: map<nat, seq<nat>>)
    ensures Checksum(blocks) < WORD
  {
  }
}
