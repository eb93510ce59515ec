/** What a stored file looks like line by line, and which lines can be read: stated on the characters. */
module LodLines {
  import opened LodText
  import opened Lod

  // ---------- Stored lines ----------

  predicate Ascending(keys: seq<nat>) {
    forall i, j :: 0 <= i < j < |keys| ==> keys[i] < keys[j]
  }

  /** The bases in order: each of them once, ascending. */
  lemma {:induction false} OrderedAscends(s: set<nat>)
    ensures Ascending(Ordered(s)) && |Ordered(s)| == |s|
    ensures forall k :: k in Ordered(s) <==> k in s
    decreases |s|
  {
    if s != {} {
      var m := Least(s);
      OrderedAscends(s - {m});
      var rest := Ordered(s - {m});
      forall i, j | 0 <= i < j < |rest| + 1 ensures ([m] + rest)[i] < ([m] + rest)[j] {
        assert rest[j - 1] in rest;
      }
    }
  }

  /** How many lines the blocks at `keys` take. */
  function LinesFor(blocks: map<nat, seq<nat>>, keys: seq<nat>): (n: nat)
    requires forall k <- keys :: k in blocks
  {
    if keys == [] then 0 else LinesFor(blocks, keys[..|keys| - 1]) + 1 + |blocks[keys[|keys| - 1]]|
  }

  lemma {:induction false} DataLine(words: seq<nat>)
    ensures |DataLines(words)| == |words|
    ensures forall i :: 0 <= i < |words| ==> DataLines(words)[i] == Format(words[i], 8) + "\n"
    decreases |words|
  {
    if words != [] {
      DataLine(words[..|words| - 1]);
    }
  }

  lemma {:induction false} AttrLineAt(names: seq<string>, attrs: map<string, string>)
    requires forall a <- names :: a in attrs
    ensures |AttrLines(names, attrs)| == |names|
    ensures forall i :: 0 <= i < |names| ==>
              AttrLines(names, attrs)[i] == "#$" + names[i] + "=" + attrs[names[i]] + "\n"
    decreases |names|
  {
    if names != [] {
      AttrLineAt(names[..|names| - 1], attrs);
    }
  }

  /** From line `at` on there stand a block's base and its words. */
  predicate BlockStands(lines: seq<string>, at: nat, base: nat, words: seq<nat>) {
    && at + 1 + |words| <= |lines| && lines[at] == "@" + Format(base, 8) + "\n"
    && forall i :: 0 <= i < |words| ==> lines[at + 1 + i] == Format(words[i], 8) + "\n"
  }

  lemma BlockFurther(a: seq<string>, lines: seq<string>, b: seq<string>, at: nat, base: nat, words: seq<nat>)
    requires BlockStands(lines, at, base, words)
    ensures BlockStands(a + lines + b, |a| + at, base, words)
  {
    hide Format;
  }

  lemma OneBlock(before: seq<string>, base: nat, words: seq<nat>)
    ensures BlockStands(before + (["@" + Format(base, 8) + "\n"] + DataLines(words)), |before|, base, words)
  {
    hide Format, DataLines;
    DataLine(words);
  }

  /** All the blocks at `keys` stand there one after another. */
  predicate BlocksStand(lines: seq<string>, blocks: map<nat, seq<nat>>, keys: seq<nat>)
    requires forall k <- keys :: k in blocks
  {
    forall j :: 0 <= j < |keys| ==> BlockStands(lines, LinesFor(blocks, keys[..j]), keys[j], blocks[keys[j]])
  }

  lemma NextBlock(before: seq<string>, blocks: map<nat, seq<nat>>, keys: seq<nat>)
    requires keys != [] && forall k <- keys :: k in blocks
    requires var front := keys[..|keys| - 1]; |before| == LinesFor(blocks, front) && BlocksStand(before, blocks, front)
    ensures var k := keys[|keys| - 1];
            BlocksStand(before + (["@" + Format(k, 8) + "\n"] + DataLines(blocks[k])), blocks, keys)
  {
    hide DataLines, Format, BlockStands, LinesFor;
    var front, k := keys[..|keys| - 1], keys[|keys| - 1];
    var more := ["@" + Format(k, 8) + "\n"] + DataLines(blocks[k]);
    assert [] + before + more == before + more;
    forall j | 0 <= j < |keys|
      ensures BlockStands(before + more, LinesFor(blocks, keys[..j]), keys[j], blocks[keys[j]])
    {
      if j < |front| {
        assert front[..j] == keys[..j];
        BlockFurther([], before, more, LinesFor(blocks, front[..j]), front[j], blocks[front[j]]);
      } else {
        assert keys[..j] == front;
        OneBlock(before, k, blocks[k]);
      }
    }
  }

  lemma NoBlocks(blocks: map<nat, seq<nat>>)
    ensures BlockLines(blocks, []) == [] && BlocksStand([], blocks, [])
  {
  }

  lemma {:induction false} BlockLinesAt(blocks: map<nat, seq<nat>>, keys: seq<nat>)
    requires forall k <- keys :: k in blocks
    ensures |BlockLines(blocks, keys)| == LinesFor(blocks, keys) && BlocksStand(BlockLines(blocks, keys), blocks, keys)
    decreases |keys|
  {
    hide DataLines, Format, BlocksStand, BlockLines;
    BlockLinesAfter([], blocks, keys);
    assert [] + BlockLines(blocks, keys) == BlockLines(blocks, keys);
    if keys == [] {
      NoBlocks(blocks);
    } else {
      var front := keys[..|keys| - 1];
      BlockLinesAt(blocks, front);
      assert [] + BlockLines(blocks, front) == BlockLines(blocks, front);
      NextBlock(BlockLines(blocks, front), blocks, keys);
      DataLine(blocks[keys[|keys| - 1]]);
    }
  }

  /**
   * A stored file: a line for every attribute in their order, then, the bases ascending and each of them once,
   * a line with the base and one for every word of its block, then the check sum; nothing else.
   */
  lemma StoredLines(i: Image)
    requires Storable(i)
    ensures var lines, keys, n := Store(i), Ordered(i.blocks.Keys), |i.attrnames|;
            && Ascending(keys) && (forall k :: k in keys <==> k in i.blocks)
            && |lines| == n + LinesFor(i.blocks, keys) + 1
            && (forall j :: 0 <= j < n ==>
                  lines[j] == "#$" + i.attrnames[j] + "=" + i.attrs[i.attrnames[j]] + "\n")
            && (forall j :: 0 <= j < |keys| ==>
                  BlockStands(lines, n + LinesFor(i.blocks, keys[..j]), keys[j], i.blocks[keys[j]]))
            && lines[|lines| - 1] == "#checksum=" + Format(Checksum(i.blocks), 8) + "\n"
  {
    hide AttrLines, BlockLines, Checksum, Ordered, LinesFor, Format, BlockStands;
    var keys, n := Ordered(i.blocks.Keys), |i.attrnames|;
    OrderedAscends(i.blocks.Keys);
    AttrLineAt(i.attrnames, i.attrs);
    BlockLinesAt(i.blocks, keys);
    var attrs, blocks := AttrLines(i.attrnames, i.attrs), BlockLines(i.blocks, keys);
    forall j | 0 <= j < |keys|
      ensures BlockStands(Store(i), n + LinesFor(i.blocks, keys[..j]), keys[j], i.blocks[keys[j]])
    {
      BlockFurther(attrs, blocks, [SumLine(Checksum(i.blocks))],
        LinesFor(i.blocks, keys[..j]), keys[j], i.blocks[keys[j]]);
    }
  }

  /** The lines that begin with an `@`, in their order. */
  function Marks(lines: seq<string>): seq<string> {
    if lines == [] then []
    else
      var line := lines[|lines| - 1];
      Marks(lines[..|lines| - 1]) + if line != "" && line[0] == '@' then [line] else []
  }

  lemma {:induction false} MarksOfBoth(a: seq<string>, b: seq<string>)
    ensures Marks(a + b) == Marks(a) + Marks(b)
    decreases |b|
  {
    if b == [] {
      assert a + b == a;
    } else {
      assert (a + b)[..|a + b| - 1] == a + b[..|b| - 1];
      MarksOfBoth(a, b[..|b| - 1]);
    }
  }

  lemma {:induction false} NoMarks(lines: seq<string>)
    requires forall i :: 0 <= i < |lines| ==> lines[i] != "" && lines[i][0] != '@'
    ensures Marks(lines) == []
  {
    if lines != [] {
      NoMarks(lines[..|lines| - 1]);
    }
  }

  lemma OneMark(line: string)
    requires line != "" && line[0] == '@'
    ensures Marks([line]) == [line]
  {
    assert Marks([line][..0]) == [];
  }

  function MarkLines(keys: seq<nat>): seq<string> {
    seq(|keys|, j requires 0 <= j < |keys| => "@" + Format(keys[j], 8) + "\n")
  }

  lemma WordLinesAreNoMarks(words: seq<nat>)
    ensures Marks(DataLines(words)) == []
  {
    hide Format, Marks, DataLines;
    DataLine(words);
    forall i | 0 <= i < |words| ensures DataLines(words)[i] != "" && DataLines(words)[i][0] != '@' {
      assert DataLines(words)[i][0] == Format(words[i], 8)[0] && Format(words[i], 8)[0] in Format(words[i], 8);
    }
    NoMarks(DataLines(words));
  }

  lemma {:induction false} MarksOfBlocks(blocks: map<nat, seq<nat>>, keys: seq<nat>)
    requires forall k <- keys :: k in blocks
    ensures Marks(BlockLines(blocks, keys)) == MarkLines(keys)
    decreases |keys|
  {
    hide DataLines, Format;
    if keys != [] {
      var front, k := keys[..|keys| - 1], keys[|keys| - 1];
      var mark := "@" + Format(k, 8) + "\n";
      MarksOfBlocks(blocks, front);
      WordLinesAreNoMarks(blocks[k]);
      MarksOfBoth(BlockLines(blocks, front), [mark]);
      MarksOfBoth(BlockLines(blocks, front) + [mark], DataLines(blocks[k]));
      OneMark(mark);
      assert MarkLines(keys) == MarkLines(front) + [mark];
    }
  }

  /** The lines of a stored file that begin with an `@` are those of its bases, ascending, each of them once. */
  lemma BasesAscend(i: Image)
    requires Storable(i)
    ensures exists keys: seq<nat> ::
              Ascending(keys) && (forall k :: k in keys <==> k in i.blocks) && Marks(Store(i)) == MarkLines(keys)
  {
    hide AttrLines, BlockLines, Checksum, Ordered, Format, Marks, MarkLines;
    var keys := Ordered(i.blocks.Keys);
    OrderedAscends(i.blocks.Keys);
    AttrLineAt(i.attrnames, i.attrs);
    var attrs, blocks, sum := AttrLines(i.attrnames, i.attrs), BlockLines(i.blocks, keys),
      [SumLine(Checksum(i.blocks))];
    NoMarks(attrs);
    assert SumLine(Checksum(i.blocks))[0] == '#';
    NoMarks(sum);
    MarksOfBlocks(i.blocks, keys);
    MarksOfBoth(attrs, blocks);
    MarksOfBoth(attrs + blocks, sum);
    assert [] + MarkLines(keys) + [] == MarkLines(keys);
  }

  /** Eight digits, all of them lower case. */
  lemma {:induction false} LowerCase(n: nat, width: nat)
    ensures forall c <- Format(n, width) :: c in "0123456789abcdef"
    decreases n + width
  {
    if n != 0 || width != 0 {
      LowerCase(n / 16, if width == 0 then 0 else width - 1);
    }
  }

  /** Which number a digit is, in either case. */
  lemma DigitValues(c: char, k: nat)
    requires IsHex(c) && k < 16
    ensures HexValue(c) == k <==> c == "0123456789abcdef"[k] || c == "0123456789ABCDEF"[k]
  {
  }

  // ---------- Lines that can be read ----------

  /** A word is looked for from the left: it is the first run of eight digits. */
  lemma {:induction false} FirstWord(s: string, i: nat)
    requires i <= |s|
    ensures SearchWord(s, i).None? <==> forall k :: i <= k ==> !Eight(s, k)
    ensures SearchWord(s, i).Some? ==>
              var at := SearchWord(s, i).value; i <= at && forall k :: i <= k < at ==> !Eight(s, k)
    decreases |s| - i
  {
    if !Eight(s, i) && i < |s| {
      FirstWord(s, i + 1);
    }
  }

  predicate BaseAt(s: string, i: nat) {
    i < |s| && s[i] == '@' && Eight(s, i + 1)
  }

  /** A base is the first run of eight digits with an `@` before it. */
  lemma {:induction false} FirstBase(s: string, i: nat)
    requires i <= |s|
    ensures SearchBase(s, i).None? <==> forall k :: i <= k ==> !BaseAt(s, k)
    ensures SearchBase(s, i).Some? ==>
              var at := SearchBase(s, i).value - 1;
              i <= at && BaseAt(s, at) && forall k :: i <= k < at ==> !BaseAt(s, k)
    decreases |s| - i
  {
    if !BaseAt(s, i) && i < |s| {
      FirstBase(s, i + 1);
    }
  }

  /** A pair of fields is read exactly from a text with one `=`, and they are what stands on its two sides. */
  lemma PairIff(s: string, name: string, value: string)
    ensures SplitPair(s) == Some((name, value)) <==> s == name + "=" + value && '=' !in name && '=' !in value
    ensures SplitPair(s) == None <==> !OneSign(s)
  {
    var i := IndexOf(s, '=');
    if s == name + "=" + value && '=' !in name {
      assert s[|name|] == '=';
      IndexIs(s, '=', |name|);
      assert s[..|name|] == name && s[|name| + 1..] == value;
    }
    if i < |s| {
      assert s == s[..i] + "=" + s[i + 1..];
    }
    forall k | 0 <= k < |s| && s[k] == '=' && '=' !in s[..k] ensures k == i {
    }
  }

  /** Spaces are taken off both ends, and nothing else. */
  lemma Stripped(s: string)
    ensures exists a, b :: 0 <= a <= b <= |s| && StripsTo(s, a, b)
  {
    var a := LeftStripped(s);
    var t := s[a..];
    var b := RightStripped(t);
    assert t[..b] == s[a..a + b];
    assert forall k :: a + b <= k < |s| ==> s[k] == t[k - a];
    assert b > 0 ==> t[0] == s[a] && t[b - 1] == s[a + b - 1];
    assert StripsTo(s, a, a + b);
  }

  /** What Python takes for a space, among the first 128 characters. */
  predicate IsWhite(c: char) {
    c in "\t\n\U{0B}\U{0C}\r\U{1C}\U{1D}\U{1E}\U{1F} "
  }

  predicate StripsTo(s: string, a: int, b: int)
    requires 0 <= a <= b <= |s|
  {
    && Strip(s) == s[a..b] && (forall k :: 0 <= k < a ==> IsWhite(s[k])) && (forall k :: b <= k < |s| ==> IsWhite(s[k]))
    && (a < b ==> !IsWhite(s[a]) && !IsWhite(s[b - 1]))
  }

  lemma {:induction false} LeftStripped(s: string) returns (a: nat)
    ensures a <= |s| && StripLeft(s) == s[a..] && (forall k :: 0 <= k < a ==> IsSpace(s[k]))
    ensures a < |s| ==> !IsSpace(s[a])
  {
    a := 0;
    if s != "" && IsSpace(s[0]) {
      var b := LeftStripped(s[1..]);
      a := b + 1;
      assert s[1..][b..] == s[a..];
      assert forall k :: 1 <= k < |s| ==> s[k] == s[1..][k - 1];
    }
  }

  lemma {:induction false} RightStripped(s: string) returns (b: nat)
    ensures b <= |s| && StripRight(s) == s[..b] && (forall k :: b <= k < |s| ==> IsSpace(s[k]))
    ensures b > 0 ==> !IsSpace(s[b - 1])
  {
    b := |s|;
    if s != "" && IsSpace(s[|s| - 1]) {
      b := RightStripped(s[..|s| - 1]);
      assert s[..|s| - 1][..b] == s[..b];
    }
  }

  /** After a line that is refused nothing is read any more. */
  lemma {:induction false} RefusedStays(lines: seq<string>, more: seq<string>)
    requires !LoadLines(lines).Reading?
    ensures Load(lines + more) == LoadLines(lines + more) == LoadLines(lines)
    decreases |more|
  {
    if more == [] {
      assert lines + more == lines;
    } else {
      assert (lines + more)[..|lines + more| - 1] == lines + more[..|more| - 1];
      RefusedStays(lines, more[..|more| - 1]);
    }
  }

  predicate IsOther(line: string) {
    !("#$" <= line) && !("#checksum=" <= line) && !("@" <= line)
  }

  /**
   * Lines that are refused: an attribute without exactly one `=`, a base or a word that is missing, and a word
   * before any base.
   */
  lemma LineRefused(lines: seq<string>, line: string)
    requires LoadLines(lines).Reading?
    ensures "#$" <= line && !OneSign(Strip(line[2..])) ==> LoadLines(lines + [line]) == SyntaxError
    ensures "@" <= line && (forall k: nat :: !BaseAt(line, k)) ==> LoadLines(lines + [line]) == SyntaxError
    ensures IsOther(line) && ((forall k: nat :: !Eight(line, k)) || LoadLines(lines).base == None) ==>
              LoadLines(lines + [line]) == SyntaxError
  {
    hide LoadLines, SplitPair, Strip, Eight, BaseAt, SearchWord, SearchBase, OneSign;
    LoadMore(lines, line);
    FirstWord(line, 0);
    FirstBase(line, 0);
    FirstTells(line);
    if "#$" <= line {
      NoPair(Strip(line[2..]));
    }
  }

  lemma FirstTells(line: string)
    ensures "@" <= line ==> !("#$" <= line) && !("#checksum=" <= line)
    ensures "#$" <= line ==> !("#checksum=" <= line)
  {
    assert "@" <= line ==> line[0] == '@';
    assert "#$" <= line ==> line[0] == '#' && line[1] == '$';
    assert "#checksum=" <= line ==> line[0] == '#' && line[1] == 'c';
  }

  /** One `=` and no other. */
  ghost predicate OneSign(s: string) {
    exists i :: 0 <= i < |s| && s[i] == '=' && '=' !in s[..i] && '=' !in s[i + 1..]
  }

  lemma NoPair(s: string)
    ensures !OneSign(s) ==> SplitPair(s) == None
  {
    hide SplitPair;
    PairIff(s, "", "");
  }

  /** A check sum in a file is accepted if and only if it is that of the blocks before it. */
  lemma SumAcceptedIff(lines: seq<string>, chk: nat)
    requires LoadLines(lines).Reading? && chk < 0x1_0000_0000
    ensures var sum := Checksum(Flushed(LoadLines(lines)).image.blocks);
            LoadLines(lines + ["#checksum=" + Format(chk, 8) + "\n"]) ==
            if chk == sum then Flushed(LoadLines(lines)) else ChecksumError
  {
    hide LoadLines, Checksum, Strip, PyInt, Flushed;
    var line := SumLine(chk);
    LoadMore(lines, line);
    EightDigits(chk);
    var t := "#checksum=" + Format(chk, 8);
    assert t[|t| - 1] == Format(chk, 8)[7] && Format(chk, 8)[7] in Format(chk, 8);
    StripLine(t);
    assert t + "\n" == line && t[10..] == Format(chk, 8);
    HexRead(Format(chk, 8));
    assert line[1] == 'c' && "#checksum=" <= line;
  }

  /** The check sum adds up words modulo 2^32: it is 0 of no words, and every word of any block counts once. */
  lemma ChecksumAdds(blocks: map<nat, seq<nat>>, k: nat, words: seq<nat>, w: nat)
    requires k !in blocks
    ensures Checksum(map[]) == 0 && Checksum(blocks[k := []]) == Checksum(blocks)
    ensures Checksum(blocks[k := words + [w]]) == (Checksum(blocks[k := words]) + w) % 0x1_0000_0000
  {
    hide SumOver, Sum;
    NothingSummed();
    SumWithBlock(blocks, k, []);
    SumWithBlock(blocks, k, words);
    SumWithBlock(blocks, k, words + [w]);
    OneMoreWord(words, w);
    AddedModulo(w, Sum(words) + SumOver(blocks, blocks.Keys));
  }

  lemma OneMoreWord(words: seq<nat>, w: nat)
    ensures Sum([]) == 0 && Sum(words + [w]) == Sum(words) + w
  {
    assert (words + [w])[..|words|] == words;
  }

  lemma SumWithBlock(blocks: map<nat, seq<nat>>, k: nat, words: seq<nat>)
    requires k !in blocks
    ensures var more := blocks[k := words]; SumOver(more, more.Keys) == Sum(words) + SumOver(blocks, blocks.Keys)
  {
    hide SumOver, Sum;
    var more := blocks[k := words];
    AnyOrder(more, more.Keys, k);
    assert more.Keys - {k} == blocks.Keys;
    SameSums(more, blocks, blocks.Keys);
  }

  lemma NothingSummed()
    ensures Checksum(map[]) == 0
  {
    var none: map<nat, seq<nat>> := map[];
    assert none.Keys == {};
  }

  lemma {:induction false} SameSums(m: map<nat, seq<nat>>, n: map<nat, seq<nat>>, s: set<nat>)
    requires s <= m.Keys && s <= n.Keys && forall k :: k in s ==> m[k] == n[k]
    ensures SumOver(m, s) == SumOver(n, s)
    decreases |s|
  {
    if s != {} {
      SameSums(m, n, s - {Least(s)});
    }
  }

  lemma AddedModulo(a: nat, b: nat)
    ensures (a + b) % 0x1_0000_0000 == (b % 0x1_0000_0000 + a) % 0x1_0000_0000
  {
  }

  // ---------- Blocks that are read ----------

  /** The lines of blocks, each with its base, in any order. */
  function ListLines(list: seq<(nat, seq<nat>)>): seq<string> {
    if list == [] then []
    else
      var (k, words) := list[|list| - 1];
      ListLines(list[..|list| - 1]) + (["@" + Format(k, 8) + "\n"] + DataLines(words))
  }

  /** What they say: of two blocks with the same base the later counts. */
  function LastOfEach(list: seq<(nat, seq<nat>)>): map<nat, seq<nat>> {
    if list == [] then map[] else LastOfEach(list[..|list| - 1])[list[|list| - 1].0 := list[|list| - 1].1]
  }

  predicate Words32(list: seq<(nat, seq<nat>)>) {
    forall i :: 0 <= i < |list| ==> list[i].0 < WORD && forall w <- list[i].1 :: w < WORD
  }

  /** Blocks are read in any order, also with no check sum behind, the later in place of an earlier one. */
  lemma BlocksRead(list: seq<(nat, seq<nat>)>)
    requires Words32(list)
    ensures Load(ListLines(list)) == Reading(Image([], map[], LastOfEach(list)), None, [])
  {
    hide LoadLines, ListLines, Flushed, LastOfEach;
    ListRead(list);
  }

  lemma {:induction false} ListRead(list: seq<(nat, seq<nat>)>)
    requires Words32(list)
    ensures LoadLines(ListLines(list)).Reading?
    ensures Flushed(LoadLines(ListLines(list))) == Reading(Image([], map[], LastOfEach(list)), None, [])
    decreases |list|
  {
    hide LoadLines, LoadLine, Format, DataLines;
    if list == [] {
      NothingLoaded();
    } else {
      var front, last := list[..|list| - 1], list[|list| - 1];
      ListRead(front);
      LoadsBlock(ListLines(front), last.0, last.1, Image([], map[], LastOfEach(front)));
    }
  }

  // ---------- Numbers of an attribute ----------

  predicate IsDecimal(s: string) {
    forall i :: 0 <= i < |s| ==> '0' <= s[i] <= '9'
  }

  /** The number decimal digits stand for. */
  function DecimalValue(s: string): nat
    requires IsDecimal(s)
  {
    if s == "" then 0 else 10 * DecimalValue(s[..|s| - 1]) + (s[|s| - 1] as int - '0' as int)
  }

  lemma {:induction false} NumeralOfDecimal(s: string)
    requires IsDecimal(s) && s != ""
    ensures Numeral(s, 10) == Some(DecimalValue(s))
    decreases |s|
  {
    if |s| > 1 {
      NumeralOfDecimal(s[..|s| - 1]);
    }
  }

  /** With base 0 a number is hexadecimal after `0x`, and decimal if it begins with another digit than 0. */
  lemma NumbersRead(s: string)
    requires s != ""
    ensures AllHex(s) ==> PyInt("0x" + s, 0) == PyInt("0X" + s, 0) == Some(Value(s))
    ensures IsDecimal(s) && s[0] != '0' ==> PyInt(s, 0) == Some(DecimalValue(s))
  {
    hide PyInt, AllHex, Value, DecimalValue, IsDecimal;
    if AllHex(s) {
      HexAfter("0x", s);
      HexAfter("0X", s);
    }
    if IsDecimal(s) && s[0] != '0' {
      DecimalRead(s);
    }
  }

  lemma DecimalRead(s: string)
    requires s != "" && IsDecimal(s) && s[0] != '0'
    ensures PyInt(s, 0) == Some(DecimalValue(s))
  {
    hide Strip, Numeral, DecimalValue;
    StripLine(s);
    NumeralOfDecimal(s);
  }

  lemma HexAfter(prefix: string, s: string)
    requires s != "" && AllHex(s) && (prefix == "0x" || prefix == "0X")
    ensures PyInt(prefix + s, 0) == Some(Value(s))
  {
    hide Strip, Numeral;
    var t := prefix + s;
    assert s[0] in s && s[|s| - 1] in s;
    assert t[0] == '0' && t[1] == prefix[1] && t[|t| - 1] == s[|s| - 1] && t[2..] == s;
    StripLine(t);
    NumeralOfHex(s);
  }
}
