/** Searching for a pattern in one pass without going back, and when that is right. */
module Search {

  predicate OccursAt<T(==)>(t: seq<T>, pat: seq<T>, j: nat) {
    j + |pat| <= |t| && t[j..j + |pat|] == pat
  }

  /** The first place at or after `from` where the pattern occurs; `|t|` if there is none. */
  function FirstFrom<T(==)>(t: seq<T>, pat: seq<T>, from: nat): (j: nat)
    requires pat != [] && from <= |t|
    ensures from <= j <= |t| && (j < |t| ==> OccursAt(t, pat, j))
    ensures forall k :: from <= k < j ==> !OccursAt(t, pat, k)
    decreases |t| - from
  {
    if from == |t| || OccursAt(t, pat, from) then from else FirstFrom(t, pat, from + 1)
  }

  function First<T(==)>(t: seq<T>, pat: seq<T>): nat
    requires pat != []
  {
    FirstFrom(t, pat, 0)
  }

  /**
   * The one pass: `i` elements have been seen, the last `m` of them being the start of the pattern. An element
   * that does not continue the pattern is only compared with the pattern's first.
   */
  function Scan<T(==)>(t: seq<T>, pat: seq<T>, i: nat, m: nat): (j: nat)
    requires m < |pat| && m <= i <= |t|
    ensures j <= |t|
    decreases |t| - i
  {
    if i == |t| then |t|
    else
      var next := if t[i] == pat[m] then m + 1 else if t[i] == pat[0] then 1 else 0;
      if next == |pat| then i + 1 - next else Scan(t, pat, i + 1, next)
  }

  /** The pattern's first `b` elements recur just before its `m`-th, but would not go on with it. */
  predicate Breaks<T(==)>(pat: seq<T>, m: nat, b: nat) {
    0 < b < m < |pat| && pat[..b] == pat[m - b..m] && pat[b] != pat[m]
  }

  ghost predicate NeverGoesBack<T>(pat: seq<T>) {
    forall m: nat, b: nat :: !Breaks(pat, m, b)
  }

  lemma BeginsThere<T>(t: seq<T>, pat: seq<T>, i: nat)
    requires pat != [] && OccursAt(t, pat, i)
    ensures t[i] == pat[0]
  {
    assert t[i..i + |pat|][0] == pat[0];
  }

  lemma {:induction false} ScanFinds<T>(t: seq<T>, pat: seq<T>, i: nat, m: nat)
    requires m < |pat| && m <= i <= |t| && NeverGoesBack(pat)
    requires t[i - m..i] == pat[..m] && forall j :: 0 <= j < i - m ==> !OccursAt(t, pat, j)
    ensures Scan(t, pat, i, m) == First(t, pat)
    decreases |t| - i
  {
    if i == |t| {
      forall j | 0 <= j < |t| ensures !OccursAt(t, pat, j) {
      }
    } else if t[i] == pat[m] {
      assert t[i - m..i + 1] == t[i - m..i] + [t[i]] && pat[..m + 1] == pat[..m] + [pat[m]];
      if m + 1 == |pat| {
        assert OccursAt(t, pat, i - m);
      } else {
        ScanFinds(t, pat, i + 1, m + 1);
      }
    } else {
      forall j | i - m <= j < i ensures !OccursAt(t, pat, j) {
        if OccursAt(t, pat, j) {
          Inside(t, pat, i, m, j);
        }
      }
      if t[i] == pat[0] {
        assert t[i..i + 1] == pat[..1];
        ScanFinds(t, pat, i + 1, 1);
      } else {
        if OccursAt(t, pat, i) {
          BeginsThere(t, pat, i);
        }
        ScanFinds(t, pat, i + 1, 0);
      }
    }
  }

  /** If the pattern begins within what matched, the next element continues the match. */
  lemma Inside<T>(t: seq<T>, pat: seq<T>, i: nat, m: nat, j: nat)
    requires m < |pat| && m <= i < |t| && NeverGoesBack(pat) && t[i - m..i] == pat[..m]
    requires i - m <= j < i && OccursAt(t, pat, j)
    ensures t[i] == pat[m]
  {
    var b := i - j;
    assert t[i] == t[j..j + |pat|][b] == pat[b];
    assert t[j..i] == t[i - m..i][m - b..] == pat[..m][m - b..] == pat[m - b..m];
    assert t[j..i] == t[j..j + |pat|][..b] == pat[..b];
    assert !Breaks(pat, m, b);
  }

  /** Few elements left: the pass can find nothing any more. */
  lemma {:induction false} ScanRunsOut<T>(t: seq<T>, pat: seq<T>, i: nat, m: nat)
    requires m < |pat| && m <= i <= |t| && |t| - i < |pat| - m && (m == 0 || |t| - i < |pat| - 1)
    ensures Scan(t, pat, i, m) == |t|
    decreases |t| - i
  {
    if i < |t| {
      var next := if t[i] == pat[m] then m + 1 else if t[i] == pat[0] then 1 else 0;
      if next < |pat| {
        ScanRunsOut(t, pat, i + 1, next);
      }
    }
  }

  lemma {:induction false} ScanMatches<T>(t: seq<T>, pat: seq<T>, i: nat, m: nat)
    requires i <= m < |pat| && m <= |t| && t[..m] == pat[..m]
    ensures Scan(t, pat, i, i) == Scan(t, pat, m, m)
    decreases m - i
  {
    if i < m {
      assert t[i] == t[..m][i] == pat[..m][i] == pat[i];
      ScanMatches(t, pat, i + 1, m);
    }
  }

  /** A text in which the pass misses the pattern: the beginning up to `m`, going on as after the shorter one. */
  lemma MissedExample<T>(pat: seq<T>, m: nat, b: nat)
    requires Breaks(pat, m, b)
    ensures var t := pat[..m] + pat[b..]; Scan(t, pat, 0, 0) == |t| && OccursAt(t, pat, m - b)
  {
    var t := pat[..m] + pat[b..];
    assert t[..m] == pat[..m];
    ScanMatches(t, pat, 0, m);
    assert t[m] == pat[b];
    var next := if t[m] == pat[0] then 1 else 0;
    ScanRunsOut(t, pat, m + 1, next);
    assert t[m - b..m - b + |pat|] == pat[m - b..m] + pat[b..] == pat;
  }

  /** The pass finds the first occurrence in every text if and only if the pattern is of this kind. */
  lemma OnePassRightIff<T(!new)>(pat: seq<T>)
    requires pat != []
    ensures NeverGoesBack(pat) <==> forall t: seq<T> :: Scan(t, pat, 0, 0) == First(t, pat)
  {
    if NeverGoesBack(pat) {
      forall t: seq<T> ensures Scan(t, pat, 0, 0) == First(t, pat) {
        ScanFinds(t, pat, 0, 0);
      }
    } else {
      var m: nat, b: nat :| Breaks(pat, m, b);
      MissedExample(pat, m, b);
      var t := pat[..m] + pat[b..];
      assert First(t, pat) <= m - b < |t|;
      assert Scan(t, pat, 0, 0) != First(t, pat);
    }
  }

  /** A pattern whose first element does not recur is one. */
  lemma FreshStart<T>(pat: seq<T>)
    requires forall k :: 0 < k < |pat| ==> pat[k] != pat[0]
    ensures NeverGoesBack(pat)
  {
    forall m: nat, b: nat ensures !Breaks(pat, m, b) {
      if 0 < b < m < |pat| {
        assert pat[..b][0] == pat[0] && pat[m - b..m][0] == pat[m - b];
      }
    }
  }
}
