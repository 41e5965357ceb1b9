/** The handful of Python 2 byte-string (`str`) operations the STL importers
    rely on: the `in` substring test, `count`, `splitlines` and the
    argument-less `split`.  A file's contents are a sequence of bytes. */
module ByteText {

  newtype byte = b: int | 0 <= b < 256

  type Bytes = seq<byte>

  /** The bytes of an ASCII string literal. */
  function Ascii(s: string): (r: Bytes)
    requires forall i | 0 <= i < |s| :: s[i] as int < 128
    ensures |r| == |s|
  {
    seq(|s|, i requires 0 <= i < |s| => s[i] as int as byte)
  }

  // ---------------------------------------------------------------------------
  // Substring search: `p in s` and `s.count(p)`

  /** `p` occurs in `s` starting at index `i`. */
  predicate OccursAt(s: Bytes, p: Bytes, i: int) {
    0 <= i && i + |p| <= |s| && s[i..i + |p|] == p
  }

  /** Python's `p in s` on byte strings. */
  predicate Contains(s: Bytes, p: Bytes) {
    exists i | 0 <= i <= |s| - |p| :: OccursAt(s, p, i)
  }

  /** Non-overlapping, leftmost-first occurrences of a non-empty `p` in `s[i..]`:
      after a match the scan resumes just past it, otherwise one byte later. */
  function CountFrom(s: Bytes, p: Bytes, i: nat): nat
    requires |p| > 0 && i <= |s|
    decreases |s| - i
  {
    if i + |p| > |s| then 0
    else if OccursAt(s, p, i) then 1 + CountFrom(s, p, i + |p|)
    else CountFrom(s, p, i + 1)
  }

  /** Python's `s.count(p)`; the empty pattern is counted once per gap. */
  function Count(s: Bytes, p: Bytes): nat {
    if |p| == 0 then |s| + 1 else CountFrom(s, p, 0)
  }

  lemma {:induction false} CountFromZeroIff(s: Bytes, p: Bytes, i: nat)
    requires |p| > 0 && i <= |s|
    ensures CountFrom(s, p, i) == 0 <==> forall j | i <= j <= |s| - |p| :: !OccursAt(s, p, j)
    decreases |s| - i
  {
    if i + |p| > |s| {
    } else if OccursAt(s, p, i) {
    } else {
      CountFromZeroIff(s, p, i + 1);
    }
  }

  /** `s.count(p)` is zero exactly when `p in s` is false. */
  lemma CountZeroIffAbsent(s: Bytes, p: Bytes)
    requires |p| > 0
    ensures Count(s, p) == 0 <==> !Contains(s, p)
  {
    CountFromZeroIff(s, p, 0);
  }

  lemma MulOneMore(c: nat, n: nat)
    ensures (1 + c) * n == n + c * n
  {
  }

  lemma {:induction false} CountFromBound(s: Bytes, p: Bytes, i: nat)
    requires |p| > 0 && i <= |s|
    ensures CountFrom(s, p, i) * |p| <= |s| - i
    decreases |s| - i
  {
    if i + |p| > |s| {
    } else if OccursAt(s, p, i) {
      CountFromBound(s, p, i + |p|);
      var c := CountFrom(s, p, i + |p|);
      assert CountFrom(s, p, i) == 1 + c;
      MulOneMore(c, |p|);
    } else {
      CountFromBound(s, p, i + 1);
    }
  }

  /** The counted occurrences do not overlap, so together they fit in `s`. */
  lemma CountFits(s: Bytes, p: Bytes)
    requires |p| > 0
    ensures Count(s, p) * |p| <= |s|
  {
    CountFromBound(s, p, 0);
  }

  // ---------------------------------------------------------------------------
  // `splitlines()`: Python 2 byte strings break lines at "\n", "\r" and "\r\n".

  const LF: byte := 10
  const CR: byte := 13

  predicate IsLineBreak(b: byte) {
    b == LF || b == CR
  }

  predicate BreakFree(s: Bytes) {
    forall i | 0 <= i < |s| :: !IsLineBreak(s[i])
  }

  /** Index of the first line break in `s`, or `|s|` when there is none. */
  function FirstBreak(s: Bytes): (j: nat)
    ensures j <= |s|
    ensures BreakFree(s[..j])
    ensures j < |s| ==> IsLineBreak(s[j])
    decreases |s|
  {
    if |s| == 0 then 0
    else if IsLineBreak(s[0]) then 0
    else 1 + FirstBreak(s[1..])
  }

  /** Where the next line starts once the break at `s[j]` is skipped
      ("\r\n" is one break). */
  function AfterBreak(s: Bytes, j: nat): (k: nat)
    requires j < |s| && IsLineBreak(s[j])
    ensures j < k <= |s|
    ensures forall m | j <= m < k :: IsLineBreak(s[m])
  {
    if s[j] == CR && j + 1 < |s| && s[j + 1] == LF then j + 2 else j + 1
  }

  /** Python's `s.splitlines()`: the text between breaks, without the breaks;
      a final break does not open an empty last line. */
  function SplitLines(s: Bytes): (lines: seq<Bytes>)
    ensures forall k | 0 <= k < |lines| :: BreakFree(lines[k])
    decreases |s|
  {
    if |s| == 0 then []
    else
      var j := FirstBreak(s);
      if j == |s| then [s]
      else [s[..j]] + SplitLines(s[AfterBreak(s, j)..])
  }

  /** Splitting at line breaks loses no break-free text: every occurrence of
      a non-empty pattern without breaks lies inside a single line. */
  lemma {:induction false} BreakFreeOccurrenceInLine(s: Bytes, p: Bytes, i: nat)
    requires |p| > 0 && BreakFree(p) && OccursAt(s, p, i)
    ensures exists k | 0 <= k < |SplitLines(s)| :: Contains(SplitLines(s)[k], p)
    decreases |s|
  {
    var lines := SplitLines(s);
    var j := FirstBreak(s);
    if i + |p| <= j {
      assert s[..j][i..i + |p|] == s[i..i + |p|];
      assert OccursAt(s[..j], p, i);
      assert lines[0] == s[..j];
      assert Contains(lines[0], p);
    } else {
      assert j < |s|;
      var k := AfterBreak(s, j);
      // the occurrence cannot cover a break byte
      assert k <= i;
      var rest := s[k..];
      assert rest[i - k..i - k + |p|] == s[i..i + |p|];
      assert OccursAt(rest, p, i - k);
      BreakFreeOccurrenceInLine(rest, p, i - k);
      var k' :| 0 <= k' < |SplitLines(rest)| && Contains(SplitLines(rest)[k'], p);
      assert lines == [s[..j]] + SplitLines(rest);
      assert lines[k' + 1] == SplitLines(rest)[k'];
    }
  }

  /** `s[a..b]` is exactly one line break: a lone "\n" or "\r", or a
      "\r\n" pair, which is never split. */
  predicate BreakBetween(s: Bytes, a: int, b: int) {
    0 <= a < b <= |s| && b <= a + 2 && IsLineBreak(s[a])
    && (b == a + 2 <==> (s[a] == CR && a + 1 < |s| && s[a + 1] == LF))
  }

  /** Positions in a suffix that starts at `d`, as positions in the whole. */
  function Shift(xs: seq<nat>, d: nat): (r: seq<nat>)
    ensures |r| == |xs|
    ensures forall i | 0 <= i < |xs| :: r[i] == xs[i] + d
  {
    if |xs| == 0 then [] else [xs[0] + d] + Shift(xs[1..], d)
  }

  /** An occurrence in a suffix of `s` is one in `s`, further on. */
  lemma OccursInSuffix(s: Bytes, k: nat, p: Bytes, i: nat)
    requires k <= |s| && OccursAt(s[k..], p, i)
    ensures OccursAt(s, p, i + k)
  {
    assert s[i + k..i + k + |p|] == s[k..][i..i + |p|];
  }

  lemma BreakInSuffix(s: Bytes, k: nat, a: int, b: int)
    requires k <= |s| && BreakBetween(s[k..], a, b)
    ensures BreakBetween(s, a + k, b + k)
  {
  }

  /** `lines` sit in `s` at `starts`: the first starts at 0, consecutive
      lines are separated by exactly one line break, and the last one runs
      to the end or to one final break. */
  predicate LinesAt(s: Bytes, lines: seq<Bytes>, starts: seq<nat>) {
    && |starts| == |lines|
    && (|lines| == 0 <==> |s| == 0)
    && (|starts| > 0 ==> starts[0] == 0)
    && (forall k | 0 <= k < |starts| :: OccursAt(s, lines[k], starts[k]))
    && LinesSeparated(s, lines, starts)
  }

  /** Line `k` and line `k + 1` are separated by exactly one break. */
  predicate GapIsBreak(s: Bytes, lines: seq<Bytes>, starts: seq<nat>, k: nat)
    requires |starts| == |lines| && k + 1 < |starts|
  {
    BreakBetween(s, starts[k] + |lines[k]|, starts[k + 1])
  }

  predicate LinesSeparated(s: Bytes, lines: seq<Bytes>, starts: seq<nat>)
    requires |starts| == |lines|
  {
    && (forall k | 0 <= k < |starts| - 1 :: GapIsBreak(s, lines, starts, k))
    && (|starts| > 0 ==>
          var e := starts[|starts| - 1] + |lines[|starts| - 1]|;
          e == |s| || BreakBetween(s, e, |s|))
  }

  /** A gap between two lines of the rest is a gap of the whole text. */
  lemma GapInSuffix(s: Bytes, j: nat, k: nat, rlines: seq<Bytes>, rs: seq<nat>, i: nat)
    requires j <= k <= |s| && |rs| == |rlines| && 0 < i < |rs|
    requires GapIsBreak(s[k..], rlines, rs, i - 1)
    ensures GapIsBreak(s, [s[..j]] + rlines, [0] + Shift(rs, k), i)
  {
    BreakInSuffix(s, k, rs[i - 1] + |rlines[i - 1]|, rs[i]);
  }

  lemma LastLineInSuffix(s: Bytes, j: nat, k: nat, rlines: seq<Bytes>, rs: seq<nat>)
    requires k <= |s| && |rs| == |rlines| && |rs| > 0 && LinesSeparated(s[k..], rlines, rs)
    ensures var e := rs[|rs| - 1] + |rlines[|rs| - 1]| + k; e == |s| || BreakBetween(s, e, |s|)
  {
    var e := rs[|rs| - 1] + |rlines[|rs| - 1]|;
    if e < |s| - k {
      BreakInSuffix(s, k, e, |s| - k);
    }
  }

  lemma LinesSeparatedCons(s: Bytes, j: nat, k: nat, rlines: seq<Bytes>, rs: seq<nat>)
    requires j < k <= |s| && BreakBetween(s, j, k)
    requires |rs| == |rlines| && (|rlines| == 0 <==> k == |s|) && (|rs| > 0 ==> rs[0] == 0)
    requires LinesSeparated(s[k..], rlines, rs)
    ensures LinesSeparated(s, [s[..j]] + rlines, [0] + Shift(rs, k))
  {
    var lines := [s[..j]] + rlines;
    var starts := [0] + Shift(rs, k);
    forall i | 0 <= i < |starts| - 1
      ensures GapIsBreak(s, lines, starts, i)
    {
      if i == 0 {
        assert starts[0] + |lines[0]| == j && starts[1] == k;
      } else {
        GapInSuffix(s, j, k, rlines, rs, i);
      }
    }
    if |rs| > 0 {
      LastLineInSuffix(s, j, k, rlines, rs);
      assert starts[|rs|] + |lines[|rs|]| == rs[|rs| - 1] + |rlines[|rs| - 1]| + k;
    }
  }

  /** A break-free first line, one break, then lines laid out in the rest. */
  lemma LinesAtCons(s: Bytes, j: nat, k: nat, rlines: seq<Bytes>, rs: seq<nat>)
    requires j < k <= |s| && BreakBetween(s, j, k)
    requires LinesAt(s[k..], rlines, rs)
    ensures LinesAt(s, [s[..j]] + rlines, [0] + Shift(rs, k))
  {
    var lines := [s[..j]] + rlines;
    var starts := [0] + Shift(rs, k);
    assert OccursAt(s, lines[0], 0);
    forall i | 1 <= i < |starts|
      ensures OccursAt(s, lines[i], starts[i])
    {
      OccursInSuffix(s, k, rlines[i - 1], rs[i - 1]);
    }
    LinesSeparatedCons(s, j, k, rlines, rs);
  }

  /** Where the lines of `s.splitlines()` sit in `s`.  Together with
      `SplitLines`' own contract (no line holds a break) this pins the
      result down completely. */
  lemma {:induction false} SplitLinesLayout(s: Bytes) returns (starts: seq<nat>)
    ensures LinesAt(s, SplitLines(s), starts)
    decreases |s|
  {
    if |s| == 0 {
      starts := [];
    } else {
      var j := FirstBreak(s);
      if j == |s| {
        starts := [0];
        assert OccursAt(s, s, 0);
      } else {
        var k := AfterBreak(s, j);
        var rs := SplitLinesLayout(s[k..]);
        LinesAtCons(s, j, k, SplitLines(s[k..]), rs);
        starts := [0] + Shift(rs, k);
      }
    }
  }

  lemma ContainedInSomeLine(s: Bytes, p: Bytes)
    requires |p| > 0 && BreakFree(p) && Contains(s, p)
    ensures exists k | 0 <= k < |SplitLines(s)| :: Contains(SplitLines(s)[k], p)
  {
    var i :| 0 <= i <= |s| - |p| && OccursAt(s, p, i);
    BreakFreeOccurrenceInLine(s, p, i);
  }

  // ---------------------------------------------------------------------------
  // `split()` without arguments: maximal runs of non-whitespace bytes.

  /** The bytes Python 2 `str.isspace` accepts: space, \t, \n, \v, \f, \r. */
  predicate IsSpace(b: byte) {
    b == 32 || 9 <= b <= 13
  }

  /** Length of the run of non-whitespace bytes at the start of `s`. */
  function WordLength(s: Bytes): (j: nat)
    ensures j <= |s|
    decreases |s|
  {
    if |s| == 0 || IsSpace(s[0]) then 0 else 1 + WordLength(s[1..])
  }

  /** The run is maximal: its bytes are not whitespace, and the byte after
      it is. */
  lemma {:induction false} WordLengthMaximal(s: Bytes)
    ensures forall m | 0 <= m < WordLength(s) :: !IsSpace(s[m])
    ensures WordLength(s) < |s| ==> IsSpace(s[WordLength(s)])
    decreases |s|
  {
    if |s| > 0 && !IsSpace(s[0]) {
      WordLengthMaximal(s[1..]);
    }
  }

  /** Python's `s.split()`: the whitespace-separated tokens, in order. */
  function Tokens(s: Bytes): seq<Bytes>
    decreases |s|
  {
    if |s| == 0 then []
    else if IsSpace(s[0]) then Tokens(s[1..])
    else
      var j := WordLength(s);
      [s[..j]] + Tokens(s[j..])
  }

  /** Every token is a non-empty run of non-whitespace bytes. */
  lemma {:induction false} TokensAreWords(s: Bytes)
    ensures forall k | 0 <= k < |Tokens(s)| :: |Tokens(s)[k]| > 0
    ensures forall k, m | 0 <= k < |Tokens(s)| && 0 <= m < |Tokens(s)[k]| :: !IsSpace(Tokens(s)[k][m])
    decreases |s|
  {
    if |s| > 0 {
      if IsSpace(s[0]) {
        TokensAreWords(s[1..]);
      } else {
        var j := WordLength(s);
        WordLengthMaximal(s);
        TokensAreWords(s[j..]);
      }
    }
  }

  /** A word starts at `i`: a non-whitespace byte at the start of `s` or
      just after whitespace. */
  predicate WordStart(s: Bytes, i: int) {
    0 <= i < |s| && !IsSpace(s[i]) && (i == 0 || IsSpace(s[i - 1]))
  }

  /** `ts` sit in `s` at `starts`: each is a whole maximal run of
      non-whitespace bytes, they appear in the order of the text, and every
      run is one of them. */
  predicate TokensAt(s: Bytes, ts: seq<Bytes>, starts: seq<nat>) {
    && |starts| == |ts|
    && (forall k | 0 <= k < |starts| :: TokenAt(s, ts[k], starts[k]))
    && (forall a, b | 0 <= a < b < |starts| :: starts[a] < starts[b])
    && (forall i | 0 <= i < |s| && WordStart(s, i) :: i in starts)
  }

  /** `t` is the whole run of non-whitespace bytes that starts at `i`. */
  predicate TokenAt(s: Bytes, t: Bytes, i: nat) {
    && OccursAt(s, t, i) && WordStart(s, i)
    && (i + |t| == |s| || (i + |t| < |s| && IsSpace(s[i + |t|])))
  }

  lemma TokenInSuffix(s: Bytes, d: nat, t: Bytes, i: nat)
    requires d <= |s| && TokenAt(s[d..], t, i)
    requires i == 0 ==> d == 0 || IsSpace(s[d - 1])
    ensures TokenAt(s, t, i + d)
  {
    OccursInSuffix(s, d, t, i);
    assert i + d + |t| < |s| ==> s[i + d + |t|] == s[d..][i + |t|];
  }

  /** The tokens of a suffix that follows whitespace, or starts with it,
      keep their properties in the whole text; every word start in that
      suffix is among them. */
  lemma TokensInSuffix(s: Bytes, d: nat, ts: seq<Bytes>, rs: seq<nat>)
    requires 0 < d <= |s| && TokensAt(s[d..], ts, rs)
    requires IsSpace(s[d - 1]) || d == |s| || IsSpace(s[d])
    ensures forall k | 0 <= k < |rs| :: TokenAt(s, ts[k], Shift(rs, d)[k])
    ensures forall a, b | 0 <= a < b < |rs| :: Shift(rs, d)[a] < Shift(rs, d)[b]
    ensures forall i | d <= i < |s| && WordStart(s, i) :: i in Shift(rs, d)
  {
    var rest := s[d..];
    var starts := Shift(rs, d);
    forall k | 0 <= k < |rs|
      ensures TokenAt(s, ts[k], starts[k])
    {
      TokenInSuffix(s, d, ts[k], rs[k]);
    }
    forall i | d <= i < |s| && WordStart(s, i)
      ensures i in starts
    {
      assert WordStart(rest, i - d);
      var k :| 0 <= k < |rs| && rs[k] == i - d;
      assert starts[k] == i;
    }
  }

  /** Leading whitespace shifts every token start by one. */
  lemma TokensAtSpace(s: Bytes, ts: seq<Bytes>, rs: seq<nat>)
    requires |s| > 0 && IsSpace(s[0]) && TokensAt(s[1..], ts, rs)
    ensures TokensAt(s, ts, Shift(rs, 1))
  {
    TokensInSuffix(s, 1, ts, rs);
  }

  /** A token at 0 followed by tokens at later positions that hold every
      other word start. */
  lemma TokensAtCons(s: Bytes, t: Bytes, ts: seq<Bytes>, later: seq<nat>)
    requires TokenAt(s, t, 0) && |later| == |ts|
    requires forall k | 0 <= k < |later| :: TokenAt(s, ts[k], later[k]) && later[k] > 0
    requires forall a, b | 0 <= a < b < |later| :: later[a] < later[b]
    requires forall i | 0 < i < |s| && WordStart(s, i) :: i in later
    ensures TokensAt(s, [t] + ts, [0] + later)
  {
    var all := [t] + ts;
    var starts := [0] + later;
    forall k | 1 <= k < |starts|
      ensures TokenAt(s, all[k], starts[k])
    {
      assert all[k] == ts[k - 1] && starts[k] == later[k - 1];
    }
  }

  /** A leading word of length `j` is the first token; the later ones are
      shifted by `j`. */
  lemma TokensAtWord(s: Bytes, j: nat, ts: seq<Bytes>, rs: seq<nat>)
    requires 0 < j <= |s| && (forall m | 0 <= m < j :: !IsSpace(s[m])) && (j < |s| ==> IsSpace(s[j]))
    requires TokensAt(s[j..], ts, rs)
    ensures TokensAt(s, [s[..j]] + ts, [0] + Shift(rs, j))
  {
    TokensInSuffix(s, j, ts, rs);
    assert OccursAt(s, s[..j], 0);
    assert TokenAt(s, s[..j], 0);
    forall i | 0 < i < |s| && WordStart(s, i)
      ensures i in Shift(rs, j)
    {
      assert i >= j;
    }
    TokensAtCons(s, s[..j], ts, Shift(rs, j));
  }

  /** Where the tokens of `s.split()` sit in `s`: each is a whole maximal
      run of non-whitespace bytes, in the order of the text, and no run is
      missed. */
  lemma {:induction false} TokensLayout(s: Bytes) returns (starts: seq<nat>)
    ensures TokensAt(s, Tokens(s), starts)
    decreases |s|
  {
    if |s| == 0 {
      starts := [];
    } else if IsSpace(s[0]) {
      var rs := TokensLayout(s[1..]);
      TokensAtSpace(s, Tokens(s[1..]), rs);
      starts := Shift(rs, 1);
    } else {
      var j := WordLength(s);
      WordLengthMaximal(s);
      var rs := TokensLayout(s[j..]);
      TokensAtWord(s, j, Tokens(s[j..]), rs);
      starts := [0] + Shift(rs, j);
    }
  }

  /** Python's `ts[-3:]`: the last three tokens, or all of them when fewer. */
  function LastThree(ts: seq<Bytes>): seq<Bytes> {
    if |ts| < 3 then ts else ts[|ts| - 3..]
  }

  /** The slice keeps the last three tokens, or all of them when fewer. */
  lemma LastThreeKeepsTail(ts: seq<Bytes>)
    ensures |LastThree(ts)| == if |ts| < 3 then |ts| else 3
    ensures forall k | 0 <= k < |LastThree(ts)| :: LastThree(ts)[k] == ts[|ts| - |LastThree(ts)| + k]
  {
  }
}
