/**
 * The irrigation example client (ga/examples/irrigation.py): a crop map given as rows
 * of text, a sprinkler of radius r placed at the coordinates two binary genes decode to,
 * and a fitness that counts the crop cells the sprinkler reaches, with a penalty for
 * placements outside the map and a cache of fitnesses by DNA.
 */
module Irrigation {
  import opened Wrappers
  import opened Genes
  import opened Chromosomes
  import opened Translators

  // ---------------------------------------------------------------------------
  // Map parsing

  /** The characters Python's `str.strip()` removes: the Unicode whitespace characters. */
  predicate IsSpace(c: char) {
    var n := c as int;
    n == 32 || 9 <= n <= 13 || 28 <= n <= 31 || n == 0x85 || n == 0xA0 || n == 0x1680
    || 0x2000 <= n <= 0x200A || n == 0x2028 || n == 0x2029 || n == 0x202F || n == 0x205F || n == 0x3000
  }

  /** The number of whitespace characters `str.strip` removes from the front. */
  function Lead(s: string): (i: nat)
    ensures i <= |s| && (forall k :: 0 <= k < i ==> IsSpace(s[k])) && (i < |s| ==> !IsSpace(s[i]))
  {
    if |s| == 0 || !IsSpace(s[0]) then 0 else 1 + Lead(s[1..])
  }

  /** Where the whitespace that `str.strip` removes from the back begins. */
  function Trail(s: string): (j: nat)
    ensures j <= |s| && (forall k :: j <= k < |s| ==> IsSpace(s[k])) && (j > 0 ==> !IsSpace(s[j - 1]))
  {
    if |s| == 0 || !IsSpace(s[|s| - 1]) then |s| else Trail(s[..|s| - 1])
  }

  /** Text that neither starts nor ends with whitespace. */
  predicate Trimmed(s: string) {
    |s| == 0 || (!IsSpace(s[0]) && !IsSpace(s[|s| - 1]))
  }

  /** `str.strip()`: the text between the leading and the trailing whitespace. */
  function Strip(s: string): (t: string)
    ensures Trimmed(t)
  {
    var i := Lead(s);
    if i == |s| then "" else s[i..Trail(s)]
  }

  /** What `str.strip()` leaves is a piece of the text, and everything it removes is whitespace. */
  lemma StripIsTrim(s: string)
    ensures Lead(s) + |Strip(s)| <= |s| && Strip(s) == s[Lead(s)..Lead(s) + |Strip(s)|]
    ensures forall k :: 0 <= k < |s| && !(Lead(s) <= k < Lead(s) + |Strip(s)|) ==> IsSpace(s[k])
  {
  }

  /** Stripping text that has no whitespace at either end gives it back. */
  lemma StripTrimmed(s: string)
    requires Trimmed(s)
    ensures Strip(s) == s
  {
  }

  /** A trimmed row followed by its line break strips back to the row. */
  lemma StripLine(row: string)
    requires Trimmed(row)
    ensures Strip(row + "\n") == row
  {
    var s := row + "\n";
    assert IsSpace(s[|s| - 1]);
    if |row| > 0 {
      assert s[0] == row[0];
      assert Trail(s) == Trail(row);
    }
  }

  /**
   * Reading `s` line by line, as iterating over `StringIO(s)` does: the finished lines,
   * each with its '\n', and the text after the last '\n'.
   */
  function Split(s: string): (r: (seq<string>, string))
    decreases |s|
  {
    if |s| == 0 then ([], "")
    else
      var prev := Split(s[..|s| - 1]);
      if s[|s| - 1] == '\n' then (prev.0 + [prev.1 + "\n"], "") else (prev.0, prev.1 + [s[|s| - 1]])
  }

  /** The lines `StringIO(s)` yields: the finished lines, then the unfinished last one if it is not empty. */
  function Lines(s: string): seq<string> {
    var sp := Split(s);
    if sp.1 == "" then sp.0 else sp.0 + [sp.1]
  }

  /** The concatenation of a list of strings. */
  function Concat(ls: seq<string>): string
    decreases |ls|
  {
    if |ls| == 0 then "" else Concat(ls[..|ls| - 1]) + ls[|ls| - 1]
  }

  /** The number of line breaks in `s`. */
  function Breaks(s: string): nat
    decreases |s|
  {
    if |s| == 0 then 0 else Breaks(s[..|s| - 1]) + (if s[|s| - 1] == '\n' then 1 else 0)
  }

  /** A line as `StringIO` yields it: not empty, and its only '\n', if any, is its last character. */
  predicate IsLine(l: string, last: bool) {
    && |l| > 0
    && (forall k :: 0 <= k < |l| - 1 ==> l[k] != '\n')
    && (!last ==> l[|l| - 1] == '\n')
  }

  lemma {:induction false} SplitFacts(s: string)
    ensures Concat(Split(s).0) + Split(s).1 == s
    ensures |Split(s).0| == Breaks(s)
    ensures forall k :: 0 <= k < |Split(s).0| ==> IsLine(Split(s).0[k], false)
    ensures forall k :: 0 <= k < |Split(s).1| ==> Split(s).1[k] != '\n'
    decreases |s|
  {
    if |s| > 0 {
      var front := s[..|s| - 1];
      var c := s[|s| - 1];
      SplitFacts(front);
      var prev := Split(front);
      if c == '\n' {
        var line := prev.1 + "\n";
        assert (prev.0 + [line])[..|prev.0|] == prev.0;
        assert Concat(prev.0 + [line]) == Concat(prev.0) + line;
        assert s == front + [c];
        forall k | 0 <= k < |line| - 1 ensures line[k] != '\n' {
          assert line[k] == prev.1[k];
        }
      } else {
        assert s == front + [c];
        assert Concat(prev.0) + (prev.1 + [c]) == (Concat(prev.0) + prev.1) + [c];
      }
    }
  }

  /**
   * The lines of `s` put back together are `s`; each is a line in the sense of `IsLine`;
   * and there is one per line break, plus one when `s` does not end with a line break.
   */
  lemma LinesOfText(s: string)
    ensures Concat(Lines(s)) == s
    ensures forall k :: 0 <= k < |Lines(s)| ==> IsLine(Lines(s)[k], k == |Lines(s)| - 1)
    ensures |Lines(s)| == Breaks(s) + (if |s| > 0 && s[|s| - 1] != '\n' then 1 else 0)
  {
    SplitFacts(s);
    var sp := Split(s);
    if sp.1 != "" {
      var ls := sp.0 + [sp.1];
      assert ls[..|sp.0|] == sp.0;
      assert s[|s| - 1] == sp.1[|sp.1| - 1];
    } else if |s| > 0 {
      assert Concat([]) == "";
      assert |sp.0| > 0;
      var n := |sp.0| - 1;
      assert sp.0 == sp.0[..n] + [sp.0[n]];
      assert s == Concat(sp.0[..n]) + sp.0[n];
      assert s[|s| - 1] == sp.0[n][|sp.0[n]| - 1];
    }
  }

  /** Each line of a list stripped, in order. */
  function StripAll(ls: seq<string>): (rows: seq<string>)
    ensures |rows| == |ls| && forall k :: 0 <= k < |ls| ==> rows[k] == Strip(ls[k])
  {
    seq(|ls|, k requires 0 <= k < |ls| => Strip(ls[k]))
  }

  /** `mapstr_to_list`: one whitespace-stripped row per line of the map string. */
  method MapstrToList(mapstr: string) returns (maplist: seq<string>)
    ensures maplist == StripAll(Lines(mapstr))
  {
    var lines := Lines(mapstr);
    maplist := [];
    for i := 0 to |lines|
      invariant |maplist| == i && forall k :: 0 <= k < i ==> maplist[k] == Strip(lines[k])
    {
      maplist := maplist + [Strip(lines[i])];
    }
  }

  /** Rows joined with line breaks: `'\n'.join(rows)`. */
  function JoinRows(rows: seq<string>): string
    decreases |rows|
  {
    if |rows| == 0 then ""
    else if |rows| == 1 then rows[0]
    else JoinRows(rows[..|rows| - 1]) + "\n" + rows[|rows| - 1]
  }

  /** Each row followed by a line break. */
  function Terminated(rows: seq<string>): (ls: seq<string>)
    ensures |ls| == |rows| && forall k :: 0 <= k < |rows| ==> ls[k] == rows[k] + "\n"
  {
    seq(|rows|, k requires 0 <= k < |rows| => rows[k] + "\n")
  }

  /** Appending text without line breaks to `s` only extends the unfinished last line. */
  lemma {:induction false} SplitAppend(s: string, t: string)
    requires forall k :: 0 <= k < |t| ==> t[k] != '\n'
    ensures Split(s + t) == (Split(s).0, Split(s).1 + t)
    decreases |t|
  {
    if |t| > 0 {
      var u := t[..|t| - 1];
      var c := t[|t| - 1];
      assert c != '\n';
      SplitAppend(s, u);
      assert (s + t)[..|s + t| - 1] == s + u;
      assert (s + t)[|s + t| - 1] == c;
      assert Split(s).1 + u + [c] == Split(s).1 + t;
    } else {
      assert s + t == s && Split(s).1 + t == Split(s).1;
    }
  }

  /** The text of a row followed by a line break, after `s`, finishes the line `Split(s).1 + row + "\n"`. */
  lemma SplitRow(s: string, row: string)
    requires forall k :: 0 <= k < |row| ==> row[k] != '\n'
    ensures Split(s + row + "\n") == (Split(s).0 + [Split(s).1 + row + "\n"], "")
  {
    SplitAppend(s, row);
    assert (s + row + "\n")[..|s + row + "\n"| - 1] == s + row;
  }

  /** Rows joined with line breaks read back, line by line, as the rows with their breaks and the last row unfinished. */
  lemma {:induction false} SplitJoined(rows: seq<string>)
    requires |rows| > 0
    requires forall k :: 0 <= k < |rows| ==> forall m :: 0 <= m < |rows[k]| ==> rows[k][m] != '\n'
    ensures Split(JoinRows(rows)) == (Terminated(rows[..|rows| - 1]), rows[|rows| - 1])
    decreases |rows|
  {
    var n := |rows| - 1;
    if n == 0 {
      SplitAppend("", rows[0]);
      assert "" + rows[0] == rows[0];
    } else {
      var front := rows[..n];
      SplitJoined(front);
      assert front[..n - 1] == rows[..n - 1];
      var j := JoinRows(front);
      assert JoinRows(rows) == j + "\n" + rows[n];
      assert (j + "\n")[..|j|] == j;
      assert Split(j + "\n") == (Split(j).0 + [Split(j).1 + "\n"], "");
      assert Split(j).0 + [Split(j).1 + "\n"] == Terminated(rows[..n]);
      SplitAppend(j + "\n", rows[n]);
      assert "" + rows[n] == rows[n];
    }
  }

  /**
   * Round trip: rows with no whitespace at either end and no line break, the last of
   * them not empty, joined with line breaks, parse back into the same rows.
   */
  lemma MapRoundTrip(rows: seq<string>)
    requires forall k :: 0 <= k < |rows| ==> Trimmed(rows[k]) && forall m :: 0 <= m < |rows[k]| ==> rows[k][m] != '\n'
    requires |rows| > 0 ==> rows[|rows| - 1] != ""
    ensures StripAll(Lines(JoinRows(rows))) == rows
  {
    if |rows| > 0 {
      var n := |rows| - 1;
      SplitJoined(rows);
      var ls := Lines(JoinRows(rows));
      assert ls == Terminated(rows[..n]) + [rows[n]];
      forall k | 0 <= k < |rows| ensures Strip(ls[k]) == rows[k] {
        if k < n {
          StripLine(rows[k]);
        } else {
          StripTrimmed(rows[k]);
        }
      }
    }
  }

  // ---------------------------------------------------------------------------
  // Sprinkler reach

  /**
   * `sprinkler_reaches_cell`: the cell (column x, row y) lies within distance r of the
   * sprinkler at (sx, sy). The square root is compared by squaring; `ReachesIsDistance`
   * shows this is the same test.
   */
  predicate Reaches(x: int, y: int, sx: int, sy: int, r: int) {
    r >= 0 && (sx - x) * (sx - x) + (sy - y) * (sy - y) <= r * r
  }

  /** Reach does not depend on which of the two points is the sprinkler. */
  lemma ReachesSymmetric(x: int, y: int, sx: int, sy: int, r: int)
    ensures Reaches(x, y, sx, sy, r) <==> Reaches(sx, sy, x, y, r)
  {
    assert (sx - x) * (sx - x) == (x - sx) * (x - sx);
    assert (sy - y) * (sy - y) == (y - sy) * (y - sy);
  }

  lemma RealSquareMonotone(a: real, b: real)
    requires 0.0 <= a <= b
    ensures a * a <= b * b
  {
    assert a * a <= a * b <= b * b;
  }

  lemma RealSquareStrict(a: real, b: real)
    requires 0.0 <= a < b
    ensures a * a < b * b
  {
    assert a * (b - a) >= 0.0 && b * (b - a) > 0.0;
    assert a * b - a * a == a * (b - a) && b * b - a * b == b * (b - a);
  }

  /**
   * For t the square root of dx² + dy² (what `math.sqrt` returns, taken exactly), the
   * source's test `t <= r` holds exactly when `Reaches` does.
   */
  lemma ReachesIsDistance(x: int, y: int, sx: int, sy: int, r: int, t: real)
    requires t >= 0.0 && t * t == ((sx - x) * (sx - x) + (sy - y) * (sy - y)) as real
    ensures Reaches(x, y, sx, sy, r) <==> t <= r as real
  {
    var rr := r as real;
    if r >= 0 {
      assert (r * r) as real == rr * rr;
      if t <= rr {
        RealSquareMonotone(t, rr);
      } else {
        RealSquareStrict(rr, t);
      }
    }
  }

  lemma SquareBound(a: int, r: int)
    requires r >= 0
    ensures a * a <= r * r ==> -r <= a <= r
  {
    if a > r {
      assert a * a - r * r == (a - r) * (a + r);
      assert (a - r) * (a + r) > 0;
    } else if a < -r {
      assert a * a - r * r == (-a - r) * (-a + r);
      assert (-a - r) * (-a + r) > 0;
    }
  }

  /** A reached cell lies in the square of side 2r + 1 around the sprinkler, the bounding box `eval_fitness` scans. */
  lemma ReachInBox(x: int, y: int, sx: int, sy: int, r: int)
    requires Reaches(x, y, sx, sy, r)
    ensures sx - r <= x <= sx + r && sy - r <= y <= sy + r
  {
    assert (sx - x) * (sx - x) >= 0 && (sy - y) * (sy - y) >= 0;
    SquareBound(sx - x, r);
    SquareBound(sy - y, r);
  }

  /** The sprinkler's own cell is reached whenever the radius is not negative. */
  lemma ReachesOwnCell(sx: int, sy: int, r: int)
    requires r >= 0
    ensures Reaches(sx, sy, sx, sy, r)
  {
  }

  // ---------------------------------------------------------------------------
  // Counting reached crops

  function Max(a: int, b: int): int { if a >= b then a else b }
  function Min(a: int, b: int): int { if a <= b then a else b }

  /** Where Python puts slice bound `i` of a list of n items: negative counts from the end, then clamped to [0, n]. */
  function SliceIndex(i: int, n: nat): (k: nat)
    ensures k <= n
    ensures 0 <= i <= n ==> k == i
  {
    if i < 0 then (if n + i < 0 then 0 else n + i) else if i > n then n else i
  }

  /** The end of the positions `xs[a:b]` covers: they are [SliceIndex(a, n), SliceEnd(a, b, n)). */
  function SliceEnd(a: int, b: int, n: nat): (k: nat)
    ensures SliceIndex(a, n) <= k <= n
  {
    Max(SliceIndex(a, n), SliceIndex(b, n))
  }

  /** The crop cells of `row` (row y) in columns [x0, x1) that the sprinkler reaches. */
  function RowCount(row: string, y: int, x0: nat, x1: nat, sx: int, sy: int, r: int): (n: nat)
    requires x0 <= x1 <= |row|
    ensures n <= x1 - x0
    decreases x1 - x0
  {
    if x1 == x0 then 0
    else RowCount(row, y, x0, x1 - 1, sx, sy, r) + (if row[x1 - 1] == 'x' && Reaches(x1 - 1, y, sx, sy, r) then 1 else 0)
  }

  /** The cells the loops of `eval_fitness` count: rows [y0, y1) of the map, each sliced `row[c0:c1]`. */
  function BoxCount(maplist: seq<string>, y0: nat, y1: nat, c0: int, c1: int, sx: int, sy: int, r: int): nat
    requires y0 <= y1 <= |maplist|
    decreases y1 - y0
  {
    if y1 == y0 then 0
    else
      var row := maplist[y1 - 1];
      BoxCount(maplist, y0, y1 - 1, c0, c1, sx, sy, r)
      + RowCount(row, y1 - 1, SliceIndex(c0, |row|), SliceEnd(c0, c1, |row|), sx, sy, r)
  }

  /** The reached crop cells of whole rows [y0, y1) of the map. */
  function RowsCount(maplist: seq<string>, y0: nat, y1: nat, sx: int, sy: int, r: int): nat
    requires y0 <= y1 <= |maplist|
    decreases y1 - y0
  {
    if y1 == y0 then 0
    else RowsCount(maplist, y0, y1 - 1, sx, sy, r) + RowCount(maplist[y1 - 1], y1 - 1, 0, |maplist[y1 - 1]|, sx, sy, r)
  }

  /** The crop cells of the whole map that the sprinkler reaches. */
  function CropsReached(maplist: seq<string>, sx: int, sy: int, r: int): nat {
    RowsCount(maplist, 0, |maplist|, sx, sy, r)
  }

  lemma {:induction false} RowCountSplit(row: string, y: int, a: nat, b: nat, c: nat, sx: int, sy: int, r: int)
    requires a <= b <= c <= |row|
    ensures RowCount(row, y, a, c, sx, sy, r) == RowCount(row, y, a, b, sx, sy, r) + RowCount(row, y, b, c, sx, sy, r)
    decreases c - b
  {
    if c > b {
      RowCountSplit(row, y, a, b, c - 1, sx, sy, r);
    }
  }

  lemma {:induction false} RowCountNone(row: string, y: int, a: nat, b: nat, sx: int, sy: int, r: int)
    requires a <= b <= |row|
    requires forall x :: a <= x < b ==> !Reaches(x, y, sx, sy, r)
    ensures RowCount(row, y, a, b, sx, sy, r) == 0
    decreases b - a
  {
    if b > a {
      RowCountNone(row, y, a, b - 1, sx, sy, r);
    }
  }

  /** Cutting a row to the columns [sx - r, sx + r] loses no reached cell. */
  lemma RowInBox(row: string, y: int, x0: nat, x1: nat, sx: int, sy: int, r: int)
    requires x0 <= x1 <= |row| && x0 <= Max(0, sx - r) && (x1 == |row| || x1 >= sx + r + 1)
    ensures RowCount(row, y, x0, x1, sx, sy, r) == RowCount(row, y, 0, |row|, sx, sy, r)
  {
    RowCountSplit(row, y, 0, x0, |row|, sx, sy, r);
    RowCountSplit(row, y, x0, x1, |row|, sx, sy, r);
    forall x | 0 <= x < x0 ensures !Reaches(x, y, sx, sy, r) {
      if Reaches(x, y, sx, sy, r) { ReachInBox(x, y, sx, sy, r); }
    }
    forall x | x1 <= x < |row| ensures !Reaches(x, y, sx, sy, r) {
      if Reaches(x, y, sx, sy, r) { ReachInBox(x, y, sx, sy, r); }
    }
    RowCountNone(row, y, 0, x0, sx, sy, r);
    RowCountNone(row, y, x1, |row|, sx, sy, r);
  }

  lemma {:induction false} RowsCountSplit(maplist: seq<string>, a: nat, b: nat, c: nat, sx: int, sy: int, r: int)
    requires a <= b <= c <= |maplist|
    ensures RowsCount(maplist, a, c, sx, sy, r) == RowsCount(maplist, a, b, sx, sy, r) + RowsCount(maplist, b, c, sx, sy, r)
    decreases c - b
  {
    if c > b {
      RowsCountSplit(maplist, a, b, c - 1, sx, sy, r);
    }
  }

  lemma {:induction false} RowsCountNone(maplist: seq<string>, a: nat, b: nat, sx: int, sy: int, r: int)
    requires a <= b <= |maplist|
    requires a == b || b <= sy - r || a > sy + r
    ensures RowsCount(maplist, a, b, sx, sy, r) == 0
    decreases b - a
  {
    if b > a {
      RowsCountNone(maplist, a, b - 1, sx, sy, r);
      var y := b - 1;
      forall x | 0 <= x < |maplist[y]| ensures !Reaches(x, y, sx, sy, r) {
        if Reaches(x, y, sx, sy, r) { ReachInBox(x, y, sx, sy, r); }
      }
      RowCountNone(maplist[y], y, 0, |maplist[y]|, sx, sy, r);
    }
  }

  /** A map of h rows of w cells each. */
  predicate Shaped(maplist: seq<string>, h: int, w: int) {
    |maplist| == h && forall y :: 0 <= y < |maplist| ==> |maplist[y]| == w
  }

  lemma {:induction false} BoxAsRows(maplist: seq<string>, w: int, y0: nat, y1: nat, sx: nat, sy: int, r: int)
    requires y0 <= y1 <= |maplist| && Shaped(maplist, |maplist|, w) && sx < w && r >= 0
    ensures BoxCount(maplist, y0, y1, Max(0, sx - r), Min(sx + r + 1, w), sx, sy, r) == RowsCount(maplist, y0, y1, sx, sy, r)
    decreases y1 - y0
  {
    if y1 > y0 {
      BoxAsRows(maplist, w, y0, y1 - 1, sx, sy, r);
      var row := maplist[y1 - 1];
      var c0 := Max(0, sx - r);
      var c1 := Min(sx + r + 1, w);
      assert SliceIndex(c0, |row|) == c0 && SliceIndex(c1, |row|) == c1;
      RowInBox(row, y1 - 1, c0, c1, sx, sy, r);
    }
  }

  /**
   * For a placement inside an h-by-w map and a radius that is not negative, the count over
   * the bounding box `eval_fitness` scans is the count over the whole map.
   */
  lemma BoxIsWholeMap(maplist: seq<string>, h: int, w: int, r: int, sx: nat, sy: nat)
    requires Shaped(maplist, h, w) && sx < w && sy < h && r >= 0
    ensures BoxCount(maplist, SliceIndex(Max(0, sy - r), h), SliceEnd(Max(0, sy - r), Min(sy + r + 1, h), h),
                     Max(0, sx - r), Min(sx + r + 1, w), sx, sy, r)
         == CropsReached(maplist, sx, sy, r)
  {
    var y0 := Max(0, sy - r);
    var y1 := Min(sy + r + 1, h);
    assert SliceIndex(y0, h) == y0 && SliceIndex(y1, h) == y1;
    BoxAsRows(maplist, w, y0, y1, sx, sy, r);
    RowsCountSplit(maplist, 0, y0, h, sx, sy, r);
    RowsCountSplit(maplist, y0, y1, h, sx, sy, r);
    RowsCountNone(maplist, 0, y0, sx, sy, r);
    RowsCountNone(maplist, y1, h, sx, sy, r);
  }

  /** A crop cell is counted once the sprinkler stands on it, so the whole-map count is at least one there. */
  lemma OwnCropCounted(maplist: seq<string>, sx: nat, sy: nat, r: int)
    requires sy < |maplist| && sx < |maplist[sy]| && maplist[sy][sx] == 'x' && r >= 0
    ensures CropsReached(maplist, sx, sy, r) >= 1
  {
    var row := maplist[sy];
    RowsCountSplit(maplist, 0, sy, |maplist|, sx, sy, r);
    RowsCountSplit(maplist, sy, sy + 1, |maplist|, sx, sy, r);
    RowCountSplit(row, sy, 0, sx, |row|, sx, sy, r);
    RowCountSplit(row, sy, sx, sx + 1, |row|, sx, sy, r);
    ReachesOwnCell(sx, sy, r);
  }

  // ---------------------------------------------------------------------------
  // Fitness

  /**
   * `eval_fitness` once the DNA is decoded into column sx and row sy: minus w·h for each
   * coordinate beyond the map, otherwise the reached crop cells of the bounding box less
   * one when the sprinkler stands on a crop. None where the map lookup raises IndexError.
   */
  function PlacementFitness(maplist: seq<string>, h: int, w: int, r: int, sx: nat, sy: nat): Option<int> {
    var penalty := Penalty(h, w, sx, sy);
    if penalty > 0 then Some(-penalty)
    else
      var crops := BoxCrops(maplist, h, w, r, sx, sy);
      if sy < |maplist| && sx < |maplist[sy]| then Some(crops - (if maplist[sy][sx] == 'x' then 1 else 0))
      else None
  }

  /** w·h for each coordinate at or beyond the map's width or height. */
  function Penalty(h: int, w: int, sx: nat, sy: nat): int {
    (if sx >= w then w * h else 0) + (if sy >= h then w * h else 0)
  }

  /** The reached crop cells of the bounding box `eval_fitness` scans around (sx, sy). */
  function BoxCrops(maplist: seq<string>, h: int, w: int, r: int, sx: nat, sy: nat): nat {
    var rowStart := Max(0, sy - r);
    BoxCount(maplist, SliceIndex(rowStart, |maplist|), SliceEnd(rowStart, Min(sy + r + 1, h), |maplist|),
             Max(0, sx - r), Min(sx + r + 1, w), sx, sy, r)
  }

  /**
   * A placement beyond the map scores minus w·h for each coordinate beyond it: -w·h or
   * -2·w·h.
   */
  lemma OutOfBoundsPenalty(maplist: seq<string>, h: int, w: int, r: int, sx: nat, sy: nat)
    requires w > 0 && h > 0 && (sx >= w || sy >= h)
    ensures PlacementFitness(maplist, h, w, r, sx, sy).Some?
    ensures PlacementFitness(maplist, h, w, r, sx, sy).value == -(w * h) * ((if sx >= w then 1 else 0) + (if sy >= h then 1 else 0))
    ensures PlacementFitness(maplist, h, w, r, sx, sy).value < 0
  {
    assert w * h > 0;
  }

  /**
   * A placement inside an h-by-w map, with a radius that is not negative, scores the crop
   * cells of the whole map that the sprinkler reaches, less the one it stands on; that is
   * never negative.
   */
  lemma InBoundsFitness(maplist: seq<string>, h: int, w: int, r: int, sx: nat, sy: nat)
    requires Shaped(maplist, h, w) && sx < w && sy < h && r >= 0
    ensures PlacementFitness(maplist, h, w, r, sx, sy)
         == Some(CropsReached(maplist, sx, sy, r) - (if maplist[sy][sx] == 'x' then 1 else 0))
    ensures PlacementFitness(maplist, h, w, r, sx, sy).value >= 0
  {
    BoxIsWholeMap(maplist, h, w, r, sx, sy);
    if maplist[sy][sx] == 'x' {
      OwnCropCounted(maplist, sx, sy, r);
    }
  }

  /** The penalty does its job: every placement beyond the map scores below every placement on it. */
  lemma OutOfBoundsLoses(maplist: seq<string>, h: int, w: int, r: int, sx: nat, sy: nat, ox: nat, oy: nat)
    requires Shaped(maplist, h, w) && sx < w && sy < h && r >= 0 && (ox >= w || oy >= h)
    ensures PlacementFitness(maplist, h, w, r, ox, oy).value < PlacementFitness(maplist, h, w, r, sx, sy).value
  {
    InBoundsFitness(maplist, h, w, r, sx, sy);
    OutOfBoundsPenalty(maplist, h, w, r, ox, oy);
  }

  /**
   * `translate_chromosome` with the binary integer translator, unpacked into (sx, sy): None
   * where Python raises, because a gene is not a binary numeral or there are not two genes.
   */
  function Placement(c: Chrom): (p: Option<(nat, nat)>)
    ensures p.Some? <==> |c.genes| == 2 && BinaryIntValue(c.genes[0].dna).Some? && BinaryIntValue(c.genes[1].dna).Some?
    ensures p.Some? ==> p.value == (BinaryIntValue(c.genes[0].dna).value, BinaryIntValue(c.genes[1].dna).value)
  {
    match TranslateChromosome(BinaryInt, c)
    case None => None
    case Some(ps) =>
      if |ps| != 2 then None
      else
        assert Some(ps[0]) == TranslateGene(BinaryInt, c.genes[0]) && Some(ps[1]) == TranslateGene(BinaryInt, c.genes[1]);
        Some((ps[0].i, ps[1].i))
  }

  /** The fitness of a chromosome, computed afresh. */
  function ChromFitness(maplist: seq<string>, h: int, w: int, r: int, c: Chrom): Option<int> {
    match Placement(c)
    case None => None
    case Some(p) => PlacementFitness(maplist, h, w, r, p.0, p.1)
  }

  /** The fitness of a DNA string whose first `split` characters are the column gene. */
  function DnaFitness(maplist: seq<string>, h: int, w: int, r: int, split: nat, dna: string): Option<int> {
    if split > |dna| then None
    else
      match (BinaryIntValue(dna[..split]), BinaryIntValue(dna[split..]))
      case (Some(sx), Some(sy)) => PlacementFitness(maplist, h, w, r, sx, sy)
      case _ => None
  }

  /** The fitness of a two-gene chromosome is the fitness of its DNA: chromosomes with equal DNA and gene lengths score alike. */
  lemma FitnessOfDna(maplist: seq<string>, h: int, w: int, r: int, split: nat, c: Chrom)
    requires |c.genes| == 2 && |c.genes[0].dna| == split
    ensures ChromFitness(maplist, h, w, r, c) == DnaFitness(maplist, h, w, r, split, Dna(c))
  {
    var gs := c.genes;
    assert gs[..1][..0] == [] && gs[..2] == gs && gs[..2][..1] == gs[..1];
    assert Joined(gs[..1]) == gs[0].dna;
    assert Dna(c) == gs[0].dna + gs[1].dna;
    assert Dna(c)[..split] == gs[0].dna && Dna(c)[split..] == gs[1].dna;
  }

  // ---------------------------------------------------------------------------
  // The map with the sprinkler drawn in

  /** The characters `map_sprinkler` draws: watered crop, watered field, dry field, dry crop. */
  datatype Marks = Marks(wateredCrop: char, wateredField: char, dryField: char, dryCrop: char)

  /** The default markers of `map_sprinkler`. */
  const DefaultMarks := Marks('^', '_', ' ', 'x')

  /** The marker of one cell: crop or field, reached or not. */
  function PaintCell(cell: char, reached: bool, m: Marks): char {
    if reached then (if cell == 'x' then m.wateredCrop else m.wateredField)
    else (if cell == 'x' then m.dryCrop else m.dryField)
  }

  /** Row y of the map with every cell replaced by its marker. */
  function PaintedRow(row: string, y: int, sx: int, sy: int, r: int, m: Marks): (p: string)
    ensures |p| == |row| && forall x :: 0 <= x < |row| ==> p[x] == PaintCell(row[x], Reaches(x, y, sx, sy, r), m)
  {
    seq(|row|, x requires 0 <= x < |row| => PaintCell(row[x], Reaches(x, y, sx, sy, r), m))
  }

  /** Where Python's `xs[i]` looks in a list of n items: negative counts from the end; None where it raises IndexError. */
  function PyIndex(i: int, n: nat): (k: Option<nat>)
    ensures k.Some? <==> -(n as int) <= i < n
    ensures k.Some? ==> k.value < n && (i >= 0 ==> k.value == i)
  {
    if 0 <= i < n then Some(i) else if -(n as int) <= i < 0 then Some(n + i) else None
  }

  /** The rows `map_sprinkler` draws: every cell marked, then 'O' on the sprinkler; None where that placement raises IndexError. */
  function SprinklerGrid(maplist: seq<string>, sx: int, sy: int, r: int, m: Marks): (g: Option<seq<string>>)
    ensures g.Some? ==> |g.value| == |maplist| && forall y :: 0 <= y < |maplist| ==> |g.value[y]| == |maplist[y]|
  {
    var painted := seq(|maplist|, y requires 0 <= y < |maplist| => PaintedRow(maplist[y], y, sx, sy, r, m));
    match PyIndex(sy, |painted|)
    case None => None
    case Some(y) =>
      match PyIndex(sx, |painted[y]|)
      case None => None
      case Some(x) => Some(painted[y := painted[y][x := 'O']])
  }

  /** `map_sprinkler`'s result: the drawn rows joined with line breaks. */
  function SprinklerMap(maplist: seq<string>, sx: int, sy: int, r: int, m: Marks): Option<string> {
    match SprinklerGrid(maplist, sx, sy, r, m)
    case None => None
    case Some(g) => Some(JoinRows(g))
  }

  /** The number of times `c` occurs in `s`. */
  function CountChar(s: string, c: char): nat
    decreases |s|
  {
    if |s| == 0 then 0 else CountChar(s[..|s| - 1], c) + (if s[|s| - 1] == c then 1 else 0)
  }

  /** The number of times `c` occurs in the rows of a grid. */
  function GridCount(g: seq<string>, c: char): nat
    decreases |g|
  {
    if |g| == 0 then 0 else GridCount(g[..|g| - 1], c) + CountChar(g[|g| - 1], c)
  }

  /** A watered-crop marker that no other marker, nor the sprinkler 'O', shares. */
  predicate DistinctWatered(m: Marks) {
    m.wateredCrop != m.wateredField && m.wateredCrop != m.dryField && m.wateredCrop != m.dryCrop && m.wateredCrop != 'O'
  }

  lemma {:induction false} PaintedRowCount(row: string, y: int, sx: int, sy: int, r: int, m: Marks, k: nat)
    requires DistinctWatered(m) && k <= |row|
    ensures CountChar(PaintedRow(row, y, sx, sy, r, m)[..k], m.wateredCrop) == RowCount(row, y, 0, k, sx, sy, r)
    decreases k
  {
    if k > 0 {
      var p := PaintedRow(row, y, sx, sy, r, m);
      PaintedRowCount(row, y, sx, sy, r, m, k - 1);
      assert p[..k][..k - 1] == p[..k - 1];
    }
  }

  lemma {:induction false} GridCountRows(maplist: seq<string>, g: seq<string>, sx: int, sy: int, r: int, m: Marks, k: nat)
    requires DistinctWatered(m) && k <= |g| == |maplist|
    requires forall y :: 0 <= y < |g| ==> g[y] == PaintedRow(maplist[y], y, sx, sy, r, m)
    ensures GridCount(g[..k], m.wateredCrop) == RowsCount(maplist, 0, k, sx, sy, r)
    decreases k
  {
    if k > 0 {
      GridCountRows(maplist, g, sx, sy, r, m, k - 1);
      assert g[..k][..k - 1] == g[..k - 1];
      var row := maplist[k - 1];
      PaintedRowCount(row, k - 1, sx, sy, r, m, |row|);
      assert PaintedRow(row, k - 1, sx, sy, r, m)[..|row|] == PaintedRow(row, k - 1, sx, sy, r, m);
    }
  }

  lemma {:induction false} CountCharUpdate(s: string, x: nat, c: char, d: char)
    requires x < |s| && d != c
    ensures CountChar(s[x := d], c) + (if s[x] == c then 1 else 0) == CountChar(s, c)
    decreases |s|
  {
    var n := |s| - 1;
    if x < n {
      CountCharUpdate(s[..n], x, c, d);
      assert s[x := d][..n] == s[..n][x := d];
    } else {
      assert s[x := d][..n] == s[..n];
    }
  }

  lemma {:induction false} GridCountUpdate(g: seq<string>, y: nat, row: string, c: char)
    requires y < |g|
    ensures GridCount(g[y := row], c) + CountChar(g[y], c) == GridCount(g, c) + CountChar(row, c)
    decreases |g|
  {
    var n := |g| - 1;
    if y < n {
      GridCountUpdate(g[..n], y, row, c);
      assert g[y := row][..n] == g[..n][y := row];
    } else {
      assert g[y := row][..n] == g[..n];
    }
  }

  /**
   * The drawn map agrees with the fitness: for a placement inside an h-by-w map, the
   * watered-crop markers it shows number exactly the fitness `eval_fitness` gives.
   */
  lemma MapShowsFitness(maplist: seq<string>, h: int, w: int, r: int, sx: nat, sy: nat, m: Marks)
    requires Shaped(maplist, h, w) && sx < w && sy < h && r >= 0 && DistinctWatered(m)
    ensures SprinklerGrid(maplist, sx, sy, r, m).Some?
    ensures GridCount(SprinklerGrid(maplist, sx, sy, r, m).value, m.wateredCrop) == PlacementFitness(maplist, h, w, r, sx, sy).value
  {
    var painted := seq(|maplist|, y requires 0 <= y < |maplist| => PaintedRow(maplist[y], y, sx, sy, r, m));
    GridCountRows(maplist, painted, sx, sy, r, m, |painted|);
    assert painted[..|painted|] == painted;
    var row := painted[sy];
    CountCharUpdate(row, sx, m.wateredCrop, 'O');
    GridCountUpdate(painted, sy, row[sx := 'O'], m.wateredCrop);
    ReachesOwnCell(sx, sy, r);
    InBoundsFitness(maplist, h, w, r, sx, sy);
  }

  // ---------------------------------------------------------------------------
  // The client object

  /**
   * IrrigationGA: the map and its dimensions, the sprinkler radius, and the fitness cache
   * keyed by DNA. `split` is the length of the column gene of the chromosomes it scores
   * (7 in the example's `run`); the cache is only a function of the DNA for a fixed split.
   */
  class IrrigationGA {
    const mapstr: string
    const h: int
    const w: int
    const r: int
    const maplist: seq<string>
    ghost const split: nat
    var fitnessCache: map<string, int>

    /** Every cached fitness is the fitness of its DNA. */
    ghost predicate CacheSound()
      reads this`fitnessCache
    {
      forall dna :: dna in fitnessCache ==> DnaFitness(maplist, h, w, r, split, dna) == Some(fitnessCache[dna])
    }

    /** `__init__`: keeps the map string and dimensions, parses the map into rows and starts an empty cache. */
    constructor (mapstr: string, h: int, w: int, r: int, ghost split: nat)
      ensures this.mapstr == mapstr && this.h == h && this.w == w && this.r == r && this.split == split
      ensures maplist == StripAll(Lines(mapstr))
      ensures fitnessCache == map[] && CacheSound()
    {
      this.mapstr := mapstr;
      this.h := h;
      this.w := w;
      this.r := r;
      this.split := split;
      var rows := MapstrToList(mapstr);
      this.maplist := rows;
      this.fitnessCache := map[];
    }

    /**
     * The nested loops of `eval_fitness`: the reached crop cells of the rows
     * `maplist[rowStart:rowEnd]`, each sliced `row[colStart:colEnd]`, numbered from the
     * slice starts as `enumerate` numbers them.
     */
    method CountCrops(sx: nat, sy: nat) returns (crops: int)
      ensures crops == BoxCrops(maplist, h, w, r, sx, sy)
    {
      var rowStart := Max(0, sy - r);
      var rowEnd := Min(sy + r + 1, h);
      var colStart := Max(0, sx - r);
      var colEnd := Min(sx + r + 1, w);
      var y0 := SliceIndex(rowStart, |maplist|);
      var y1 := SliceEnd(rowStart, rowEnd, |maplist|);
      crops := 0;
      var i := y0;
      while i < y1
        invariant y0 <= i <= y1
        invariant crops == BoxCount(maplist, y0, i, colStart, colEnd, sx, sy, r)
      {
        var y := rowStart + (i - y0);
        assert y == i;
        var row := maplist[i];
        var x0 := SliceIndex(colStart, |row|);
        var x1 := SliceEnd(colStart, colEnd, |row|);
        var j := x0;
        while j < x1
          invariant x0 <= j <= x1
          invariant crops == BoxCount(maplist, y0, i, colStart, colEnd, sx, sy, r) + RowCount(row, y, x0, j, sx, sy, r)
        {
          var x := colStart + (j - x0);
          assert x == j;
          if row[j] == 'x' && Reaches(x, y, sx, sy, r) {
            crops := crops + 1;
          }
          j := j + 1;
        }
        i := i + 1;
      }
    }

    /**
     * `eval_fitness`: the cached fitness of the chromosome's DNA if there is one; otherwise
     * the fitness is computed and cached. None where Python raises.
     */
    method EvalFitness(c: Chrom) returns (fit: Option<int>)
      requires CacheSound() && |c.genes| == 2 && |c.genes[0].dna| == split
      modifies this`fitnessCache
      ensures CacheSound() && fit == ChromFitness(maplist, h, w, r, c)
      ensures fitnessCache == if Dna(c) in old(fitnessCache) || fit.None? then old(fitnessCache)
                              else old(fitnessCache)[Dna(c) := fit.value]
    {
      FitnessOfDna(maplist, h, w, r, split, c);
      var dna := Dna(c);
      if dna in fitnessCache {
        return Some(fitnessCache[dna]);
      }
      fit := FreshFitness(c);
      if fit.Some? {
        fitnessCache := fitnessCache[dna := fit.value];
      }
    }

    /**
     * The body of `eval_fitness` after the cache lookup: decode the placement, apply the
     * penalty for coordinates beyond the map, otherwise count the reached crops.
     */
    method FreshFitness(c: Chrom) returns (fit: Option<int>)
      ensures fit == ChromFitness(maplist, h, w, r, c)
    {
      var placement := Placement(c);
      if placement.None? {
        return None;
      }
      var sx, sy := placement.value.0, placement.value.1;
      ghost var expected := PlacementFitness(maplist, h, w, r, sx, sy);
      assert ChromFitness(maplist, h, w, r, c) == expected;
      var penalty := 0;
      if sx >= w {
        penalty := penalty + w * h;
      }
      if sy >= h {
        penalty := penalty + w * h;
      }
      assert penalty == Penalty(h, w, sx, sy);
      if penalty > 0 {
        return Some(-penalty);
      }
      var cropsWatered := CountCrops(sx, sy);
      if !(sy < |maplist| && sx < |maplist[sy]|) {
        return None;
      }
      ghost var counted := cropsWatered;
      if maplist[sy][sx] == 'x' {
        cropsWatered := cropsWatered - 1;
      }
      assert expected == Some(counted - (if maplist[sy][sx] == 'x' then 1 else 0));
      return Some(cropsWatered);
    }

    /** `map_sprinkler`: the map with every cell marked and the sprinkler drawn as 'O'. */
    method MapSprinkler(sx: int, sy: int, marks: Marks) returns (result: Option<string>)
      ensures result == SprinklerMap(maplist, sx, sy, r, marks)
    {
      var grid := maplist;
      var y := 0;
      while y < |grid|
        invariant y <= |grid| == |maplist|
        invariant forall k :: 0 <= k < y ==> grid[k] == PaintedRow(maplist[k], k, sx, sy, r, marks)
        invariant forall k :: y <= k < |grid| ==> grid[k] == maplist[k]
      {
        var row := grid[y];
        var x := 0;
        while x < |row|
          invariant x <= |row| == |maplist[y]|
          invariant forall k :: 0 <= k < x ==> row[k] == PaintedRow(maplist[y], y, sx, sy, r, marks)[k]
          invariant forall k :: x <= k < |row| ==> row[k] == maplist[y][k]
        {
          var cell := row[x];
          if Reaches(x, y, sx, sy, r) {
            if cell == 'x' {
              cell := marks.wateredCrop;
            } else {
              cell := marks.wateredField;
            }
          } else {
            cell := if cell == 'x' then marks.dryCrop else marks.dryField;
          }
          row := row[x := cell];
          x := x + 1;
        }
        grid := grid[y := row];
        y := y + 1;
      }
      ghost var painted := seq(|maplist|, k requires 0 <= k < |maplist| => PaintedRow(maplist[k], k, sx, sy, r, marks));
      assert grid == painted;
      var yi := PyIndex(sy, |grid|);
      if yi.None? {
        return None;
      }
      var xi := PyIndex(sx, |grid[yi.value]|);
      if xi.None? {
        return None;
      }
      grid := grid[yi.value := grid[yi.value][xi.value := 'O']];
      return Some(JoinRows(grid));
    }
  }
}
