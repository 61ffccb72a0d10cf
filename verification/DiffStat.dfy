/** `PatchSet.diffstat`: counts, byte delta and histogram, and what they say about the effect. */
module DiffStat {
  import opened Lines
  import opened Hunks
  import opened HunkHead
  import opened PatchStream
  import opened PatchTheorems
  import opened LineEnds
  import opened Revert
  import opened ParserSteps

  datatype Count = Count(inserted: nat, deleted: nat, delta: int) {
    function Plus(c: Count): Count {
      Count(inserted + c.inserted, deleted + c.deleted, delta + c.delta)
    }
  }

  const ZERO := Count(0, 0, 0)

  function CountLine(l: Line): Count {
    if IsPlus(l) then Count(1, 0, |l| - 1)
    else if IsMinus(l) then Count(0, 1, 1 - |l|)
    else ZERO
  }

  function CountText(text: seq<Line>): Count {
    if text == [] then ZERO else CountText(text[..|text| - 1]).Plus(CountLine(text[|text| - 1]))
  }

  function CountHunks(hs: seq<Hunk>): Count {
    if hs == [] then ZERO else CountHunks(hs[..|hs| - 1]).Plus(CountText(hs[|hs| - 1].text))
  }

  function CountPatches(items: seq<Patch>): Count {
    if items == [] then ZERO else CountPatches(items[..|items| - 1]).Plus(CountHunks(items[|items| - 1].hunks))
  }

  /** One line of the table; the marks are the numbers of `+` and `-` in the histogram. */
  datatype Row = Row(name: Bytes, total: nat, plus: nat, minus: nat)

  function Max(a: int, b: int): int { if a < b then b else a }

  // ---------- the two loops ----------

  /** The innermost loop: the lines of one hunk. */
  method CountLines(text: seq<Line>, c0: Count) returns (c: Count)
    ensures c == c0.Plus(CountText(text))
  {
    c := c0;
    for k := 0 to |text|
      invariant c == c0.Plus(CountText(text[..k]))
    {
      CountNext(text, k, c0);
      if IsPlus(text[k]) {
        c := Count(c.inserted + 1, c.deleted, c.delta + |text[k]| - 1);
      } else if IsMinus(text[k]) {
        c := Count(c.inserted, c.deleted + 1, c.delta - (|text[k]| - 1));
      }
    }
    assert text[..|text|] == text;
  }

  lemma CountNext(text: seq<Line>, k: nat, c0: Count)
    requires k < |text|
    ensures c0.Plus(CountText(text[..k + 1])) == c0.Plus(CountText(text[..k])).Plus(CountLine(text[k]))
  {
    assert text[..k + 1][..k] == text[..k];
  }

  method CountOne(hunks: seq<Hunk>) returns (c: Count)
    ensures c == CountHunks(hunks)
  {
    c := ZERO;
    for n := 0 to |hunks|
      invariant c == CountHunks(hunks[..n])
    {
      c := CountLines(hunks[n].text, c);
      assert hunks[..n + 1][..n] == hunks[..n];
    }
    assert hunks[..|hunks|] == hunks;
  }

  /** `part` of `whole` on a scale of `width` marks, rounded down, but never to nothing. */
  predicate Scaled(marks: nat, part: nat, whole: nat, width: nat) {
    if 0 < part * width < whole then marks == 1 else marks * whole <= part * width < (marks + 1) * whole
  }

  /** What the histogram of one row shows when the longest row has `maxdiff` changes. */
  predicate Drawn(plus: nat, minus: nat, c: Count, maxdiff: nat, histwidth: nat) {
    && plus + minus <= histwidth
    && (plus > 0 <==> c.inserted > 0) && (minus > 0 <==> c.deleted > 0)
    && if maxdiff < histwidth then plus == c.inserted && minus == c.deleted
       else Scaled(plus, c.inserted, maxdiff, histwidth) && Scaled(minus, c.deleted, maxdiff, histwidth)
  }

  /** What a row shows of one patch. */
  predicate RowShows(row: Row, p: Patch, maxdiff: nat, histwidth: nat) {
    var c := CountHunks(p.hunks);
    row.name == p.target && row.total == c.inserted + c.deleted && Drawn(row.plus, row.minus, c, maxdiff, histwidth)
  }

  function Changes(p: Patch): nat {
    CountHunks(p.hunks).inserted + CountHunks(p.hunks).deleted
  }

  /** Changes of the patch with the most changes. */
  function MaxDiff(items: seq<Patch>): nat {
    if items == [] then 0 else Max(MaxDiff(items[..|items| - 1]), Changes(items[|items| - 1]))
  }

  function LongestName(items: seq<Patch>): nat {
    if items == [] then 0 else Max(LongestName(items[..|items| - 1]), |items[|items| - 1].target|)
  }

  /** Room for the marks: what a line of 80 columns leaves, but at least 2. */
  function Room(namelen: nat, maxdiff: nat): nat {
    Max(2, 80 - (1 + namelen + 3 + |Digits(maxdiff)| + 1 + 1))
  }

  function HistWidth(items: seq<Patch>): nat {
    Room(LongestName(items), MaxDiff(items))
  }

  /** No patch has more changes, and one has as many. */
  lemma {:induction false} MaxDiffIs(items: seq<Patch>)
    ensures forall k :: 0 <= k < |items| ==> Changes(items[k]) <= MaxDiff(items)
    ensures items != [] ==> exists k :: 0 <= k < |items| && Changes(items[k]) == MaxDiff(items)
  {
    if items != [] {
      var n := |items| - 1;
      var before := items[..n];
      MaxDiffIs(before);
      assert forall k :: 0 <= k < n ==> before[k] == items[k];
      if n == 0 || MaxDiff(before) < Changes(items[n]) {
        assert MaxDiff(items) == Changes(items[n]);
      } else {
        var k :| 0 <= k < |before| && Changes(before[k]) == MaxDiff(before);
        assert Changes(items[k]) == MaxDiff(items);
      }
    }
  }

  predicate CountsHold(counts: seq<Count>, items: seq<Patch>) {
    |counts| <= |items| && forall k :: 0 <= k < |counts| ==> counts[k] == CountHunks(items[k].hunks)
  }

  predicate TotalsHold(items: seq<Patch>, sum: Count, namelen: nat, maxdiff: nat) {
    sum == CountPatches(items) && namelen == LongestName(items) && maxdiff == MaxDiff(items)
  }

  lemma TotalsNext(items: seq<Patch>, n: nat, n': nat, c: Count, sum: Count, namelen: nat, maxdiff: nat,
    sum': Count, namelen': nat, maxdiff': nat)
    requires n' == n + 1 <= |items| && TotalsHold(items[..n], sum, namelen, maxdiff) && c == CountHunks(items[n].hunks)
    requires sum' == sum.Plus(c) && namelen' == Max(namelen, |items[n].target|)
    requires maxdiff' == Max(maxdiff, c.inserted + c.deleted)
    ensures TotalsHold(items[..n'], sum', namelen', maxdiff')
  {
    assert items[..n'][..n] == items[..n];
  }

  /** The first loop: counts for each patch and for all, and the two widths. */
  method CountAll(items: seq<Patch>) returns (counts: seq<Count>, sum: Count, namelen: nat, maxdiff: nat)
    ensures |counts| == |items| && CountsHold(counts, items) && TotalsHold(items, sum, namelen, maxdiff)
  {
    counts, sum, namelen, maxdiff := [], ZERO, 0, 0;
    var n := 0;
    while n < |items|
      invariant n == |counts| <= |items| && CountsHold(counts, items)
      invariant TotalsHold(items[..n], sum, namelen, maxdiff)
    {
      ghost var i, sum0, namelen0, maxdiff0 := n, sum, namelen, maxdiff;
      var c := CountOne(items[n].hunks);
      counts := counts + [c];
      sum := sum.Plus(c);
      namelen := Max(namelen, |items[n].target|);
      maxdiff := Max(maxdiff, c.inserted + c.deleted);
      n := n + 1;
      TotalsNext(items, i, n, c, sum0, namelen0, maxdiff0, sum, namelen, maxdiff);
    }
    assert items[..n] == items;
  }

  // ---------- the text ----------

  const BAR: Byte := 124

  function Repeated(b: Byte, n: nat): (r: Bytes)
    ensures |r| == n
  {
    seq(n, _ => b)
  }

  function Ascii(s: string): (r: Bytes)
    requires forall i :: 0 <= i < |s| ==> s[i] < 128 as char
    ensures |r| == |s|
  {
    seq(|s|, i requires 0 <= i < |s| => s[i] as int as Byte)
  }

  /** `%-Ns` */
  function NameCell(name: Bytes, namelen: nat): (r: Bytes)
    ensures |r| == Max(|name|, namelen) && name <= r
  {
    name + Repeated(SPACE, Max(0, namelen - |name|))
  }

  /** `%Ns` */
  function TotalCell(total: nat, statlen: nat): (r: Bytes)
    ensures |r| == Max(|Digits(total)|, statlen) && EndsWith(r, Digits(total))
  {
    Repeated(SPACE, Max(0, statlen - |Digits(total)|)) + Digits(total)
  }

  function Marks(row: Row): (r: Bytes)
    ensures |r| == row.plus + row.minus
  {
    Repeated(PLUS, row.plus) + Repeated(MINUS, row.minus)
  }

  /** ` %-Ns | %Ms %s` with its line end. */
  function RowText(row: Row, namelen: nat, statlen: nat): (r: Bytes)
    ensures |r| == Max(|row.name|, namelen) + Max(|Digits(row.total)|, statlen) + |Marks(row)| + 6
  {
    [SPACE] + NameCell(row.name, namelen) + [SPACE, BAR, SPACE] + TotalCell(row.total, statlen) + [SPACE]
    + Marks(row) + [LF]
  }

  function Table(rows: seq<Row>, namelen: nat, statlen: nat): Bytes {
    if rows == [] then []
    else Table(rows[..|rows| - 1], namelen, statlen) + RowText(rows[|rows| - 1], namelen, statlen)
  }

  /** `%+d` */
  function Signed(n: int): Bytes {
    if n < 0 then [MINUS] + Digits(-n) else [PLUS] + Digits(n)
  }

  function Summary(files: nat, sum: Count): Bytes {
    [SPACE] + Digits(files) + Ascii(" files changed, ") + Digits(sum.inserted) + Ascii(" insertions(+), ")
    + Digits(sum.deleted) + Ascii(" deletions(-), ") + Signed(sum.delta) + Ascii(" bytes")
  }

  lemma {:induction false} MoreDigits(m: nat, n: nat)
    requires m <= n
    ensures |Digits(m)| <= |Digits(n)|
    decreases n
  {
    if m >= 10 {
      MoreDigits(m / 10, n / 10);
    }
  }

  lemma {:induction false} LongestNameIs(items: seq<Patch>, k: nat)
    requires k < |items|
    ensures |items[k].target| <= LongestName(items)
  {
    var n := |items| - 1;
    if k < n {
      LongestNameIs(items[..n], k);
      assert items[..n][k] == items[k];
    }
  }

  lemma Parts<T>(a: seq<T>, b: seq<T>, c: seq<T>, whole: seq<T>)
    requires whole == a + b + c
    ensures whole[|a|..|a| + |b|] == b
  {
  }

  lemma FiveParts<T>(a: seq<T>, b: seq<T>, c: seq<T>, d: seq<T>, e: seq<T>, whole: seq<T>)
    requires whole == a + b + c + d + e
    ensures whole[|a|..|a| + |b|] == b && whole[|a| + |b|..|a| + |b| + |c|] == c
    ensures whole[|a| + |b| + |c|..|a| + |b| + |c| + |d|] == d
  {
    Parts(a, b, c + d + e, whole);
    Parts(a + b, c, d + e, whole);
    Parts(a + b + c, d, e, whole);
  }

  /** Where the columns of a row stand. */
  lemma RowColumns(row: Row, namelen: nat, statlen: nat)
    requires |row.name| <= namelen && |Digits(row.total)| <= statlen
    ensures var line := RowText(row, namelen, statlen);
      && |line| == namelen + statlen + 6 + row.plus + row.minus
      && line[1..1 + namelen] == NameCell(row.name, namelen)
      && line[namelen + 2] == BAR
      && line[namelen + 4..namelen + 4 + statlen] == TotalCell(row.total, statlen)
      && line[namelen + statlen + 5..|line| - 1] == Repeated(43, row.plus) + Repeated(45, row.minus)
  {
    var name, total, line := NameCell(row.name, namelen), TotalCell(row.total, statlen), RowText(row, namelen, statlen);
    var tail := [SPACE] + Marks(row) + [LF];
    var mid: Bytes := [SPACE, BAR, SPACE];
    FiveParts([SPACE], name, mid, total, tail, line);
    assert line[namelen + 1..namelen + 4][1] == mid[1];
    Parts([SPACE] + name + mid + total + [SPACE], Marks(row), [LF], line);
  }

  /** The bars of all rows stand in one column, and the totals, set to the right, in one. A row
      takes 80 columns at most, its line end included, unless name and total leave less than two of
      them for marks; then there is room for two. */
  lemma RowsFit(items: seq<Patch>, k: nat, row: Row, namelen: nat, statlen: nat)
    requires k < |items| && RowShows(row, items[k], MaxDiff(items), HistWidth(items))
    requires namelen == LongestName(items) && statlen == |Digits(MaxDiff(items))|
    ensures |RowText(row, namelen, statlen)| <= Max(80, namelen + statlen + 8)
    ensures RowText(row, namelen, statlen)[1..1 + namelen] == NameCell(items[k].target, namelen)
    ensures RowText(row, namelen, statlen)[namelen + 2] == BAR
    ensures RowText(row, namelen, statlen)[namelen + 4..namelen + 4 + statlen] == TotalCell(row.total, statlen)
  {
    assert row.total == Changes(items[k]);
    assert row.total <= MaxDiff(items) by {
      MaxDiffIs(items);
    }
    MoreDigits(row.total, MaxDiff(items));
    LongestNameIs(items, k);
    RowColumns(row, namelen, statlen);
  }

  predicate RowsShow(rows: seq<Row>, items: seq<Patch>, maxdiff: nat, histwidth: nat) {
    |rows| <= |items| && forall k :: 0 <= k < |rows| ==> RowShows(rows[k], items[k], maxdiff, histwidth)
  }

  method Diffstat(items: seq<Patch>) returns (rows: seq<Row>, sum: Count, output: Bytes)
    ensures sum == CountPatches(items) && |rows| == |items|
    ensures RowsShow(rows, items, MaxDiff(items), HistWidth(items))
    ensures output == Table(rows, LongestName(items), |Digits(MaxDiff(items))|)
      + ([32] + Digits(|items|) + Ascii(" files changed, ") + Digits(sum.inserted) + Ascii(" insertions(+), ")
         + Digits(sum.deleted) + Ascii(" deletions(-), ") + Signed(sum.delta) + Ascii(" bytes"))
  {
    var counts, namelen, maxdiff;
    counts, sum, namelen, maxdiff := CountAll(items);
    MaxDiffIs(items);
    rows, output := DrawRows(items, counts, namelen, maxdiff);
    output := output + Summary(|items|, sum);
  }

  /** The second loop. */
  method DrawRows(items: seq<Patch>, counts: seq<Count>, namelen: nat, maxdiff: nat)
      returns (rows: seq<Row>, output: Bytes)
    requires |counts| == |items| && CountsHold(counts, items)
    requires forall k :: 0 <= k < |items| ==> Changes(items[k]) <= maxdiff
    ensures |rows| == |items| && RowsShow(rows, items, maxdiff, Room(namelen, maxdiff))
    ensures output == Table(rows, namelen, |Digits(maxdiff)|)
  {
    var statlen := |Digits(maxdiff)|;
    var width := 1 + namelen + 3 + statlen + 1 + 1;
    var histwidth := Max(2, 80 - width);
    rows, output := [], [];
    for n := 0 to |items|
      invariant |rows| == n && RowsShow(rows, items, maxdiff, histwidth)
      invariant output == Table(rows, namelen, statlen)
    {
      var row := DrawRow(items[n], counts[n], maxdiff, histwidth);
      ghost var before := rows;
      assert RowShows(row, items[|before|], maxdiff, histwidth);
      rows := rows + [row];
      output := output + RowText(row, namelen, statlen);
      assert output == Table(rows, namelen, statlen) by {
        TableNext(before, row, rows, namelen, statlen);
      }
      assert RowsShow(rows, items, maxdiff, histwidth) by {
        RowsNext(before, row, rows, items, maxdiff, histwidth);
      }
    }
    assert histwidth == Room(namelen, maxdiff);
  }

  lemma RowsNext(before: seq<Row>, row: Row, rows: seq<Row>, items: seq<Patch>, maxdiff: nat, histwidth: nat)
    requires rows == before + [row] && |before| < |items| && RowsShow(before, items, maxdiff, histwidth)
    requires RowShows(row, items[|before|], maxdiff, histwidth)
    ensures RowsShow(rows, items, maxdiff, histwidth)
  {
  }

  lemma TableNext(before: seq<Row>, row: Row, rows: seq<Row>, namelen: nat, statlen: nat)
    requires rows == before + [row]
    ensures Table(rows, namelen, statlen) == Table(before, namelen, statlen) + RowText(row, namelen, statlen)
  {
    assert rows[..|rows| - 1] == before;
  }

  method DrawRow(p: Patch, c: Count, maxdiff: nat, histwidth: nat) returns (row: Row)
    requires c == CountHunks(p.hunks) && c.inserted + c.deleted <= maxdiff && histwidth >= 2
    ensures RowShows(row, p, maxdiff, histwidth)
  {
    var plus, minus := Histogram(c, maxdiff, histwidth);
    row := Row(p.target, c.inserted + c.deleted, plus, minus);
  }

  // ---------- the histogram, over exact fractions ----------

  function Mark(ratio: real): nat
    requires ratio >= 0.0
  {
    if 0.0 < ratio < 1.0 then 1 else ratio.Floor
  }

  lemma MarksFit(a: real, b: real, h: nat)
    requires a >= 0.0 && b >= 0.0 && a + b <= h as real && h >= 2
    ensures Mark(a) + Mark(b) <= h
    ensures (Mark(a) > 0 <==> a > 0.0) && (Mark(b) > 0 <==> b > 0.0)
  {
  }

  /** The part of the histogram width that belongs to `part`. */
  function Share(part: nat, whole: nat, h: nat): (r: real)
    requires whole > 0
    ensures r >= 0.0
    ensures h > 0 ==> (part > 0 <==> r > 0.0)
  {
    var q := part as real / whole as real;
    assert q >= 0.0 && (part > 0 <==> q > 0.0);
    assert q > 0.0 && h > 0 ==> q * h as real > 0.0;
    q * h as real
  }

  lemma SharesFit(a: nat, b: nat, whole: nat, h: nat)
    requires a + b <= whole && whole > 0
    ensures Share(a, whole, h) + Share(b, whole, h) <= h as real
  {
    var w, hr := whole as real, h as real;
    var q := (a + b) as real / w;
    assert a as real / w + b as real / w == q;
    assert q <= 1.0;
    assert (a as real / w) * hr + (b as real / w) * hr == q * hr;
    assert q * hr <= 1.0 * hr;
  }

  lemma MarkIsScaled(part: nat, whole: nat, h: nat)
    requires whole > 0
    ensures Scaled(Mark(Share(part, whole, h)), part, whole, h)
  {
    var r, w := Share(part, whole, h), whole as real;
    assert r * w == (part * h) as real by {
      assert part as real / w * w == part as real;
      assert (part as real) * (h as real) == (part * h) as real;
    }
    Between(r, w, part * h, whole);
  }

  lemma ProductReal(a: int, b: int)
    ensures (a * b) as real == a as real * b as real
  {
  }

  lemma ScaleOrder(a: real, b: real, w: real)
    requires w > 0.0
    ensures a < b <==> a * w < b * w
  {
  }

  /** Comparing a fraction with a whole number is comparing the products. */
  lemma Compare(r: real, w: real, n: nat, whole: nat, k: nat)
    requires whole > 0 && w == whole as real && r * w == n as real
    ensures r < k as real <==> n < k * whole
    ensures r > k as real <==> n > k * whole
  {
    var kr := k as real;
    ProductReal(k, whole);
    assert kr * w == (k * whole) as real;
    ScaleOrder(r, kr, w);
    ScaleOrder(kr, r, w);
  }

  lemma Between(r: real, w: real, n: nat, whole: nat)
    requires whole > 0 && w == whole as real && r >= 0.0 && r * w == n as real
    ensures 0.0 < r < 1.0 <==> 0 < n < whole
    ensures r.Floor * whole <= n < (r.Floor + 1) * whole
  {
    Compare(r, w, n, whole, 0);
    Compare(r, w, n, whole, 1);
    Compare(r, w, n, whole, r.Floor);
    Compare(r, w, n, whole, r.Floor + 1);
  }

  method Histogram(c: Count, maxdiff: nat, histwidth: nat) returns (plus: nat, minus: nat)
    requires c.inserted + c.deleted <= maxdiff && histwidth >= 2
    ensures Drawn(plus, minus, c, maxdiff, histwidth)
  {
    if maxdiff < histwidth {
      plus, minus := c.inserted, c.deleted;
    } else {
      var iratio := Share(c.inserted, maxdiff, histwidth);
      var dratio := Share(c.deleted, maxdiff, histwidth);
      SharesFit(c.inserted, c.deleted, maxdiff, histwidth);
      MarksFit(iratio, dratio, histwidth);
      MarkIsScaled(c.inserted, maxdiff, histwidth);
      MarkIsScaled(c.deleted, maxdiff, histwidth);
      plus, minus := Mark(iratio), Mark(dratio);
    }
  }

  // ---------- the counts are numbers of lines ----------

  function PlusAt(text: seq<Line>): set<int> {
    set i | 0 <= i < |text| && IsPlus(text[i])
  }

  function MinusAt(text: seq<Line>): set<int> {
    set i | 0 <= i < |text| && IsMinus(text[i])
  }

  lemma LastPosition(text: seq<Line>, n: nat)
    requires n == |text| - 1
    ensures |PlusAt(text)| == |PlusAt(text[..n])| + (if IsPlus(text[n]) then 1 else 0)
    ensures |MinusAt(text)| == |MinusAt(text[..n])| + (if IsMinus(text[n]) then 1 else 0)
  {
    assert PlusAt(text) == PlusAt(text[..n]) + if IsPlus(text[n]) then {n} else {};
    assert MinusAt(text) == MinusAt(text[..n]) + if IsMinus(text[n]) then {n} else {};
  }

  /** Each added line is counted once as inserted, each removed one once as deleted, and no other. */
  lemma {:induction false} CountIsPositions(text: seq<Line>)
    ensures CountText(text).inserted == |PlusAt(text)| && CountText(text).deleted == |MinusAt(text)|
  {
    if text == [] {
      assert PlusAt(text) == {} && MinusAt(text) == {};
    } else {
      CountIsPositions(text[..|text| - 1]);
      LastPosition(text, |text| - 1);
    }
  }

  /** All hunk lines of a patch, and of all patches, one after the other. */
  function HunkText(hs: seq<Hunk>): seq<Line> {
    if hs == [] then [] else hs[0].text + HunkText(hs[1..])
  }

  function PatchText(items: seq<Patch>): seq<Line> {
    if items == [] then [] else HunkText(items[0].hunks) + PatchText(items[1..])
  }

  lemma CountLast(text: seq<Line>, l: Line, whole: seq<Line>)
    requires whole == text + [l]
    ensures CountText(whole) == CountText(text).Plus(CountLine(l))
  {
    assert whole[..|whole| - 1] == text;
  }

  lemma {:induction false} CountConcat(a: seq<Line>, b: seq<Line>)
    ensures CountText(a + b) == CountText(a).Plus(CountText(b))
    decreases b
  {
    if b == [] {
      assert a + b == a;
    } else {
      var b', l := b[..|b| - 1], b[|b| - 1];
      var ab, ab' := a + b, a + b';
      ConcatLast(a, b, b', l);
      CountConcat(a, b');
      CountLast(ab', l, ab);
      CountLast(b', l, b);
      PlusTwice(CountText(a), CountText(b'), CountLine(l));
    }
  }

  lemma ConcatLast<T>(a: seq<T>, b: seq<T>, b': seq<T>, l: T)
    requires b != [] && b' == b[..|b| - 1] && l == b[|b| - 1]
    ensures b == b' + [l] && a + b == (a + b') + [l]
  {
  }

  lemma PlusTwice(a: Count, b: Count, c: Count)
    ensures a.Plus(b).Plus(c) == a.Plus(b.Plus(c))
  {
  }

  lemma {:induction false} HunkTextLast(hs: seq<Hunk>)
    requires hs != []
    ensures HunkText(hs) == HunkText(hs[..|hs| - 1]) + hs[|hs| - 1].text
  {
    if |hs| > 1 {
      HunkTextLast(hs[1..]);
      assert hs[1..][..|hs| - 2] == hs[..|hs| - 1][1..];
    }
  }

  lemma {:induction false} PatchTextLast(items: seq<Patch>)
    requires items != []
    ensures PatchText(items) == PatchText(items[..|items| - 1]) + HunkText(items[|items| - 1].hunks)
  {
    if |items| > 1 {
      PatchTextLast(items[1..]);
      assert items[1..][..|items| - 2] == items[..|items| - 1][1..];
    }
  }

  lemma {:induction false} CountHunksIs(hs: seq<Hunk>)
    ensures CountHunks(hs) == CountText(HunkText(hs))
  {
    if hs != [] {
      CountHunksIs(hs[..|hs| - 1]);
      HunkTextLast(hs);
      CountConcat(HunkText(hs[..|hs| - 1]), hs[|hs| - 1].text);
    }
  }

  lemma {:induction false} CountPatchesIs(items: seq<Patch>)
    ensures CountPatches(items) == CountText(PatchText(items))
  {
    if items != [] {
      var before, p := items[..|items| - 1], items[|items| - 1];
      CountPatchesIs(before);
      CountHunksIs(p.hunks);
      PatchTextLast(items);
      CountConcat(PatchText(before), HunkText(p.hunks));
    }
  }

  /** For one patch, and for all: insertions are the lines that start with `+` (43), deletions those
      that start with `-` (45), wherever they stand in the hunk texts. */
  lemma CountsAreLines(items: seq<Patch>, hs: seq<Hunk>)
    ensures CountHunks(hs).inserted == |set i | 0 <= i < |HunkText(hs)| && [43] <= HunkText(hs)[i]|
    ensures CountHunks(hs).deleted == |set i | 0 <= i < |HunkText(hs)| && [45] <= HunkText(hs)[i]|
    ensures CountPatches(items).inserted == |set i | 0 <= i < |PatchText(items)| && [43] <= PatchText(items)[i]|
    ensures CountPatches(items).deleted == |set i | 0 <= i < |PatchText(items)| && [45] <= PatchText(items)[i]|
  {
    CountHunksIs(hs);
    CountPatchesIs(items);
    PositionsOf(HunkText(hs));
    PositionsOf(PatchText(items));
  }

  lemma PositionsOf(text: seq<Line>)
    ensures CountText(text).inserted == |set i | 0 <= i < |text| && [43] <= text[i]|
    ensures CountText(text).deleted == |set i | 0 <= i < |text| && [45] <= text[i]|
  {
    CountIsPositions(text);
    assert PlusAt(text) == set i | 0 <= i < |text| && [43] <= text[i];
    assert MinusAt(text) == set i | 0 <= i < |text| && [45] <= text[i];
  }

  // ---------- agreement with the patcher ----------

  function Total(ls: seq<Bytes>): nat {
    if ls == [] then 0 else |ls[0]| + Total(ls[1..])
  }

  lemma {:induction false} TotalConcat(a: seq<Bytes>, b: seq<Bytes>)
    ensures Total(a + b) == Total(a) + Total(b)
  {
    if a == [] {
      assert a + b == b;
    } else {
      TotalConcat(a[1..], b);
      assert (a + b)[1..] == a[1..] + b;
    }
  }

  lemma {:induction false} TotalIsBytes(ls: seq<Line>)
    ensures |Join(ls)| == Total(ls)
  {
    if ls != [] {
      TotalIsBytes(ls[1..]);
    }
  }

  lemma {:induction false} TotalStyled(ls: seq<Line>, e: End)
    requires AllStyled(ls, e)
    ensures e == Lf ==> Total(ls) == Total(StripAll(ls)) + |ls|
    ensures e == CrLf ==> Total(ls) == Total(StripAll(ls)) + 2 * |ls|
  {
    if ls != [] {
      TotalStyled(ls[1..], e);
      assert |ls[0]| == |StripEol(ls[0])| + |EndBytes(e)|;
      assert StripAll(ls)[1..] == StripAll(ls[1..]);
    }
  }

  /** Insertions and deletions of a text are the difference of its two sides. */
  lemma {:induction false} CountIsDifference(text: seq<Line>)
    requires KnownText(text)
    ensures var c := CountText(text);
      && c.inserted - c.deleted == |TargetLines(text)| - |SourceLines(text)|
      && c.delta == Total(TargetLines(text)) - Total(SourceLines(text))
  {
    if text != [] {
      var before, l := text[..|text| - 1], text[|text| - 1];
      CountIsDifference(before);
      assert text == before + [l];
      LastLine(before, l);
    }
  }

  lemma LastLine(text: seq<Line>, l: Line)
    requires l != []
    ensures |SourceLines(text + [l])| == |SourceLines(text)| + if IsContext(l) || IsMinus(l) then 1 else 0
    ensures |TargetLines(text + [l])| == |TargetLines(text)| + if IsContext(l) || IsPlus(l) then 1 else 0
    ensures Total(SourceLines(text + [l])) == Total(SourceLines(text))
      + if IsContext(l) || IsMinus(l) then |l| - 1 else 0
    ensures Total(TargetLines(text + [l])) == Total(TargetLines(text))
      + if IsContext(l) || IsPlus(l) then |l| - 1 else 0
  {
    SourceAppend(text, l);
    TargetAppend(text, l);
    TotalConcat(SourceLines(text), [Body(l)]);
    TotalConcat(TargetLines(text), [Body(l)]);
    assert SourceLines(text) + [] == SourceLines(text) && TargetLines(text) + [] == TargetLines(text);
    assert Total([Body(l)]) == |l| - 1 by {
      assert [Body(l)][1..] == [];
    }
  }

  /** Growth in lines and in bytes, summed over the hunks. */
  function ByteGrowth(hs: seq<Hunk>): int {
    if hs == [] then 0
    else Total(TargetLines(hs[0].text)) - Total(SourceLines(hs[0].text)) + ByteGrowth(hs[1..])
  }

  lemma {:induction false} ByteGrowthLast(hs: seq<Hunk>)
    requires hs != []
    ensures var h := hs[|hs| - 1];
      && ByteGrowth(hs) == ByteGrowth(hs[..|hs| - 1]) + Total(TargetLines(h.text)) - Total(SourceLines(h.text))
      && Growth(hs) == Growth(hs[..|hs| - 1]) + h.linestgt - h.linessrc
  {
    if |hs| > 1 {
      ByteGrowthLast(hs[1..]);
      assert hs[1..][..|hs| - 2] == hs[..|hs| - 1][1..];
    }
  }

  lemma {:induction false} CountIsGrowth(hs: seq<Hunk>)
    requires AllCounted(hs)
    ensures CountHunks(hs).inserted - CountHunks(hs).deleted == Growth(hs)
    ensures CountHunks(hs).delta == ByteGrowth(hs)
  {
    if hs != [] {
      CountIsGrowth(hs[..|hs| - 1]);
      CountIsDifference(hs[|hs| - 1].text);
      ByteGrowthLast(hs);
    }
  }

  /** Insertions minus deletions is the change in lines, whether or not the source matches. */
  lemma CountIsLineChange(src: seq<Line>, hs: seq<Hunk>)
    requires Fits(|src|, 0, hs) && MarkersHarmless(|src|, 0, hs, false)
    ensures CountHunks(hs).inserted - CountHunks(hs).deleted == |Patched(src, 0, hs)| - |src|
  {
    FitsCounted(|src|, 0, hs);
    CountIsGrowth(hs);
    PatchedIsText(src, 0, 0, hs);
    TextIsRest(StripAll(src), 0, 0, hs);
    RestLength(StripAll(src), 0, hs);
  }

  lemma TotalThree(a: seq<Bytes>, b: seq<Bytes>, c: seq<Bytes>, whole: seq<Bytes>)
    requires whole == a + b + c
    ensures Total(whole) == Total(a) + Total(b) + Total(c)
  {
    TotalConcat(a + b, c);
    TotalConcat(a, b);
  }

  /** Text bytes, line ends left aside, of everything from line `p` on. */
  lemma {:induction false} RestTotal(s: seq<Bytes>, p: nat, hs: seq<Hunk>)
    requires Fits(|s|, p, hs) && OldStands(s, hs)
    ensures Total(Rest(s, p, hs)) - Total(s[p..]) == TextGrowth(hs)
    decreases hs
  {
    if hs != [] {
      var h := hs[0];
      var at := Index(h.startsrc);
      var end := at + h.linessrc;
      var rest := Rest(s, end, hs[1..]);
      OldStandsSplit(s, hs);
      assert Total(rest) - Total(s[end..]) == TextGrowth(hs[1..]) by {
        RestTotal(s, end, hs[1..]);
      }
      assert Total(s[p..]) == Total(s[p..at]) + Total(Old(h)) + Total(s[end..]) by {
        assert s[p..] == s[p..at] + s[at..end] + s[end..];
        TotalThree(s[p..at], s[at..end], s[end..], s[p..]);
      }
      assert Total(Rest(s, p, hs)) == Total(s[p..at]) + Total(New(h)) + Total(rest) by {
        RestStep(s, p, hs, s[p..at], rest);
        TotalThree(s[p..at], New(h), rest, Rest(s, p, hs));
      }
    }
  }

  function TextGrowth(hs: seq<Hunk>): int {
    if hs == [] then 0 else Total(New(hs[0])) - Total(Old(hs[0])) + TextGrowth(hs[1..])
  }

  lemma {:induction false} SidesStyled(text: seq<Line>, e: End)
    requires forall j :: 0 <= j < |text| ==> Styled(Body(text[j]), e)
    ensures AllStyled(SourceLines(text), e) && AllStyled(TargetLines(text), e)
  {
    if text != [] {
      SidesStyled(text[1..], e);
      PrependStyled(Body(text[0]), SourceLines(text[1..]), e);
      PrependStyled(Body(text[0]), TargetLines(text[1..]), e);
      assert [] + SourceLines(text[1..]) == SourceLines(text[1..]);
      assert [] + TargetLines(text[1..]) == TargetLines(text[1..]);
    }
  }

  lemma {:induction false} ByteGrowthIs(hs: seq<Hunk>, e: End)
    requires AllCounted(hs) && HunkStyled(hs, e)
    ensures e == Lf ==> ByteGrowth(hs) == TextGrowth(hs) + Growth(hs)
    ensures e == CrLf ==> ByteGrowth(hs) == TextGrowth(hs) + 2 * Growth(hs)
  {
    if hs != [] {
      assert forall i :: 0 <= i < |hs[1..]| ==> hs[1..][i] == hs[i + 1];
      ByteGrowthIs(hs[1..], e);
      SidesStyled(hs[0].text, e);
      TotalStyled(SourceLines(hs[0].text), e);
      TotalStyled(TargetLines(hs[0].text), e);
    }
  }

  /** For a source that matches the hunks and has one line-end style, the reported delta is
      the change in the size of the file. */
  lemma DeltaIsSizeChange(src: seq<Line>, hs: seq<Hunk>, e: End)
    requires (e == Lf || e == CrLf) && AllStyled(src, e) && HunkStyled(hs, e)
    requires Fits(|src|, 0, hs) && MarkersHarmless(|src|, 0, hs, false) && OldStands(StripAll(src), hs)
    ensures CountHunks(hs).delta == |Join(Patched(src, 0, hs))| - |Join(src)|
  {
    var out := Patched(src, 0, hs);
    FitsCounted(|src|, 0, hs);
    CountIsGrowth(hs);
    ByteGrowthIs(hs, e);
    CountIsLineChange(src, hs);
    PatchedIsText(src, 0, 0, hs);
    TextIsRest(StripAll(src), 0, 0, hs);
    RestTotal(StripAll(src), 0, hs);
    assert StripAll(src)[0..] == StripAll(src);
    FitsInside(|src|, 0, hs);
    PatchedStyled(src, e, 0, hs);
    TotalStyled(out, e);
    TotalStyled(src, e);
    TotalIsBytes(out);
    TotalIsBytes(src);
  }
}
