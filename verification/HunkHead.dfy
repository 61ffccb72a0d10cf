/** The line that opens a hunk: `@@ -R +R @@`, read and printed. */
module HunkHead {
  import opened Options
  import opened Lines

  datatype Range = Range(start: nat, count: nat)

  /** What the regular expression captures; `rest` is what follows the second `@@`. */
  datatype Head = Head(src: Range, tgt: Range, rest: Bytes)

  const OPEN: Bytes := [AT, AT, SPACE, MINUS]
  const MIDDLE: Bytes := [SPACE, PLUS]
  const CLOSE: Bytes := [SPACE, AT, AT]

  predicate IsDigit(b: Byte) {
    48 <= b <= 57
  }

  function Digits(n: nat): (r: Bytes)
    ensures r != [] && forall i :: 0 <= i < |r| ==> IsDigit(r[i])
  {
    if n < 10 then [48 + n as Byte] else Digits(n / 10) + [48 + (n % 10) as Byte]
  }

  function NumberOf(ds: Bytes): nat
    requires forall i :: 0 <= i < |ds| ==> IsDigit(ds[i])
  {
    if ds == [] then 0 else (assert IsDigit(ds[|ds| - 1]); 10 * NumberOf(ds[..|ds| - 1]) + (ds[|ds| - 1] as int - 48))
  }

  /** Length of the run of digits at the front. */
  function DigitRun(s: Bytes): (k: nat)
    ensures k <= |s| && forall i :: 0 <= i < k ==> IsDigit(s[i])
    ensures k < |s| ==> !IsDigit(s[k])
  {
    if s != [] && IsDigit(s[0]) then
      var k := DigitRun(s[1..]);
      assert forall i :: 1 <= i < k + 1 ==> s[i] == s[1..][i - 1];
      1 + k
    else 0
  }

  function After(s: Bytes, prefix: Bytes): Option<Bytes> {
    if StartsWith(s, prefix) then Some(s[|prefix|..]) else None
  }

  function ReadNumber(s: Bytes): Option<(nat, Bytes)> {
    var k := DigitRun(s);
    if k == 0 then None else Some((NumberOf(s[..k]), s[k..]))
  }

  /** A start with an optional count; the count defaults to one. */
  function ReadRange(s: Bytes): Option<(Range, Bytes)> {
    match ReadNumber(s)
    case None => None
    case Some((start, rest)) =>
      if rest == [] || rest[0] != COMMA then Some((Range(start, 1), rest))
      else
        match ReadNumber(rest[1..])
        case None => Some((Range(start, 1), rest))
        case Some((count, rest')) => Some((Range(start, count), rest'))
  }

  function UpToLf(s: Bytes): Bytes {
    if s == [] || s[0] == LF then [] else [s[0]] + UpToLf(s[1..])
  }

  /** The hunk head on this line, if there is one. */
  function ReadHead(line: Line): Option<Head> {
    match After(line, OPEN)
    case None => None
    case Some(a) =>
      match ReadRange(a)
      case None => None
      case Some((src, b)) => ReadTarget(src, b)
  }

  function ReadTarget(src: Range, s: Bytes): Option<Head> {
    match After(s, MIDDLE)
    case None => None
    case Some(c) =>
      match ReadRange(c)
      case None => None
      case Some((tgt, d)) =>
        match After(d, CLOSE)
        case None => None
        case Some(e) => Some(Head(src, tgt, UpToLf(e)))
  }

  predicate IsHead(line: Line) {
    ReadHead(line).Some?
  }

  function PrintRange(r: Range): Bytes {
    Digits(r.start) + [COMMA] + Digits(r.count)
  }

  function PrintHead(src: Range, tgt: Range): Bytes {
    OPEN + PrintRange(src) + MIDDLE + PrintRange(tgt) + CLOSE
  }

  // ---------- reading undoes printing ----------

  lemma {:induction false} NumberOfDigits(n: nat)
    ensures NumberOf(Digits(n)) == n
  {
    if n >= 10 {
      NumberOfDigits(n / 10);
      var ds := Digits(n);
      assert ds[..|ds| - 1] == Digits(n / 10);
    } else {
      assert Digits(n)[..0] == [];
    }
  }

  lemma {:induction false} DigitRunIs(ds: Bytes, rest: Bytes)
    requires forall i :: 0 <= i < |ds| ==> IsDigit(ds[i])
    requires rest != [] ==> !IsDigit(rest[0])
    ensures DigitRun(ds + rest) == |ds|
  {
    if ds == [] {
      assert ds + rest == rest;
    } else {
      assert (ds + rest)[1..] == ds[1..] + rest;
      DigitRunIs(ds[1..], rest);
    }
  }

  lemma AfterIs(prefix: Bytes, rest: Bytes)
    ensures After(prefix + rest, prefix) == Some(rest)
  {
    assert (prefix + rest)[|prefix|..] == rest;
  }

  // ---------- which lines are heads ----------

  predicate IsNumber(ds: Bytes) {
    ds != [] && forall i :: 0 <= i < |ds| ==> IsDigit(ds[i])
  }

  /** A start, or a start, a comma and a count; without a count there is one line. */
  ghost predicate RangeText(t: Bytes, r: Range) {
    || (IsNumber(t) && r == Range(NumberOf(t), 1))
    || exists s, c :: IsNumber(s) && IsNumber(c) && t == s + [44] + c && r == Range(NumberOf(s), NumberOf(c))
  }

  /** `@@ -R +R @@` and any text. */
  ghost predicate HeadText(line: Line, src: Range, tgt: Range, rest: Bytes) {
    exists a, b :: RangeText(a, src) && RangeText(b, tgt) && IsHeadOf(line, a, b, rest)
  }

  predicate IsHeadOf(line: Line, a: Bytes, b: Bytes, rest: Bytes) {
    line == [64, 64, 32, 45] + (a + ([32, 43] + (b + ([32, 64, 64] + rest))))
  }

  lemma ReadNumberOf(ds: Bytes, rest: Bytes)
    requires IsNumber(ds) && (rest != [] ==> !IsDigit(rest[0]))
    ensures ReadNumber(ds + rest) == Some((NumberOf(ds), rest))
  {
    DigitRunIs(ds, rest);
    assert (ds + rest)[..|ds|] == ds && (ds + rest)[|ds|..] == rest;
  }

  /** The text of a range is read, whatever follows, if a blank does. */
  lemma ReadRangeOf(t: Bytes, r: Range, rest: Bytes)
    requires RangeText(t, r) && rest != [] && rest[0] == SPACE
    ensures ReadRange(t + rest) == Some((r, rest))
  {
    if IsNumber(t) && r == Range(NumberOf(t), 1) {
      ReadNumberOf(t, rest);
    } else {
      var s, c :| IsNumber(s) && IsNumber(c) && t == s + [44] + c && r == Range(NumberOf(s), NumberOf(c));
      var tail := [COMMA] + (c + rest);
      assert t + rest == s + tail && tail[1..] == c + rest;
      ReadNumberOf(s, tail);
      ReadNumberOf(c, rest);
    }
  }

  lemma NumberText(s: Bytes, n: nat, rest: Bytes) returns (ds: Bytes)
    requires ReadNumber(s) == Some((n, rest))
    ensures IsNumber(ds) && NumberOf(ds) == n && s == ds + rest
  {
    ds := s[..DigitRun(s)];
  }

  lemma PairText(s: Bytes, ds: Bytes, tail: Bytes, cs: Bytes, rest: Bytes, t: Bytes)
    requires s == ds + tail && tail != [] && tail[0] == COMMA && tail[1..] == cs + rest && t == ds + [44] + cs
    ensures s == t + rest
  {
    assert tail == [COMMA] + tail[1..];
  }

  /** What is read as a range is the text of one. */
  lemma ReadRangeText(s: Bytes, r: Range, rest: Bytes) returns (t: Bytes)
    requires ReadRange(s) == Some((r, rest))
    ensures RangeText(t, r) && s == t + rest
  {
    var (start, tail) := ReadNumber(s).value;
    var ds := NumberText(s, start, tail);
    if tail != [] && tail[0] == COMMA && ReadNumber(tail[1..]).Some? {
      var cs := NumberText(tail[1..], r.count, rest);
      t := ds + [44] + cs;
      PairText(s, ds, tail, cs, rest, t);
    } else {
      t := ds;
    }
  }

  lemma ReadAfter(s: Bytes, prefix: Bytes, rest: Bytes)
    requires After(s, prefix) == Some(rest)
    ensures s == prefix + rest
  {
  }

  /** Every line of this form is read as this head, whatever stands behind it. */
  lemma HeadIsRead(line: Line, src: Range, tgt: Range, rest: Bytes)
    requires HeadText(line, src, tgt, rest)
    ensures ReadHead(line) == Some(Head(src, tgt, UpToLf(rest)))
  {
    var a, b :| RangeText(a, src) && RangeText(b, tgt) && IsHeadOf(line, a, b, rest);
    var end := CLOSE + rest;
    var tail := MIDDLE + (b + end);
    assert line == OPEN + (a + tail);
    AfterIs(OPEN, a + tail);
    ReadRangeOf(a, src, tail);
    AfterIs(MIDDLE, b + end);
    ReadRangeOf(b, tgt, end);
    AfterIs(CLOSE, rest);
  }

  /** And no other line is a head. */
  lemma HeadIff(line: Line)
    ensures IsHead(line) <==> exists src, tgt, rest :: HeadText(line, src, tgt, rest)
  {
    if IsHead(line) {
      var h := ReadHead(line).value;
      var a := After(line, OPEN).value;
      var b := ReadRange(a).value.1;
      var c := After(b, MIDDLE).value;
      var d := ReadRange(c).value.1;
      var e := After(d, CLOSE).value;
      ReadAfter(line, OPEN, a);
      ReadAfter(b, MIDDLE, c);
      ReadAfter(d, CLOSE, e);
      var s := ReadRangeText(a, h.src, b);
      var t := ReadRangeText(c, h.tgt, d);
      assert IsHeadOf(line, s, t, e);
      assert HeadText(line, h.src, h.tgt, e);
    }
    if src, tgt, rest :| HeadText(line, src, tgt, rest) {
      HeadIsRead(line, src, tgt, rest);
    }
  }

  /** A range as it may be printed: the count can be left out when it is 1. */
  function RangeWith(start: nat, count: Option<nat>): Bytes {
    Digits(start) + match count case None => [] case Some(n) => [COMMA] + Digits(n)
  }

  function CountOf(count: Option<nat>): nat {
    match count case None => 1 case Some(n) => n
  }

  lemma RangeWithIs(start: nat, count: Option<nat>)
    ensures RangeText(RangeWith(start, count), Range(start, CountOf(count)))
  {
    NumberOfDigits(start);
    match count
    case None => assert Digits(start) + [] == Digits(start);
    case Some(n) =>
      NumberOfDigits(n);
      assert RangeWith(start, count) == Digits(start) + [44] + Digits(n);
  }

  /** Heads with one count, both or none are read as those with both, a missing one being 1. */
  lemma MissingCountIsOne(s: nat, m: Option<nat>, t: nat, n: Option<nat>, rest: Bytes)
    ensures ReadHead(OPEN + RangeWith(s, m) + MIDDLE + RangeWith(t, n) + CLOSE + rest)
      == Some(Head(Range(s, CountOf(m)), Range(t, CountOf(n)), UpToLf(rest)))
    ensures ReadHead(PrintHead(Range(s, CountOf(m)), Range(t, CountOf(n))) + rest)
      == Some(Head(Range(s, CountOf(m)), Range(t, CountOf(n)), UpToLf(rest)))
  {
    HeadWith(s, m, t, n, rest);
    BothCounts(Range(s, CountOf(m)), Range(t, CountOf(n)), rest);
  }

  lemma BothCounts(src: Range, tgt: Range, rest: Bytes)
    ensures ReadHead(PrintHead(src, tgt) + rest) == Some(Head(src, tgt, UpToLf(rest)))
  {
    assert RangeWith(src.start, Some(src.count)) == PrintRange(src);
    assert RangeWith(tgt.start, Some(tgt.count)) == PrintRange(tgt);
    HeadWith(src.start, Some(src.count), tgt.start, Some(tgt.count), rest);
  }

  lemma HeadWith(s: nat, m: Option<nat>, t: nat, n: Option<nat>, rest: Bytes)
    ensures ReadHead(OPEN + RangeWith(s, m) + MIDDLE + RangeWith(t, n) + CLOSE + rest)
      == Some(Head(Range(s, CountOf(m)), Range(t, CountOf(n)), UpToLf(rest)))
  {
    var a, b := RangeWith(s, m), RangeWith(t, n);
    var line := OPEN + a + MIDDLE + b + CLOSE + rest;
    RangeWithIs(s, m);
    RangeWithIs(t, n);
    assert IsHeadOf(line, a, b, rest);
    HeadIsRead(line, Range(s, CountOf(m)), Range(t, CountOf(n)), rest);
  }

  /** A printed head, ended by LF, is read back with an empty description. */
  lemma ReadHeadIs(src: Range, tgt: Range)
    ensures ReadHead(PrintHead(src, tgt) + [LF]) == Some(Head(src, tgt, []))
  {
    BothCounts(src, tgt, [LF]);
  }
}
