/** Bytes, lines and line ends as the patch engine sees them. */
module Lines {

  newtype Byte = b: int | 0 <= b < 256
  type Bytes = seq<Byte>
  type Line = Bytes

  const TAB: Byte := 9
  const LF: Byte := 10
  const CR: Byte := 13
  const SPACE: Byte := 32
  const PLUS: Byte := 43
  const COMMA: Byte := 44
  const MINUS: Byte := 45
  const AT: Byte := 64
  const BACKSLASH: Byte := 92

  predicate StartsWith(s: Bytes, prefix: Bytes) {
    prefix <= s
  }

  predicate EndsWith(s: Bytes, suffix: Bytes) {
    |suffix| <= |s| && s[|s| - |suffix|..] == suffix
  }

  predicate IsEol(b: Byte) {
    b == CR || b == LF
  }

  /** The line without its trailing CR and LF bytes. */
  function StripEol(l: Bytes): (r: Bytes)
    ensures r <= l
    ensures r != [] ==> !IsEol(r[|r| - 1])
    ensures forall i :: |r| <= i < |l| ==> IsEol(l[i])
  {
    if l != [] && IsEol(l[|l| - 1]) then StripEol(l[..|l| - 1]) else l
  }

  /** A prefix with these two properties is what StripEol returns. */
  lemma {:induction false} StripEolUnique(l: Bytes, r: Bytes)
    requires r <= l
    requires r != [] ==> !IsEol(r[|r| - 1])
    requires forall i :: |r| <= i < |l| ==> IsEol(l[i])
    ensures StripEol(l) == r
  {
    if |r| < |l| {
      StripEolUnique(l[..|l| - 1], r);
    }
  }

  /** Stripping, then adding any run of CR and LF bytes, changes only the line end. */
  lemma StripEolExtend(l: Bytes, eol: Bytes)
    requires forall i :: 0 <= i < |eol| ==> IsEol(eol[i])
    ensures StripEol(StripEol(l) + eol) == StripEol(l)
  {
    StripEolUnique(StripEol(l) + eol, StripEol(l));
  }

  /** Lines compared the way the engine compares them: without CR and LF at the end. */
  function StripAll(ls: seq<Line>): (r: seq<Bytes>)
    ensures |r| == |ls|
  {
    if ls == [] then [] else [StripEol(ls[0])] + StripAll(ls[1..])
  }

  lemma {:induction false} StripAllAt(ls: seq<Line>, i: nat)
    requires i < |ls|
    ensures StripAll(ls)[i] == StripEol(ls[i])
  {
    if i > 0 {
      StripAllAt(ls[1..], i - 1);
    }
  }

  lemma {:induction false} StripAllConcat(a: seq<Line>, b: seq<Line>)
    ensures StripAll(a + b) == StripAll(a) + StripAll(b)
  {
    if a == [] {
      assert a + b == b;
    } else {
      assert (a + b)[0] == a[0] && (a + b)[1..] == a[1..] + b;
      StripAllConcat(a[1..], b);
    }
  }

  lemma StripAllSliceAt(ls: seq<Line>, i: nat, j: nat, k: nat)
    requires i + k < j <= |ls|
    ensures StripAll(ls[i..j])[k] == StripAll(ls)[i + k]
  {
    StripAllAt(ls[i..j], k);
    StripAllAt(ls, i + k);
  }

  lemma StripAllSlice(ls: seq<Line>, i: nat, j: nat)
    requires i <= j <= |ls|
    ensures StripAll(ls[i..j]) == StripAll(ls)[i..j]
  {
    var a, b := StripAll(ls[i..j]), StripAll(ls)[i..j];
    forall k | 0 <= k < j - i
      ensures a[k] == b[k]
    {
      StripAllSliceAt(ls, i, j, k);
    }
  }

  // ---------- line ends ----------

  datatype End = CrLf | Lf | Cr | NoEnd

  function EndOf(l: Line): End {
    if EndsWith(l, [CR, LF]) then CrLf
    else if EndsWith(l, [LF]) then Lf
    else if EndsWith(l, [CR]) then Cr
    else NoEnd
  }

  function EndBytes(e: End): (r: Bytes)
    ensures forall i :: 0 <= i < |r| ==> IsEol(r[i])
  {
    match e
    case CrLf => [CR, LF]
    case Lf => [LF]
    case Cr => [CR]
    case NoEnd => []
  }

  /** The line is its stripped text followed by exactly this line end. */
  predicate Styled(l: Line, e: End) {
    l == StripEol(l) + EndBytes(e)
  }

  predicate AllStyled(ls: seq<Line>, e: End) {
    forall i :: 0 <= i < |ls| ==> Styled(ls[i], e)
  }

  lemma StyledEnd(l: Line, e: End)
    requires Styled(l, e) && (e == Lf || e == CrLf)
    ensures EndOf(l) == e
  {
    var r := StripEol(l);
    if e == Lf && |r| > 0 {
      assert l[|l| - 2] == r[|r| - 1];
    }
  }

  /** How many lines of each kind have been seen; lines without an end are not counted. */
  datatype Tally = Tally(crlf: nat, lf: nat, cr: nat) {
    function Add(l: Line): Tally {
      match EndOf(l)
      case CrLf => this.(crlf := crlf + 1)
      case Lf => this.(lf := lf + 1)
      case Cr => this.(cr := cr + 1)
      case NoEnd => this
    }

    /** The only line end seen so far, if there is exactly one. */
    function Sole(): End {
      if crlf != 0 && lf == 0 && cr == 0 then CrLf
      else if crlf == 0 && lf != 0 && cr == 0 then Lf
      else if crlf == 0 && lf == 0 && cr != 0 then Cr
      else NoEnd
    }
  }

  const NO_LINES := Tally(0, 0, 0)

  function TallyOf(ls: seq<Line>): Tally {
    if ls == [] then NO_LINES else TallyOf(ls[..|ls| - 1]).Add(ls[|ls| - 1])
  }

  lemma {:induction false} TallyStyled(ls: seq<Line>, e: End)
    requires ls != [] && AllStyled(ls, e) && (e == Lf || e == CrLf)
    ensures TallyOf(ls).Sole() == e
    ensures TallyOf(ls).cr == 0
    ensures e == Lf ==> TallyOf(ls).crlf == 0
    ensures e == CrLf ==> TallyOf(ls).lf == 0
  {
    StyledEnd(ls[|ls| - 1], e);
    if |ls| > 1 {
      TallyStyled(ls[..|ls| - 1], e);
    } else {
      assert ls[..0] == [];
    }
  }

  lemma EndOfLast(l: Line)
    ensures EndOf(l) == CrLf <==> |l| >= 2 && l[|l| - 2] == CR && l[|l| - 1] == LF
    ensures EndOf(l) == Lf <==> l != [] && l[|l| - 1] == LF && (|l| == 1 || l[|l| - 2] != CR)
    ensures EndOf(l) == Cr <==> l != [] && l[|l| - 1] == CR
  {
    if |l| >= 2 {
      assert l[|l| - 2..] == [l[|l| - 2], l[|l| - 1]];
    }
    if l != [] {
      assert l[|l| - 1..] == [l[|l| - 1]];
    }
  }

  lemma LastBytes(text: Bytes, e: End, l: Line)
    requires l == text + EndBytes(e)
    ensures e == CrLf ==> |l| == |text| + 2 && l[|l| - 2] == CR && l[|l| - 1] == LF
    ensures e == Lf ==> |l| == |text| + 1 && l[|l| - 1] == LF && (text != [] ==> l[|l| - 2] == text[|text| - 1])
    ensures e == Cr ==> |l| == |text| + 1 && l[|l| - 1] == CR
    ensures e == NoEnd ==> l == text
  {
  }

  /** Text and line end are told apart, whichever the end is. */
  lemma EndOfText(text: Bytes, e: End, l: Line)
    requires (text == [] || !IsEol(text[|text| - 1])) && l == text + EndBytes(e)
    ensures EndOf(l) == e && StripEol(l) == text
  {
    assert StripEol(l) == text by {
      StripEolUnique(l, text);
    }
    EndOfLast(l);
    LastBytes(text, e, l);
  }

  function EndsOfAll(ls: seq<Line>): (r: seq<End>)
    ensures |r| == |ls|
  {
    seq(|ls|, i requires 0 <= i < |ls| => EndOf(ls[i]))
  }

  /** Some of these lines ends like this. */
  predicate Ends(ls: seq<Line>, e: End) {
    e in EndsOfAll(ls)
  }

  lemma EndsNext(ls: seq<Line>, n: nat, e: End)
    requires n == |ls| - 1
    ensures Ends(ls, e) <==> Ends(ls[..n], e) || EndOf(ls[n]) == e
  {
    assert EndsOfAll(ls) == EndsOfAll(ls[..n]) + [EndOf(ls[n])];
  }

  function CountFor(t: Tally, e: End): nat {
    match e
    case CrLf => t.crlf
    case Lf => t.lf
    case Cr => t.cr
    case NoEnd => 0
  }

  lemma AddCounts(t: Tally, l: Line, e: End)
    requires e != NoEnd
    ensures CountFor(t.Add(l), e) == CountFor(t, e) + if EndOf(l) == e then 1 else 0
  {
  }

  /** A kind of line end is counted if and only if a line has it. */
  lemma {:induction false} TallyIs(ls: seq<Line>, e: End)
    requires e != NoEnd
    ensures CountFor(TallyOf(ls), e) != 0 <==> Ends(ls, e)
  {
    if ls != [] {
      var n := |ls| - 1;
      var before, l := ls[..n], ls[n];
      TallyIs(before, e);
      AddCounts(TallyOf(before), l, e);
      EndsNext(ls, n, e);
    }
  }

  /** The only line end of all that were seen. */
  predicate OnlyEnd(ls: seq<Line>, e: End) {
    e != NoEnd && Ends(ls, e) && forall f :: f != e && f != NoEnd ==> !Ends(ls, f)
  }

  /** The style of these lines is this line end exactly when a line has it and none has another;
      lines without an end do not matter. */
  lemma SoleIs(ls: seq<Line>, e: End)
    requires e != NoEnd
    ensures TallyOf(ls).Sole() == e <==> OnlyEnd(ls, e)
  {
    TallyIs(ls, CrLf);
    TallyIs(ls, Lf);
    TallyIs(ls, Cr);
  }

  // ---------- files as lines ----------

  /** One element of a byte stream split after every LF. */
  predicate IsLine(l: Line) {
    l != [] && forall i :: 0 <= i < |l| - 1 ==> l[i] != LF
  }

  predicate EndsLf(l: Line) {
    l != [] && l[|l| - 1] == LF
  }

  /** Only the last line of a file may lack its LF. */
  ghost predicate IsFile(ls: seq<Line>) {
    (forall i :: 0 <= i < |ls| ==> IsLine(ls[i])) &&
    (forall i :: 0 <= i < |ls| - 1 ==> EndsLf(ls[i]))
  }

  /** Every line, the last one too, is ended by LF. */
  ghost predicate IsLfFile(ls: seq<Line>) {
    forall i :: 0 <= i < |ls| ==> IsLine(ls[i]) && EndsLf(ls[i])
  }

  function Join(ls: seq<Line>): Bytes {
    if ls == [] then [] else ls[0] + Join(ls[1..])
  }

  /** Length of the first line of a non-empty stream. */
  function FirstLine(b: Bytes): (k: nat)
    requires b != []
    ensures 0 < k <= |b| && IsLine(b[..k])
    ensures k < |b| ==> b[k - 1] == LF
  {
    if b[0] == LF || |b| == 1 then 1
    else
      var k := FirstLine(b[1..]);
      assert forall i :: 0 < i < k ==> b[i] == b[1..][..k][i - 1];
      k + 1
  }

  function SplitLines(b: Bytes): seq<Line>
    decreases |b|
  {
    if b == [] then [] else
      var k := FirstLine(b);
      [b[..k]] + SplitLines(b[k..])
  }

  lemma {:induction false} SplitLinesIsFile(b: Bytes)
    ensures IsFile(SplitLines(b)) && Join(SplitLines(b)) == b
    decreases |b|
  {
    if b != [] {
      var k := FirstLine(b);
      assert b[..k] + b[k..] == b;
      SplitLinesIsFile(b[k..]);
      assert k < |b| ==> EndsLf(b[..k]);
      assert SplitLines(b) == [b[..k]] + SplitLines(b[k..]);
      PrependLine(b[..k], SplitLines(b[k..]));
    }
  }

  lemma PrependLine(l: Line, rest: seq<Line>)
    requires IsLine(l) && IsFile(rest) && (rest == [] || EndsLf(l))
    ensures IsFile([l] + rest) && Join([l] + rest) == l + Join(rest)
  {
    assert ([l] + rest)[1..] == rest;
  }

  lemma {:induction false} FirstLineIs(l: Line, rest: Bytes)
    requires IsLine(l) && (rest == [] || EndsLf(l))
    ensures FirstLine(l + rest) == |l|
  {
    if |l| > 1 {
      assert l[0] != LF;
      assert forall i :: 0 <= i < |l[1..]| ==> l[1..][i] == l[i + 1];
      assert (l + rest)[1..] == l[1..] + rest;
      FirstLineIs(l[1..], rest);
    }
  }

  /** Writing lines and reading them back gives the same lines. */
  lemma {:induction false} SplitJoin(ls: seq<Line>)
    requires IsFile(ls)
    ensures SplitLines(Join(ls)) == ls
  {
    if ls != [] {
      SplitJoin(ls[1..]);
      FirstLineIs(ls[0], Join(ls[1..]));
      assert Join(ls)[..|ls[0]|] == ls[0];
      assert Join(ls)[|ls[0]|..] == Join(ls[1..]);
    }
  }
}
