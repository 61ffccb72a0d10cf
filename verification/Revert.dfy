/** Reversing hunks, and why reverting undoes applying. */
module Revert {
  import opened Lines
  import opened Hunks
  import opened PatchStream
  import opened PatchTheorems
  import opened LineEnds

  function ReverseLine(l: Line): Line {
    if IsPlus(l) then [MINUS] + l[1..]
    else if IsMinus(l) then [PLUS] + l[1..]
    else l
  }

  function ReverseText(text: seq<Line>): (r: seq<Line>)
    ensures |r| == |text|
    ensures forall i :: 0 <= i < |text| ==> r[i] == ReverseLine(text[i])
  {
    seq(|text|, i requires 0 <= i < |text| => ReverseLine(text[i]))
  }

  function ReverseHunk(h: Hunk): Hunk {
    h.(startsrc := h.starttgt, starttgt := h.startsrc,
       linessrc := h.linestgt, linestgt := h.linessrc,
       text := ReverseText(h.text))
  }

  function ReverseAll(hs: seq<Hunk>): (r: seq<Hunk>)
    ensures |r| == |hs|
    ensures forall i :: 0 <= i < |hs| ==> r[i] == ReverseHunk(hs[i])
  {
    seq(|hs|, i requires 0 <= i < |hs| => ReverseHunk(hs[i]))
  }

  lemma ReverseLineTwice(l: Line)
    ensures ReverseLine(ReverseLine(l)) == l
  {
    if IsPlus(l) || IsMinus(l) {
      assert l == [l[0]] + l[1..];
      assert ReverseLine(l)[1..] == l[1..];
    }
  }

  lemma ReverseTextTwice(text: seq<Line>)
    ensures ReverseText(ReverseText(text)) == text
  {
    forall i | 0 <= i < |text|
      ensures ReverseLine(ReverseLine(text[i])) == text[i]
    {
      ReverseLineTwice(text[i]);
    }
  }

  /** Reversing is its own inverse, for every list of hunks. */
  lemma ReverseTwice(hs: seq<Hunk>)
    ensures ReverseAll(ReverseAll(hs)) == hs
  {
    forall i | 0 <= i < |hs|
      ensures ReverseHunk(ReverseHunk(hs[i])) == hs[i]
    {
      ReverseTextTwice(hs[i].text);
    }
  }

  /** Reversing exchanges the two sides of a hunk text. */
  lemma {:induction false} ReverseSwapsSides(text: seq<Line>)
    requires KnownText(text)
    ensures KnownText(ReverseText(text)) && (HasMarker(ReverseText(text)) <==> HasMarker(text))
    ensures SourceLines(ReverseText(text)) == TargetLines(text)
    ensures TargetLines(ReverseText(text)) == SourceLines(text)
  {
    if text != [] {
      ReverseSwapsSides(text[1..]);
      assert ReverseText(text)[1..] == ReverseText(text[1..]);
      assert Body(ReverseLine(text[0])) == Body(text[0]);
    }
    assert forall i :: 0 <= i < |text| ==> (IsNoNewline(ReverseText(text)[i]) <==> IsNoNewline(text[i]));
  }

  lemma {:induction false} ReverseFits(n: nat, m: nat, p: nat, q: nat, hs: seq<Hunk>, marked: bool)
    requires Fits(n, p, hs) && Aligned(p, q, hs) && m - q == n - p + Growth(hs)
    ensures Fits(m, q, ReverseAll(hs))
    ensures MarkersHarmless(m, q, ReverseAll(hs), marked) == MarkersHarmless(n, p, hs, marked)
    decreases hs
  {
    if hs != [] {
      var h := hs[0];
      ReverseSwapsSides(h.text);
      ReverseFits(n, m, Index(h.startsrc) + h.linessrc, Index(h.starttgt) + h.linestgt, hs[1..],
        marked || HasMarker(h.text));
      assert ReverseAll(hs)[1..] == ReverseAll(hs[1..]);
    }
  }

  /** The file with every hunk range replaced by the source lines of its hunk. */
  function Restored(s: seq<Bytes>, p: nat, hs: seq<Hunk>): seq<Bytes>
    requires Fits(|s|, p, hs)
    decreases hs
  {
    if hs == [] then s[p..]
    else
      var at := Index(hs[0].startsrc);
      s[p..at] + Old(hs[0]) + Restored(s, at + hs[0].linessrc, hs[1..])
  }

  lemma RestoredStep(s: seq<Bytes>, p: nat, hs: seq<Hunk>, copied: seq<Bytes>, tail: seq<Bytes>)
    requires hs != [] && Fits(|s|, p, hs) && copied == s[p..Index(hs[0].startsrc)]
    requires tail == Restored(s, Index(hs[0].startsrc) + hs[0].linessrc, hs[1..])
    ensures Restored(s, p, hs) == copied + Old(hs[0]) + tail
  {
  }

  lemma PiecesFrom<T>(t: seq<T>, q: nat, a: seq<T>, b: seq<T>, c: seq<T>)
    requires q <= |t| && t[q..] == a + b + c
    ensures q + |a| + |b| <= |t| && t[q..q + |a|] == a && t[q + |a| + |b|..] == c
  {
    assert t[q..q + |a|] == t[q..][..|a|];
    assert t[q + |a| + |b|..] == t[q..][|a| + |b|..];
  }

  lemma ReversedHead(hs: seq<Hunk>)
    requires hs != [] && KnownText(hs[0].text)
    ensures ReverseAll(hs)[0] == ReverseHunk(hs[0]) && ReverseAll(hs)[1..] == ReverseAll(hs[1..])
    ensures New(ReverseHunk(hs[0])) == Old(hs[0])
  {
    ReverseSwapsSides(hs[0].text);
  }

  /** The first hunk of the patched file: what stands before and after its target lines. */
  lemma PatchedHead(s: seq<Bytes>, t: seq<Bytes>, p: nat, q: nat, hs: seq<Hunk>, p': nat, q': nat)
    requires hs != [] && Fits(|s|, p, hs) && Aligned(p, q, hs)
    requires q <= |t| && t[q..] == Rest(s, p, hs)
    requires p' == Index(hs[0].startsrc) + hs[0].linessrc && q' == Index(hs[0].starttgt) + hs[0].linestgt
    ensures q <= Index(hs[0].starttgt) <= q' <= |t| && Fits(|s|, p', hs[1..])
    ensures t[q..Index(hs[0].starttgt)] == s[p..Index(hs[0].startsrc)] && t[q'..] == Rest(s, p', hs[1..])
  {
    var copied := s[p..Index(hs[0].startsrc)];
    RestStep(s, p, hs, copied, Rest(s, p', hs[1..]));
    PiecesFrom(t, q, copied, New(hs[0]), Rest(s, p', hs[1..]));
  }

  lemma RestoredHead(s: seq<Bytes>, t: seq<Bytes>, p: nat, q: nat, hs: seq<Hunk>, p': nat, q': nat, tail: seq<Bytes>)
    requires hs != [] && Fits(|s|, p, hs) && Fits(|t|, q, ReverseAll(hs)) && ReverseAll(hs)[1..] == ReverseAll(hs[1..])
    requires p' == Index(hs[0].startsrc) + hs[0].linessrc && q' == Index(hs[0].starttgt) + hs[0].linestgt
    requires t[q..Index(hs[0].starttgt)] == s[p..Index(hs[0].startsrc)]
    requires tail == Restored(s, p', hs[1..]) == Rest(t, q', ReverseAll(hs[1..]))
    ensures Rest(t, q, ReverseAll(hs)) == Restored(s, p, hs)
  {
    var copied := s[p..Index(hs[0].startsrc)];
    ReversedHead(hs);
    RestStep(t, q, ReverseAll(hs), copied, tail);
    RestoredStep(s, p, hs, copied, tail);
  }

  /** Reversed hunks, applied to the patched file, write the source lines back. */
  lemma {:induction false} ReverseRestores(s: seq<Bytes>, t: seq<Bytes>, p: nat, q: nat, hs: seq<Hunk>)
    requires Fits(|s|, p, hs) && Aligned(p, q, hs)
    requires q <= |t| && t[q..] == Rest(s, p, hs)
    requires Fits(|t|, q, ReverseAll(hs))
    ensures Rest(t, q, ReverseAll(hs)) == Restored(s, p, hs)
    decreases hs
  {
    if hs != [] {
      var p', q' := Index(hs[0].startsrc) + hs[0].linessrc, Index(hs[0].starttgt) + hs[0].linestgt;
      PatchedHead(s, t, p, q, hs, p', q');
      ReversedHead(hs);
      ReverseRestores(s, t, p', q', hs[1..]);
      RestoredHead(s, t, p, q, hs, p', q', Restored(s, p', hs[1..]));
    }
  }

  lemma StandsPieces(s: seq<Bytes>, p: nat, at: nat, mid: seq<Bytes>, tail: seq<Bytes>, whole: seq<Bytes>)
    requires p <= at && at + |mid| <= |s| && |tail| == |s| - at - |mid|
    requires whole == s[p..at] + mid + tail
    ensures whole == s[p..] <==> Stands(s, at, mid) && tail == s[at + |mid|..]
  {
    var end := at + |mid|;
    assert s[p..] == s[p..at] + s[at..end] + s[end..];
    if whole == s[p..] {
      assert mid == whole[at - p..end - p] == s[p..][at - p..end - p] == s[at..end];
      assert tail == whole[end - p..] == s[p..][end - p..] == s[end..];
    }
  }

  lemma {:induction false} RestoredLength(s: seq<Bytes>, p: nat, hs: seq<Hunk>)
    requires Fits(|s|, p, hs)
    ensures |Restored(s, p, hs)| == |s| - p
    decreases hs
  {
    if hs != [] {
      RestoredLength(s, Index(hs[0].startsrc) + hs[0].linessrc, hs[1..]);
    }
  }

  lemma RestoredPieces(s: seq<Bytes>, p: nat, hs: seq<Hunk>, at: nat, end: nat)
    requires hs != [] && Fits(|s|, p, hs) && at == Index(hs[0].startsrc) && end == at + hs[0].linessrc
    ensures Fits(|s|, end, hs[1..])
    ensures Restored(s, p, hs) == s[p..] <==> Stands(s, at, Old(hs[0])) && Restored(s, end, hs[1..]) == s[end..]
  {
    var tail := Restored(s, end, hs[1..]);
    assert |tail| == |s| - end by {
      RestoredLength(s, end, hs[1..]);
    }
    RestoredStep(s, p, hs, s[p..at], tail);
    StandsPieces(s, p, at, Old(hs[0]), tail, Restored(s, p, hs));
  }

  lemma {:induction false} RestoredIsSource(s: seq<Bytes>, p: nat, hs: seq<Hunk>)
    requires Fits(|s|, p, hs)
    ensures Restored(s, p, hs) == s[p..] <==> OldStands(s, hs)
    decreases hs
  {
    if hs != [] {
      var at := Index(hs[0].startsrc);
      var end := at + hs[0].linessrc;
      RestoredPieces(s, p, hs, at, end);
      assert Restored(s, end, hs[1..]) == s[end..] <==> OldStands(s, hs[1..]) by {
        RestoredIsSource(s, end, hs[1..]);
      }
      OldStandsSplit(s, hs);
    }
  }

  /** What a reader of the patched file gets: the file is written and read again. */
  function WrittenAndRead(ls: seq<Line>): seq<Line> {
    SplitLines(Join(ls))
  }

  lemma {:induction false} RestLength(s: seq<Bytes>, p: nat, hs: seq<Hunk>)
    requires Fits(|s|, p, hs)
    ensures |Rest(s, p, hs)| == |s| - p + Growth(hs)
    decreases hs
  {
    if hs != [] {
      RestLength(s, Index(hs[0].startsrc) + hs[0].linessrc, hs[1..]);
    }
  }

  /** For every source whose lines end in LF or CRLF, mixed in any way: reverting what was
      applied gives the source back, up to line ends, exactly when the source held the
      source lines of every hunk. */
  lemma RevertUndoesApply(src: seq<Line>, hs: seq<Hunk>)
    requires IsLfFile(src) && LfText(hs)
    requires Fits(|src|, 0, hs) && Aligned(0, 0, hs) && MarkersHarmless(|src|, 0, hs, false)
    ensures var patched := WrittenAndRead(Patched(src, 0, hs));
      StripAll(Patched(patched, 0, ReverseAll(hs))) == StripAll(src) <==> OldStands(StripAll(src), hs)
  {
    var out := Patched(src, 0, hs);
    var s, t := StripAll(src), StripAll(out);
    FitsInside(|src|, 0, hs);
    PatchedLf(src, 0, hs);
    SplitJoin(out);
    PatchedIsText(src, 0, 0, hs);
    TextIsRest(s, 0, 0, hs);
    RestLength(s, 0, hs);
    ReverseFits(|s|, |t|, 0, 0, hs, false);
    PatchedIsText(out, 0, 0, ReverseAll(hs));
    TextIsRest(t, 0, 0, ReverseAll(hs));
    ReverseRestores(s, t, 0, 0, hs);
    RestoredIsSource(s, 0, hs);
  }

  lemma ReverseStyled(hs: seq<Hunk>, e: End)
    requires HunkStyled(hs, e)
    ensures HunkStyled(ReverseAll(hs), e)
  {
    forall i, j | 0 <= i < |hs| && 0 <= j < |ReverseAll(hs)[i].text|
      ensures Styled(Body(ReverseAll(hs)[i].text[j]), e)
    {
      assert Styled(Body(hs[i].text[j]), e);
      assert Body(ReverseLine(hs[i].text[j])) == Body(hs[i].text[j]);
    }
  }

  /** With one line-end style throughout, the source comes back byte for byte. */
  lemma RevertIsExact(src: seq<Line>, hs: seq<Hunk>, e: End)
    requires IsLfFile(src) && LfText(hs)
    requires (e == Lf || e == CrLf) && AllStyled(src, e) && HunkStyled(hs, e)
    requires Fits(|src|, 0, hs) && Aligned(0, 0, hs) && MarkersHarmless(|src|, 0, hs, false)
    ensures var patched := WrittenAndRead(Patched(src, 0, hs));
      Patched(patched, 0, ReverseAll(hs)) == src <==> OldStands(StripAll(src), hs)
  {
    var out := Patched(src, 0, hs);
    RevertUndoesApply(src, hs);
    FitsInside(|src|, 0, hs);
    PatchedLf(src, 0, hs);
    SplitJoin(out);
    PatchedStyled(src, e, 0, hs);
    ReverseStyled(hs, e);
    PatchedIsText(src, 0, 0, hs);
    TextIsRest(StripAll(src), 0, 0, hs);
    RestLength(StripAll(src), 0, hs);
    ReverseFits(|src|, |out|, 0, 0, hs, false);
    FitsInside(|out|, 0, ReverseAll(hs));
    PatchedStyled(out, e, 0, ReverseAll(hs));
    if StripAll(Patched(out, 0, ReverseAll(hs))) == StripAll(src) {
      StyledEqual(Patched(out, 0, ReverseAll(hs)), src, e);
    }
  }

  // ---------- heads that count an empty range from the line before it ----------

  lemma {:induction false} CommutesIfEqual<T>(x: T, ls: seq<T>)
    ensures [x] + ls == ls + [x] <==> forall i :: 0 <= i < |ls| ==> ls[i] == x
  {
    var a, b := [x] + ls, ls + [x];
    if ls != [] {
      CommutesIfEqual(x, ls[1..]);
      assert b[1..] == ls[1..] + [x] && a[1..] == ls;
      assert a[0] == x && b[0] == ls[0];
      assert ls == [ls[0]] + ls[1..];
      assert a == b <==> ls[0] == x && ls == ls[1..] + [x] by {
        assert a == [a[0]] + a[1..] && b == [b[0]] + b[1..];
      }
      assert forall i :: 1 <= i < |ls| ==> ls[i] == ls[1..][i - 1];
    }
  }

  lemma SpliceOne(s: seq<Bytes>, h: Hunk)
    requires Fits(|s|, 0, [h])
    ensures Index(h.startsrc) + h.linessrc <= |s|
    ensures Splice(s, 0, [h]) == Replace(s, Index(h.startsrc), h.linessrc, New(h))
  {
    assert [h][1..] == [] && [h][0] == h;
    assert Splice(s, Index(h.startsrc) + h.linessrc, []) == s;
  }

  /** The patcher on one hunk. */
  lemma PatchedOne(src: seq<Line>, h: Hunk, n: nat)
    requires n == |src| && Fits(n, 0, [h]) && MarkersHarmless(n, 0, [h], false)
    ensures Index(h.startsrc) + h.linessrc <= |src|
    ensures StripAll(Patched(src, 0, [h])) == Replace(StripAll(src), Index(h.startsrc), h.linessrc, New(h))
  {
    PatchRefinesSplice(src, [h]);
    SpliceOne(StripAll(src), h);
  }

  lemma OneFits(n: nat, h: Hunk)
    ensures Fits(n, 0, [h]) <==> Counted(h) && Index(h.startsrc) + h.linessrc <= n
    ensures !HasMarker(h.text) ==> MarkersHarmless(n, 0, [h], false)
    ensures Index(h.startsrc) + h.linessrc == n ==> MarkersHarmless(n, 0, [h], false)
  {
    assert [h][0] == h && [h][1..] == [];
  }

  /** Deleted lines put back one line too early. */
  lemma OneTooEarly(s: seq<Bytes>, at: nat, end: nat)
    requires 0 < at <= end <= |s|
    ensures Replace(Replace(s, at, end - at, []), at - 1, 0, s[at..end]) == s <==>
      forall i :: at <= i < end ==> s[i] == s[at - 1]
  {
    var x, del := s[at - 1], s[at..end];
    var t := s[..at] + s[end..];
    assert Replace(s, at, end - at, []) == t;
    assert t[..at - 1] == s[..at - 1] && t[at - 1..] == [x] + s[end..];
    assert Replace(t, at - 1, 0, del) == s[..at - 1] + (del + [x]) + s[end..];
    assert s == s[..at - 1] + ([x] + del) + s[end..];
    SameFrame(s[..at - 1], del + [x], [x] + del, s[end..]);
    CommutesIfEqual(x, del);
    assert forall i :: 0 <= i < |del| ==> del[i] == s[at + i];
    assert forall i :: at <= i < end ==> s[i] == del[i - at];
  }

  /** Lines inserted one line too early. */
  lemma InsertedEarly(s: seq<Bytes>, at: nat, ls: seq<Bytes>)
    requires 0 < at <= |s|
    ensures Replace(s, at - 1, 0, ls) == Replace(s, at, 0, ls) <==> forall i :: 0 <= i < |ls| ==> ls[i] == s[at - 1]
  {
    var x := s[at - 1];
    assert s[at - 1..] == [x] + s[at..] && s[..at] == s[..at - 1] + [x];
    assert Replace(s, at - 1, 0, ls) == s[..at - 1] + (ls + [x]) + s[at..];
    assert Replace(s, at, 0, ls) == s[..at - 1] + ([x] + ls) + s[at..];
    SameFrame(s[..at - 1], ls + [x], [x] + ls, s[at..]);
    CommutesIfEqual(x, ls);
  }

  /** The patcher, called directly for an insertion without context that is numbered as the POSIX
      format numbers it (an empty source range names the line before it). It inserts before that
      line: the output is what the hunk says exactly when it names no line, or every inserted
      line equals the one it names. */
  lemma PosixInsertionIs(src: seq<Line>, h: Hunk, at: nat)
    requires Counted(h) && h.startsrc == at <= |src| && h.linessrc == 0
    requires MarkersHarmless(|src|, 0, [h], false)
    ensures StripAll(Patched(src, 0, [h])) == Replace(StripAll(src), at, 0, New(h)) <==>
      at == 0 || forall i :: 0 <= i < |New(h)| ==> New(h)[i] == StripAll(src)[at - 1]
  {
    OneFits(|src|, h);
    PatchedOne(src, h, |src|);
    if at > 0 {
      InsertedEarly(StripAll(src), at, New(h));
    }
  }

  lemma PutBack(s: seq<Bytes>, at: nat, len: nat)
    requires at + len <= |s|
    ensures Index(at) <= |s| - len
    ensures Replace(Replace(s, at, len, []), Index(at), 0, s[at..at + len]) == s <==>
      at == 0 || forall i :: at <= i < at + len ==> s[i] == s[at - 1]
  {
    if at == 0 {
      assert Replace(Replace(s, 0, len, []), 0, 0, s[0..len]) == s;
    } else {
      OneTooEarly(s, at, at + len);
    }
  }

  lemma PutBackIs(s: seq<Bytes>, at: nat, len: nat, twice: seq<Bytes>)
    requires at + len <= |s| && Index(at) <= |s| - len
    requires twice == Replace(Replace(s, at, len, []), Index(at), 0, s[at..at + len])
    ensures twice == s <==> at == 0 || forall i :: at <= i < at + len ==> s[i] == s[at - 1]
  {
    PutBack(s, at, len);
  }

  /** What a deletion without context holds, and what its reverse puts back. */
  lemma PosixShape(s: seq<Bytes>, h: Hunk, at: nat, n: nat)
    requires Fits(|s|, 0, [h]) && OldStands(s, [h]) && n == |s| - h.linessrc
    requires h.startsrc == at + 1 && h.linessrc > 0 && h.starttgt == at && h.linestgt == 0
    ensures at + h.linessrc <= |s| && New(h) == [] && New(ReverseHunk(h)) == s[at..at + h.linessrc]
    ensures Fits(n, 0, [ReverseHunk(h)])
  {
    OneFits(|s|, h);
    ReverseSwapsSides(h.text);
    OneFits(n, ReverseHunk(h));
    assert Stands(s, at, Old(h)) by {
      assert [h][0] == h;
    }
  }

  /** The patcher, called directly for a deletion without context that is numbered as the POSIX
      format numbers it (an empty target range names the line before it), and then for the
      reversed hunk: the lines are put back one line too early. The source comes back exactly
      when nothing stands before the range, or when every deleted line equals the line before
      the range. */
  lemma PosixDeletionReverts(src: seq<Line>, h: Hunk, at: nat, left: nat)
    requires IsLfFile(src) && LfText([h])
    requires Fits(|src|, 0, [h]) && OldStands(StripAll(src), [h]) && MarkersHarmless(|src|, 0, [h], false)
    requires h.startsrc == at + 1 && h.linessrc > 0 && h.starttgt == at && h.linestgt == 0
    requires left == |src| - h.linessrc && MarkersHarmless(left, 0, [ReverseHunk(h)], false)
    ensures var patched := WrittenAndRead(Patched(src, 0, [h]));
      StripAll(Patched(patched, 0, [ReverseHunk(h)])) == StripAll(src) <==>
        at == 0 || forall i :: at <= i < at + h.linessrc ==> StripAll(src)[i] == StripAll(src)[at - 1]
  {
    var s, out, rev := StripAll(src), Patched(src, 0, [h]), ReverseHunk(h);
    assert WrittenAndRead(out) == out by {
      FitsInside(|src|, 0, [h]);
      PatchedLf(src, 0, [h]);
      SplitJoin(out);
    }
    var once, twice := StripAll(out), StripAll(Patched(out, 0, [rev]));
    PosixShape(s, h, at, left);
    assert once == Replace(s, at, h.linessrc, []) by {
      PatchedOne(src, h, |src|);
    }
    assert |out| == left;
    PatchedOne(out, rev, left);
    PutBackIs(s, at, h.linessrc, twice);
  }

  lemma SameFrame<T>(a: seq<T>, b: seq<T>, b': seq<T>, c: seq<T>)
    requires |b| == |b'|
    ensures a + b + c == a + b' + c <==> b == b'
  {
    assert (a + b + c)[|a|..|a| + |b|] == b && (a + b' + c)[|a|..|a| + |b|] == b';
  }
}
