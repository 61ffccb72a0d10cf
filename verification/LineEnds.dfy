/** Line ends of what the patcher writes. */
module LineEnds {
  import opened Lines
  import opened Hunks
  import opened PatchStream

  lemma SliceOfStyled(src: seq<Line>, e: End, pos: nat)
    requires AllStyled(src, e) && (e == Lf || e == CrLf) && src != [] && pos > 0
    ensures SeenEnds(src, pos).Sole() == e
  {
    TallyStyled(src[..Min(pos, |src|)], e);
  }

  lemma RestyleIsStyled(l: Line, e: End)
    requires e == Lf || e == CrLf
    ensures Styled(Restyle(l, e), e)
  {
    StripEolExtend(l, EndBytes(e));
  }

  lemma AdaptStyled(src: seq<Line>, e: End, pos: nat, hline: Line)
    requires AllStyled(src, e) && (e == Lf || e == CrLf)
    requires (src != [] && pos > 0) || Styled(Body(hline), e)
    ensures Styled(Adapt(src, pos, hline), e)
  {
    if src != [] && pos > 0 {
      SliceOfStyled(src, e, pos);
      RestyleIsStyled(Body(hline), e);
    } else {
      assert src[..Min(pos, |src|)] == [];
    }
  }

  lemma PrependStyled(l: Line, ls: seq<Line>, e: End)
    requires Styled(l, e) && AllStyled(ls, e)
    ensures AllStyled([l] + ls, e)
  {
  }

  /** Once a line of a one-style source has been read, every hunk line takes that style;
      before that, hunk lines must have the style themselves. */
  lemma {:induction false} EmittedStyled(src: seq<Line>, e: End, pos: nat, text: seq<Line>)
    requires AllStyled(src, e) && (e == Lf || e == CrLf)
    requires (src != [] && pos > 0) || forall j :: 0 <= j < |text| ==> Styled(Body(text[j]), e)
    ensures AllStyled(Emitted(src, pos, text), e)
    decreases text
  {
    if text == [] {
    } else if IsMinus(text[0]) || IsNoNewline(text[0]) {
      EmittedStyled(src, e, pos + 1, text[1..]);
    } else {
      var pos' := if IsPlus(text[0]) then pos else pos + 1;
      EmittedStyled(src, e, pos', text[1..]);
      AdaptStyled(src, e, pos', text[0]);
      PrependStyled(Adapt(src, pos', text[0]), Emitted(src, pos', text[1..]), e);
    }
  }

  /** Before that, added lines at the head of the file are written as the patch has them. */
  lemma {:induction false} LeadingPlusVerbatim(src: seq<Line>, text: seq<Line>, k: nat)
    requires k <= |text| && forall i :: 0 <= i < k ==> IsPlus(text[i])
    ensures Emitted(src, 0, text) == TargetLines(text[..k]) + Emitted(src, 0, text[k..])
  {
    if k > 0 {
      assert src[..0] == [];
      LeadingPlusVerbatim(src, text[1..], k - 1);
      assert text[..k][1..] == text[1..][..k - 1];
      assert text[1..][k - 1..] == text[k..];
    } else {
      assert text[..0] == [] && text[0..] == text;
    }
  }

  predicate HunkStyled(hs: seq<Hunk>, e: End) {
    forall i, j :: 0 <= i < |hs| && 0 <= j < |hs[i].text| ==> Styled(Body(hs[i].text[j]), e)
  }

  lemma {:induction false} SkippedStyled(src: seq<Line>, e: End, pos: nat, startsrc: nat)
    requires AllStyled(src, e) && Index(startsrc) <= |src|
    ensures AllStyled(Skipped(src, pos, startsrc), e)
    decreases startsrc - pos
  {
    if pos + 1 < startsrc {
      SkippedStyled(src, e, pos + 1, startsrc);
    }
  }

  lemma JoinStyled(a: seq<Line>, b: seq<Line>, c: seq<Line>, whole: seq<Line>, e: End)
    requires AllStyled(a, e) && AllStyled(b, e) && AllStyled(c, e) && whole == a + b + c
    ensures AllStyled(whole, e)
  {
  }

  lemma RestStyled(src: seq<Line>, e: End, pos: nat)
    requires AllStyled(src, e)
    ensures AllStyled(Patched(src, pos, []), e)
  {
  }

  lemma StyledRest(hs: seq<Hunk>, e: End, n: nat)
    requires hs != [] && HunkStyled(hs, e) && forall i :: 0 <= i < |hs| ==> Index(hs[i].startsrc) <= n
    ensures HunkStyled(hs[1..], e) && forall i :: 0 <= i < |hs[1..]| ==> Index(hs[1..][i].startsrc) <= n
  {
    assert forall i :: 0 <= i < |hs[1..]| ==> hs[1..][i] == hs[i + 1];
  }

  lemma PatchedPieces(src: seq<Line>, pos: nat, hs: seq<Hunk>, skipped: seq<Line>, emitted: seq<Line>,
                      rest: seq<Line>)
    requires hs != [] && Index(hs[0].startsrc) <= |src|
    requires skipped == Skipped(src, pos, hs[0].startsrc)
    requires emitted == Emitted(src, Start(pos, hs[0]), hs[0].text)
    requires rest == Patched(src, Start(pos, hs[0]) + Reads(hs[0].text), hs[1..])
    ensures Patched(src, pos, hs) == skipped + emitted + rest
  {
  }

  lemma JoinedPatch(src: seq<Line>, pos: nat, hs: seq<Hunk>, at: nat, next: nat, skipped: seq<Line>,
                    emitted: seq<Line>, rest: seq<Line>, e: End)
    requires hs != [] && Index(hs[0].startsrc) <= |src|
    requires at == Start(pos, hs[0]) && next == at + Reads(hs[0].text)
    requires skipped == Skipped(src, pos, hs[0].startsrc) && AllStyled(skipped, e)
    requires emitted == Emitted(src, at, hs[0].text) && AllStyled(emitted, e)
    requires rest == Patched(src, next, hs[1..]) && AllStyled(rest, e)
    ensures AllStyled(Patched(src, pos, hs), e)
  {
    PatchedPieces(src, pos, hs, skipped, emitted, rest);
    JoinStyled(skipped, emitted, rest, Patched(src, pos, hs), e);
  }

  lemma FirstEmitted(src: seq<Line>, e: End, pos: nat, hs: seq<Hunk>)
    requires hs != [] && AllStyled(src, e) && (e == Lf || e == CrLf) && HunkStyled(hs, e)
    ensures AllStyled(Emitted(src, pos, hs[0].text), e)
  {
    EmittedStyled(src, e, pos, hs[0].text);
  }

  /** A source and hunks of one style give an output of that style. */
  lemma {:induction false} PatchedStyled(src: seq<Line>, e: End, pos: nat, hs: seq<Hunk>)
    requires AllStyled(src, e) && (e == Lf || e == CrLf) && HunkStyled(hs, e)
    requires forall i :: 0 <= i < |hs| ==> Index(hs[i].startsrc) <= |src|
    ensures AllStyled(Patched(src, pos, hs), e)
    decreases hs
  {
    if hs == [] {
      RestStyled(src, e, pos);
    } else {
      var at := Start(pos, hs[0]);
      var next := at + Reads(hs[0].text);
      var skipped, emitted := Skipped(src, pos, hs[0].startsrc), Emitted(src, at, hs[0].text);
      var rest := Patched(src, next, hs[1..]);
      SkippedStyled(src, e, pos, hs[0].startsrc);
      FirstEmitted(src, e, at, hs);
      assert AllStyled(rest, e) by {
        StyledRest(hs, e, |src|);
        PatchedStyled(src, e, next, hs[1..]);
      }
      JoinedPatch(src, pos, hs, at, next, skipped, emitted, rest, e);
    }
  }

  // ---------- lines ended by LF, in any mixture of the two styles ----------

  predicate LfLine(l: Line) {
    IsLine(l) && EndsLf(l)
  }

  predicate LfText(hs: seq<Hunk>) {
    forall i, j :: 0 <= i < |hs| && 0 <= j < |hs[i].text| ==> LfLine(Body(hs[i].text[j]))
  }

  lemma LfEnd(l: Line)
    requires LfLine(l)
    ensures EndOf(l) == Lf || EndOf(l) == CrLf
  {
  }

  lemma {:induction false} LfTally(ls: seq<Line>)
    requires IsLfFile(ls)
    ensures TallyOf(ls).cr == 0
  {
    if ls != [] {
      LfEnd(ls[|ls| - 1]);
      LfTally(ls[..|ls| - 1]);
    }
  }

  lemma AdaptLf(src: seq<Line>, pos: nat, hline: Line)
    requires IsLfFile(src) && LfLine(Body(hline))
    ensures LfLine(Adapt(src, pos, hline))
  {
    LfTally(src[..Min(pos, |src|)]);
    var s := StripEol(Body(hline));
    assert forall i :: 0 <= i < |s| ==> s[i] == Body(hline)[i];
    assert |s| < |Body(hline)|;
  }

  lemma {:induction false} EmittedLf(src: seq<Line>, pos: nat, text: seq<Line>)
    requires IsLfFile(src) && forall j :: 0 <= j < |text| ==> LfLine(Body(text[j]))
    ensures IsLfFile(Emitted(src, pos, text))
    decreases text
  {
    if text == [] {
    } else if IsMinus(text[0]) || IsNoNewline(text[0]) {
      EmittedLf(src, pos + 1, text[1..]);
    } else {
      var pos' := if IsPlus(text[0]) then pos else pos + 1;
      EmittedLf(src, pos', text[1..]);
      AdaptLf(src, pos', text[0]);
    }
  }

  lemma {:induction false} SkippedLf(src: seq<Line>, pos: nat, startsrc: nat)
    requires IsLfFile(src) && Index(startsrc) <= |src|
    ensures IsLfFile(Skipped(src, pos, startsrc))
    decreases startsrc - pos
  {
    if pos + 1 < startsrc {
      SkippedLf(src, pos + 1, startsrc);
    }
  }

  /** The output can be read back line by line. */
  lemma {:induction false} PatchedLf(src: seq<Line>, pos: nat, hs: seq<Hunk>)
    requires IsLfFile(src) && LfText(hs)
    requires forall i :: 0 <= i < |hs| ==> Index(hs[i].startsrc) <= |src|
    ensures IsLfFile(Patched(src, pos, hs))
    decreases hs
  {
    if hs != [] {
      var at := Start(pos, hs[0]);
      SkippedLf(src, pos, hs[0].startsrc);
      EmittedLf(src, at, hs[0].text);
      assert forall i :: 0 <= i < |hs[1..]| ==> hs[1..][i] == hs[i + 1];
      PatchedLf(src, at + Reads(hs[0].text), hs[1..]);
    }
  }

  lemma {:induction false} FitsInside(n: nat, p: nat, hs: seq<Hunk>)
    requires Fits(n, p, hs)
    ensures forall i :: 0 <= i < |hs| ==> Index(hs[i].startsrc) <= n
    decreases hs
  {
    if hs != [] {
      FitsInside(n, Index(hs[0].startsrc) + hs[0].linessrc, hs[1..]);
      assert forall i :: 1 <= i < |hs| ==> hs[i] == hs[1..][i - 1];
    }
  }

  /** Two lines of the same style differ only if their texts differ. */
  lemma {:induction false} StyledEqual(a: seq<Line>, b: seq<Line>, e: End)
    requires AllStyled(a, e) && AllStyled(b, e) && StripAll(a) == StripAll(b)
    ensures a == b
  {
    forall i | 0 <= i < |a|
      ensures i < |b| && a[i] == b[i]
    {
      assert |StripAll(a)| == |StripAll(b)|;
      StripAllAt(a, i);
      StripAllAt(b, i);
    }
  }

  // ---------- sources of any style ----------

  /** A hunk line is written in the style of the source lines read so far, if these have just one line
      end; else, be they mixed or without any, it is written as the patch has it. */
  lemma AdaptIs(src: seq<Line>, pos: nat, hline: Line)
    ensures var seen := src[..Min(pos, |src|)];
      && (forall e :: OnlyEnd(seen, e) ==> Adapt(src, pos, hline) == StripEol(Body(hline)) + EndBytes(e))
      && ((forall e :: !OnlyEnd(seen, e)) ==> Adapt(src, pos, hline) == Body(hline))
  {
    var seen := src[..Min(pos, |src|)];
    forall e | e != NoEnd
      ensures TallyOf(seen).Sole() == e <==> OnlyEnd(seen, e)
    {
      SoleIs(seen, e);
    }
    assert TallyOf(seen).Sole() != NoEnd ==> OnlyEnd(seen, TallyOf(seen).Sole());
  }
}
