/** The streaming patcher refines splicing; reverting undoes applying. */
module PatchTheorems {
  import opened Lines
  import opened Hunks
  import opened PatchStream

  // ---------- one hunk ----------

  lemma AdaptKeepsText(src: seq<Line>, pos: nat, hline: Line)
    ensures StripEol(Adapt(src, pos, hline)) == StripEol(Body(hline))
  {
    StripEolExtend(Body(hline), EndBytes(SeenEnds(src, pos).Sole()));
  }

  lemma StripAllCons(l: Line, ls: seq<Line>)
    ensures StripAll([l] + ls) == [StripEol(l)] + StripAll(ls)
  {
  }

  /** Whatever the source looks like, a hunk writes its target lines, up to line ends. */
  lemma {:induction false} EmittedIsTarget(src: seq<Line>, pos: nat, text: seq<Line>)
    requires KnownText(text)
    ensures StripAll(Emitted(src, pos, text)) == StripAll(TargetLines(text))
    decreases text
  {
    if text == [] {
    } else if IsMinus(text[0]) || IsNoNewline(text[0]) {
      EmittedIsTarget(src, pos + 1, text[1..]);
      assert TargetLines(text) == TargetLines(text[1..]);
    } else {
      var pos' := if IsPlus(text[0]) then pos else pos + 1;
      EmittedIsTarget(src, pos', text[1..]);
      AdaptKeepsText(src, pos', text[0]);
      StripAllCons(Adapt(src, pos', text[0]), Emitted(src, pos', text[1..]));
      StripAllCons(Body(text[0]), TargetLines(text[1..]));
      assert TargetLines(text) == [Body(text[0])] + TargetLines(text[1..]);
    }
  }

  /** A marker line costs one extra read; other lines are read as the head counts them. */
  lemma {:induction false} ReadsCount(text: seq<Line>)
    requires KnownText(text)
    ensures if HasMarker(text) then Reads(text) > |SourceLines(text)| else Reads(text) == |SourceLines(text)|
  {
    if text != [] {
      ReadsCount(text[1..]);
      assert HasMarker(text) <==> IsNoNewline(text[0]) || HasMarker(text[1..]) by {
        assert forall i :: 1 <= i < |text| ==> text[i] == text[1..][i - 1];
      }
    }
  }

  lemma {:induction false} SkippedIsSlice(src: seq<Line>, pos: nat, startsrc: nat)
    requires Index(startsrc) <= |src|
    ensures Skipped(src, pos, startsrc) == if pos < Index(startsrc) then src[pos..Index(startsrc)] else []
    decreases startsrc - pos
  {
    if pos + 1 < startsrc {
      SkippedIsSlice(src, pos + 1, startsrc);
    }
  }

  // ---------- all hunks ----------

  /** After a hunk with a marker, no line outside the hunks is left to lose. */
  predicate MarkersHarmless(n: nat, p: nat, hs: seq<Hunk>, marked: bool)
    decreases hs
  {
    if hs == [] then marked ==> p == n
    else
      && (marked ==> p == Index(hs[0].startsrc))
      && MarkersHarmless(n, Index(hs[0].startsrc) + hs[0].linessrc, hs[1..], marked || HasMarker(hs[0].text))
  }

  lemma {:induction false} NoMarkersHarmless(n: nat, p: nat, hs: seq<Hunk>)
    requires forall i :: 0 <= i < |hs| ==> !HasMarker(hs[i].text)
    ensures MarkersHarmless(n, p, hs, false)
    decreases hs
  {
    if hs != [] {
      NoMarkersHarmless(n, Index(hs[0].startsrc) + hs[0].linessrc, hs[1..]);
    }
  }

  lemma StripAllThree(a: seq<Line>, b: seq<Line>, c: seq<Line>)
    ensures StripAll(a + b + c) == StripAll(a) + StripAll(b) + StripAll(c)
  {
    StripAllConcat(a, b);
    StripAllConcat(a + b, c);
  }

  /** What is copied before a hunk when `q` lines have been read. */
  function Copied<T>(s: seq<T>, q: nat, at: nat): seq<T> {
    if q < at <= |s| then s[q..at] else []
  }

  /** The patcher's output without its line ends, hunk by hunk. */
  function PatchedText(s: seq<Bytes>, q: nat, hs: seq<Hunk>): seq<Bytes>
    decreases hs
  {
    if hs == [] then s[Min(q, |s|)..]
    else
      Copied(s, q, Index(hs[0].startsrc)) + New(hs[0])
      + PatchedText(s, Start(q, hs[0]) + Reads(hs[0].text), hs[1..])
  }

  lemma HunkText(src: seq<Line>, q: nat, h: Hunk, rest: seq<Line>)
    requires KnownText(h.text) && Index(h.startsrc) <= |src|
    ensures StripAll(Skipped(src, q, h.startsrc) + Emitted(src, Start(q, h), h.text) + rest)
      == Copied(StripAll(src), q, Index(h.startsrc)) + New(h) + StripAll(rest)
  {
    var at := Index(h.startsrc);
    SkippedIsSlice(src, q, h.startsrc);
    EmittedIsTarget(src, Start(q, h), h.text);
    StripAllThree(Skipped(src, q, h.startsrc), Emitted(src, Start(q, h), h.text), rest);
    if q < at {
      StripAllSlice(src, q, at);
    }
  }

  lemma {:induction false} PatchedIsText(src: seq<Line>, p: nat, q: nat, hs: seq<Hunk>)
    requires Fits(|src|, p, hs)
    ensures StripAll(Patched(src, q, hs)) == PatchedText(StripAll(src), q, hs)
    decreases hs
  {
    if hs == [] {
      StripAllSlice(src, Min(q, |src|), |src|);
      assert src[Min(q, |src|)..|src|] == src[Min(q, |src|)..];
    } else {
      var q' := Start(q, hs[0]) + Reads(hs[0].text);
      PatchedIsText(src, Index(hs[0].startsrc) + hs[0].linessrc, q', hs[1..]);
      HunkText(src, q, hs[0], Patched(src, q', hs[1..]));
    }
  }

  /** The patcher never falls behind; a marker makes it run ahead. */
  lemma NeverBehind(n: nat, p: nat, q: nat, hs: seq<Hunk>, p': nat, q': nat)
    requires hs != [] && Fits(n, p, hs) && p <= q
    requires p' == Index(hs[0].startsrc) + hs[0].linessrc && q' == Start(q, hs[0]) + Reads(hs[0].text)
    ensures p' <= q' && Fits(n, p', hs[1..])
    ensures p' < q' <==> Index(hs[0].startsrc) < q || HasMarker(hs[0].text)
  {
    ReadsCount(hs[0].text);
  }

  lemma HarmlessNext(n: nat, p: nat, q: nat, hs: seq<Hunk>, p': nat, q': nat)
    requires hs != [] && Fits(n, p, hs) && p <= q
    requires p' == Index(hs[0].startsrc) + hs[0].linessrc && q' == Start(q, hs[0]) + Reads(hs[0].text)
    ensures p' <= q' && Fits(n, p', hs[1..])
    ensures MarkersHarmless(n, p, hs, p < q) <==>
      (p < q ==> p == Index(hs[0].startsrc)) && MarkersHarmless(n, p', hs[1..], p' < q')
  {
    NeverBehind(n, p, q, hs, p', q');
    if p < q ==> p == Index(hs[0].startsrc) {
      assert (p < q || HasMarker(hs[0].text)) == (p' < q');
    }
  }

  lemma CopiedIsSlice<T>(s: seq<T>, p: nat, q: nat, at: nat)
    requires p <= q && p <= at <= |s|
    ensures |Copied(s, q, at)| <= at - p
    ensures p < q && p < at ==> |Copied(s, q, at)| < at - p
    ensures p == q || p == at ==> Copied(s, q, at) == s[p..at]
  {
  }

  lemma TextUnfold(s: seq<Bytes>, q: nat, hs: seq<Hunk>, q': nat, tail: seq<Hunk>, rest: seq<Bytes>)
    requires hs != [] && q' == Start(q, hs[0]) + Reads(hs[0].text) && tail == hs[1..]
    requires rest == PatchedText(s, q', tail)
    ensures PatchedText(s, q, hs) == Copied(s, q, Index(hs[0].startsrc)) + New(hs[0]) + rest
  {
  }

  lemma RestUnfold(s: seq<Bytes>, p: nat, hs: seq<Hunk>, p': nat, tail: seq<Hunk>)
    requires hs != [] && Fits(|s|, p, hs) && p' == Index(hs[0].startsrc) + hs[0].linessrc && tail == hs[1..]
    ensures Rest(s, p, hs) == s[p..Index(hs[0].startsrc)] + New(hs[0]) + Rest(s, p', tail)
  {
  }

  lemma ThreePieces(x: seq<Bytes>, y: seq<Bytes>,
    a: seq<Bytes>, a': seq<Bytes>, b: seq<Bytes>, c: seq<Bytes>, c': seq<Bytes>)
    requires x == a + b + c && y == a' + b + c' && |a| <= |a'| && |c| <= |c'|
    ensures |x| <= |y| && (|a| < |a'| || |c| < |c'| ==> |x| < |y|)
    ensures a == a' && c == c' ==> x == y
  {
  }

  lemma RestStep(s: seq<Bytes>, p: nat, hs: seq<Hunk>, copied: seq<Bytes>, tail: seq<Bytes>)
    requires hs != [] && Fits(|s|, p, hs) && copied == s[p..Index(hs[0].startsrc)]
    requires tail == Rest(s, Index(hs[0].startsrc) + hs[0].linessrc, hs[1..])
    ensures Rest(s, p, hs) == copied + New(hs[0]) + tail
    ensures |Rest(s, p, hs)| == |copied| + |New(hs[0])| + |tail|
  {
  }

  lemma NextHunk(s: seq<Bytes>, p: nat, q: nat, hs: seq<Hunk>, p': nat, q': nat, tail: seq<Hunk>)
    requires hs != [] && Fits(|s|, p, hs) && p <= q && tail == hs[1..]
    requires p' == Index(hs[0].startsrc) + hs[0].linessrc && q' == Start(q, hs[0]) + Reads(hs[0].text)
    requires |PatchedText(s, q', tail)| <= |Rest(s, p', tail)|
    ensures |PatchedText(s, q, hs)| <= |Rest(s, p, hs)|
    ensures |PatchedText(s, q', tail)| < |Rest(s, p', tail)| || (p < q && p < Index(hs[0].startsrc)) ==>
      |PatchedText(s, q, hs)| < |Rest(s, p, hs)|
    ensures PatchedText(s, q', tail) == Rest(s, p', tail) && (p == q || p == Index(hs[0].startsrc)) ==>
      PatchedText(s, q, hs) == Rest(s, p, hs)
  {
    var at := Index(hs[0].startsrc);
    CopiedIsSlice(s, p, q, at);
    TextUnfold(s, q, hs, q', tail, PatchedText(s, q', tail));
    RestUnfold(s, p, hs, p', tail);
    ThreePieces(PatchedText(s, q, hs), Rest(s, p, hs), Copied(s, q, at), s[p..at], New(hs[0]),
      PatchedText(s, q', tail), Rest(s, p', tail));
  }

  lemma BothEnd(s: seq<Bytes>, p: nat, q: nat)
    requires p <= |s| && p <= q
    ensures p == q || p == |s| ==> PatchedText(s, q, []) == Rest(s, p, [])
    ensures |PatchedText(s, q, [])| <= |Rest(s, p, [])|
    ensures p < q && p < |s| ==> |PatchedText(s, q, [])| < |Rest(s, p, [])|
  {
  }

  lemma SameEnd(s: seq<Bytes>, p: nat, q: nat, hs: seq<Hunk>)
    requires hs == [] && Fits(|s|, p, hs) && p <= q && MarkersHarmless(|s|, p, hs, p < q)
    ensures PatchedText(s, q, hs) == Rest(s, p, hs)
  {
    BothEnd(s, p, q);
  }

  /** The patcher has read `q` lines where `p` were due; `q` runs ahead only after a marker. */
  lemma {:induction false} TextIsRest(s: seq<Bytes>, p: nat, q: nat, hs: seq<Hunk>)
    requires Fits(|s|, p, hs) && p <= q
    requires MarkersHarmless(|s|, p, hs, p < q)
    ensures PatchedText(s, q, hs) == Rest(s, p, hs)
    decreases hs
  {
    if hs == [] {
      SameEnd(s, p, q, hs);
    } else {
      var p', q' := Index(hs[0].startsrc) + hs[0].linessrc, Start(q, hs[0]) + Reads(hs[0].text);
      HarmlessNext(|s|, p, q, hs, p', q');
      TextIsRest(s, p', q', hs[1..]);
      NextHunk(s, p, q, hs, p', q', hs[1..]);
    }
  }

  /** A marker that is not harmless costs at least one line. */
  lemma {:induction false} TextIsShort(s: seq<Bytes>, p: nat, q: nat, hs: seq<Hunk>)
    requires Fits(|s|, p, hs) && p <= q
    ensures |PatchedText(s, q, hs)| <= |Rest(s, p, hs)|
    ensures !MarkersHarmless(|s|, p, hs, p < q) ==> |PatchedText(s, q, hs)| < |Rest(s, p, hs)|
    decreases hs
  {
    if hs == [] {
      BothEnd(s, p, q);
    } else {
      var p', q' := Index(hs[0].startsrc) + hs[0].linessrc, Start(q, hs[0]) + Reads(hs[0].text);
      HarmlessNext(|s|, p, q, hs, p', q');
      TextIsShort(s, p', q', hs[1..]);
      NextHunk(s, p, q, hs, p', q', hs[1..]);
    }
  }

  /** The patcher does what the hunks say exactly when no marker line swallows a line that
      no hunk covers. */
  lemma PatchRefinesSplice(src: seq<Line>, hs: seq<Hunk>)
    requires Fits(|src|, 0, hs)
    ensures StripAll(Patched(src, 0, hs)) == Splice(StripAll(src), 0, hs) <==> MarkersHarmless(|src|, 0, hs, false)
  {
    PatchedIsText(src, 0, 0, hs);
    TextIsShort(StripAll(src), 0, 0, hs);
    if MarkersHarmless(|src|, 0, hs, false) {
      TextIsRest(StripAll(src), 0, 0, hs);
    }
    SpliceIsRest(StripAll(src), 0, hs);
  }
}
