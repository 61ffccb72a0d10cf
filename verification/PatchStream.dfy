/** `patch_stream`: the streaming patcher, and its proof against splicing. */
module PatchStream {
  import opened Lines
  import opened Hunks

  /** The source file while it is being read, with the line ends seen so far. */
  class SourceReader {
    const lines: seq<Line>
    var next: nat        // read calls so far; calls at the end of the file count too
    var lineends: Tally

    ghost predicate Valid()
      reads this
    {
      lineends == SeenEnds(lines, next)
    }

    constructor (lines: seq<Line>)
      ensures Valid() && this.lines == lines && next == 0
    {
      this.lines := lines;
      next, lineends := 0, NO_LINES;
      new;
      assert lines[..0] == [];
    }

    /** The next line; an empty line at the end of the file. */
    method GetLine() returns (line: Line)
      requires Valid()
      modifies this
      ensures Valid() && next == old(next) + 1
      ensures line == LineAt(lines, old(next))
    {
      line := if next < |lines| then lines[next] else [];
      lineends := lineends.Add(line);
      next := next + 1;
      if next <= |lines| {
        assert lines[..next][..next - 1] == lines[..next - 1];
      }
    }
  }

  function Min(a: nat, b: nat): nat { if a < b then a else b }

  function LineAt(src: seq<Line>, i: nat): Line {
    if i < |src| then src[i] else []
  }

  /** Line ends of the first `pos` lines. */
  function SeenEnds(src: seq<Line>, pos: nat): Tally {
    TallyOf(src[..Min(pos, |src|)])
  }

  /** A line to write, with the line end of the source if the source has just one kind. */
  function Restyle(line2write: Line, newline: End): Line {
    if newline == NoEnd then line2write else StripEol(line2write) + EndBytes(newline)
  }

  /** A hunk line as it is written after `pos` source lines have been read. */
  function Adapt(src: seq<Line>, pos: nat, hline: Line): Line {
    Restyle(Body(hline), SeenEnds(src, pos).Sole())
  }

  // ---------- what the patcher writes ----------

  function Skipped(src: seq<Line>, pos: nat, startsrc: nat): seq<Line>
    decreases startsrc - pos
  {
    if pos + 1 < startsrc then [LineAt(src, pos)] + Skipped(src, pos + 1, startsrc) else []
  }

  function Emitted(src: seq<Line>, pos: nat, text: seq<Line>): seq<Line>
    decreases text
  {
    if text == [] then []
    else if IsMinus(text[0]) || IsNoNewline(text[0]) then Emitted(src, pos + 1, text[1..])
    else
      var pos' := if IsPlus(text[0]) then pos else pos + 1;
      [Adapt(src, pos', text[0])] + Emitted(src, pos', text[1..])
  }

  /** Source lines the patcher reads for a hunk text. */
  function Reads(text: seq<Line>): nat {
    if text == [] then 0 else (if IsPlus(text[0]) then 0 else 1) + Reads(text[1..])
  }

  function Start(pos: nat, h: Hunk): nat {
    if pos < Index(h.startsrc) then Index(h.startsrc) else pos
  }

  function Patched(src: seq<Line>, pos: nat, hs: seq<Hunk>): seq<Line>
    decreases hs
  {
    if hs == [] then (if pos <= |src| then src[pos..] else [])
    else
      var at := Start(pos, hs[0]);
      Skipped(src, pos, hs[0].startsrc) + Emitted(src, at, hs[0].text)
      + Patched(src, at + Reads(hs[0].text), hs[1..])
  }

  method Patch(instream: seq<Line>, hunks: seq<Hunk>) returns (out: seq<Line>)
    ensures out == Patched(instream, 0, hunks)
  {
    var src := new SourceReader(instream);
    out := [];
    var hno := 0;
    while hno < |hunks|
      invariant src.Valid() && src.lines == instream
      invariant hno <= |hunks|
      invariant out + Patched(instream, src.next, hunks[hno..]) == Patched(instream, 0, hunks)
    {
      ghost var pos, before := src.next, out;
      var h := hunks[hno];
      out := SkipToHunk(src, h.startsrc, out);
      ghost var copied := out;
      out := PatchHunk(src, h.text, out);
      PatchedStep(instream, pos, hunks, hno, before, copied, src.next, out);
      hno := hno + 1;
    }
    out := out + if src.next <= |instream| then instream[src.next..] else [];
  }

  lemma PatchedStep(src: seq<Line>, pos: nat, hs: seq<Hunk>, i: nat, before: seq<Line>, copied: seq<Line>,
    pos': nat, after: seq<Line>)
    requires i < |hs|
    requires copied == before + Skipped(src, pos, hs[i].startsrc)
    requires after == copied + Emitted(src, Start(pos, hs[i]), hs[i].text)
    requires pos' == Start(pos, hs[i]) + Reads(hs[i].text)
    ensures after + Patched(src, pos', hs[i + 1..]) == before + Patched(src, pos, hs[i..])
  {
    assert hs[i..][1..] == hs[i + 1..];
    Regroup(before, Skipped(src, pos, hs[i].startsrc), Emitted(src, Start(pos, hs[i]), hs[i].text),
      Patched(src, pos', hs[i + 1..]));
  }

  lemma Regroup(a: seq<Line>, b: seq<Line>, c: seq<Line>, d: seq<Line>)
    ensures ((a + b) + c) + d == a + ((b + c) + d)
  {
  }

  /** Copies the source up to the line before the hunk. */
  method SkipToHunk(src: SourceReader, startsrc: nat, written: seq<Line>) returns (out: seq<Line>)
    requires src.Valid()
    modifies src
    ensures src.Valid()
    ensures src.next == if old(src.next) < Index(startsrc) then Index(startsrc) else old(src.next)
    ensures out == written + Skipped(src.lines, old(src.next), startsrc)
  {
    out := written;
    var srclineno := src.next + 1;
    while srclineno < startsrc
      invariant src.Valid() && srclineno == src.next + 1
      invariant old(src.next) <= src.next && (src.next == old(src.next) || srclineno <= startsrc)
      invariant out + Skipped(src.lines, src.next, startsrc) == written + Skipped(src.lines, old(src.next), startsrc)
    {
      ghost var rest := Skipped(src.lines, src.next + 1, startsrc);
      var line := src.GetLine();
      assert out + ([line] + rest) == (out + [line]) + rest;
      out := out + [line];
      srclineno := srclineno + 1;
    }
  }

  /** The line written for the first line of `text`, if any. */
  function Written(src: seq<Line>, pos: nat, hline: Line): seq<Line> {
    if IsMinus(hline) || IsNoNewline(hline) then []
    else [Adapt(src, if IsPlus(hline) then pos else pos + 1, hline)]
  }

  lemma RegroupTwo(a: seq<Line>, b: seq<Line>, c: seq<Line>)
    ensures (a + b) + c == a + (b + c)
  {
  }

  lemma EmittedNext(src: seq<Line>, pos: nat, text: seq<Line>)
    requires text != []
    ensures var pos' := if IsPlus(text[0]) then pos else pos + 1;
      Emitted(src, pos, text) == Written(src, pos, text[0]) + Emitted(src, pos', text[1..])
  {
  }

  lemma EmittedStep(src: seq<Line>, pos: nat, text: seq<Line>, i: nat, before: seq<Line>, pos': nat, after: seq<Line>)
    requires i < |text|
    requires after == before + Written(src, pos, text[i])
    requires pos' == if IsPlus(text[i]) then pos else pos + 1
    ensures pos' + Reads(text[i + 1..]) == pos + Reads(text[i..])
    ensures after + Emitted(src, pos', text[i + 1..]) == before + Emitted(src, pos, text[i..])
  {
    assert text[i..][1..] == text[i + 1..];
    EmittedNext(src, pos, text[i..]);
    RegroupTwo(before, Written(src, pos, text[i]), Emitted(src, pos', text[i + 1..]));
  }

  /** Writes one hunk: the inner loop of the patcher. */
  method PatchHunk(src: SourceReader, text: seq<Line>, written: seq<Line>) returns (out: seq<Line>)
    requires src.Valid()
    modifies src
    ensures src.Valid() && src.next == old(src.next) + Reads(text)
    ensures out == written + Emitted(src.lines, old(src.next), text)
  {
    out := written;
    var i := 0;
    while i < |text|
      invariant src.Valid() && i <= |text|
      invariant src.next + Reads(text[i..]) == old(src.next) + Reads(text)
      invariant out + Emitted(src.lines, src.next, text[i..]) == written + Emitted(src.lines, old(src.next), text)
    {
      var hline := text[i];
      ghost var pos, before := src.next, out;
      if IsMinus(hline) || IsNoNewline(hline) {
        var _ := src.GetLine();
      } else {
        if !IsPlus(hline) {
          var _ := src.GetLine();
        }
        out := out + [Restyle(Body(hline), src.lineends.Sole())];
      }
      EmittedStep(src.lines, pos, text, i, before, src.next, out);
      i := i + 1;
    }
  }
}
