/** File names in patches: `xisabs`, `xnormpath`, `xstrip` and `_normalize_filenames`. */
module Names {
  import opened Lines

  const DOT: Byte := 46
  const SLASH: Byte := 47
  const COLON: Byte := 58
  const PARENT: Bytes := [DOT, DOT]

  predicate IsSlash(b: Byte) { b == SLASH || b == BACKSLASH }

  predicate IsWord(b: Byte) {
    48 <= b <= 57 || 65 <= b <= 90 || b == 95 || 97 <= b <= 122
  }

  /** A drive letter followed by a slash. */
  predicate HasDrive(f: Bytes) {
    |f| >= 3 && IsWord(f[0]) && f[1] == COLON && IsSlash(f[2])
  }

  /** Absolute on Linux, OS X or Windows. */
  predicate IsAbs(f: Bytes) {
    (f != [] && IsSlash(f[0])) || HasDrive(f)
  }

  // ---------- posixpath.normpath ----------

  function SplitSlash(s: Bytes): seq<Bytes> {
    if s == [] then [[]]
    else if s[0] == SLASH then [[]] + SplitSlash(s[1..])
    else
      var rest := SplitSlash(s[1..]);
      if rest == [] then [[s[0]]] else [[s[0]] + rest[0]] + rest[1..]
  }

  function JoinSlash(comps: seq<Bytes>): Bytes {
    if comps == [] then []
    else if |comps| == 1 then comps[0]
    else comps[0] + [SLASH] + JoinSlash(comps[1..])
  }

  /** One more component: kept, dropped, or cancelling the one before it. */
  function KeepComp(kept: seq<Bytes>, c: Bytes, rooted: bool): seq<Bytes> {
    if c == [] || c == [DOT] then kept
    else if c != PARENT || (!rooted && kept == []) || (kept != [] && kept[|kept| - 1] == PARENT) then kept + [c]
    else if kept != [] then kept[..|kept| - 1]
    else kept
  }

  function FoldComps(comps: seq<Bytes>, rooted: bool, kept: seq<Bytes>): seq<Bytes>
    decreases comps
  {
    if comps == [] then kept
    else FoldComps(comps[1..], rooted, KeepComp(kept, comps[0], rooted))
  }

  /** One leading slash, or two, is kept; three or more count as one. */
  function InitialSlashes(s: Bytes): nat {
    if !StartsWith(s, [SLASH]) then 0
    else if StartsWith(s, [SLASH, SLASH]) && !StartsWith(s, [SLASH, SLASH, SLASH]) then 2
    else 1
  }

  function Slashes(n: nat): Bytes {
    seq(n, _ => SLASH)
  }

  function NormPath(s: Bytes): Bytes {
    if s == [] then [DOT]
    else
      var n := InitialSlashes(s);
      var path := Slashes(n) + JoinSlash(FoldComps(SplitSlash(s), n > 0, []));
      if path == [] then [DOT] else path
  }

  function ForwardSlashes(s: Bytes): (r: Bytes)
    ensures |r| == |s|
  {
    seq(|s|, i requires 0 <= i < |s| => if s[i] == BACKSLASH then SLASH else s[i])
  }

  function XNormPath(s: Bytes): Bytes {
    NormPath(ForwardSlashes(NormPath(s)))
  }

  // ---------- stripping ----------

  predicate StartsWithParent(f: Bytes) {
    |f| >= 3 && f[0] == DOT && f[1] == DOT && f[2] == SLASH
  }

  function DropParents(f: Bytes): Bytes {
    if StartsWithParent(f) then DropParents(f[3..]) else f
  }

  function SlashRun(f: Bytes): (k: nat)
    ensures k <= |f| && forall i :: 0 <= i < k ==> IsSlash(f[i])
    ensures f != [] && IsSlash(f[0]) ==> k > 0
  {
    if f != [] && IsSlash(f[0]) then
      var k := SlashRun(f[1..]);
      assert forall i :: 1 <= i < k + 1 ==> f[i] == f[1..][i - 1];
      1 + k
    else 0
  }

  /** One round of `xstrip`: a drive with its slashes, or a run of slashes, is removed. */
  function StripOnce(f: Bytes): (r: Bytes)
    requires IsAbs(f)
    ensures |r| < |f|
  {
    if HasDrive(f) then f[2 + SlashRun(f[2..])..] else f[SlashRun(f)..]
  }

  function StripAbs(f: Bytes): (r: Bytes)
    ensures !IsAbs(r)
    decreases |f|
  {
    if IsAbs(f) then StripAbs(StripOnce(f)) else f
  }

  /** `xstrip`: every round shortens the name. */
  method XStrip(filename: Bytes) returns (f: Bytes)
    ensures f == StripAbs(filename) && !IsAbs(f)
  {
    f := filename;
    while IsAbs(f)
      invariant StripAbs(f) == StripAbs(filename)
      decreases |f|
    {
      f := StripOnce(f);
    }
  }

  const DEV_NULL: Bytes := [SLASH, 100, 101, 118, SLASH, 110, 117, 108, 108]

  function StripPrefix(f: Bytes, letter: Byte, vcs: bool): Bytes {
    if vcs && f != DEV_NULL && StartsWith(f, [letter, SLASH]) then f[2..] else f
  }

  function Normalized(f: Bytes, letter: Byte, vcs: bool): Bytes {
    StripAbs(DropParents(XNormPath(StripPrefix(f, letter, vcs))))
  }

  /** `_normalize_filenames` for one name; `warned` counts the warnings it gives. */
  method NormalizeName(name: Bytes, letter: Byte, vcs: bool) returns (f: Bytes, parents: bool, absolute: bool)
    ensures f == Normalized(name, letter, vcs)
    ensures parents <==> StartsWithParent(XNormPath(StripPrefix(name, letter, vcs)))
    ensures absolute <==> IsAbs(DropParents(XNormPath(StripPrefix(name, letter, vcs))))
  {
    f := name;
    if vcs && f != DEV_NULL && StartsWith(f, [letter, SLASH]) {
      f := f[2..];
    }
    f := XNormPath(f);
    ghost var normal := f;
    parents := StartsWithParent(f);
    while StartsWithParent(f)
      invariant DropParents(f) == DropParents(normal)
      decreases |f|
    {
      f := f[3..];
    }
    absolute := IsAbs(f);
    f := XStrip(f);
  }

  // ---------- parent references ----------

  /** A component `..` begins at this position. */
  predicate ParentAt(f: Bytes, i: nat) {
    && i + 2 <= |f| && f[i] == DOT && f[i + 1] == DOT
    && (i == 0 || f[i - 1] == SLASH)
    && (i + 2 == |f| || f[i + 2] == SLASH)
  }

  predicate ParentFree(f: Bytes) {
    forall i :: 0 <= i < |f| ==> !ParentAt(f, i)
  }

  /** Nothing but `../` stands before this position. */
  predicate OnlyParentsBefore(f: Bytes, i: nat)
    requires i <= |f|
  {
    i == 0 || (i >= 3 && StartsWithParent(f) && OnlyParentsBefore(f[3..], i - 3))
  }

  /** Parent references stand only at the front. */
  predicate ParentsLead(f: Bytes) {
    forall i :: 0 <= i < |f| && ParentAt(f, i) ==> OnlyParentsBefore(f, i)
  }

  predicate PlainComps(comps: seq<Bytes>) {
    forall i :: 0 <= i < |comps| ==> SLASH !in comps[i] && comps[i] != []
  }

  predicate NoParentComps(comps: seq<Bytes>) {
    forall i :: 0 <= i < |comps| ==> comps[i] != PARENT
  }

  predicate LeadingParents(comps: seq<Bytes>) {
    forall i, j :: 0 <= i < j < |comps| && comps[j] == PARENT ==> comps[i] == PARENT
  }

  lemma {:induction false} SplitSlashIs(s: Bytes)
    ensures SplitSlash(s) != [] && forall i :: 0 <= i < |SplitSlash(s)| ==> SLASH !in SplitSlash(s)[i]
  {
    if s != [] {
      SplitSlashIs(s[1..]);
    }
  }

  lemma {:induction false} FoldCompsIs(comps: seq<Bytes>, rooted: bool, kept: seq<Bytes>)
    requires forall i :: 0 <= i < |comps| ==> SLASH !in comps[i]
    requires PlainComps(kept) && LeadingParents(kept) && (rooted ==> NoParentComps(kept))
    ensures var r := FoldComps(comps, rooted, kept);
      PlainComps(r) && LeadingParents(r) && (rooted ==> NoParentComps(r))
    decreases comps
  {
    if comps != [] {
      FoldCompsIs(comps[1..], rooted, KeepComp(kept, comps[0], rooted));
    }
  }

  lemma {:induction false} NoParentsIsFree(comps: seq<Bytes>)
    requires PlainComps(comps) && NoParentComps(comps)
    ensures ParentFree(JoinSlash(comps))
  {
    if |comps| > 0 {
      var f, c := JoinSlash(comps), comps[0];
      if |comps| > 1 {
        NoParentsIsFree(comps[1..]);
      }
      forall i | 0 <= i < |f|
        ensures !ParentAt(f, i)
      {
        if i > |c| {
          assert f[i..] == JoinSlash(comps[1..])[i - |c| - 1..];
          assert !ParentAt(JoinSlash(comps[1..]), i - |c| - 1);
        } else if i > 0 {
          assert f[i - 1] == c[i - 1] && c[i - 1] in c;
        } else if |c| == 2 {
          assert c == [c[0], c[1]];
        } else if |c| > 2 {
          assert f[2] == c[2] && c[2] in c;
        }
      }
    }
  }

  lemma {:induction false} LeadingIsLead(comps: seq<Bytes>)
    requires PlainComps(comps) && LeadingParents(comps)
    ensures ParentsLead(JoinSlash(comps))
  {
    if comps == [] || comps[0] != PARENT {
      NoParentsIsFree(comps);
    } else if |comps| > 1 {
      LeadingIsLead(comps[1..]);
      var f, g := JoinSlash(comps), JoinSlash(comps[1..]);
      assert f == [DOT, DOT, SLASH] + g && f[3..] == g;
      forall i | 0 <= i < |f| && ParentAt(f, i)
        ensures OnlyParentsBefore(f, i)
      {
        if i > 0 {
          assert i >= 3;
          assert ParentAt(g, i - 3);
        }
      }
    } else {
      assert JoinSlash(comps) == PARENT;
    }
  }

  lemma RootedIsFree(n: nat, g: Bytes)
    requires n > 0 && ParentFree(g)
    ensures ParentFree(Slashes(n) + g)
  {
    var f := Slashes(n) + g;
    forall i | 0 <= i < |f|
      ensures !ParentAt(f, i)
    {
      if i >= n {
        assert f[i..] == g[i - n..];
        assert !ParentAt(g, i - n);
      }
    }
  }

  /** A folded path has its parent references at the front, and a rooted one has none. */
  lemma NormPathLeads(s: Bytes)
    ensures ParentsLead(NormPath(s))
  {
    if s != [] {
      var n := InitialSlashes(s);
      var comps := FoldComps(SplitSlash(s), n > 0, []);
      SplitSlashIs(s);
      FoldCompsIs(SplitSlash(s), n > 0, []);
      if n > 0 {
        NoParentsIsFree(comps);
        RootedIsFree(n, JoinSlash(comps));
      } else {
        LeadingIsLead(comps);
        assert Slashes(0) + JoinSlash(comps) == JoinSlash(comps);
      }
    }
  }

  /** A name made of parent references and nothing else. */
  predicate AllParents(f: Bytes) {
    f == PARENT || (StartsWithParent(f) && AllParents(f[3..]))
  }

  lemma {:induction false} DropParentsIs(f: Bytes)
    requires ParentsLead(f)
    ensures var g := DropParents(f);
      && !StartsWithParent(g) && ParentsLead(g)
      && (g == PARENT <==> AllParents(f))
    decreases |f|
  {
    if StartsWithParent(f) {
      var g := f[3..];
      forall i | 0 <= i < |g| && ParentAt(g, i)
        ensures OnlyParentsBefore(g, i)
      {
        assert ParentAt(f, i + 3);
      }
      DropParentsIs(g);
    }
  }

  lemma LeadWithoutFrontIsFree(g: Bytes)
    requires ParentsLead(g) && !StartsWithParent(g)
    ensures g == PARENT || ParentFree(g)
  {
    if g != PARENT && |g| >= 2 {
      assert g[..2] == [g[0], g[1]];
      if |g| == 2 { assert g == [g[0], g[1]]; }
    }
  }

  /** What is left after a slash has no parent reference that was not there before. */
  lemma SuffixIsFree(f: Bytes, k: nat)
    requires ParentFree(f) && 0 < k <= |f| && f[k - 1] == SLASH
    ensures ParentFree(f[k..])
  {
    forall i | 0 <= i < |f[k..]|
      ensures !ParentAt(f[k..], i)
    {
      assert !ParentAt(f, k + i);
    }
  }

  /** Names without backslashes keep that, so every strip ends behind a forward slash. */
  lemma {:induction false} StripAbsIsFree(f: Bytes)
    requires ParentFree(f) && BACKSLASH !in f
    ensures ParentFree(StripAbs(f))
    decreases |f|
  {
    if IsAbs(f) {
      var k := if HasDrive(f) then 2 + SlashRun(f[2..]) else SlashRun(f);
      assert IsSlash(f[k - 1]) && f[k - 1] in f;
      SuffixIsFree(f, k);
      StripAbsIsFree(f[k..]);
    }
  }

  lemma {:induction false} SplitSlashBytes(s: Bytes, b: Byte)
    requires b !in s
    ensures forall i :: 0 <= i < |SplitSlash(s)| ==> b !in SplitSlash(s)[i]
  {
    if s != [] {
      SplitSlashBytes(s[1..], b);
    }
  }

  lemma {:induction false} FoldCompsBytes(comps: seq<Bytes>, rooted: bool, kept: seq<Bytes>, b: Byte)
    requires forall i :: 0 <= i < |comps| ==> b !in comps[i]
    requires forall i :: 0 <= i < |kept| ==> b !in kept[i]
    ensures forall i :: 0 <= i < |FoldComps(comps, rooted, kept)| ==> b !in FoldComps(comps, rooted, kept)[i]
    decreases comps
  {
    if comps != [] {
      FoldCompsBytes(comps[1..], rooted, KeepComp(kept, comps[0], rooted), b);
    }
  }

  lemma {:induction false} JoinSlashBytes(comps: seq<Bytes>, b: Byte)
    requires b != SLASH && forall i :: 0 <= i < |comps| ==> b !in comps[i]
    ensures b !in JoinSlash(comps)
  {
    if |comps| > 1 {
      JoinSlashBytes(comps[1..], b);
    }
  }

  lemma XNormPathIs(s: Bytes)
    ensures ParentsLead(XNormPath(s)) && BACKSLASH !in XNormPath(s)
  {
    var t := ForwardSlashes(NormPath(s));
    NormPathLeads(t);
    if t != [] {
      var n := InitialSlashes(t);
      SplitSlashBytes(t, BACKSLASH);
      FoldCompsBytes(SplitSlash(t), n > 0, [], BACKSLASH);
      JoinSlashBytes(FoldComps(SplitSlash(t), n > 0, []), BACKSLASH);
    }
  }

  lemma {:induction false} DropParentsBytes(f: Bytes, b: Byte)
    requires b !in f
    ensures b !in DropParents(f)
    decreases |f|
  {
    if StartsWithParent(f) {
      DropParentsBytes(f[3..], b);
    }
  }

  /** For every name and every kind of patch: the normalised name is not absolute on any
      platform and does not start with `../`. It holds a parent reference exactly when the
      folded name was nothing but parent references, and then it is `..`. */
  lemma NormalizedIsSafe(name: Bytes, letter: Byte, vcs: bool)
    ensures var r := Normalized(name, letter, vcs);
      && !IsAbs(r) && !StartsWithParent(r)
      && (ParentFree(r) <==> !AllParents(XNormPath(StripPrefix(name, letter, vcs))))
      && (!ParentFree(r) ==> r == PARENT)
  {
    var f := XNormPath(StripPrefix(name, letter, vcs));
    var g := DropParents(f);
    XNormPathIs(StripPrefix(name, letter, vcs));
    DropParentsIs(f);
    DropParentsBytes(f, BACKSLASH);
    LeadWithoutFrontIsFree(g);
    if g == PARENT {
      assert ParentAt(g, 0);
    } else {
      StripAbsIsFree(g);
      assert !ParentAt(StripAbs(g), 0) || StripAbs(g) == [];
    }
  }

  /** The name `..` itself passes through unchanged, although references to parent
      directories are meant to be removed. */
  lemma ParentItselfIsKept()
    ensures Normalized(PARENT, 97, false) == PARENT && !ParentFree(Normalized(PARENT, 97, false))
  {
    assert ForwardSlashes(PARENT) == PARENT;
    assert SplitSlash(PARENT) == [PARENT] by {
      var one: Bytes := [DOT];
      var none: Bytes := [];
      assert PARENT[1..] == one && one[1..] == none;
      assert SplitSlash(none) == [none] && [none][1..] == [];
      assert one + none == one && [one[0]] + none == one;
      assert SplitSlash(one) == [one] && [one][1..] == [];
      assert [PARENT[0]] + one == PARENT;
    }
    assert [PARENT][1..] == [];
    assert FoldComps([PARENT], false, []) == [PARENT];
    assert Slashes(0) + PARENT == PARENT;
    assert NormPath(PARENT) == PARENT;
    assert ParentAt(PARENT, 0);
  }

  // ---------- what the normalisation takes away, and what it leaves ----------

  predicate PlainComp(c: Bytes) {
    SLASH !in c && BACKSLASH !in c && c != [] && c != [DOT] && c != PARENT
  }

  /** Components that stand for themselves. */
  predicate PlainPath(comps: seq<Bytes>) {
    comps != [] && forall i :: 0 <= i < |comps| ==> PlainComp(comps[i])
  }

  lemma {:induction false} SplitOne(c: Bytes)
    requires SLASH !in c
    ensures SplitSlash(c) == [c]
  {
    if c != [] {
      SplitOne(c[1..]);
      assert [c[0]] + c[1..] == c;
    }
  }

  lemma {:induction false} SplitCons(c: Bytes, s: Bytes)
    requires SLASH !in c
    ensures SplitSlash(c + [SLASH] + s) == [c] + SplitSlash(s)
  {
    var whole := c + [SLASH] + s;
    if c == [] {
      assert whole[1..] == s;
    } else {
      SplitCons(c[1..], s);
      assert whole[1..] == c[1..] + [SLASH] + s;
      assert [c[0]] + c[1..] == c && ([c[1..]] + SplitSlash(s))[1..] == SplitSlash(s);
    }
  }

  lemma {:induction false} SplitJoined(comps: seq<Bytes>)
    requires comps != [] && forall i :: 0 <= i < |comps| ==> SLASH !in comps[i]
    ensures SplitSlash(JoinSlash(comps)) == comps
  {
    if |comps| == 1 {
      SplitOne(comps[0]);
    } else {
      SplitJoined(comps[1..]);
      SplitCons(comps[0], JoinSlash(comps[1..]));
    }
  }

  lemma {:induction false} FoldKeeps(comps: seq<Bytes>, rooted: bool, kept: seq<Bytes>)
    requires forall i :: 0 <= i < |comps| ==> comps[i] != [] && comps[i] != [DOT] && comps[i] != PARENT
    ensures FoldComps(comps, rooted, kept) == kept + comps
    decreases comps
  {
    if comps != [] {
      FoldKeeps(comps[1..], rooted, kept + [comps[0]]);
      assert kept + [comps[0]] + comps[1..] == kept + comps;
    }
  }

  lemma {:induction false} FoldAppend(a: seq<Bytes>, b: seq<Bytes>, rooted: bool, kept: seq<Bytes>)
    ensures FoldComps(a + b, rooted, kept) == FoldComps(b, rooted, FoldComps(a, rooted, kept))
    decreases a
  {
    if a == [] {
      assert a + b == b;
    } else {
      assert (a + b)[1..] == a[1..] + b;
      FoldAppend(a[1..], b, rooted, KeepComp(kept, a[0], rooted));
    }
  }

  lemma FoldOne(c: Bytes, rooted: bool, kept: seq<Bytes>)
    ensures FoldComps([c], rooted, kept) == KeepComp(kept, c, rooted)
  {
    assert [c][1..] == [];
  }

  /** Empty components and single dots do not count, wherever they stand. */
  lemma DotsFold(a: seq<Bytes>, c: Bytes, b: seq<Bytes>, rooted: bool)
    requires c == [] || c == [46]
    ensures FoldComps(a + [c] + b, rooted, []) == FoldComps(a + b, rooted, [])
  {
    FoldAppend(a + [c], b, rooted, []);
    FoldAppend(a, [c], rooted, []);
    FoldAppend(a, b, rooted, []);
    FoldOne(c, rooted, FoldComps(a, rooted, []));
  }

  /** A parent reference takes away the component before it. */
  lemma ParentFolds(a: seq<Bytes>, c: Bytes, b: seq<Bytes>, rooted: bool)
    requires PlainComp(c)
    ensures FoldComps(a + [c, [46, 46]] + b, rooted, []) == FoldComps(a + b, rooted, [])
  {
    var kept := FoldComps(a, rooted, []);
    assert [c, PARENT] == [c] + [PARENT];
    FoldAppend(a + [c, PARENT], b, rooted, []);
    FoldAppend(a, [c, PARENT], rooted, []);
    FoldAppend([c], [PARENT], rooted, kept);
    FoldAppend(a, b, rooted, []);
    FoldOne(c, rooted, kept);
    FoldOne(PARENT, rooted, kept + [c]);
    assert (kept + [c])[..|kept|] == kept;
  }

  /** Above the root there is nothing. */
  lemma RootHasNoParent(b: seq<Bytes>)
    ensures FoldComps([PARENT] + b, true, []) == FoldComps(b, true, [])
  {
    FoldAppend([PARENT], b, true, []);
    FoldOne(PARENT, true, []);
  }

  lemma PathStart(comps: seq<Bytes>)
    requires PlainPath(comps)
    ensures JoinSlash(comps) != [] && JoinSlash(comps)[0] != SLASH && JoinSlash(comps)[0] == comps[0][0]
  {
    assert PlainComp(comps[0]) && comps[0][0] in comps[0];
  }

  lemma NoSlashFront(f: Bytes)
    requires f != [] && f[0] != SLASH
    ensures InitialSlashes(f) == 0
  {
  }

  /** A path that does not start with a slash is folded component by component. */
  lemma NormPathOf(comps: seq<Bytes>)
    requires comps != [] && forall i :: 0 <= i < |comps| ==> SLASH !in comps[i]
    requires comps[0] != [] && FoldComps(comps, false, []) != [] && JoinSlash(FoldComps(comps, false, [])) != []
    ensures NormPath(JoinSlash(comps)) == JoinSlash(FoldComps(comps, false, []))
  {
    SplitJoined(comps);
    assert comps[0][0] in comps[0] && JoinSlash(comps)[0] == comps[0][0];
    NoSlashFront(JoinSlash(comps));
    assert Slashes(0) + JoinSlash(FoldComps(comps, false, [])) == JoinSlash(FoldComps(comps, false, []));
  }

  lemma PlainStaysFolded(comps: seq<Bytes>)
    requires PlainPath(comps)
    ensures NormPath(JoinSlash(comps)) == JoinSlash(comps)
  {
    assert forall i :: 0 <= i < |comps| ==> PlainComp(comps[i]);
    FoldKeeps(comps, false, []);
    assert [] + comps == comps;
    PathStart(comps);
    NormPathOf(comps);
  }

  lemma ForwardIsSame(s: Bytes)
    requires BACKSLASH !in s
    ensures ForwardSlashes(s) == s
  {
    assert forall i :: 0 <= i < |s| ==> s[i] in s;
  }

  lemma PlainBytes(comps: seq<Bytes>)
    requires PlainPath(comps)
    ensures BACKSLASH !in JoinSlash(comps)
  {
    assert forall i :: 0 <= i < |comps| ==> PlainComp(comps[i]);
    JoinSlashBytes(comps, BACKSLASH);
  }

  /** A relative name of components that stand for themselves. */
  predicate PlainName(f: Bytes, comps: seq<Bytes>) {
    PlainPath(comps) && f == JoinSlash(comps) && !HasDrive(f)
  }

  lemma PlainIsRelative(f: Bytes, comps: seq<Bytes>)
    requires PlainName(f, comps)
    ensures f != [] && !IsSlash(f[0]) && !IsAbs(f) && !StartsWithParent(f) && BACKSLASH !in f && NormPath(f) == f
  {
    PathStart(comps);
    PlainBytes(comps);
    PlainStaysFolded(comps);
    assert f[0] in f;
    ParentIsFirst(f);
    SplitJoined(comps);
    assert PlainComp(comps[0]);
  }

  lemma ParentIsFirst(f: Bytes)
    ensures StartsWithParent(f) ==> SplitSlash(f) != [] && SplitSlash(f)[0] == PARENT
  {
    if StartsWithParent(f) {
      assert f == PARENT + [SLASH] + f[3..];
      SplitCons(PARENT, f[3..]);
    }
  }

  lemma NormalIs(f: Bytes, g: Bytes, r: Bytes, letter: Byte)
    requires XNormPath(f) == g && DropParents(g) == g && StripAbs(g) == r
    ensures Normalized(f, letter, false) == r
  {
  }

  /** Such a name stays as it is. */
  lemma PlainStays(f: Bytes, comps: seq<Bytes>, letter: Byte)
    requires PlainName(f, comps)
    ensures Normalized(f, letter, false) == f
  {
    PlainIsRelative(f, comps);
    ForwardIsSame(f);
  }

  /** In a Git or Mercurial patch it loses the prefix, and in another one it keeps it. */
  lemma PrefixIsStripped(f: Bytes, comps: seq<Bytes>, letter: Byte)
    requires PlainName(f, comps) && PlainComp([letter])
    ensures Normalized([letter, 47] + f, letter, true) == f
    ensures Normalized([letter, 47] + f, letter, false) == [letter, 47] + f
    ensures !([letter, 47] <= f) ==> Normalized(f, letter, true) == f
  {
    var g := [letter, 47] + f;
    PlainStays(f, comps, letter);
    assert StripPrefix(g, letter, true) == f by {
      assert letter in [letter] && g[0] == letter;
      assert g[2..] == f && g != DEV_NULL;
    }
    assert g == JoinSlash([[letter]] + comps) by {
      assert ([[letter]] + comps)[1..] == comps;
    }
    assert PlainPath([[letter]] + comps);
    PlainStays(g, [[letter]] + comps, letter);
  }

  function Empties(n: nat): (r: seq<Bytes>)
    ensures |r| == n && forall i :: 0 <= i < n ==> r[i] == []
  {
    seq(n, _ => [])
  }

  lemma {:induction false} SplitSlashes(n: nat, f: Bytes)
    ensures SplitSlash(Slashes(n) + f) == Empties(n) + SplitSlash(f)
  {
    if n == 0 {
      assert Slashes(0) + f == f && Empties(0) + SplitSlash(f) == SplitSlash(f);
    } else {
      SplitSlashes(n - 1, f);
      assert (Slashes(n) + f)[1..] == Slashes(n - 1) + f;
      assert [[]] + (Empties(n - 1) + SplitSlash(f)) == Empties(n) + SplitSlash(f);
    }
  }

  lemma {:induction false} EmptiesFold(n: nat, rooted: bool, kept: seq<Bytes>)
    ensures FoldComps(Empties(n), rooted, kept) == kept
  {
    if n > 0 {
      assert Empties(n)[1..] == Empties(n - 1);
      EmptiesFold(n - 1, rooted, kept);
    }
  }

  /** Slashes in front are counted as one or two. */
  lemma RootedFolds(f: Bytes, comps: seq<Bytes>, n: nat) returns (m: nat)
    requires PlainName(f, comps) && n > 0
    ensures 1 <= m <= 2 && NormPath(Slashes(n) + f) == Slashes(m) + f
  {
    var g := Slashes(n) + f;
    PlainIsRelative(f, comps);
    SplitSlashes(n, f);
    SplitJoined(comps);
    FoldAppend(Empties(n), comps, true, []);
    EmptiesFold(n, true, []);
    assert forall i :: 0 <= i < |comps| ==> PlainComp(comps[i]);
    FoldKeeps(comps, true, []);
    assert [] + comps == comps;
    m := InitialSlashes(g);
    assert g[0] == SLASH && [SLASH] <= g;
  }

  lemma {:induction false} SlashRunIs(m: nat, f: Bytes)
    requires f != [] && !IsSlash(f[0])
    ensures SlashRun(Slashes(m) + f) == m
  {
    if m == 0 {
      assert Slashes(0) + f == f;
    } else {
      assert (Slashes(m) + f)[1..] == Slashes(m - 1) + f;
      SlashRunIs(m - 1, f);
    }
  }

  lemma RootedIsStripped(f: Bytes, m: nat)
    requires f != [] && !IsAbs(f) && m > 0
    ensures StripAbs(Slashes(m) + f) == f
  {
    SlashRunIs(m, f);
    var g := Slashes(m) + f;
    assert g[m..] == f && IsAbs(g) && StripOnce(g) == f;
  }

  /** Slashes in front, however many, are taken away. */
  lemma SlashesAreStripped(f: Bytes, comps: seq<Bytes>, n: nat, letter: Byte)
    requires PlainName(f, comps) && n > 0
    ensures Normalized(Slashes(n) + f, letter, false) == f
  {
    PlainIsRelative(f, comps);
    var m := RootedFolds(f, comps, n);
    ForwardIsSame(Slashes(m) + f);
    var k := RootedFolds(f, comps, m);
    RootedIsStripped(f, k);
    NormalIs(Slashes(n) + f, Slashes(k) + f, f, letter);
  }

  function Parents(k: nat): (r: seq<Bytes>)
    ensures |r| == k && forall i :: 0 <= i < k ==> r[i] == [46, 46]
  {
    seq(k, _ => PARENT)
  }

  lemma {:induction false} ParentsKept(k: nat, kept: seq<Bytes>)
    requires forall i :: 0 <= i < |kept| ==> kept[i] == PARENT
    ensures FoldComps(Parents(k), false, kept) == kept + Parents(k)
  {
    if k > 0 {
      assert Parents(k)[1..] == Parents(k - 1);
      ParentsKept(k - 1, kept + [PARENT]);
      assert kept + [PARENT] + Parents(k - 1) == kept + Parents(k);
    }
  }

  lemma {:induction false} ParentsDropped(k: nat, comps: seq<Bytes>)
    requires comps != [] && !StartsWithParent(JoinSlash(comps))
    ensures DropParents(JoinSlash(Parents(k) + comps)) == JoinSlash(comps)
  {
    if k == 0 {
      assert Parents(0) + comps == comps;
    } else {
      ParentsDropped(k - 1, comps);
      var all := Parents(k) + comps;
      assert all[1..] == Parents(k - 1) + comps && all[0] == PARENT;
      assert JoinSlash(all) == PARENT + [SLASH] + JoinSlash(all[1..]);
      assert JoinSlash(all)[3..] == JoinSlash(all[1..]);
    }
  }

  lemma ParentsFolded(f: Bytes, comps: seq<Bytes>, k: nat)
    requires PlainName(f, comps)
    ensures NormPath(JoinSlash(Parents(k) + comps)) == JoinSlash(Parents(k) + comps)
  {
    var all := Parents(k) + comps;
    FoldAppend(Parents(k), comps, false, []);
    ParentsKept(k, []);
    assert [] + Parents(k) == Parents(k);
    assert forall i :: 0 <= i < |comps| ==> PlainComp(comps[i]);
    FoldKeeps(comps, false, Parents(k));
    assert JoinSlash(all) != [] by {
      assert all[0] != [];
    }
    NormPathOf(all);
  }

  /** So are parent references in front. */
  lemma ParentsAreStripped(f: Bytes, comps: seq<Bytes>, k: nat, letter: Byte)
    requires PlainName(f, comps)
    ensures Normalized(JoinSlash(Parents(k) + comps), letter, false) == f
  {
    var g := JoinSlash(Parents(k) + comps);
    PlainIsRelative(f, comps);
    ParentsFolded(f, comps, k);
    assert forall i :: 0 <= i < |comps| ==> PlainComp(comps[i]);
    JoinSlashBytes(Parents(k) + comps, BACKSLASH);
    ForwardIsSame(g);
    ParentsDropped(k, comps);
  }

  lemma DriveFolds(d: Byte, f: Bytes, comps: seq<Bytes>)
    requires PlainName(f, comps) && IsWord(d)
    ensures NormPath([d, COLON, SLASH] + f) == [d, COLON, SLASH] + f && BACKSLASH !in [d, COLON, SLASH] + f
  {
    PlainIsRelative(f, comps);
    var all := [[d, COLON]] + comps;
    assert all[1..] == comps;
    assert JoinSlash(all) == [d, COLON] + [SLASH] + f == [d, COLON, SLASH] + f;
    assert forall i :: 0 <= i < |comps| ==> PlainComp(comps[i]);
    assert PlainPath(all);
    PlainStaysFolded(all);
  }

  /** And a drive in front. */
  lemma DriveIsStripped(d: Byte, f: Bytes, comps: seq<Bytes>, letter: Byte)
    requires PlainName(f, comps) && IsWord(d)
    ensures Normalized([d, 58, 47] + f, letter, false) == f
  {
    var g := [d, COLON, SLASH] + f;
    PlainIsRelative(f, comps);
    DriveFolds(d, f, comps);
    ForwardIsSame(g);
    assert g[2..] == Slashes(1) + f;
    SlashRunIs(1, f);
    assert g[3..] == f;
    assert IsAbs(g) && StripOnce(g) == f;
    NormalIs(g, g, f, letter);
  }

  /** A plain name with slashes or parent references in front, or neither. */
  predicate Decorated(name: Bytes, f: Bytes, comps: seq<Bytes>, parents: nat, slashes: nat) {
    && PlainName(f, comps) && (parents == 0 || slashes == 0)
    && name == if slashes > 0 then Slashes(slashes) + f else JoinSlash(Parents(parents) + comps)
  }

  lemma ParentsInFront(comps: seq<Bytes>, k: nat)
    requires comps != [] && !StartsWithParent(JoinSlash(comps))
    ensures StartsWithParent(JoinSlash(Parents(k) + comps)) <==> k > 0
  {
    var all := Parents(k) + comps;
    if k == 0 {
      assert all == comps;
    } else {
      assert all[0] == PARENT;
      assert JoinSlash(all) == PARENT + [SLASH] + JoinSlash(all[1..]);
    }
  }

  /** Both kinds are taken away, and each is noticed. */
  lemma DecoratedIs(name: Bytes, f: Bytes, comps: seq<Bytes>, parents: nat, slashes: nat, letter: Byte)
    requires Decorated(name, f, comps, parents, slashes)
    ensures Normalized(name, letter, false) == f
    ensures StartsWithParent(XNormPath(name)) <==> parents > 0
    ensures IsAbs(DropParents(XNormPath(name))) <==> slashes > 0
  {
    PlainIsRelative(f, comps);
    if slashes > 0 {
      SlashesAreStripped(f, comps, slashes, letter);
      var m := RootedFolds(f, comps, slashes);
      ForwardIsSame(Slashes(m) + f);
      var k := RootedFolds(f, comps, m);
      assert XNormPath(name)[0] == SLASH;
    } else {
      ParentsAreStripped(f, comps, parents, letter);
      ParentsFolded(f, comps, parents);
      assert forall i :: 0 <= i < |comps| ==> PlainComp(comps[i]);
      JoinSlashBytes(Parents(parents) + comps, BACKSLASH);
      ForwardIsSame(name);
      ParentsDropped(parents, comps);
      ParentsInFront(comps, parents);
    }
  }
}
