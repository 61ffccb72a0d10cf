/** `apply` and `revert` for a whole patch set, over named files. */
module SetApply {
  import opened Options
  import opened Lines
  import opened Hunks
  import opened ParserSteps
  import opened Names
  import opened Revert
  import opened Apply
  import opened Validator
  import PatchStream
  import opened PatchSets

  type Files = map<Bytes, seq<Line>>

  const OLD_PREFIX: Bytes := [OLD_LETTER, SLASH]
  const NEW_PREFIX: Bytes := [NEW_LETTER, SLASH]

  predicate Prefixed(source: Bytes, target: Bytes) {
    StartsWith(source, OLD_PREFIX) && StartsWith(target, NEW_PREFIX)
  }

  /** `findfile`: the source name, the target name, or either without its prefix. */
  function FindFile(files: Files, source: Bytes, target: Bytes): (r: Option<Bytes>)
    ensures r.Some? ==> r.value in files
    ensures r.None? ==> source !in files && target !in files
  {
    if source in files then Some(source)
    else if target in files then Some(target)
    else if Prefixed(source, target) && source[2..] in files then Some(source[2..])
    else if Prefixed(source, target) && target[2..] in files then Some(target[2..])
    else None
  }

  /** A patch that names its source and has hunks, as every parsed one. */
  predicate Usable(p: Patch) {
    p.source.Some? && p.hunks != []
  }

  predicate AllUsable(items: seq<Patch>) {
    forall i :: 0 <= i < |items| ==> Usable(items[i])
  }

  /** All names under which the patch looks for its file. */
  function NamesOf(p: Patch): set<Bytes>
    requires Usable(p)
  {
    {p.source.value, p.target} +
    if Prefixed(p.source.value, p.target) then {p.source.value[2..], p.target[2..]} else {}
  }

  /** The file to patch; where there is none, the one that a new file would be. */
  function Chosen(files: Files, p: Patch): (f: Bytes)
    requires Usable(p)
    ensures f in NamesOf(p) && (f !in files ==> f == p.target && FindFile(files, p.source.value, p.target).None?)
  {
    match FindFile(files, p.source.value, p.target)
    case Some(f) => f
    case None => p.target
  }

  function Contents(files: Files, f: Bytes): Target {
    if f in files then Text(files[f]) else Missing
  }

  function Stored(files: Files, f: Bytes, t: Target): (r: Files)
    ensures Contents(r, f) == t
    ensures forall n :: n != f ==> Contents(r, n) == Contents(files, n)
  {
    match t
    case Missing => files - {f}
    case Text(lines) => files[f := lines]
  }

  datatype SetResult = SetResult(files: Files, errors: nat, raised: bool)

  function ApplyOne(files: Files, p: Patch): SetResult
    requires Usable(p)
  {
    var f := Chosen(files, p);
    match Applied(Contents(files, f), p.hunks)
    case Raises => SetResult(files, 0, true)
    case Done(after, errors) => SetResult(Stored(files, f, after), errors, false)
  }

  /** One patch after the other, until one raises. */
  function ApplySet(files: Files, items: seq<Patch>): SetResult
    requires AllUsable(items)
  {
    if items == [] then SetResult(files, 0, false)
    else
      var before := ApplySet(files, items[..|items| - 1]);
      if before.raised then before
      else
        var o := ApplyOne(before.files, items[|items| - 1]);
        SetResult(o.files, before.errors + o.errors, o.raised)
  }

  /** `_reverse`: every patch is turned around, their order is kept. */
  function ReverseSet(items: seq<Patch>): (r: seq<Patch>)
    ensures |r| == |items| && (AllUsable(items) ==> AllUsable(r))
    ensures forall i :: 0 <= i < |items| ==> r[i] == ReversePatch(items[i])
  {
    seq(|items|, i requires 0 <= i < |items| => ReversePatch(items[i]))
  }

  /** The files under the working directory, changed in place. */
  class Folder {
    var files: Files

    ghost predicate Valid()
      reads this
    {
      forall f :: f in files ==> IsFile(files[f])
    }

    constructor (files: Files)
      requires forall f :: f in files ==> IsFile(files[f])
      ensures this.files == files && Valid()
    {
      this.files := files;
    }

    method ApplyPatch(p: Patch) returns (errors: nat, raised: bool)
      requires Valid() && Usable(p)
      modifies this
      ensures Valid() && SetResult(files, errors, raised) == ApplyOne(old(files), p)
    {
      var found := FindFile(files, p.source.value, p.target);
      var name := match found case Some(f) => f case None => p.target;
      var r := ApplyToFile(Contents(files, name), p.hunks);
      match r {
        case Raises => return 0, true;
        case Done(Missing, e) =>
          files := files - {name};
          return e, false;
        case Done(Text(lines), e) =>
          AppliedIsFile(Contents(files, name), p.hunks);
          files := files[name := lines];
          return e, false;
      }
    }

    /** `apply` on the patches of a set, in their order. */
    method Apply(items: seq<Patch>) returns (errors: nat, raised: bool)
      requires Valid() && AllUsable(items)
      modifies this
      ensures Valid() && SetResult(files, errors, raised) == ApplySet(old(files), items)
    {
      errors, raised := 0, false;
      var i := 0;
      while i < |items| && !raised
        invariant Valid() && i <= |items| && (raised ==> i > 0)
        invariant SetResult(files, errors, raised) == ApplySet(old(files), items[..i])
      {
        SetNext(old(files), items, i);
        var more;
        more, raised := ApplyPatch(items[i]);
        errors := errors + more;
        i := i + 1;
      }
      if raised {
        RaisedStays(old(files), items, i);
      }
      assert items[..|items|] == items;
    }

    /** `revert`: a copy of the set is turned around and applied; the set stays as it is. */
    method Revert(patches: PatchSet) returns (errors: nat, raised: bool)
      requires Valid() && AllUsable(patches.items)
      modifies this
      ensures Valid() && SetResult(files, errors, raised) == ApplySet(old(files), ReverseSet(patches.items))
    {
      var reverted := new PatchSet();
      reverted.items := patches.items;
      reverted.Reverse();
      assert reverted.items == ReverseSet(patches.items);
      errors, raised := Apply(reverted.items);
    }
  }

  lemma SetNext(files: Files, items: seq<Patch>, i: nat)
    requires AllUsable(items) && i < |items| && !ApplySet(files, items[..i]).raised
    ensures var before := ApplySet(files, items[..i]);
      var o := ApplyOne(before.files, items[i]);
      ApplySet(files, items[..i + 1]) == SetResult(o.files, before.errors + o.errors, o.raised)
  {
    assert items[..i + 1][..i] == items[..i];
  }

  lemma PatchedIsFile(lines: seq<Line>, hs: seq<Hunk>)
    requires hs != [] && IsFile(lines)
    ensures var r := AppliedTo(lines, hs); r.Done? && r.after.Text? ==> IsFile(r.after.lines)
  {
    var out := PatchStream.Patched(lines, 0, hs);
    SplitLinesIsFile(Join(out));
    assert IsFile(WrittenAndRead(out));
  }

  lemma AppliedIsFile(file: Target, hs: seq<Hunk>)
    requires hs != [] && (file.Text? ==> IsFile(file.lines))
    ensures var r := Applied(file, hs); r.Done? && r.after.Text? ==> IsFile(r.after.lines)
  {
    PatchedIsFile(if file.Text? then file.lines else [], hs);
  }

  lemma RaisedNext(files: Files, items: seq<Patch>, n: nat)
    requires AllUsable(items) && n == |items| - 1 && ApplySet(files, items[..n]).raised
    ensures ApplySet(files, items) == ApplySet(files, items[..n])
  {
  }

  lemma {:induction false} RaisedStays(files: Files, items: seq<Patch>, i: nat)
    requires AllUsable(items) && i <= |items| && ApplySet(files, items[..i]).raised
    ensures ApplySet(files, items) == ApplySet(files, items[..i])
    decreases |items|
  {
    if i < |items| {
      var n := |items| - 1;
      var before := items[..n];
      assert before[..i] == items[..i];
      RaisedStays(files, before, i);
      RaisedNext(files, items, n);
    } else {
      assert items[..i] == items;
    }
  }

  // ---------- which file is patched ----------

  /** No file is found exactly when none has a full name or, where both prefixes are there, a
      name without its prefix. */
  lemma NothingFound(files: Files, source: Bytes, target: Bytes)
    ensures FindFile(files, source, target).None? <==>
      && source !in files && target !in files
      && forall s, t :: source == OLD_PREFIX + s && target == NEW_PREFIX + t ==> s !in files && t !in files
  {
    if Prefixed(source, target) {
      assert source == OLD_PREFIX + source[2..] && target == NEW_PREFIX + target[2..];
    }
    forall s, t | source == OLD_PREFIX + s && target == NEW_PREFIX + t
      ensures Prefixed(source, target) && source[2..] == s && target[2..] == t
    {
      WithoutPrefix(OLD_PREFIX, s, source);
      WithoutPrefix(NEW_PREFIX, t, target);
    }
  }

  lemma WithoutPrefix(prefix: Bytes, s: Bytes, whole: Bytes)
    requires whole == prefix + s
    ensures StartsWith(whole, prefix) && whole[|prefix|..] == s
  {
  }

  /** Full names come before names without prefix, source names before target names. */
  lemma FoundInOrder(files: Files, s: Bytes, t: Bytes, source: Bytes, target: Bytes)
    requires source == OLD_PREFIX + s && target == NEW_PREFIX + t
    ensures source in files ==> FindFile(files, source, target) == Some(source)
    ensures source !in files && target in files ==> FindFile(files, source, target) == Some(target)
    ensures source !in files && target !in files && s in files ==> FindFile(files, source, target) == Some(s)
    ensures source !in files && target !in files && s !in files && t in files ==>
      FindFile(files, source, target) == Some(t)
  {
    WithoutPrefix(OLD_PREFIX, s, source);
    WithoutPrefix(NEW_PREFIX, t, target);
  }

  /** Where the prefixed names are no files, a patch for `a/f` and `b/f` does what the patch for
      `f` does. */
  lemma PrefixesStripped(files: Files, p: Patch, f: Bytes)
    requires p.hunks != [] && p.source == Some([97, 47] + f) && p.target == [98, 47] + f && f in files
    requires [97, 47] + f !in files && [98, 47] + f !in files
    ensures ApplyOne(files, p) == ApplyOne(files, p.(source := Some(f), target := f))
  {
    FoundInOrder(files, f, f, OLD_PREFIX + f, NEW_PREFIX + f);
  }

  /** Where no name is a file, a new one gets the target name as it stands. */
  lemma NewFileUnderTarget(files: Files, p: Patch)
    requires Usable(p) && NewFile(p.hunks) && !RemovesFile(p.hunks)
    requires FindFile(files, p.source.value, p.target).None?
    ensures ApplyOne(files, p) ==
      SetResult(files[p.target := WrittenAndRead(PatchStream.Patched([], 0, p.hunks))], 0, false)
  {
    assert CheckFile([], p.hunks) == Checked(1, true, 0);
    assert StripAll([]) == [];
  }

  /** Any other patch for a file that is not there changes nothing and is an error. */
  lemma NoFileIsError(files: Files, p: Patch)
    requires Usable(p) && !NewFile(p.hunks) && FindFile(files, p.source.value, p.target).None?
    ensures ApplyOne(files, p) == SetResult(files, 1, false)
  {
  }

  // ---------- revert ----------

  predicate Fine(o: SetResult) {
    !o.raised && o.errors == 0
  }

  /** Applying and reverting both go through without errors, and all files are as before. */
  predicate Returns(files: Files, items: seq<Patch>)
    requires AllUsable(items)
  {
    var there := ApplySet(files, items);
    Fine(there) && ApplySet(there.files, ReverseSet(items)) == SetResult(files, 0, false)
  }

  predicate OneReturns(files: Files, p: Patch)
    requires Usable(p)
  {
    var there := ApplyOne(files, p);
    Fine(there) && ApplyOne(there.files, ReversePatch(p)) == SetResult(files, 0, false)
  }

  lemma Singleton(files: Files, p: Patch)
    requires Usable(p)
    ensures ApplySet(files, [p]) == ApplyOne(files, p)
  {
    assert [p][..0] == [];
  }

  lemma SameFiles(a: Files, b: Files)
    requires forall n :: Contents(a, n) == Contents(b, n)
    ensures a == b
  {
    forall n
      ensures n in a <==> n in b
      ensures n in a ==> a[n] == b[n]
    {
      assert Contents(a, n) == Contents(b, n);
    }
  }

  /** After the patch its file is still the one it looks for. */
  predicate SameFileAgain(files: Files, p: Patch)
    requires Usable(p)
  {
    var f := Chosen(files, p);
    Applied(Contents(files, f), p.hunks) == Done(Missing, 0) ==> Chosen(files - {f}, p) == f
  }

  lemma StillChosen(files: Files, p: Patch, after: Target)
    requires Usable(p) && after.Text?
    ensures Chosen(Stored(files, Chosen(files, p), after), p) == Chosen(files, p)
  {
  }

  /** For one patch: everything is as before exactly when its file comes back, and the patch,
      should it remove the file, makes it again under the same name. */
  lemma OneReturnsIff(files: Files, p: Patch)
    requires Usable(p)
    ensures OneReturns(files, p) <==>
      RoundTrips(Contents(files, Chosen(files, p)), p.hunks) && SameFileAgain(files, p)
  {
    var f := Chosen(files, p);
    var file := Contents(files, f);
    var r := Applied(file, p.hunks);
    if r.Done? && r.errors == 0 {
      var there := Stored(files, f, r.after);
      if r.after.Text? {
        StillChosen(files, p, r.after);
      }
      var g := Chosen(there, p);
      assert r.after.Missing? ==> there == files - {f};
      var back := Applied(Contents(there, g), ReverseAll(p.hunks));
      if back.Done? && back.errors == 0 {
        var again := Stored(there, g, back.after);
        if g == f && back.after == file {
          SameFiles(again, files);
        }
      }
    }
  }

  /** A patch that removes the file of its source name, and has another target name: reverting it
      takes a file of another name, or makes the target. */
  lemma RemovedUnderSourceName(files: Files, p: Patch)
    requires Usable(p) && p.source.value in files && p.source.value != p.target
    requires Applied(Text(files[p.source.value]), p.hunks) == Done(Missing, 0)
    ensures !OneReturns(files, p)
  {
    OneReturnsIff(files, p);
  }

  // ---------- patches of different files ----------

  /** No name of one patch is a name of another. */
  predicate Disjoint(items: seq<Patch>)
    requires AllUsable(items)
  {
    forall i, j :: 0 <= i < j < |items| ==> NamesOf(items[i]) !! NamesOf(items[j])
  }

  ghost predicate Agree(a: Files, b: Files, names: set<Bytes>) {
    forall n :: n in names ==> Contents(a, n) == Contents(b, n)
  }

  /** A patch sees and changes only files of its names. */
  lemma OneIsLocal(a: Files, b: Files, p: Patch)
    requires Usable(p) && Agree(a, b, NamesOf(p))
    ensures var x, y := ApplyOne(a, p), ApplyOne(b, p);
      x.raised == y.raised && x.errors == y.errors && Agree(x.files, y.files, NamesOf(p))
  {
    forall n | n in NamesOf(p)
      ensures (n in a) == (n in b) && (n in a ==> a[n] == b[n])
    {
      assert Contents(a, n) == Contents(b, n);
    }
    assert Chosen(a, p) == Chosen(b, p);
  }

  lemma OneKeepsOthers(files: Files, p: Patch, n: Bytes)
    requires Usable(p) && n !in NamesOf(p)
    ensures Contents(ApplyOne(files, p).files, n) == Contents(files, n)
  {
  }

  predicate EachFine(files: Files, items: seq<Patch>)
    requires AllUsable(items)
  {
    forall i :: 0 <= i < |items| ==> Fine(ApplyOne(files, items[i]))
  }

  /** Under the names of each patch the files are what this patch alone would make of them. */
  ghost predicate EachAlone(files: Files, items: seq<Patch>, done: Files)
    requires AllUsable(items)
  {
    forall i :: 0 <= i < |items| ==> Agree(done, ApplyOne(files, items[i]).files, NamesOf(items[i]))
  }

  predicate Unnamed(n: Bytes, items: seq<Patch>)
    requires AllUsable(items)
  {
    forall i :: 0 <= i < |items| ==> n !in NamesOf(items[i])
  }

  ghost predicate OthersStay(files: Files, items: seq<Patch>, done: Files)
    requires AllUsable(items)
  {
    forall n :: Unnamed(n, items) ==> Contents(done, n) == Contents(files, n)
  }

  lemma AloneNext(files: Files, items: seq<Patch>, m: nat, p: Patch, before: Files)
    requires AllUsable(items) && Disjoint(items) && m == |items| - 1 && p == items[m]
    requires OthersStay(files, items[..m], before)
    ensures var x, y := ApplyOne(before, p), ApplyOne(files, p);
      x.raised == y.raised && x.errors == y.errors && Agree(x.files, y.files, NamesOf(p))
  {
    forall n | n in NamesOf(p)
      ensures Contents(before, n) == Contents(files, n)
    {
      assert Unnamed(n, items[..m]);
    }
    OneIsLocal(before, files, p);
  }

  lemma EarlierStay(files: Files, items: seq<Patch>, m: nat, p: Patch, before: Files, done: Files)
    requires AllUsable(items) && Disjoint(items) && m == |items| - 1 && p == items[m]
    requires EachAlone(files, items[..m], before) && done == ApplyOne(before, p).files
    requires Agree(done, ApplyOne(files, p).files, NamesOf(p))
    ensures EachAlone(files, items, done)
  {
    forall i, n | 0 <= i < m && n in NamesOf(items[i])
      ensures Contents(done, n) == Contents(ApplyOne(files, items[i]).files, n)
    {
      assert Agree(before, ApplyOne(files, items[..m][i]).files, NamesOf(items[..m][i]));
      OneKeepsOthers(before, p, n);
    }
  }

  lemma OthersStayNext(files: Files, items: seq<Patch>, m: nat, p: Patch, before: Files, done: Files)
    requires AllUsable(items) && m == |items| - 1 && p == items[m]
    requires OthersStay(files, items[..m], before) && done == ApplyOne(before, p).files
    ensures OthersStay(files, items, done)
  {
    forall n | Unnamed(n, items)
      ensures Contents(done, n) == Contents(files, n)
    {
      assert Unnamed(n, items[..m]) && n !in NamesOf(items[m]);
      OneKeepsOthers(before, p, n);
    }
  }

  predicate NoneRaises(files: Files, items: seq<Patch>)
    requires AllUsable(items)
  {
    forall i :: 0 <= i < |items| ==> !ApplyOne(files, items[i]).raised
  }

  /** The errors of all patches, each applied to these files. */
  function ErrorsOf(files: Files, items: seq<Patch>): nat
    requires AllUsable(items)
  {
    if items == [] then 0
    else ErrorsOf(files, items[..|items| - 1]) + ApplyOne(files, items[|items| - 1]).errors
  }

  lemma NoneRaisesNext(files: Files, items: seq<Patch>, m: nat)
    requires AllUsable(items) && m == |items| - 1
    ensures NoneRaises(files, items) <==> NoneRaises(files, items[..m]) && !ApplyOne(files, items[m]).raised
  {
    assert forall i :: 0 <= i < m ==> items[..m][i] == items[i];
  }

  lemma EachFineNext(files: Files, items: seq<Patch>, m: nat)
    requires AllUsable(items) && m == |items| - 1
    ensures EachFine(files, items) <==> EachFine(files, items[..m]) && Fine(ApplyOne(files, items[m]))
  {
    assert forall i :: 0 <= i < m ==> items[..m][i] == items[i];
  }

  lemma {:induction false} FineMeansNoErrors(files: Files, items: seq<Patch>)
    requires AllUsable(items)
    ensures EachFine(files, items) <==> NoneRaises(files, items) && ErrorsOf(files, items) == 0
  {
    if items != [] {
      var m := |items| - 1;
      FineMeansNoErrors(files, items[..m]);
      EachFineNext(files, items, m);
      NoneRaisesNext(files, items, m);
    }
  }

  lemma SetNextIs(files: Files, items: seq<Patch>, m: nat, before: SetResult, x: SetResult)
    requires AllUsable(items) && m == |items| - 1 && before == ApplySet(files, items[..m]) && !before.raised
    requires x == ApplyOne(before.files, items[m])
    ensures ApplySet(files, items) == SetResult(x.files, before.errors + x.errors, x.raised)
  {
  }

  /** Each patch of a set with disjoint names does what it would do alone, whatever errors other patches
      meet; the errors add up. Only an exception ends the run. */
  lemma {:induction false} SetIsSeparate(files: Files, items: seq<Patch>)
    requires AllUsable(items) && Disjoint(items)
    ensures var o := ApplySet(files, items);
      && (!o.raised <==> NoneRaises(files, items))
      && (!o.raised ==>
            o.errors == ErrorsOf(files, items) && EachAlone(files, items, o.files) && OthersStay(files, items, o.files))
  {
    if items != [] {
      var m := |items| - 1;
      var p, before := items[m], ApplySet(files, items[..m]);
      SetIsSeparate(files, items[..m]);
      NoneRaisesNext(files, items, m);
      if !before.raised {
        var x := ApplyOne(before.files, p);
        SeparateNext(files, items, m, p, before.files, x);
        SetNextIs(files, items, m, before, x);
      }
    }
  }

  lemma SeparateNext(files: Files, items: seq<Patch>, m: nat, p: Patch, before: Files, x: SetResult)
    requires AllUsable(items) && Disjoint(items) && m == |items| - 1 && p == items[m] && x == ApplyOne(before, p)
    requires EachAlone(files, items[..m], before) && OthersStay(files, items[..m], before)
    ensures x.raised == ApplyOne(files, p).raised && x.errors == ApplyOne(files, p).errors
    ensures EachAlone(files, items, x.files) && OthersStay(files, items, x.files)
  {
    AloneNext(files, items, m, p, before);
    EarlierStay(files, items, m, p, before, x.files);
    OthersStayNext(files, items, m, p, before, x.files);
  }

  lemma SetIsFine(files: Files, items: seq<Patch>)
    requires AllUsable(items) && Disjoint(items)
    ensures var o := ApplySet(files, items);
      && (Fine(o) <==> EachFine(files, items))
      && (Fine(o) ==> EachAlone(files, items, o.files) && OthersStay(files, items, o.files))
  {
    SetIsSeparate(files, items);
    FineMeansNoErrors(files, items);
  }

  lemma ReverseNames(p: Patch)
    requires Usable(p)
    ensures Usable(ReversePatch(p)) && NamesOf(ReversePatch(p)) == NamesOf(p)
  {
  }

  /** For one patch of the set, there and back. */
  lemma BackIsLocal(files: Files, p: Patch, there: Files, back: Files)
    requires Usable(p) && Agree(there, ApplyOne(files, p).files, NamesOf(p)) && Fine(ApplyOne(files, p))
    requires Agree(back, ApplyOne(there, ReversePatch(p)).files, NamesOf(p))
    ensures OneReturns(files, p) <==> Fine(ApplyOne(there, ReversePatch(p))) && Agree(back, files, NamesOf(p))
  {
    var q, alone := ReversePatch(p), ApplyOne(files, p).files;
    ReverseNames(p);
    OneIsLocal(there, alone, q);
    var again := ApplyOne(alone, q).files;
    forall n | n !in NamesOf(p)
      ensures Contents(again, n) == Contents(files, n)
    {
      OneKeepsOthers(files, p, n);
      OneKeepsOthers(alone, q, n);
    }
    if Agree(back, files, NamesOf(p)) {
      forall n
        ensures Contents(again, n) == Contents(files, n)
      {
        if n in NamesOf(p) {
          assert Contents(back, n) == Contents(files, n);
          assert Contents(back, n) == Contents(ApplyOne(there, q).files, n) == Contents(again, n);
        }
      }
      SameFiles(again, files);
    }
  }

  lemma ReverseSetNames(items: seq<Patch>)
    requires AllUsable(items) && Disjoint(items)
    ensures Disjoint(ReverseSet(items)) && forall n :: Unnamed(n, ReverseSet(items)) <==> Unnamed(n, items)
  {
    forall i | 0 <= i < |items|
      ensures NamesOf(ReverseSet(items)[i]) == NamesOf(items[i])
    {
      ReverseNames(items[i]);
    }
  }

  /** Patches with disjoint names: all files are as before exactly when each patch alone, applied
      to the files as they are at the start and reverted, leaves them so. */
  lemma DisjointSetReturns(files: Files, items: seq<Patch>)
    requires AllUsable(items) && Disjoint(items)
    ensures Returns(files, items) <==> forall i :: 0 <= i < |items| ==> OneReturns(files, items[i])
  {
    var rev, there := ReverseSet(items), ApplySet(files, items);
    SetIsFine(files, items);
    if Fine(there) {
      var back := ApplySet(there.files, rev);
      ReverseSetNames(items);
      SetIsFine(there.files, rev);
      if Fine(back) {
        forall i | 0 <= i < |items|
          ensures OneReturns(files, items[i]) <==> Agree(back.files, files, NamesOf(items[i]))
        {
          BackIsEach(files, items, i, there.files, back.files);
        }
        AgreeIsSame(files, items, there.files, back.files);
      } else {
        var i :| 0 <= i < |items| && !Fine(ApplyOne(there.files, rev[i]));
        FineIsEach(files, items, i, there.files);
      }
    }
  }

  lemma FineIsEach(files: Files, items: seq<Patch>, i: nat, there: Files)
    requires AllUsable(items) && i < |items| && EachAlone(files, items, there)
    requires Fine(ApplyOne(files, items[i])) && !Fine(ApplyOne(there, ReverseSet(items)[i]))
    ensures !OneReturns(files, items[i])
  {
    var p := items[i];
    ReverseNames(p);
    OneIsLocal(there, ApplyOne(files, p).files, ReversePatch(p));
  }

  lemma BackIsEach(files: Files, items: seq<Patch>, i: nat, there: Files, back: Files)
    requires AllUsable(items) && i < |items|
    requires EachAlone(files, items, there) && EachAlone(there, ReverseSet(items), back)
    requires Fine(ApplyOne(files, items[i])) && Fine(ApplyOne(there, ReverseSet(items)[i]))
    ensures OneReturns(files, items[i]) <==> Agree(back, files, NamesOf(items[i]))
  {
    var p := items[i];
    ReverseNames(p);
    assert ReverseSet(items)[i] == ReversePatch(p);
    BackIsLocal(files, p, there, back);
  }

  lemma AgreeIsSame(files: Files, items: seq<Patch>, there: Files, back: Files)
    requires AllUsable(items) && Disjoint(items)
    requires OthersStay(files, items, there) && OthersStay(there, ReverseSet(items), back)
    ensures back == files <==> forall i :: 0 <= i < |items| ==> Agree(back, files, NamesOf(items[i]))
  {
    ReverseSetNames(items);
    if forall i :: 0 <= i < |items| ==> Agree(back, files, NamesOf(items[i])) {
      forall n
        ensures Contents(back, n) == Contents(files, n)
      {
        if Unnamed(n, items) {
          assert Unnamed(n, ReverseSet(items));
          assert Contents(back, n) == Contents(there, n) == Contents(files, n);
        }
      }
      SameFiles(back, files);
    }
  }

  /** So a set of patches with disjoint names returns exactly when every file comes back, and
      every removed one is made again under its name. */
  lemma DistinctFilesReturn(files: Files, items: seq<Patch>)
    requires AllUsable(items) && Disjoint(items)
    ensures Returns(files, items) <==> forall i :: 0 <= i < |items| ==>
      && RoundTrips(Contents(files, Chosen(files, items[i])), items[i].hunks)
      && SameFileAgain(files, items[i])
  {
    DisjointSetReturns(files, items);
    forall i | 0 <= i < |items|
      ensures OneReturns(files, items[i]) <==>
        RoundTrips(Contents(files, Chosen(files, items[i])), items[i].hunks) && SameFileAgain(files, items[i])
    {
      OneReturnsIff(files, items[i]);
    }
  }

  // ---------- the order of the patches ----------

  /** The reversed patches, the last one first. */
  function Backwards(items: seq<Patch>): (r: seq<Patch>)
    ensures AllUsable(items) ==> AllUsable(r)
  {
    if items == [] then [] else [ReversePatch(items[|items| - 1])] + Backwards(items[..|items| - 1])
  }

  function Then(o: SetResult, b: seq<Patch>): SetResult
    requires AllUsable(b)
  {
    if o.raised then o
    else
      var x := ApplySet(o.files, b);
      SetResult(x.files, o.errors + x.errors, x.raised)
  }

  /** One more patch, unless one has raised. */
  function More(o: SetResult, p: Patch): SetResult
    requires Usable(p)
  {
    if o.raised then o
    else
      var x := ApplyOne(o.files, p);
      SetResult(x.files, o.errors + x.errors, x.raised)
  }

  lemma SetLast(files: Files, before: seq<Patch>, p: Patch, items: seq<Patch>)
    requires AllUsable(before) && Usable(p) && items == before + [p]
    ensures AllUsable(items) && ApplySet(files, items) == More(ApplySet(files, before), p)
  {
    assert items[..|items| - 1] == before;
  }

  lemma ThenMore(o: SetResult, b: seq<Patch>, p: Patch, items: seq<Patch>)
    requires AllUsable(b) && Usable(p) && items == b + [p]
    ensures AllUsable(items) && Then(o, items) == More(Then(o, b), p)
  {
    SetLast(o.files, b, p, items);
  }

  lemma {:induction false} ApplyConcat(files: Files, a: seq<Patch>, b: seq<Patch>)
    requires AllUsable(a) && AllUsable(b)
    ensures ApplySet(files, a + b) == Then(ApplySet(files, a), b)
    decreases |b|
  {
    if b == [] {
      assert a + b == a;
    } else {
      var b', p := b[..|b| - 1], b[|b| - 1];
      assert b == b' + [p] && a + b == (a + b') + [p];
      ApplyConcat(files, a, b');
      SetLast(files, a + b', p, a + b);
      ThenMore(ApplySet(files, a), b', p, b);
    }
  }

  /** Each patch, alone, returns on the files it meets. */
  predicate EachReturns(files: Files, items: seq<Patch>)
    requires AllUsable(items)
  {
    forall i :: 0 <= i < |items| ==> OneReturns(ApplySet(files, items[..i]).files, items[i])
  }

  /** Reverted from the last patch to the first, such a set always returns. */
  lemma {:induction false} OppositeOrderReturns(files: Files, items: seq<Patch>)
    requires AllUsable(items) && EachReturns(files, items)
    ensures Fine(ApplySet(files, items))
    ensures ApplySet(ApplySet(files, items).files, Backwards(items)) == SetResult(files, 0, false)
  {
    if items != [] {
      var m := |items| - 1;
      var front := items[..m];
      EarlierReturn(files, items, m);
      OppositeOrderReturns(files, front);
      LastReturnsFirst(files, items, m, front, ApplySet(files, front));
    }
  }

  lemma BackwardsIs(items: seq<Patch>, m: nat, front: seq<Patch>)
    requires m == |items| - 1 && front == items[..m]
    ensures Backwards(items) == [ReversePatch(items[m])] + Backwards(front)
  {
  }

  lemma LastReturnsFirst(files: Files, items: seq<Patch>, m: nat, front: seq<Patch>, before: SetResult)
    requires AllUsable(items) && m == |items| - 1 && front == items[..m] && before == ApplySet(files, front)
    requires Fine(before) && OneReturns(before.files, items[m])
    requires ApplySet(before.files, Backwards(front)) == SetResult(files, 0, false)
    ensures Fine(ApplySet(files, items))
    ensures ApplySet(ApplySet(files, items).files, Backwards(items)) == SetResult(files, 0, false)
  {
    var p, rest := items[m], Backwards(front);
    var x := ApplyOne(before.files, p);
    var back: seq<Patch> := [ReversePatch(p)];
    assert ApplySet(files, items) == SetResult(x.files, 0, false) by {
      SetNextIs(files, items, m, before, x);
    }
    assert ApplySet(x.files, back) == SetResult(before.files, 0, false) by {
      Singleton(x.files, ReversePatch(p));
    }
    BackwardsIs(items, m, front);
    ApplyConcat(x.files, back, rest);
  }

  lemma EarlierReturn(files: Files, items: seq<Patch>, m: nat)
    requires AllUsable(items) && EachReturns(files, items) && m <= |items|
    ensures EachReturns(files, items[..m])
  {
    forall i | 0 <= i < m
      ensures OneReturns(ApplySet(files, items[..m][..i]).files, items[..m][i])
    {
      assert items[..m][..i] == items[..i];
    }
  }

  /** `revert` keeps the order of the patches: it returns exactly when on the patched files this
      order makes no difference. */
  lemma SourceOrderReturns(files: Files, items: seq<Patch>)
    requires AllUsable(items) && EachReturns(files, items)
    ensures var there := ApplySet(files, items).files;
      Returns(files, items) <==> ApplySet(there, ReverseSet(items)) == ApplySet(there, Backwards(items))
  {
    OppositeOrderReturns(files, items);
  }
}
