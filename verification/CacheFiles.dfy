/** Names of cached files: a timestamp of fixed width, whose name order is its time order. */
module CacheFiles {
  import opened Options
  import opened Stamps

  type Data = seq<int>

  // ---------- timestamps ----------

  predicate IsDigit(c: char) { '0' <= c <= '9' }

  function Pow10(k: nat): nat { if k == 0 then 1 else 10 * Pow10(k - 1) }

  function Pad(n: nat, k: nat): (r: string)
    ensures |r| == k && forall i :: 0 <= i < k ==> IsDigit(r[i])
  {
    if k == 0 then "" else Pad(n / 10, k - 1) + ['0' + (n % 10) as char]
  }

  function Number(s: string): nat
    requires forall i :: 0 <= i < |s| ==> IsDigit(s[i])
  {
    if s == "" then 0
    else
      assert IsDigit(s[|s| - 1]);
      10 * Number(s[..|s| - 1]) + (s[|s| - 1] as int - '0' as int)
  }

  /** `yyyyMMddhhmmss` */
  function Encode(s: Stamp): (r: string)
    ensures |r| == 14 && forall i :: 0 <= i < 14 ==> IsDigit(r[i])
  {
    Pad(s.year, 4) + Pad(s.month, 2) + Pad(s.day, 2) + Pad(s.hour, 2) + Pad(s.minute, 2) + Pad(s.second, 2)
  }

  function Decode(text: string): Option<Stamp> {
    if |text| != 14 || exists i :: 0 <= i < 14 && !IsDigit(text[i]) then None
    else
      var s := Stamp(Number(text[..4]), Number(text[4..6]), Number(text[6..8]),
                     Number(text[8..10]), Number(text[10..12]), Number(text[12..14]));
      if IsDate(s) then Some(s) else None
  }

  lemma {:induction false} NumberOfPad(n: nat, k: nat)
    requires n < Pow10(k)
    ensures Number(Pad(n, k)) == n
  {
    if k > 0 {
      NumberOfPad(n / 10, k - 1);
      assert Pad(n, k)[..k - 1] == Pad(n / 10, k - 1);
    }
  }

  lemma Widths()
    ensures Pow10(2) == 100 && Pow10(4) == 10000
  {
    assert Pow10(1) == 10 * Pow10(0);
    assert Pow10(3) == 10 * Pow10(2);
  }

  /** What is written into a name is read back. */
  lemma DecodeEncode(s: Stamp)
    requires IsDate(s)
    ensures Decode(Encode(s)) == Some(s)
  {
    Widths();
    NumberOfPad(s.year, 4);
    NumberOfPad(s.month, 2);
    NumberOfPad(s.day, 2);
    NumberOfPad(s.hour, 2);
    NumberOfPad(s.minute, 2);
    NumberOfPad(s.second, 2);
    var r := Encode(s);
    assert r[..4] == Pad(s.year, 4) && r[4..6] == Pad(s.month, 2) && r[6..8] == Pad(s.day, 2);
    assert r[8..10] == Pad(s.hour, 2) && r[10..12] == Pad(s.minute, 2) && r[12..14] == Pad(s.second, 2);
  }

  lemma {:induction false} PadOfNumber(s: string)
    requires forall i :: 0 <= i < |s| ==> IsDigit(s[i])
    ensures Number(s) < Pow10(|s|) && Pad(Number(s), |s|) == s
  {
    if s != "" {
      var n := |s| - 1;
      PadOfNumber(s[..n]);
      assert IsDigit(s[n]);
      LastDigit(Number(s[..n]), s[n] as int - '0' as int);
      assert s == s[..n] + [s[n]];
    }
  }

  lemma LastDigit(m: nat, d: nat)
    requires d < 10
    ensures (10 * m + d) / 10 == m && (10 * m + d) % 10 == d
  {
  }

  /** Year, month, day, hour, minute and second stand in this order, as decimal numbers. */
  lemma EncodeFields(s: Stamp)
    requires IsDate(s)
    ensures var r := Encode(s);
      && Number(r[..4]) == s.year && Number(r[4..6]) == s.month && Number(r[6..8]) == s.day
      && Number(r[8..10]) == s.hour && Number(r[10..12]) == s.minute && Number(r[12..14]) == s.second
  {
    DecodeEncode(s);
  }

  lemma SixParts(text: string)
    requires |text| == 14
    ensures text == text[..4] + text[4..6] + text[6..8] + text[8..10] + text[10..12] + text[12..14]
  {
  }

  /** Only the text of a date is read as one. */
  lemma EncodeDecode(text: string)
    ensures Decode(text).Some? ==> IsDate(Decode(text).value) && Encode(Decode(text).value) == text
  {
    if Decode(text).Some? {
      PadOfNumber(text[..4]);
      PadOfNumber(text[4..6]);
      PadOfNumber(text[6..8]);
      PadOfNumber(text[8..10]);
      PadOfNumber(text[10..12]);
      PadOfNumber(text[12..14]);
      SixParts(text);
    }
  }

  // ---------- name order ----------

  predicate Less(a: string, b: string) {
    b != "" && (a == "" || a[0] < b[0] || (a[0] == b[0] && Less(a[1..], b[1..])))
  }

  lemma {:induction false} LessTotal(a: string, b: string)
    ensures Less(a, b) || a == b || Less(b, a)
    ensures !(Less(a, b) && Less(b, a)) && !Less(a, a)
  {
    if a != "" && b != "" {
      LessTotal(a[1..], b[1..]);
      assert a == [a[0]] + a[1..] && b == [b[0]] + b[1..];
    }
    if a != "" {
      LessTotal(a[1..], a[1..]);
    }
  }

  lemma {:induction false} LessTransitive(a: string, b: string, c: string)
    requires Less(a, b) && Less(b, c)
    ensures Less(a, c)
  {
    if a != "" && a[0] == b[0] == c[0] {
      LessTransitive(a[1..], b[1..], c[1..]);
    }
  }

  lemma {:induction false} LessConcat(a: string, b: string, x: string, y: string)
    requires |a| == |b|
    ensures Less(a + x, b + y) <==> Less(a, b) || (a == b && Less(x, y))
  {
    if a == "" {
      assert a + x == x && b + y == y;
    } else {
      LessConcat(a[1..], b[1..], x, y);
      assert (a + x)[1..] == a[1..] + x && (b + y)[1..] == b[1..] + y;
      assert a == [a[0]] + a[1..] && b == [b[0]] + b[1..];
    }
  }

  lemma {:induction false} PadOrder(n: nat, m: nat, k: nat)
    requires n < Pow10(k) && m < Pow10(k)
    ensures Less(Pad(n, k), Pad(m, k)) <==> n < m
    ensures Pad(n, k) == Pad(m, k) <==> n == m
  {
    NumberOfPad(n, k);
    NumberOfPad(m, k);
    if k > 0 {
      var d, d' := ['0' + (n % 10) as char], ['0' + (m % 10) as char];
      PadOrder(n / 10, m / 10, k - 1);
      LessConcat(Pad(n / 10, k - 1), Pad(m / 10, k - 1), d, d');
      assert Less(d, d') <==> n % 10 < m % 10;
    }
  }

  lemma FieldOrder(n: nat, m: nat, k: nat, x: string, y: string)
    requires n < Pow10(k) && m < Pow10(k)
    ensures Less(Pad(n, k) + x, Pad(m, k) + y) <==> n < m || (n == m && Less(x, y))
  {
    PadOrder(n, m, k);
    LessConcat(Pad(n, k), Pad(m, k), x, y);
  }

  function Time(s: Stamp): string {
    Pad(s.hour, 2) + (Pad(s.minute, 2) + Pad(s.second, 2))
  }

  predicate EarlierTime(s: Stamp, t: Stamp) {
    if s.hour != t.hour then s.hour < t.hour
    else if s.minute != t.minute then s.minute < t.minute
    else s.second < t.second
  }

  lemma TimeOrder(s: Stamp, t: Stamp)
    requires IsDate(s) && IsDate(t)
    ensures Less(Time(s), Time(t)) <==> EarlierTime(s, t)
  {
    Widths();
    FieldOrder(s.hour, t.hour, 2, Pad(s.minute, 2) + Pad(s.second, 2), Pad(t.minute, 2) + Pad(t.second, 2));
    FieldOrder(s.minute, t.minute, 2, Pad(s.second, 2), Pad(t.second, 2));
    PadOrder(s.second, t.second, 2);
  }

  lemma EncodeIs(s: Stamp)
    ensures Encode(s) == Pad(s.year, 4) + (Pad(s.month, 2) + (Pad(s.day, 2) + Time(s)))
  {
  }

  /** Name order of timestamps is time order. */
  lemma EncodeOrder(s: Stamp, t: Stamp)
    requires IsDate(s) && IsDate(t)
    ensures Less(Encode(s), Encode(t)) <==> Earlier(s, t)
  {
    Widths();
    EncodeIs(s);
    EncodeIs(t);
    TimeOrder(s, t);
    var s3, t3 := Pad(s.day, 2) + Time(s), Pad(t.day, 2) + Time(t);
    FieldOrder(s.year, t.year, 4, Pad(s.month, 2) + s3, Pad(t.month, 2) + t3);
    FieldOrder(s.month, t.month, 2, s3, t3);
    FieldOrder(s.day, t.day, 2, Time(s), Time(t));
  }

  // ---------- the cache folder ----------

  type Folder = map<string, Data>

  function Prefix(name: string): string { name + "_" }

  function CacheName(name: string, s: Stamp): string { Prefix(name) + Encode(s) }

  predicate Matches(file: string, name: string) { Prefix(name) <= file }

  /** The entry list of the folder, filtered, sorted by name and reversed: its first element. */
  function First(listing: seq<string>, name: string): Option<string> {
    if listing == [] then None
    else
      var best := First(listing[..|listing| - 1], name);
      var last := listing[|listing| - 1];
      if !Matches(last, name) then best
      else if best.Some? && Less(last, best.value) then best
      else Some(last)
  }

  lemma {:induction false} FirstIsLargest(listing: seq<string>, name: string)
    ensures var f := First(listing, name);
      && (f.None? <==> forall g :: g in listing ==> !Matches(g, name))
      && (f.Some? ==> f.value in listing && Matches(f.value, name))
      && (f.Some? ==> forall g :: g in listing && Matches(g, name) ==> g == f.value || Less(g, f.value))
  {
    if listing != [] {
      var before, last := listing[..|listing| - 1], listing[|listing| - 1];
      FirstIsLargest(before, name);
      assert listing == before + [last];
      var best := First(before, name);
      if Matches(last, name) && best.Some? {
        LessTotal(last, best.value);
        forall g | g in before && Matches(g, name) && Less(best.value, last)
          ensures g == last || Less(g, last)
        {
          if g != best.value {
            LessTransitive(g, best.value, last);
          }
        }
      }
    }
  }

  /** `cacheTimestamp`: the last fourteen characters of the path, if it is long enough. */
  function TimestampOf(path: string): Option<Stamp> {
    if |path| < 16 then None else Decode(path[|path| - 14..])
  }

  /** A time is read from a path exactly when it ends with the text of a date, and two characters or
      more stand before it. */
  lemma TimestampIff(path: string, s: Stamp)
    ensures TimestampOf(path) == Some(s) <==>
      IsDate(s) && exists front :: |front| >= 2 && path == front + Encode(s)
  {
    if TimestampOf(path) == Some(s) {
      EncodeDecode(path[|path| - 14..]);
      assert path == path[..|path| - 14] + Encode(s);
    }
    if front :| IsDate(s) && |front| >= 2 && path == front + Encode(s) {
      DecodeEncode(s);
      assert path[|path| - 14..] == Encode(s);
    }
  }

  ghost predicate Lists(listing: seq<string>, folder: Folder) {
    forall f :: f in listing <==> f in folder
  }

  ghost predicate HasVersion(folder: Folder, name: string, s: Stamp) {
    IsDate(s) && CacheName(name, s) in folder
  }

  ghost predicate Newest(folder: Folder, name: string, s: Stamp) {
    HasVersion(folder, name, s) && forall t :: HasVersion(folder, name, t) ==> t == s || Earlier(t, s)
  }

  /** A file that the look-up takes for a version of this name, but is none. */
  ghost predicate Foreign(file: string, name: string) {
    Matches(file, name) && forall s :: IsDate(s) ==> file != CacheName(name, s)
  }

  /** What stands after the name and `_` comes before the stamp. */
  predicate Below(file: string, name: string, s: Stamp)
    requires Matches(file, name)
  {
    Less(file[|Prefix(name)|..], Encode(s))
  }

  ghost predicate NoneAbove(folder: Folder, name: string, s: Stamp) {
    forall f :: f in folder && Foreign(f, name) ==> Below(f, name, s)
  }

  /** Every file that starts with the name and `_` is a cached version of this name. */
  ghost predicate OwnFiles(folder: Folder, name: string) {
    forall f :: f in folder ==> !Foreign(f, name)
  }

  lemma CacheNameOrder(name: string, s: Stamp, t: Stamp)
    requires IsDate(s) && IsDate(t)
    ensures Less(CacheName(name, s), CacheName(name, t)) <==> Earlier(s, t)
    ensures CacheName(name, s) == CacheName(name, t) <==> s == t
  {
    LessConcat(Prefix(name), Prefix(name), Encode(s), Encode(t));
    LessTotal(Prefix(name), Prefix(name));
    EncodeOrder(s, t);
    DecodeEncode(s);
    DecodeEncode(t);
    assert CacheName(name, s)[|Prefix(name)|..] == Encode(s) && CacheName(name, t)[|Prefix(name)|..] == Encode(t);
  }

  lemma BelowIsLess(file: string, name: string, s: Stamp)
    requires Matches(file, name)
    ensures Below(file, name, s) <==> Less(file, CacheName(name, s))
  {
    var rest := file[|Prefix(name)|..];
    assert file == Prefix(name) + rest;
    LessConcat(Prefix(name), Prefix(name), rest, Encode(s));
    LessTotal(Prefix(name), Prefix(name));
  }

  /** The look-up finds nothing exactly when no file starts like a version. */
  lemma NothingCached(listing: seq<string>, folder: Folder, name: string)
    requires Lists(listing, folder)
    ensures First(listing, name).None? <==>
      OwnFiles(folder, name) && forall s :: !HasVersion(folder, name, s)
  {
    FirstIsLargest(listing, name);
    forall s | HasVersion(folder, name, s)
      ensures First(listing, name).Some?
    {
      assert CacheName(name, s) in listing && Matches(CacheName(name, s), name);
    }
    if First(listing, name).Some? {
      var f := First(listing, name).value;
      assert f in folder && Matches(f, name);
      if !Foreign(f, name) {
        var s :| IsDate(s) && f == CacheName(name, s);
        assert HasVersion(folder, name, s);
      }
    }
  }

  lemma ReadBack(dir: string, name: string, s: Stamp)
    requires IsDate(s) && name != ""
    ensures TimestampOf(dir + "/" + CacheName(name, s)) == Some(s)
  {
    DecodeEncode(s);
    var path := dir + "/" + CacheName(name, s);
    assert path[|path| - 14..] == Encode(s);
  }

  /** Whatever else is in the folder: the newest version is found exactly when no foreign
      file stands above it in name order. Then its timestamp is read back. */
  lemma NewestWins(listing: seq<string>, folder: Folder, name: string, dir: string, s: Stamp)
    requires name != "" && Lists(listing, folder) && Newest(folder, name, s)
    ensures First(listing, name) == Some(CacheName(name, s)) <==> NoneAbove(folder, name, s)
    ensures TimestampOf(dir + "/" + CacheName(name, s)) == Some(s)
  {
    ReadBack(dir, name, s);
    FirstIsLargest(listing, name);
    var own := CacheName(name, s);
    assert own in listing && Matches(own, name);
    var best := First(listing, name).value;
    forall f | f in folder && Foreign(f, name)
      ensures best == own ==> Below(f, name, s)
    {
      BelowIsLess(f, name, s);
    }
    LessTotal(own, best);
    if Foreign(best, name) {
      BelowIsLess(best, name, s);
    } else {
      var t :| IsDate(t) && best == CacheName(name, t);
      assert HasVersion(folder, name, t);
      CacheNameOrder(name, t, s);
    }
  }

  /** Among the versions listed there is a newest one. */
  lemma {:induction false} NewestOf(listing: seq<string>, name: string) returns (s: Option<Stamp>)
    ensures s.Some? ==> IsDate(s.value) && CacheName(name, s.value) in listing
    ensures forall t :: IsDate(t) && CacheName(name, t) in listing ==> s.Some? && (t == s.value || Earlier(t, s.value))
  {
    s := None;
    if listing != [] {
      var before, last := listing[..|listing| - 1], listing[|listing| - 1];
      assert listing == before + [last];
      s := NewestOf(before, name);
      if t :| IsDate(t) && last == CacheName(name, t) {
        forall u | IsDate(u) && CacheName(name, u) == last
          ensures u == t
        {
          CacheNameOrder(name, u, t);
        }
        if s.None? || Earlier(s.value, t) {
          s := Some(t);
        }
      }
    }
  }

  lemma NewestExists(listing: seq<string>, folder: Folder, name: string) returns (s: Stamp)
    requires Lists(listing, folder) && exists t :: HasVersion(folder, name, t)
    ensures Newest(folder, name, s)
  {
    var o := NewestOf(listing, name);
    var t :| HasVersion(folder, name, t);
    assert CacheName(name, t) in listing;
    s := o.value;
  }

  lemma TwoListed(own: string, other: string, name: string)
    requires Matches(own, name) && Matches(other, name) && Less(own, other)
    ensures First([own, other], name) == Some(other)
  {
    LessTotal(own, other);
    assert [own, other][..1] == [own] && [own][..0] == [];
    assert First([own], name) == Some(own);
  }

  lemma FirstDigit(s: Stamp)
    requires IsDate(s) && s.year == 2019
    ensures Encode(s)[0] == '2'
  {
    assert Pad(2019, 4) == Pad(201, 3) + ['9'] && Pad(201, 3) == Pad(20, 2) + ['1'];
    assert Pad(20, 2) == Pad(2, 1) + ['0'] && Pad(2, 1) == Pad(0, 0) + ['2'];
    assert Encode(s)[0] == Pad(2019, 4)[0];
  }

  /** Every version of the file `a_3`, say from 2018, is taken for the newest version of `a`
      when that is from 2019; its timestamp is the one that is read. */
  lemma LongerNameMayHide(s: Stamp, t: Stamp)
    requires IsDate(s) && s.year == 2019 && IsDate(t)
    ensures var own, other := CacheName("a", s), CacheName("a_3", t);
      First([own, other], "a") == Some(other) && TimestampOf("cache" + "/" + other) == Some(t)
  {
    var own, other := CacheName("a", s), CacheName("a_3", t);
    var rest := "3_" + Encode(t);
    assert Prefix("a_3") == "a_3_" == Prefix("a") + "3_";
    assert other == Prefix("a") + rest;
    LessConcat(Prefix("a"), Prefix("a"), Encode(s), rest);
    FirstDigit(s);
    assert rest[0] == '3';
    TwoListed(own, other, "a");
    ReadBack("cache", "a_3", t);
  }

  // ---------- writing ----------

  /** How far the file system got with a write. */
  datatype WriteResult = CannotOpen | Short(written: nat) | Complete

  /** `writeDataToFile` without overwriting. */
  function WriteData(folder: Folder, path: string, data: Data, w: WriteResult): (Folder, bool) {
    if path in folder || w.CannotOpen? then (folder, false)
    else if w.Short? && w.written < |data| then (folder[path := data[..w.written]], false)
    else (folder[path := data], true)
  }

  /** Writing reports success exactly when a new file now holds all the data; no other file changes. */
  lemma WriteReports(folder: Folder, path: string, data: Data, w: WriteResult)
    ensures var r := WriteData(folder, path, data, w);
      && (r.1 <==> path !in folder && path in r.0 && r.0[path] == data)
      && (path in folder ==> r.0 == folder)
      && (path !in folder ==> r.0 - {path} == folder && (path in r.0 <==> !w.CannotOpen?))
      && (path !in folder && path in r.0 ==> r.0[path] <= data)
  {
  }

  /** `dirtyFilePath` */
  function DirtyMark(name: string): string { name + ".dirty" }

  /** One download outcome for one of the files of the section. */
  datatype Outcome =
    | Downloaded(name: string, stamp: Stamp, data: Data, w: WriteResult)
    | NotModified(name: string)
    | NotDownloaded(name: string)

  /** What the slot of the file does to the folder; the dirty mark goes, unless the download failed. */
  function Store(folder: Folder, o: Outcome): Folder {
    match o
    case Downloaded(name, stamp, data, w) => WriteData(folder, CacheName(name, stamp), data, w).0 - {DirtyMark(name)}
    case NotModified(name) => folder - {DirtyMark(name)}
    case NotDownloaded(_) => folder
  }

  function StoreAll(folder: Folder, os: seq<Outcome>): Folder {
    if os == [] then folder else Store(StoreAll(folder, os[..|os| - 1]), os[|os| - 1])
  }

  predicate Dated(os: seq<Outcome>) {
    forall i :: 0 <= i < |os| && os[i].Downloaded? ==> IsDate(os[i].stamp)
  }

  /** One of these outcomes brought a file of this name. */
  predicate Brought(os: seq<Outcome>, f: string) {
    exists i :: 0 <= i < |os| && Brings(os[i], f)
  }

  /** One of these outcomes removed this file as a dirty mark. */
  predicate Cleared(os: seq<Outcome>, f: string) {
    exists i :: 0 <= i < |os| && Clears(os[i], f)
  }

  /** The marker of a dirty file is never one of the cached versions. */
  lemma DirtyIsNoVersion(name: string, other: string, s: Stamp)
    ensures DirtyMark(name) != CacheName(other, s)
  {
    var a, b := DirtyMark(name), CacheName(other, s);
    assert a[|a| - 1] == 'y';
    assert b[|b| - 1] == Encode(s)[13];
  }

  /** The file `f` is what this outcome brings, or what it removes. */
  predicate Brings(o: Outcome, f: string) {
    o.Downloaded? && !o.w.CannotOpen? && f == CacheName(o.name, o.stamp)
  }

  predicate Clears(o: Outcome, f: string) {
    !o.NotDownloaded? && f == DirtyMark(o.name)
  }

  lemma StoreFiles(folder: Folder, o: Outcome, f: string)
    ensures f in Store(folder, o) <==> (f in folder || Brings(o, f)) && !Clears(o, f)
  {
  }

  lemma OutcomesSplit(os: seq<Outcome>, f: string)
    requires os != []
    ensures var before, o := os[..|os| - 1], os[|os| - 1];
      && (Brought(os, f) <==> (Brought(before, f) || Brings(o, f)))
      && (Cleared(os, f) <==> (Cleared(before, f) || Clears(o, f)))
  {
    var before := os[..|os| - 1];
    assert forall i :: 0 <= i < |before| ==> before[i] == os[i];
  }

  lemma ClearedIsNoVersion(os: seq<Outcome>, f: string, name: string, s: Stamp)
    requires Cleared(os, f) && IsDate(s)
    ensures f != CacheName(name, s)
  {
    var i :| 0 <= i < |os| && Clears(os[i], f);
    DirtyIsNoVersion(os[i].name, name, s);
  }

  /** Exactly which files are there after a run of outcomes. */
  lemma {:induction false} FilesAfter(folder: Folder, os: seq<Outcome>, f: string)
    requires Dated(os)
    ensures f in StoreAll(folder, os) <==> (f in folder || Brought(os, f)) && !Cleared(os, f)
  {
    if os != [] {
      var o := os[|os| - 1];
      FilesAfter(folder, os[..|os| - 1], f);
      OutcomesSplit(os, f);
      StoreFiles(StoreAll(folder, os[..|os| - 1]), o, f);
      if Brings(o, f) && Cleared(os, f) {
        ClearedIsNoVersion(os, f, o.name, o.stamp);
      }
    }
  }

  /** Nothing that was stored is overwritten, and only dirty marks are removed. */
  lemma {:induction false} StoredStays(folder: Folder, os: seq<Outcome>, f: string)
    requires f in folder && !Cleared(os, f)
    ensures f in StoreAll(folder, os) && StoreAll(folder, os)[f] == folder[f]
  {
    if os != [] {
      OutcomesSplit(os, f);
      StoredStays(folder, os[..|os| - 1], f);
    }
  }

  /** In particular every version of every file stays as it was stored. */
  lemma VersionStays(folder: Folder, os: seq<Outcome>, name: string, s: Stamp)
    requires HasVersion(folder, name, s)
    ensures HasVersion(StoreAll(folder, os), name, s)
    ensures StoreAll(folder, os)[CacheName(name, s)] == folder[CacheName(name, s)]
  {
    if Cleared(os, CacheName(name, s)) {
      ClearedIsNoVersion(os, CacheName(name, s), name, s);
    }
    StoredStays(folder, os, CacheName(name, s));
  }

  /** A file that was marked dirty stays so exactly until an outcome of its own that is not a
      failure. */
  lemma MarkStays(folder: Folder, os: seq<Outcome>, name: string)
    requires Dated(os)
    ensures DirtyMark(name) in StoreAll(folder, os) <==>
      DirtyMark(name) in folder && forall i :: 0 <= i < |os| && os[i].name == name ==> os[i].NotDownloaded?
  {
    FilesAfter(folder, os, DirtyMark(name));
    forall i | 0 <= i < |os|
      ensures Clears(os[i], DirtyMark(name)) <==> !os[i].NotDownloaded? && os[i].name == name
      ensures !Brings(os[i], DirtyMark(name))
    {
      SameMark(os[i].name, name);
      if os[i].Downloaded? {
        DirtyIsNoVersion(name, os[i].name, os[i].stamp);
      }
    }
  }

  lemma SameMark(name: string, other: string)
    ensures DirtyMark(name) == DirtyMark(other) <==> name == other
  {
    assert DirtyMark(name)[..|DirtyMark(name)| - 6] == name && DirtyMark(other)[..|DirtyMark(other)| - 6] == other;
  }

  predicate Holds(folder: Folder, path: string, data: Data) {
    path in folder && folder[path] == data
  }

  /** A new version holds all of its data after any further outcomes exactly when it was
      written in full; a truncated one stays truncated, and no later download repairs it. */
  lemma WrittenForGood(folder: Folder, name: string, s: Stamp, data: Data, w: WriteResult)
    requires IsDate(s) && CacheName(name, s) !in folder
    ensures var (files, written) := WriteData(folder, CacheName(name, s), data, w);
      && (written <==> forall os :: Holds(StoreAll(files, os), CacheName(name, s), data))
      && (w.Short? && w.written < |data| ==>
            forall os :: Holds(StoreAll(files, os), CacheName(name, s), data[..w.written]))
  {
    var path := CacheName(name, s);
    var files := WriteData(folder, path, data, w).0;
    forall os | path in files
      ensures Holds(StoreAll(files, os), path, files[path])
    {
      VersionStays(files, os, name, s);
    }
    assert StoreAll(files, []) == files;
    assert Holds(StoreAll(files, []), path, data) <==> Holds(files, path, data);
  }

  // ---------- runs ----------

  /** No version of `other` is ever taken for a version of `name`. */
  predicate Apart(name: string, other: string) {
    name == other || !(Prefix(name) <= Prefix(other))
  }

  lemma ApartIs(name: string, other: string, t: Stamp)
    requires IsDate(t)
    ensures Foreign(CacheName(other, t), name) <==> !Apart(name, other)
  {
    var file := CacheName(other, t);
    SamePrefixes(name, other);
    forall k | |Prefix(other)| <= k < |file|
      ensures IsDigit(file[k])
    {
      assert file[k] == Encode(t)[k - |Prefix(other)|];
    }
    assert Prefix(name)[|Prefix(name)| - 1] == '_' && !IsDigit('_');
    assert Matches(file, name) <==> Prefix(name) <= Prefix(other);
    if name != other && Prefix(name) <= Prefix(other) {
      forall s | IsDate(s)
        ensures file != CacheName(name, s)
      {
        assert |file| == |CacheName(name, s)| <==> |Prefix(name)| == |Prefix(other)|;
      }
    }
  }

  lemma SamePrefixes(name: string, other: string)
    ensures Prefix(name) == Prefix(other) <==> name == other
    ensures |Prefix(name)| == |Prefix(other)| && Prefix(name) <= Prefix(other) ==> name == other
  {
    assert Prefix(name)[..|name|] == name && Prefix(other)[..|other|] == other;
  }

  /** Exactly when the newest version is found after a run: no foreign file that was there or
      was brought, and was not cleared, stands above it. */
  lemma FoundAfterRun(folder: Folder, os: seq<Outcome>, name: string, dir: string, listing: seq<string>, t: Stamp)
    requires name != "" && Dated(os) && Lists(listing, StoreAll(folder, os)) && Newest(StoreAll(folder, os), name, t)
    ensures First(listing, name) == Some(CacheName(name, t)) <==>
      forall f :: Foreign(f, name) && (f in folder || Brought(os, f)) && !Cleared(os, f) ==> Below(f, name, t)
  {
    NewestWins(listing, StoreAll(folder, os), name, dir, t);
    forall f | Foreign(f, name)
      ensures f in StoreAll(folder, os) <==> (f in folder || Brought(os, f)) && !Cleared(os, f)
    {
      FilesAfter(folder, os, f);
    }
  }

  /** That is always so when no foreign file was there and no version that was brought is
      one; whether it is does not depend on its stamp. */
  lemma ApartStaysOwn(folder: Folder, os: seq<Outcome>, name: string)
    requires Dated(os) && OwnFiles(folder, name)
    requires forall i :: 0 <= i < |os| && os[i].Downloaded? ==> Apart(name, os[i].name)
    ensures OwnFiles(StoreAll(folder, os), name)
  {
    forall f | f in StoreAll(folder, os)
      ensures !Foreign(f, name)
    {
      FilesAfter(folder, os, f);
      if f !in folder {
        var i :| 0 <= i < |os| && Brings(os[i], f);
        ApartIs(name, os[i].name, os[i].stamp);
      }
    }
  }

  /** Over any run of outcomes, whatever other files it brings, the newest version never gets
      older; and where it is found, its timestamp is the one that is read and sent. */
  lemma TimestampNeverDecreases(folder: Folder, os: seq<Outcome>, name: string, dir: string,
      before: seq<string>, after: seq<string>, s: Stamp, t: Stamp)
    requires name != "" && Newest(folder, name, s) && Newest(StoreAll(folder, os), name, t)
    requires Lists(before, folder) && Lists(after, StoreAll(folder, os))
    ensures t == s || Earlier(s, t)
    ensures NoneAbove(folder, name, s) ==>
      First(before, name).Some? && TimestampOf(dir + "/" + First(before, name).value) == Some(s)
    ensures NoneAbove(StoreAll(folder, os), name, t) ==>
      First(after, name).Some? && TimestampOf(dir + "/" + First(after, name).value) == Some(t)
  {
    VersionStays(folder, os, name, s);
    NewestWins(before, folder, name, dir, s);
    NewestWins(after, StoreAll(folder, os), name, dir, t);
  }
}
