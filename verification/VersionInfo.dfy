/** `VersionInfo`: key-value pairs as text. */
module VersionInfo {
  import opened Options

  type Info = map<string, string>

  predicate IsSpace(c: char) {
    '\t' <= c <= '\r' || c == ' ' || c == '\U{0085}' || c == '\U{00A0}' || c == '\U{1680}'
    || '\U{2000}' <= c <= '\U{200A}' || c == '\U{2028}' || c == '\U{2029}' || c == '\U{202F}'
    || c == '\U{205F}' || c == '\U{3000}'
  }

  function TrimLeft(s: string): (r: string)
    ensures |r| <= |s| && r == s[|s| - |r|..] && (r != "" ==> !IsSpace(r[0]))
  {
    if s != "" && IsSpace(s[0]) then TrimLeft(s[1..]) else s
  }

  function TrimRight(s: string): (r: string)
    ensures |r| <= |s| && r == s[..|r|] && (r != "" ==> !IsSpace(r[|r| - 1]))
  {
    if s != "" && IsSpace(s[|s| - 1]) then TrimRight(s[..|s| - 1]) else s
  }

  /** `trimmed` */
  function Trim(s: string): string { TrimRight(TrimLeft(s)) }

  /** `split`: always at least one part. */
  function Split(s: string, sep: char): (r: seq<string>)
    ensures r != []
  {
    if s == "" then [""]
    else if s[0] == sep then [""] + Split(s[1..], sep)
    else
      var rest := Split(s[1..], sep);
      [[s[0]] + rest[0]] + rest[1..]
  }

  function Join(parts: seq<string>, sep: char): string {
    if parts == [] then ""
    else if |parts| == 1 then parts[0]
    else parts[0] + [sep] + Join(parts[1..], sep)
  }

  datatype Entry = Entry(key: string, value: string)

  /** The entry on a line, unless the line does not have the form `key: value`. */
  function ParseLine(line: string): Option<Entry> {
    var pair := Split(line, ':');
    if |pair| != 2 || Trim(pair[0]) == "" || Trim(pair[1]) == "" then None
    else Some(Entry(Trim(pair[0]), Trim(pair[1])))
  }

  function Insert(info: Info, line: string): Info {
    match ParseLine(line)
    case None => info
    case Some(e) => info[e.key := e.value]
  }

  function FromLines(lines: seq<string>): Info {
    if lines == [] then map[] else Insert(FromLines(lines[..|lines| - 1]), lines[|lines| - 1])
  }

  function FromText(text: string): Info {
    FromLines(Split(text, '\n'))
  }

  method ReadText(text: string) returns (infos: Info)
    ensures infos == FromText(text)
  {
    infos := map[];
    var header := Split(text, '\n');
    for i := 0 to |header|
      invariant infos == FromLines(header[..i])
    {
      NextLine(header, i);
      var pair := Split(header[i], ':');
      if |pair| != 2 || Trim(pair[0]) == "" || Trim(pair[1]) == "" {
        continue;
      }
      infos := infos[Trim(pair[0]) := Trim(pair[1])];
    }
    assert header[..|header|] == header;
  }

  lemma NextLine(lines: seq<string>, i: nat)
    requires i < |lines|
    ensures FromLines(lines[..i + 1]) == Insert(FromLines(lines[..i]), lines[i])
  {
    assert lines[..i + 1][..i] == lines[..i];
  }

  /** The order in which the map is walked; it holds every key once. */
  ghost predicate Walks(keys: seq<string>, info: Info) {
    && (forall k :: k in keys <==> k in info)
    && forall i, j :: 0 <= i < j < |keys| ==> keys[i] != keys[j]
  }

  function PrintEntry(key: string, value: string): string {
    key + ": " + value
  }

  function ToLines(info: Info, keys: seq<string>): (r: seq<string>)
    requires forall k :: k in keys ==> k in info
    ensures |r| == |keys| && forall i :: 0 <= i < |keys| ==> r[i] == PrintEntry(keys[i], info[keys[i]])
  {
    if keys == [] then []
    else ToLines(info, keys[..|keys| - 1]) + [PrintEntry(keys[|keys| - 1], info[keys[|keys| - 1]])]
  }

  function ToText(info: Info, keys: seq<string>): string
    requires forall k :: k in keys ==> k in info
  {
    Join(ToLines(info, keys), '\n')
  }

  method WriteText(info: Info, keys: seq<string>) returns (text: string)
    requires Walks(keys, info)
    ensures text == ToText(info, keys)
  {
    var list := [];
    for i := 0 to |keys|
      invariant list == ToLines(info, keys[..i])
    {
      assert keys[..i + 1][..i] == keys[..i];
      list := list + [PrintEntry(keys[i], info[keys[i]])];
    }
    assert keys[..|keys|] == keys;
    text := Join(list, '\n');
  }

  // ---------- the round trip ----------

  /** A text that stands alone between separators. */
  predicate Clean(s: string) {
    s != "" && Trim(s) == s && ':' !in s && '\n' !in s
  }

  predicate CleanInfo(info: Info) {
    forall k :: k in info ==> Clean(k) && Clean(info[k])
  }

  lemma {:induction false} SplitNone(s: string, sep: char)
    requires sep !in s
    ensures Split(s, sep) == [s]
  {
    if s != "" {
      SplitNone(s[1..], sep);
      assert [s[0]] + s[1..] == s;
    }
  }

  lemma {:induction false} SplitFirst(a: string, b: string, sep: char)
    requires sep !in a
    ensures Split(a + [sep] + b, sep) == [a] + Split(b, sep)
  {
    if a == "" {
      assert (a + [sep] + b)[1..] == b;
    } else {
      SplitFirst(a[1..], b, sep);
      assert (a + [sep] + b)[1..] == a[1..] + [sep] + b;
      assert [a[0]] + a[1..] == a;
      assert ([a[1..]] + Split(b, sep))[1..] == Split(b, sep);
    }
  }

  lemma {:induction false} SplitJoin(parts: seq<string>, sep: char)
    requires parts != [] && forall i :: 0 <= i < |parts| ==> sep !in parts[i]
    ensures Split(Join(parts, sep), sep) == parts
  {
    if |parts| == 1 {
      SplitNone(parts[0], sep);
    } else {
      SplitFirst(parts[0], Join(parts[1..], sep), sep);
      SplitJoin(parts[1..], sep);
    }
  }

  lemma {:induction false} SplitParts(s: string, sep: char)
    ensures forall i :: 0 <= i < |Split(s, sep)| ==> sep !in Split(s, sep)[i]
  {
    if s != "" {
      SplitParts(s[1..], sep);
    }
  }

  lemma {:induction false} SplitAddsNothing(s: string, sep: char, c: char)
    requires c !in s
    ensures forall i :: 0 <= i < |Split(s, sep)| ==> c !in Split(s, sep)[i]
  {
    if s != "" {
      SplitAddsNothing(s[1..], sep, c);
    }
  }

  lemma TrimmedEnds(s: string)
    requires s != "" && Trim(s) == s
    ensures TrimLeft(s) == s && TrimRight(s) == s
  {
    assert |TrimLeft(s)| == |s|;
    assert s[0..] == s;
  }

  lemma TrimSpaced(s: string)
    requires s != "" && Trim(s) == s
    ensures Trim([' '] + s) == s
  {
    TrimmedEnds(s);
    assert ([' '] + s)[1..] == s;
    assert TrimLeft([' '] + s) == TrimLeft(s);
  }

  lemma SplitPrinted(key: string, value: string)
    requires ':' !in key && ':' !in value
    ensures Split(PrintEntry(key, value), ':') == [key, [' '] + value]
  {
    assert PrintEntry(key, value) == key + [':'] + ([' '] + value);
    SplitFirst(key, [' '] + value, ':');
    SplitNone([' '] + value, ':');
  }

  predicate Blank(s: string) {
    forall i :: 0 <= i < |s| ==> IsSpace(s[i])
  }

  lemma {:induction false} TrimLeftOf(left: string, s: string)
    requires Blank(left) && (s != "" ==> !IsSpace(s[0]))
    ensures TrimLeft(left + s) == s
  {
    if left == "" {
      assert left + s == s;
    } else {
      assert (left + s)[1..] == left[1..] + s;
      TrimLeftOf(left[1..], s);
    }
  }

  lemma {:induction false} TrimRightOf(s: string, right: string)
    requires Blank(right) && (s != "" ==> !IsSpace(s[|s| - 1]))
    ensures TrimRight(s + right) == s
  {
    if right == "" {
      assert s + right == s;
    } else {
      assert (s + right)[..|s + right| - 1] == s + right[..|right| - 1];
      TrimRightOf(s, right[..|right| - 1]);
    }
  }

  /** Blanks around a text are trimmed, and nothing else. */
  lemma TrimOf(left: string, s: string, right: string)
    requires Blank(left) && Blank(right) && s != "" && !IsSpace(s[0]) && !IsSpace(s[|s| - 1])
    ensures Trim(left + s + right) == s
  {
    assert left + s + right == left + (s + right);
    TrimLeftOf(left, s + right);
    TrimRightOf(s, right);
  }

  lemma {:induction false} SplitBack(s: string, sep: char)
    ensures Join(Split(s, sep), sep) == s
  {
    if s != "" {
      SplitBack(s[1..], sep);
      var rest := Split(s[1..], sep);
      if s[0] == sep {
        assert ([""] + rest)[1..] == rest;
      } else if |rest| > 1 {
        assert ([[s[0]] + rest[0]] + rest[1..])[1..] == rest[1..];
      }
    }
  }

  lemma PairIsEntry(line: string, a: string, b: string, key: string, value: string)
    requires Split(line, ':') == [a, b] && Trim(a) == key && Trim(b) == value && key != "" && value != ""
    ensures ParseLine(line) == Some(Entry(key, value))
  {
  }

  predicate Halves(line: string, a: string, b: string, key: string, value: string) {
    line == a + [':'] + b && ':' !in a && ':' !in b && Trim(a) == key && Trim(b) == value
  }

  /** `key:value` with any blanks around both, or none, and exactly one colon. */
  ghost predicate IsEntry(line: string, key: string, value: string) {
    key != "" && value != "" && exists a, b :: Halves(line, a, b, key, value)
  }

  lemma HalvesAreRead(line: string, a: string, b: string, key: string, value: string)
    requires Halves(line, a, b, key, value) && key != "" && value != ""
    ensures ParseLine(line) == Some(Entry(key, value))
  {
    SplitFirst(a, b, ':');
    SplitNone(b, ':');
    PairIsEntry(line, a, b, key, value);
  }

  lemma JoinTwo(a: string, b: string, sep: char)
    ensures Join([a, b], sep) == a + [sep] + b
  {
    assert [a, b][1..] == [b];
  }

  lemma ReadAreHalves(line: string, a: string, b: string)
    requires Split(line, ':') == [a, b]
    ensures Halves(line, a, b, Trim(a), Trim(b))
  {
    SplitBack(line, ':');
    JoinTwo(a, b, ':');
    SplitParts(line, ':');
    assert a == Split(line, ':')[0] && b == Split(line, ':')[1];
  }

  /** These lines, and no others, give an entry. */
  lemma EntryIff(line: string, key: string, value: string)
    ensures ParseLine(line) == Some(Entry(key, value)) <==> IsEntry(line, key, value)
  {
    if ParseLine(line) == Some(Entry(key, value)) {
      var pair := Split(line, ':');
      assert pair == [pair[0], pair[1]];
      ReadAreHalves(line, pair[0], pair[1]);
    }
    if IsEntry(line, key, value) {
      var a, b :| Halves(line, a, b, key, value);
      HalvesAreRead(line, a, b, key, value);
    }
  }

  lemma ParsePrinted(key: string, value: string)
    requires Clean(key) && Clean(value)
    ensures ParseLine(PrintEntry(key, value)) == Some(Entry(key, value))
  {
    SplitPrinted(key, value);
    TrimSpaced(value);
    PairIsEntry(PrintEntry(key, value), key, [' '] + value, key, value);
  }

  lemma PrintedIsOneLine(key: string, value: string)
    requires '\n' !in key && '\n' !in value
    ensures '\n' !in PrintEntry(key, value)
  {
  }

  function Restrict(info: Info, keys: seq<string>): Info
    requires forall k :: k in keys ==> k in info
  {
    map k | k in keys :: info[k]
  }

  lemma RestrictNext(info: Info, keys: seq<string>, k: string)
    requires k in info && forall k' :: k' in keys ==> k' in info
    ensures Restrict(info, keys + [k]) == Restrict(info, keys)[k := info[k]]
  {
  }

  /** The text has one line for each key, in the order of the walk. */
  lemma LinesOfText(info: Info, keys: seq<string>)
    requires keys != [] && forall k :: k in keys ==> k in info && '\n' !in k && '\n' !in info[k]
    ensures Split(ToText(info, keys), '\n') == ToLines(info, keys)
    ensures forall i :: 0 <= i < |keys| ==> ToLines(info, keys)[i] == keys[i] + ": " + info[keys[i]]
  {
    forall i | 0 <= i < |keys|
      ensures '\n' !in ToLines(info, keys)[i]
    {
      PrintedIsOneLine(keys[i], info[keys[i]]);
    }
    SplitJoin(ToLines(info, keys), '\n');
  }

  lemma InsertPrinted(info: Info, lines: seq<string>, key: string, value: string)
    requires Clean(key) && Clean(value)
    ensures FromLines(lines + [PrintEntry(key, value)]) == FromLines(lines)[key := value]
  {
    ParsePrinted(key, value);
    assert (lines + [PrintEntry(key, value)])[..|lines|] == lines;
  }

  lemma {:induction false} FromToLines(info: Info, keys: seq<string>)
    requires CleanInfo(info) && forall k :: k in keys ==> k in info
    ensures FromLines(ToLines(info, keys)) == Restrict(info, keys)
  {
    if keys != [] {
      var before, k := keys[..|keys| - 1], keys[|keys| - 1];
      assert keys == before + [k];
      RestrictNext(info, before, k);
      FromToLines(info, before);
      InsertPrinted(info, ToLines(info, before), k, info[k]);
    }
  }

  /** What is read never holds blanks at the ends, colons or line ends. */
  lemma ParsedIsClean(line: string)
    requires '\n' !in line
    ensures ParseLine(line).Some? ==> Clean(ParseLine(line).value.key) && Clean(ParseLine(line).value.value)
  {
    SplitParts(line, ':');
    SplitAddsNothing(line, ':', '\n');
    var pair := Split(line, ':');
    if |pair| == 2 {
      TrimIsTrimmed(pair[0]);
      TrimIsTrimmed(pair[1]);
    }
  }

  lemma InSlice(s: string, t: string, k: nat)
    requires k + |t| <= |s| && t == s[k..k + |t|]
    ensures forall c :: c in t ==> c in s
  {
  }

  lemma DropTake(s: string, k: nat, m: nat)
    requires k + m <= |s|
    ensures s[k..][..m] == s[k..k + m]
    ensures m > 0 ==> s[k..][..m][0] == s[k..][0]
  {
  }

  lemma TrimIsSlice(s: string)
    ensures var k := |s| - |TrimLeft(s)|; Trim(s) == s[k..k + |Trim(s)|]
    ensures Trim(s) != "" ==> TrimLeft(s) != "" && Trim(s)[0] == TrimLeft(s)[0]
  {
    DropTake(s, |s| - |TrimLeft(s)|, |Trim(s)|);
  }

  lemma TrimEnds(s: string)
    ensures Trim(s) != "" ==> !IsSpace(Trim(s)[0]) && !IsSpace(Trim(s)[|Trim(s)| - 1])
  {
    TrimIsSlice(s);
  }

  lemma TrimFixed(t: string)
    requires t != "" ==> !IsSpace(t[0]) && !IsSpace(t[|t| - 1])
    ensures Trim(t) == t
  {
    assert TrimLeft(t) == t;
  }

  lemma TrimIsTrimmed(s: string)
    ensures Trim(Trim(s)) == Trim(s)
    ensures forall c :: c !in s ==> c !in Trim(s)
  {
    TrimIsSlice(s);
    InSlice(s, Trim(s), |s| - |TrimLeft(s)|);
    TrimEnds(s);
    TrimFixed(Trim(s));
  }

  lemma {:induction false} FromLinesIsClean(lines: seq<string>)
    requires forall i :: 0 <= i < |lines| ==> '\n' !in lines[i]
    ensures CleanInfo(FromLines(lines))
  {
    if lines != [] {
      FromLinesIsClean(lines[..|lines| - 1]);
      ParsedIsClean(lines[|lines| - 1]);
    }
  }

  lemma FromTextIsClean(text: string)
    ensures CleanInfo(FromText(text))
  {
    SplitParts(text, '\n');
    FromLinesIsClean(Split(text, '\n'));
  }

  /** Reading what was written gives the same pairs exactly when every key and value is
      non-empty, trimmed and free of colons and line ends. The empty map is one case. */
  lemma RoundTrip(info: Info, keys: seq<string>)
    requires Walks(keys, info)
    ensures FromText(ToText(info, keys)) == info <==> CleanInfo(info)
  {
    FromTextIsClean(ToText(info, keys));
    if CleanInfo(info) {
      CleanComesBack(info, keys);
    }
  }

  lemma EmptyComesBack()
    ensures FromText("") == map[]
  {
    SplitNone("", ':');
    SplitNone("", '\n');
    assert [""][..0] == [];
    NextLine([""], 0);
    assert [""][..1] == [""];
  }

  lemma CleanComesBack(info: Info, keys: seq<string>)
    requires Walks(keys, info) && CleanInfo(info)
    ensures FromText(ToText(info, keys)) == info
  {
    RestrictAll(info, keys);
    if keys == [] {
      EmptyComesBack();
    } else {
      LinesComeBack(info, keys);
      FromToLines(info, keys);
    }
  }

  lemma RestrictAll(info: Info, keys: seq<string>)
    requires Walks(keys, info)
    ensures Restrict(info, keys) == info
    ensures keys == [] ==> info == map[]
  {
  }

  lemma LinesAreLines(info: Info, keys: seq<string>)
    requires CleanInfo(info) && forall k :: k in keys ==> k in info
    ensures forall i :: 0 <= i < |keys| ==> '\n' !in ToLines(info, keys)[i]
  {
    forall i | 0 <= i < |keys|
      ensures '\n' !in ToLines(info, keys)[i]
    {
      var key := keys[i];
      assert Clean(key) && Clean(info[key]);
      PrintedIsOneLine(key, info[key]);
      assert ToLines(info, keys)[i] == PrintEntry(key, info[key]);
    }
  }

  lemma LinesComeBack(info: Info, keys: seq<string>)
    requires keys != [] && CleanInfo(info) && forall k :: k in keys ==> k in info
    ensures Split(ToText(info, keys), '\n') == ToLines(info, keys)
  {
    LinesAreLines(info, keys);
    SplitJoin(ToLines(info, keys), '\n');
  }

  /** For every text: what was read survives being written and read again. */
  lemma ReadTwice(text: string, keys: seq<string>)
    requires Walks(keys, FromText(text))
    ensures FromText(ToText(FromText(text), keys)) == FromText(text)
  {
    FromTextIsClean(text);
    RoundTrip(FromText(text), keys);
  }

  // ---------- what is read from any text ----------

  ghost predicate HasKey(line: string, key: string) {
    exists v :: IsEntry(line, key, v)
  }

  ghost predicate NoneAfter(lines: seq<string>, i: nat, key: string) {
    forall j :: i < j < |lines| ==> !HasKey(lines[j], key)
  }

  /** The last entry for the key has this value. */
  ghost predicate LastEntry(lines: seq<string>, key: string, value: string) {
    exists i :: 0 <= i < |lines| && IsEntry(lines[i], key, value) && NoneAfter(lines, i, key)
  }

  lemma EarlierEntry(lines: seq<string>, n: nat, i: nat, key: string)
    requires n == |lines| - 1 && i < n
    ensures NoneAfter(lines, i, key) <==> NoneAfter(lines[..n], i, key) && !HasKey(lines[n], key)
  {
    var before := lines[..n];
    forall j | i < j < n
      ensures HasKey(before[j], key) <==> HasKey(lines[j], key)
    {
      assert before[j] == lines[j];
    }
  }

  lemma LastEntryNext(lines: seq<string>, n: nat, key: string, value: string)
    requires n == |lines| - 1
    ensures LastEntry(lines, key, value) <==>
      (IsEntry(lines[n], key, value) || (LastEntry(lines[..n], key, value) && !HasKey(lines[n], key)))
  {
    assert NoneAfter(lines, n, key);
    forall i | 0 <= i < n
      ensures NoneAfter(lines, i, key) <==> NoneAfter(lines[..n], i, key) && !HasKey(lines[n], key)
      ensures lines[..n][i] == lines[i]
    {
      EarlierEntry(lines, n, i, key);
    }
  }

  /** A key has the value of its last entry; lines that are no entries do not matter. */
  lemma {:induction false} ValueIs(lines: seq<string>, key: string, value: string)
    ensures key in FromLines(lines) && FromLines(lines)[key] == value <==> LastEntry(lines, key, value)
  {
    if lines != [] {
      var n := |lines| - 1;
      ValueIs(lines[..n], key, value);
      LastEntryNext(lines, n, key, value);
      forall v
        ensures ParseLine(lines[n]) == Some(Entry(key, v)) <==> IsEntry(lines[n], key, v)
      {
        EntryIff(lines[n], key, v);
      }
    }
  }
}
