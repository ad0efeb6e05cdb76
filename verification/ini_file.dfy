/** INI files, line by line, and the count of a section's keys. */
module IniFiles {
  import opened Common
  import opened IniHash
  import opened IniDictionaries

  const COLON: byte := 58

  /** A line as the line parser classifies it, with section and key names already in lower case. */
  datatype Line = Ignored | Erroneous | Section(name: Str) | Value(key: Str, val: Str)

  datatype Loaded = Loaded(section: Str, entries: map<Str, Str>, errors: nat)

  function EntryKey(section: Str, key: Str): Str {
    section + [COLON] + key
  }

  function LoadLine(l: Loaded, line: Line): Loaded {
    match line
    case Ignored => l
    case Erroneous => l.(errors := l.errors + 1)
    case Section(name) => l.(section := name)  // stored with a null value, which stores nothing
    case Value(key, val) => l.(entries := l.entries[EntryKey(l.section, key) := val])
  }

  function Load(lines: seq<Line>): Loaded {
    if lines == [] then Loaded([], map[], 0) else LoadLine(Load(lines[..|lines| - 1]), lines[|lines| - 1])
  }

  /** The line stores a key that is not there yet. */
  predicate AddsKey(l: Loaded, line: Line) {
    line.Value? && EntryKey(l.section, line.key) !in l.entries
  }

  /**
    One erroneous line discards everything. `memory` says for each line whether an allocation
    would succeed; if one fails, only a new key can have needed it, the lines behind it are not
    read, and what was loaded before it is returned.
  */
  method ProcessFile(lines: seq<Line>, memory: seq<bool>) returns (dict: IniDictionary?, ghost loaded: nat)
    requires |memory| == |lines|
    ensures loaded <= |lines|
    ensures loaded < |lines| ==> !memory[loaded] && AddsKey(Load(lines[..loaded]), lines[loaded])
    ensures dict == null <==> Erroneous in lines[..loaded]
    ensures dict != null ==> dict.Valid() && dict.contents == Load(lines[..loaded]).entries
  {
    var d := new IniDictionary(HashOf);
    var section: Str := [];
    var errors := 0;
    for i := 0 to |lines|
      invariant d.Valid() && fresh(d) && fresh(d.key) && fresh(d.val) && fresh(d.hash)
      invariant Load(lines[..i]) == Loaded(section, d.contents, errors)
    {
      assert lines[..i + 1][..i] == lines[..i];
      var ret := 0;
      match lines[i] {
        case Ignored =>
        case Erroneous => errors := errors + 1;
        case Section(name) =>
          section := name;
          ret := d.SetVal(Some(section), None, memory[i]);
        case Value(key, val) =>
          ret := d.SetVal(Some(EntryKey(section, key)), Some(val), memory[i]);
      }
      if ret < 0 {
        ErrorsAreErroneousLines(lines[..i]);
        return if errors > 0 then null else d, i;
      }
    }
    assert lines[..|lines|] == lines;
    ErrorsAreErroneousLines(lines);
    if errors > 0 {
      return null, |lines|;
    }
    return d, |lines|;
  }

  /** A file is discarded exactly when one of its lines is erroneous. */
  lemma {:induction false} ErrorsAreErroneousLines(lines: seq<Line>)
    ensures Load(lines).errors > 0 <==> Erroneous in lines
  {
    if lines != [] {
      var n := |lines| - 1;
      ErrorsAreErroneousLines(lines[..n]);
      assert forall line :: line in lines <==> line in lines[..n] || line == lines[n];
    }
  }

  // ---------- Counting the keys of a section ----------

  function LowerByte(b: byte): byte {
    if 65 <= b <= 90 then b + 32 else b
  }

  function Lower(s: Str): (r: Str)
    ensures |r| == |s|
    ensures forall i :: 0 <= i < |s| ==> r[i] == LowerByte(s[i])
  {
    seq(|s|, i requires 0 <= i < |s| => LowerByte(s[i]))
  }

  /** Two names that differ at most in the case of ASCII letters. */
  predicate SameButForCase(a: Str, b: Str) {
    |a| == |b| && forall i :: 0 <= i < |a| ==>
      || a[i] == b[i]
      || (65 <= a[i] <= 90 && b[i] == a[i] + 32)
      || (65 <= b[i] <= 90 && a[i] == b[i] + 32)
  }

  /** Case does not matter, and nothing else is changed by it. */
  lemma LowerIsExact(a: Str, b: Str)
    ensures SameButForCase(a, b) <==> Lower(a) == Lower(b)
    ensures (forall i :: 0 <= i < |a| ==> !(65 <= a[i] <= 90)) ==> Lower(a) == a
  {
    if Lower(a) == Lower(b) {
      forall i | 0 <= i < |a|
        ensures LowerByte(a[i]) == LowerByte(b[i])
      {
        assert Lower(a)[i] == Lower(b)[i];
      }
    }
  }

  /** The stored keys under a prefix. */
  function Under(m: map<Str, Str>, prefix: Str): set<Str> {
    set k | k in m && prefix <= k
  }

  const MAXSIZE: nat := 8192

  /** The lookup copies no more than MAXSIZE bytes of a name. */
  function LookedUp(section: Str): (r: Str)
    ensures |section| <= MAXSIZE ==> r == Lower(section)
    ensures |section| > MAXSIZE ==> |r| == MAXSIZE && r <= Lower(section)
  {
    if |section| <= MAXSIZE then Lower(section) else Lower(section)[..MAXSIZE]
  }

  /** What the count reports: nothing unless the section's name is itself a key. */
  function Reported(m: map<Str, Str>, section: Str): nat {
    if LookedUp(section) in m then |Under(m, Lower(section) + [COLON])| else 0
  }

  /** A longer name must not be found: the code would write behind its buffer. */
  method GetNumOfKeys(dict: IniDictionary?, section: Option<Str>) returns (num: nat)
    requires dict != null ==> dict.Valid()
    requires dict != null && section.Some? && |section.value| > MAXSIZE ==> LookedUp(section.value) !in dict.contents
    ensures num ==
      if dict == null || section.None? || LookedUp(section.value) !in dict.contents then 0
      else |set k | k in dict.contents && Lower(section.value) + [58] <= k|
    ensures num == if dict == null || section.None? then 0 else Reported(dict.contents, section.value)
  {
    if dict == null || section.None? {
      return 0;
    }
    var found := dict.GetVal(Some(LookedUp(section.value)), None);
    if found.None? {
      return 0;
    }
    num := CountPrefix(dict, Lower(section.value) + [COLON]);
    assert Under(dict.contents, Lower(section.value) + [COLON]) ==
      set k | k in dict.contents && Lower(section.value) + [58] <= k;
  }

  method CountPrefix(dict: IniDictionary, prefix: Str) returns (num: nat)
    requires dict.Valid()
    ensures num == |Under(dict.contents, prefix)|
  {
    hide Refines;
    SizesAgree(dict.View(), dict.contents, dict.hashOf);
    num := 0;
    ghost var seen: set<Str> := {};
    for i := 0 to dict.size
      invariant num == |seen|
      invariant seen == Seen(dict.key[..], prefix, i)
    {
      SeenGrows(dict.View(), dict.contents, dict.hashOf, prefix, i);
      if dict.key[i].None? {
        continue;
      }
      if prefix <= dict.key[i].value {
        num := num + 1;
        seen := seen + {dict.key[i].value};
      }
    }
    SeenAll(dict.View(), dict.contents, dict.hashOf, prefix);
  }

  ghost function Seen(keys: seq<Option<Str>>, prefix: Str, n: nat): set<Str>
    requires n <= |keys|
  {
    set i | 0 <= i < n && keys[i].Some? && prefix <= keys[i].value :: keys[i].value
  }

  lemma SeenGrows(t: Table, m: map<Str, Str>, hashOf: Str -> bv32, prefix: Str, i: nat)
    requires Refines(t, m, hashOf) && i < |t.keys|
    ensures Seen(t.keys, prefix, i + 1) == Seen(t.keys, prefix, i) +
      if t.keys[i].Some? && prefix <= t.keys[i].value then {t.keys[i].value} else {}
    ensures t.keys[i].Some? ==> t.keys[i].value !in Seen(t.keys, prefix, i)
  {}

  lemma SeenAll(t: Table, m: map<Str, Str>, hashOf: Str -> bv32, prefix: Str)
    requires Refines(t, m, hashOf)
    ensures Seen(t.keys, prefix, |t.keys|) == Under(m, prefix)
  {
    forall k | k in m && prefix <= k
      ensures k in Seen(t.keys, prefix, |t.keys|)
    {
      assert Stored(t, k);
    }
    forall k | k in Seen(t.keys, prefix, |t.keys|)
      ensures k in m
    {
      var j :| 0 <= j < |t.keys| && t.keys[j].Some? && t.keys[j].value == k;
      assert SlotOk(t, m, hashOf, j);
    }
  }

  // ---------- What the count means ----------

  /** The section that the next line belongs to. */
  function CurrentSection(lines: seq<Line>): Str {
    if lines == [] then [] else
    match lines[|lines| - 1]
    case Section(name) => name
    case _ => CurrentSection(lines[..|lines| - 1])
  }

  /** The keys that the lines of a file give to one section. */
  function FileKeys(lines: seq<Line>, section: Str): set<Str> {
    if lines == [] then {} else
    var before, line := lines[..|lines| - 1], lines[|lines| - 1];
    FileKeys(before, section) + if line.Value? && CurrentSection(before) == section then {line.key} else {}
  }

  /** Read at the colon in place i, k is the entry of a line of the file. */
  ghost predicate EntryAt(lines: seq<Line>, k: Str, i: nat) {
    i < |k| && k[i] == COLON && k[i + 1..] in FileKeys(lines, k[..i])
  }

  ghost predicate IsEntry(lines: seq<Line>, k: Str) {
    exists i: nat :: EntryAt(lines, k, i)
  }

  lemma {:induction false} SectionIsCurrent(lines: seq<Line>)
    ensures Load(lines).section == CurrentSection(lines)
  {
    if lines != [] {
      SectionIsCurrent(lines[..|lines| - 1]);
    }
  }

  /** What is stored for a file are the entries of its lines and nothing else. */
  lemma {:induction false} StoredExactly(lines: seq<Line>, k: Str)
    ensures k in Load(lines).entries <==> IsEntry(lines, k)
  {
    if lines != [] {
      var before, line := lines[..|lines| - 1], lines[|lines| - 1];
      SectionIsCurrent(before);
      StoredExactly(before, k);
      var section := CurrentSection(before);
      if line.Value? && k == EntryKey(section, line.key) {
        assert k[..|section|] == section && k[|section| + 1..] == line.key;
        assert EntryAt(lines, k, |section|);
      }
      forall i: nat | EntryAt(lines, k, i) && !EntryAt(before, k, i)
        ensures line.Value? && k == EntryKey(section, line.key)
      {
        assert k == k[..i] + [k[i]] + k[i + 1..];
      }
      forall i: nat | EntryAt(before, k, i)
        ensures EntryAt(lines, k, i)
      {}
    }
  }

  /** Line i stores a value for k. */
  predicate StoresFor(lines: seq<Line>, i: nat, k: Str)
    requires i < |lines|
  {
    lines[i].Value? && EntryKey(CurrentSection(lines[..i]), lines[i].key) == k
  }

  lemma StoresForInFront(lines: seq<Line>, n: nat, i: nat, k: Str)
    requires i < n <= |lines|
    ensures StoresFor(lines[..n], i, k) == StoresFor(lines, i, k)
  {
    assert lines[..n][..i] == lines[..i];
  }

  /** The value stored for a key is that of the last line that gives it one. */
  lemma {:induction false} LastLineWins(lines: seq<Line>, k: Str) returns (i: nat)
    requires k in Load(lines).entries
    ensures i < |lines| && StoresFor(lines, i, k) && lines[i].val == Load(lines).entries[k]
    ensures forall j :: i < j < |lines| ==> !StoresFor(lines, j, k)
  {
    var n := |lines| - 1;
    SectionIsCurrent(lines[..n]);
    if StoresFor(lines, n, k) {
      i := n;
    } else {
      i := LastLineWins(lines[..n], k);
      hide StoresFor;
      forall j | 0 <= j < n
        ensures StoresFor(lines[..n], j, k) == StoresFor(lines, j, k)
      {
        StoresForInFront(lines, n, j, k);
      }
    }
  }

  /** All entries stored under the section's prefix are its own keys, not those of another section. */
  ghost predicate OnlyItsOwn(lines: seq<Line>, section: Str) {
    forall k :: IsEntry(lines, k) && section + [COLON] <= k ==> k[|section| + 1..] in FileKeys(lines, section)
  }

  lemma OwnEntriesAreUnder(lines: seq<Line>, section: Str, key: Str)
    requires key in FileKeys(lines, section)
    ensures EntryKey(section, key) in Under(Load(lines).entries, section + [COLON])
  {
    var k := EntryKey(section, key);
    assert k[..|section|] == section && k[|section| + 1..] == key;
    assert EntryAt(lines, k, |section|);
    StoredExactly(lines, k);
    assert section + [COLON] <= k;
  }

  function OwnEntries(lines: seq<Line>, section: Str): set<Str> {
    set key | key in FileKeys(lines, section) :: EntryKey(section, key)
  }

  lemma {:induction false} EntryKeysCount(section: Str, keys: set<Str>)
    ensures |set key | key in keys :: EntryKey(section, key)| == |keys|
  {
    var entries := set key | key in keys :: EntryKey(section, key);
    if keys != {} {
      var key :| key in keys;
      var rest := set other | other in keys - {key} :: EntryKey(section, other);
      EntryKeysCount(section, keys - {key});
      forall other | EntryKey(section, other) == EntryKey(section, key)
        ensures other == key
      {
        assert EntryKey(section, other)[|section| + 1..] == other;
        assert EntryKey(section, key)[|section| + 1..] == key;
      }
      assert entries == rest + {EntryKey(section, key)};
    }
  }

  lemma UnderIsOwn(lines: seq<Line>, section: Str, k: Str)
    ensures k in OwnEntries(lines, section) <==>
      section + [COLON] <= k && k[|section| + 1..] in FileKeys(lines, section)
    ensures k in Under(Load(lines).entries, section + [COLON]) <==> IsEntry(lines, k) && section + [COLON] <= k
    ensures k in OwnEntries(lines, section) ==> k in Under(Load(lines).entries, section + [COLON])
  {
    hide Load, FileKeys, IsEntry;
    StoredExactly(lines, k);
    if section + [COLON] <= k {
      assert k == EntryKey(section, k[|section| + 1..]);
    }
    forall key | key in FileKeys(lines, section)
      ensures section + [COLON] <= EntryKey(section, key) && EntryKey(section, key)[|section| + 1..] == key
      ensures EntryKey(section, key) in Under(Load(lines).entries, section + [COLON])
    {
      OwnEntriesAreUnder(lines, section, key);
    }
  }

  /** Under a section's prefix there are at least its own keys, and no more exactly when all are its own. */
  lemma UnderCounts(lines: seq<Line>, section: Str)
    ensures var under := Under(Load(lines).entries, section + [COLON]);
      |under| >= |FileKeys(lines, section)| && (|under| == |FileKeys(lines, section)| <==> OnlyItsOwn(lines, section))
  {
    hide Load, FileKeys, IsEntry, Under, OwnEntries;
    var under, own := Under(Load(lines).entries, section + [COLON]), OwnEntries(lines, section);
    OwnEntriesCount(lines, section);
    forall k
      ensures k in own <==> section + [COLON] <= k && k[|section| + 1..] in FileKeys(lines, section)
      ensures k in under <==> IsEntry(lines, k) && section + [COLON] <= k
      ensures k in own ==> k in under
    {
      UnderIsOwn(lines, section, k);
    }
    SameSizeMeansSame(own, under);
  }

  lemma OwnEntriesCount(lines: seq<Line>, section: Str)
    ensures |OwnEntries(lines, section)| == |FileKeys(lines, section)|
  {
    EntryKeysCount(section, FileKeys(lines, section));
  }

  lemma {:induction false} SameSizeMeansSame<T>(a: set<T>, b: set<T>)
    requires a <= b
    ensures |a| <= |b| && (|a| == |b| <==> b <= a)
  {
    var rest := b - a;
    assert b == a + rest;
  }

  /**
    The documented count, the number of keys in a section. For every file and every name it is
    right exactly when: the name is itself stored, as an entry of some other section, and no
    other section's entry falls under its prefix; or it is not stored and the section has no keys.
  */
  lemma CountIsRightExactly(lines: seq<Line>, section: Str)
    ensures var s := Lower(section);
      Reported(Load(lines).entries, section) == |FileKeys(lines, s)| <==>
        if IsEntry(lines, LookedUp(section)) then OnlyItsOwn(lines, s) else FileKeys(lines, s) == {}
  {
    StoredExactly(lines, LookedUp(section));
    UnderCounts(lines, Lower(section));
  }

  /** A section is found under its name in any case of its letters. */
  lemma CaseDoesNotMatter(m: map<Str, Str>, a: Str, b: Str)
    requires SameButForCase(a, b)
    ensures Reported(m, a) == Reported(m, b)
  {
    LowerIsExact(a, b);
  }

  /** Section names are never stored, so for every file a section without a colon in its name counts as empty. */
  lemma PlainSectionsCountAsEmpty(lines: seq<Line>, section: Str)
    requires COLON !in section
    ensures Reported(Load(lines).entries, section) == 0
    ensures Reported(Load(lines).entries, section) == |FileKeys(lines, Lower(section))| <==>
      FileKeys(lines, Lower(section)) == {}
  {
    StoredExactly(lines, LookedUp(section));
  }

  /** The count errs both ways. A section with one key is counted as having none. */
  lemma OneKeyCountedAsNone()
    ensures var lines := [Section([110]), Value([112], [49])];
      Reported(Load(lines).entries, [110]) == 0 && FileKeys(lines, [110]) == {[112]} && Lower([110]) == [110]
  {
    var first: Line, second: Line := Section([110]), Value([112], [49]);
    assert [first, second][..1] == [first] && [first][..0] == [];
    assert CurrentSection([first]) == [110] && FileKeys([first], [110]) == {};
    assert Lower([110]) == [110];
    PlainSectionsCountAsEmpty([first, second], [110]);
  }

  /** A section a:b that is not in the file, counted as having one key: that of b:c in section a. */
  lemma NoKeyCountedAsOne()
    ensures var lines := [Section([97]), Value([98], [49]), Value([98, COLON, 99], [50])];
      var section := [97, COLON, 98];
      Reported(Load(lines).entries, section) == 1 && FileKeys(lines, section) == {} && Lower(section) == section
  {
    var one: Line, two: Line, three: Line := Section([97]), Value([98], [49]), Value([98, COLON, 99], [50]);
    var lines, section := [one, two, three], [97, COLON, 98];
    assert lines[..2] == [one, two] && [one, two][..1] == [one] && [one][..0] == [];
    assert Lower(section) == section == LookedUp(section);
    assert CurrentSection([one]) == [97] && CurrentSection([one, two]) == [97];
    assert |section| != |CurrentSection([one])|;
    assert FileKeys([one], section) == {};
    assert FileKeys([one, two], section) == {};
    assert Load([one]) == Loaded([97], map[], 0);
    var b, bc := EntryKey([97], [98]), EntryKey([97], [98, COLON, 99]);
    assert Load([one, two]) == Loaded([97], map[b := [49]], 0);
    assert Load(lines).entries == map[b := [49], bc := [50]];
    assert b == section && section + [COLON] <= bc && |b| == 3;
    assert Under(Load(lines).entries, section + [COLON]) == {bc};
  }
}
