/**
 The directory enumerator (`generate_lists`). It walks the workshop layout
 `<root>/<container>/mods/<mod>/mod.info` and produces three index-parallel
 lists. The id it records for a mod is the name of its container directory,
 not the `id=` value read from `mod.info`.
 */
module Enumerator {
  import opened Wrappers
  import opened ModInfoFile
  import opened PyStr

  /** A directory tree; a directory lists its entries in `os.listdir` order. */
  datatype Node = File(lines: seq<string>) | Dir(entries: seq<Entry>)
  datatype Entry = Entry(name: string, node: Node)

  /** One mod found by the scan. */
  datatype ModRecord = ModRecord(workshopId: string, name: string)

  /** `os.listdir` raising on a `mods` entry that exists but is a file. */
  datatype ScanError = ModsNotADirectory(container: string)

  /** The triple `(workshop_items, mods, display_items)`. */
  datatype Lists = Lists(workshopItems: seq<string>, mods: seq<string>, displayItems: seq<(string, string)>)

  /** The three lists have one length and `display_items[i] == (mods[i], workshop_items[i])`. */
  predicate Aligned(l: Lists) {
    && |l.workshopItems| == |l.mods| == |l.displayItems|
    && forall i :: 0 <= i < |l.displayItems| ==> l.displayItems[i] == (l.mods[i], l.workshopItems[i])
  }

  /** The node at `os.path.join(dir, name)`, if that path exists. */
  function Lookup(entries: seq<Entry>, name: string): Option<Node> {
    if entries == [] then None
    else if entries[0].name == name then Some(entries[0].node)
    else Lookup(entries[1..], name)
  }

  /** What `open` yields for a node: the lines of a file; a directory cannot be opened. */
  function Contents(n: Node): Option<seq<string>> {
    match n
    case File(lines) => Some(lines)
    case Dir(_) => None
  }

  /** What one entry of `<container>/mods` contributes: at most one record. */
  function ModEntryRecords(gameid: string, mod: Entry): seq<ModRecord> {
    match mod.node
    case File(_) => []
    case Dir(files) =>
      match Lookup(files, "mod.info")
      case None => []
      case Some(info) =>
        var m := ModInfoOf(Contents(info));
        if Complete(m) then [ModRecord(gameid, m.name.value)] else []
  }

  /** The records of the entries of `<container>/mods`, in listing order. */
  function ModsRecords(gameid: string, mods: seq<Entry>): (r: seq<ModRecord>)
    ensures |r| <= |mods|
    ensures forall k :: 0 <= k < |r| ==> r[k].workshopId == gameid && r[k].name != []
  {
    if mods == [] then []
    else ModsRecords(gameid, mods[..|mods| - 1]) + ModEntryRecords(gameid, mods[|mods| - 1])
  }

  /** What one entry of the root contributes, or the error `os.listdir` raises. */
  function ContainerRecords(c: Entry): Result<seq<ModRecord>, ScanError> {
    match c.node
    case File(_) => Success([])
    case Dir(sub) =>
      match Lookup(sub, "mods")
      case None => Success([])
      case Some(File(_)) => Failure(ModsNotADirectory(c.name))
      case Some(Dir(mods)) => Success(ModsRecords(c.name, mods))
  }

  /** The records of the whole root, or the error of the first container that raises. */
  function Scan(root: seq<Entry>): Result<seq<ModRecord>, ScanError> {
    if root == [] then Success([])
    else
      match Scan(root[..|root| - 1])
      case Failure(e) => Failure(e)
      case Success(before) =>
        match ContainerRecords(root[|root| - 1])
        case Failure(e) => Failure(e)
        case Success(rs) => Success(before + rs)
  }

  /** The three lists built from a sequence of records. */
  function ListsOf(recs: seq<ModRecord>): Lists {
    if recs == [] then Lists([], [], [])
    else
      var l := ListsOf(recs[..|recs| - 1]);
      var r := recs[|recs| - 1];
      Lists(l.workshopItems + [r.workshopId], l.mods + [r.name], l.displayItems + [(r.name, r.workshopId)])
  }

  /**
   The lists built from records are aligned, and entry `i` of each list
   comes from record `i`.
   */
  lemma {:induction false} ListsOfAligned(recs: seq<ModRecord>)
    ensures var l := ListsOf(recs);
      && Aligned(l) && |l.mods| == |recs|
      && forall i :: 0 <= i < |recs| ==>
           l.workshopItems[i] == recs[i].workshopId && l.mods[i] == recs[i].name
  {
    if recs != [] {
      ListsOfAligned(recs[..|recs| - 1]);
    }
  }

  /** Appending a record appends to each of the three lists. */
  lemma ListsOfSnoc(recs: seq<ModRecord>, r: ModRecord)
    ensures ListsOf(recs + [r]) ==
      var l := ListsOf(recs);
      Lists(l.workshopItems + [r.workshopId], l.mods + [r.name], l.displayItems + [(r.name, r.workshopId)])
  {
    assert (recs + [r])[..|recs|] == recs;
  }

  /** The scan of one more container. */
  lemma ScanStep(root: seq<Entry>, i: nat, before: seq<ModRecord>, added: seq<ModRecord>)
    requires i < |root|
    requires Scan(root[..i]) == Success(before) && ContainerRecords(root[i]) == Success(added)
    ensures Scan(root[..i + 1]) == Success(before + added)
  {
    assert root[..i + 1][..i] == root[..i];
  }

  /** The records of one more entry of `mods`. */
  lemma ModsStep(gameid: string, mods: seq<Entry>, j: nat)
    requires j < |mods|
    ensures ModsRecords(gameid, mods[..j + 1]) == ModsRecords(gameid, mods[..j]) + ModEntryRecords(gameid, mods[j])
  {
    assert mods[..j + 1][..j] == mods[..j];
  }

  /** Once a prefix of the root raises, the whole scan raises the same error. */
  lemma {:induction false} ScanFailureSticks(root: seq<Entry>, i: nat)
    requires i <= |root| && Scan(root[..i]).Failure?
    ensures Scan(root) == Scan(root[..i])
    decreases |root| - i
  {
    if i < |root| {
      assert root[..i + 1][..i] == root[..i];
      ScanFailureSticks(root, i + 1);
    } else {
      assert root[..i] == root;
    }
  }

  /**
   The body of the inner loop of `generate_lists` for one entry of `mods`:
   the record to append, if the entry is a directory holding a `mod.info`
   that sets both values.
   */
  method ReadModEntry(gameid: string, mod: Entry) returns (rec: Option<ModRecord>)
    ensures (if rec.Some? then [rec.value] else []) == ModEntryRecords(gameid, mod)
  {
    rec := None;
    if mod.node.Dir? {
      var info := Lookup(mod.node.entries, "mod.info");
      if info.Some? {
        var modId, modName := ReadModInfo(Contents(info.value));
        if IsSet(modId) && IsSet(modName) {
          rec := Some(ModRecord(gameid, modName.value));
        }
      }
    }
  }

  /**
   The inner loop of `generate_lists` over the entries of one `mods`
   directory: appends the container name, the mod name and the pair for
   every mod directory whose `mod.info` sets both values.
   */
  method AppendMods(gameid: string, modEntries: seq<Entry>, l: Lists, ghost recs: seq<ModRecord>)
    returns (l': Lists)
    requires l == ListsOf(recs)
    ensures l' == ListsOf(recs + ModsRecords(gameid, modEntries))
  {
    l' := l;
    ghost var cur := recs;
    var j := 0;
    while j < |modEntries|
      invariant 0 <= j <= |modEntries|
      invariant cur == recs + ModsRecords(gameid, modEntries[..j])
      invariant l' == ListsOf(cur)
    {
      var rec := ReadModEntry(gameid, modEntries[j]);
      ghost var added := ModEntryRecords(gameid, modEntries[j]);
      AppendModsStep(gameid, modEntries, j, recs, cur);
      if rec.Some? {
        l' := AppendRecord(l', cur, rec.value);
      } else {
        assert cur + added == cur;
      }
      cur := cur + added;
      j := j + 1;
    }
    assert modEntries[..j] == modEntries;
  }

  /** The three `append` calls for one record. */
  method AppendRecord(l: Lists, ghost recs: seq<ModRecord>, r: ModRecord) returns (l': Lists)
    requires l == ListsOf(recs)
    ensures l' == ListsOf(recs + [r])
  {
    var workshopItems := l.workshopItems + [r.workshopId];
    var mods := l.mods + [r.name];
    var displayItems := l.displayItems + [(r.name, r.workshopId)];
    ListsOfSnoc(recs, r);
    l' := Lists(workshopItems, mods, displayItems);
  }

  lemma AppendModsStep(gameid: string, modEntries: seq<Entry>, j: nat, recs: seq<ModRecord>, cur: seq<ModRecord>)
    requires j < |modEntries| && cur == recs + ModsRecords(gameid, modEntries[..j])
    ensures cur + ModEntryRecords(gameid, modEntries[j]) == recs + ModsRecords(gameid, modEntries[..j + 1])
  {
    ModsStep(gameid, modEntries, j);
    assert recs + ModsRecords(gameid, modEntries[..j]) + ModEntryRecords(gameid, modEntries[j])
      == recs + (ModsRecords(gameid, modEntries[..j]) + ModEntryRecords(gameid, modEntries[j]));
  }

  /**
   `generate_lists`: for each container directory that has `mods`, runs
   the inner loop over its entries; a `mods` entry that is a file makes
   `os.listdir` raise.
   */
  method GenerateLists(root: seq<Entry>) returns (r: Result<Lists, ScanError>)
    ensures Scan(root).Failure? ==> r == Failure(Scan(root).error)
    ensures Scan(root).Success? ==> r == Success(ListsOf(Scan(root).value))
    ensures r.Success? ==> Aligned(r.value)
  {
    var lists := Lists([], [], []);
    ghost var recs: seq<ModRecord> := [];
    var i := 0;
    while i < |root|
      invariant 0 <= i <= |root|
      invariant Scan(root[..i]) == Success(recs)
      invariant lists == ListsOf(recs)
    {
      var next := ScanContainer(root[i], lists, recs);
      if next.Failure? {
        assert root[..i + 1][..i] == root[..i];
        ScanFailureSticks(root, i + 1);
        return Failure(next.error);
      }
      ghost var added := ContainerRecords(root[i]).value;
      ScanStep(root, i, recs, added);
      lists := next.value;
      recs := recs + added;
      i := i + 1;
    }
    assert root[..i] == root;
    ListsOfAligned(recs);
    r := Success(lists);
  }

  /**
   The body of the outer loop of `generate_lists` for one entry of the
   root: the lists extended by the mods of that container, or the error of
   `os.listdir` on a `mods` that is a file.
   */
  method ScanContainer(c: Entry, l: Lists, ghost recs: seq<ModRecord>) returns (r: Result<Lists, ScanError>)
    requires l == ListsOf(recs)
    ensures ContainerRecords(c).Failure? ==> r == Failure(ContainerRecords(c).error)
    ensures ContainerRecords(c).Success? ==> r == Success(ListsOf(recs + ContainerRecords(c).value))
  {
    r := Success(l);
    if c.node.Dir? {
      var modsNode := Lookup(c.node.entries, "mods");
      if modsNode.Some? {
        if modsNode.value.File? {
          return Failure(ModsNotADirectory(c.name));
        }
        var l' := AppendMods(c.name, modsNode.value.entries, l, recs);
        return Success(l');
      }
    }
    assert recs + [] == recs;
  }

  /** The scan is a homomorphism on the entries of `mods`. */
  lemma {:induction false} ModsRecordsAppend(gameid: string, a: seq<Entry>, b: seq<Entry>)
    ensures ModsRecords(gameid, a + b) == ModsRecords(gameid, a) + ModsRecords(gameid, b)
    decreases |b|
  {
    if b == [] {
      assert a + b == a;
    } else {
      var b' := b[..|b| - 1];
      assert (a + b)[..|a + b| - 1] == a + b';
      ModsRecordsAppend(gameid, a, b');
    }
  }

  /** Concatenating two roots concatenates their records; the first error wins. */
  function Then(x: Result<seq<ModRecord>, ScanError>, y: Result<seq<ModRecord>, ScanError>): Result<seq<ModRecord>, ScanError> {
    match x
    case Failure(e) => Failure(e)
    case Success(xs) =>
      match y
      case Failure(e) => Failure(e)
      case Success(ys) => Success(xs + ys)
  }

  lemma ThenAssoc(x: Result<seq<ModRecord>, ScanError>, y: Result<seq<ModRecord>, ScanError>, z: Result<seq<ModRecord>, ScanError>)
    ensures Then(Then(x, y), z) == Then(x, Then(y, z))
  {
    if x.Success? && y.Success? && z.Success? {
      assert x.value + y.value + z.value == x.value + (y.value + z.value);
    }
  }

  /** One unfolding of the scan, in terms of `Then`. */
  lemma ScanUnfold(root: seq<Entry>)
    requires root != []
    ensures Scan(root) == Then(Scan(root[..|root| - 1]), ContainerRecords(root[|root| - 1]))
  {
  }

  lemma {:induction false} ScanAppend(a: seq<Entry>, b: seq<Entry>)
    ensures Scan(a + b) == Then(Scan(a), Scan(b))
    decreases |b|
  {
    if b == [] {
      assert a + b == a;
      if Scan(a).Success? {
        assert Scan(a).value + [] == Scan(a).value;
      }
    } else {
      var b' := b[..|b| - 1];
      var c := b[|b| - 1];
      assert (a + b)[..|a + b| - 1] == a + b';
      assert (a + b)[|a + b| - 1] == c;
      ScanAppend(a, b');
      ScanUnfold(a + b);
      ScanUnfold(b);
      ThenAssoc(Scan(a), Scan(b'), ContainerRecords(c));
    }
  }

  lemma ModsRecordsSingleton(gameid: string, e: Entry)
    ensures ModsRecords(gameid, [e]) == ModEntryRecords(gameid, e)
  {
    assert [e][..0] == [];
  }

  /** A mod entry that contributes nothing can be removed without changing the records of the others. */
  lemma SkippedModEntry(gameid: string, a: seq<Entry>, e: Entry, b: seq<Entry>)
    requires ModEntryRecords(gameid, e) == []
    ensures ModsRecords(gameid, a + [e] + b) == ModsRecords(gameid, a + b)
  {
    var x, y := ModsRecords(gameid, a), ModsRecords(gameid, b);
    assert ModsRecords(gameid, a + [e]) == x by {
      ModsRecordsAppend(gameid, a, [e]);
      ModsRecordsSingleton(gameid, e);
      assert x + [] == x;
    }
    assert ModsRecords(gameid, a + [e] + b) == x + y by {
      ModsRecordsAppend(gameid, a + [e], b);
    }
    ModsRecordsAppend(gameid, a, b);
  }

  /** A mod entry is recorded exactly when it is a directory whose `mod.info` sets both values. */
  lemma ModEntryRecorded(gameid: string, e: Entry)
    ensures |ModEntryRecords(gameid, e)| <= 1
    ensures ModEntryRecords(gameid, e) != [] <==>
      && e.node.Dir?
      && Lookup(e.node.entries, "mod.info").Some?
      && Complete(ModInfoOf(Contents(Lookup(e.node.entries, "mod.info").value)))
    ensures ModEntryRecords(gameid, e) != [] ==>
      ModEntryRecords(gameid, e) ==
        [ModRecord(gameid, ModInfoOf(Contents(Lookup(e.node.entries, "mod.info").value)).name.value)]
  {
  }

  /** A container contributes nothing unless it is a directory with a `mods` directory. */
  predicate HasModsDir(c: Entry) {
    c.node.Dir? && Lookup(c.node.entries, "mods").Some? && Lookup(c.node.entries, "mods").value.Dir?
  }

  /** A `mods` entry that exists but is a file. */
  predicate HasModsFile(c: Entry) {
    c.node.Dir? && Lookup(c.node.entries, "mods").Some? && Lookup(c.node.entries, "mods").value.File?
  }

  /** A container that contributes nothing and raises nothing can be removed without changing the rest. */
  lemma SkippedContainer(a: seq<Entry>, c: Entry, b: seq<Entry>)
    requires !HasModsDir(c) && !HasModsFile(c)
    ensures Scan(a + [c] + b) == Scan(a + b)
  {
    ScanAppend(a + [c], b);
    ScanAppend(a, [c]);
    ScanAppend(a, b);
    assert [c] == [] + [c];
    ScanSnoc([], c);
    ThenLeftUnit(Success([]));
    ThenRightUnit(Scan(a));
  }

  /**
   Each container with a `mods` directory contributes one consecutive block,
   at the position of the container, all of whose records carry the
   container's name as their id.
   */
  lemma ContainerBlock(a: seq<Entry>, c: Entry, b: seq<Entry>)
    requires HasModsDir(c) && Scan(a + [c] + b).Success?
    ensures Scan(a).Success? && Scan(b).Success?
    ensures var block := ModsRecords(c.name, Lookup(c.node.entries, "mods").value.entries);
      && Scan(a + [c] + b).value == Scan(a).value + block + Scan(b).value
      && forall k :: 0 <= k < |block| ==> block[k].workshopId == c.name
  {
    ScanAppend(a + [c], b);
    ScanAppend(a, [c]);
    ScanUnfold([c]);
    assert [c][..0] == [];
  }

  /**
   The scan fails exactly when some container has a `mods` file, and then
   with the error of the first such container.
   */
  lemma {:induction false} ScanFailsAtFirstModsFile(root: seq<Entry>)
    ensures Scan(root).Failure? <==> exists i :: 0 <= i < |root| && HasModsFile(root[i])
    ensures Scan(root).Failure? ==> exists i ::
      && 0 <= i < |root| && HasModsFile(root[i])
      && (forall j :: 0 <= j < i ==> !HasModsFile(root[j]))
      && Scan(root).error == ModsNotADirectory(root[i].name)
  {
    if root != [] {
      var p := root[..|root| - 1];
      var c := root[|root| - 1];
      ScanFailsAtFirstModsFile(p);
      assert forall i :: 0 <= i < |p| ==> p[i] == root[i];
      if Scan(p).Failure? {
        var i :| 0 <= i < |p| && HasModsFile(p[i]) && (forall j :: 0 <= j < i ==> !HasModsFile(p[j]))
          && Scan(p).error == ModsNotADirectory(p[i].name);
        assert HasModsFile(root[i]);
      } else if HasModsFile(c) {
        assert ContainerRecords(c) == Failure(ModsNotADirectory(c.name));
        assert forall j :: 0 <= j < |root| - 1 ==> !HasModsFile(root[j]);
      } else {
        assert ContainerRecords(c).Success?;
        assert forall j :: 0 <= j < |root| ==> !HasModsFile(root[j]);
      }
    }
  }

  /** A mod directory holding only a `mod.info` file with the given lines. */
  function ModDir(dirName: string, info: seq<string>): Entry {
    Entry(dirName, Dir([Entry("mod.info", File(info))]))
  }

  /** A container directory holding only a `mods` directory with the given entries. */
  function Container(name: string, mods: seq<Entry>): Entry {
    Entry(name, Dir([Entry("mods", Dir(mods))]))
  }

  /** What a mod directory built by `ModDir` contributes. */
  lemma ModDirRecords(gameid: string, dirName: string, info: seq<string>)
    ensures ModEntryRecords(gameid, ModDir(dirName, info)) ==
      if Complete(ParseModInfo(info)) then [ModRecord(gameid, ParseModInfo(info).name.value)] else []
  {
  }

  /** What a container built by `Container` contributes. */
  lemma ContainerOf(name: string, mods: seq<Entry>)
    ensures ContainerRecords(Container(name, mods)) == Success(ModsRecords(name, mods))
  {
  }

  /** A value a `key=value` line carries unchanged once stripped and split on `=`. */
  predicate PlainValue(v: string) {
    v != [] && '=' !in v && !IsSpace(v[|v| - 1])
  }

  /**
   A root with a stray file, a container whose mod declares some id, and a
   container whose mod has no `id=` line next to a stray file: one mod is
   listed, under the name of its container rather than the id it declares.
   */
  lemma ContainerNameIsTheId(g1: string, g2: string, id: string, name: string, other: string)
    requires PlainValue(id) && PlainValue(name) && PlainValue(other)
    ensures var root := [
        Entry("readme.txt", File([])),
        Container(g1, [ModDir("alpha", [IdKey + id + "\n", NameKey + name + "\n"])]),
        Container(g2, [ModDir("beta", [NameKey + other + "\n"]), Entry("notes", File([]))])
      ];
      && Scan(root) == Success([ModRecord(g1, name)])
      && ListsOf(Scan(root).value) == Lists([g1], [name], [(name, g1)])
  {
    var c1 := Container(g1, [ModDir("alpha", [IdKey + id + "\n", NameKey + name + "\n"])]);
    var c2 := Container(g2, [ModDir("beta", [NameKey + other + "\n"]), Entry("notes", File([]))]);
    DeclaringContainer(g1, id, name);
    NameOnlyContainer(g2, other);
    ScanOfThree(Entry("readme.txt", File([])), c1, c2, [ModRecord(g1, name)]);
    ListsOfOne(ModRecord(g1, name));
  }

  /** Three containers of which only the middle one contributes. */
  lemma ScanOfThree(c0: Entry, c1: Entry, c2: Entry, recs: seq<ModRecord>)
    requires ContainerRecords(c0) == Success([]) && ContainerRecords(c2) == Success([])
    requires ContainerRecords(c1) == Success(recs)
    ensures Scan([c0, c1, c2]) == Success(recs)
  {
    var s1: seq<Entry> := [] + [c0];
    var s2 := s1 + [c1];
    var s3 := s2 + [c2];
    assert Scan(s1) == Success([]) by {
      ScanSnoc([], c0);
      ThenLeftUnit(Success([]));
    }
    assert Scan(s2) == Success(recs) by {
      ScanSnoc(s1, c1);
      ThenLeftUnit(Success(recs));
    }
    assert Scan(s3) == Success(recs) by {
      ScanSnoc(s2, c2);
      ThenRightUnit(Success(recs));
    }
    assert s3 == [c0, c1, c2];
  }

  lemma ScanSnoc(root: seq<Entry>, c: Entry)
    ensures Scan(root + [c]) == Then(Scan(root), ContainerRecords(c))
  {
    assert (root + [c])[..|root|] == root;
  }

  lemma ThenLeftUnit(y: Result<seq<ModRecord>, ScanError>)
    ensures Then(Success([]), y) == y
  {
    if y.Success? {
      assert [] + y.value == y.value;
    }
  }

  lemma ThenRightUnit(x: Result<seq<ModRecord>, ScanError>)
    ensures Then(x, Success([])) == x
  {
    if x.Success? {
      assert x.value + [] == x.value;
    }
  }

  lemma ListsOfOne(r: ModRecord)
    ensures ListsOf([r]) == Lists([r.workshopId], [r.name], [(r.name, r.workshopId)])
  {
    assert [r][..0] == [];
  }

  /** A container with one mod declaring both values yields that mod under the container's name. */
  lemma DeclaringContainer(g1: string, id: string, name: string)
    requires PlainValue(id) && PlainValue(name)
    ensures ContainerRecords(Container(g1, [ModDir("alpha", [IdKey + id + "\n", NameKey + name + "\n"])]))
      == Success([ModRecord(g1, name)])
  {
    var alpha := ModDir("alpha", [IdKey + id + "\n", NameKey + name + "\n"]);
    PlainModInfo(id, name);
    ModDirRecords(g1, "alpha", [IdKey + id + "\n", NameKey + name + "\n"]);
    ModsRecordsSingleton(g1, alpha);
    ContainerOf(g1, [alpha]);
  }

  /** A container with a mod lacking `id=` and a stray file yields nothing. */
  lemma NameOnlyContainer(g2: string, other: string)
    requires PlainValue(other)
    ensures ContainerRecords(Container(g2, [ModDir("beta", [NameKey + other + "\n"]), Entry("notes", File([]))]))
      == Success([])
  {
    var beta := ModDir("beta", [NameKey + other + "\n"]);
    var notes := Entry("notes", File([]));
    NameOnlyModInfo(other);
    ModDirRecords(g2, "beta", [NameKey + other + "\n"]);
    ModsRecordsSingleton(g2, beta);
    ModsRecordsSingleton(g2, notes);
    ModsRecordsAppend(g2, [beta], [notes]);
    assert [beta] + [notes] == [beta, notes];
    ContainerOf(g2, [beta, notes]);
  }

  /** A `mods` file anywhere in the root makes the whole scan raise, discarding the lists built so far. */
  lemma ModsFileAbortsTheScan()
    ensures var root := [
        Container("1000", [ModDir("alpha", ["id=1\n", "name=Alpha\n"])]),
        Entry("3000", Dir([Entry("mods", File([]))]))
      ];
      Scan(root) == Failure(ModsNotADirectory("3000"))
  {
    var bad := Entry("3000", Dir([Entry("mods", File([]))]));
    var root := [Container("1000", [ModDir("alpha", ["id=1\n", "name=Alpha\n"])]), bad];
    assert HasModsFile(root[1]);
    ScanFailsAtFirstModsFile(root);
    assert !HasModsFile(root[0]);
  }
}
