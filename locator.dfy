/**
 The Steam locator: finds the Steam installation (environment, then the
 likely folders of every drive, then the registry), reads the library list
 from `steamapps/libraryfolders.vdf`, and picks the Project Zomboid game
 directory and workshop directory from the libraries.

 The machine is observed through a value: the set of paths that exist, the
 readable files and their lines, the environment and the registry value.
 */
module Locator {
  import opened Wrappers
  import opened PyStr

  /** What the probes of the locator can observe on one machine. */
  datatype Machine = Machine(
    paths: set<string>,                  // the paths for which `Path.exists()` holds, spelled as built
    files: map<string, seq<string>>,     // the files `open` can read, with their lines
    env: map<string, string>,            // the environment variables
    registryInstallPath: Option<string>) // `InstallPath` of the Valve Steam key, when it can be read

  predicate Exists(m: Machine, p: string) {
    p in m.paths
  }

  /** A bare drive such as `C:`, with no root. */
  predicate IsDriveName(s: string) {
    |s| == 2 && s[1] == ':'
  }

  /**
   `Path(base) / rel` for a relative `rel`, spelled with `/`: an empty base
   is the current directory, a separator is added unless `base` already
   ends with one, and a bare drive is joined without a separator, which
   makes the result relative to the current directory of that drive.
   */
  function PathJoin(base: string, rel: string): string {
    if base == [] then rel
    else if IsDriveName(base) || base[|base| - 1] == '/' || base[|base| - 1] == '\\' then base + rel
    else base + "/" + rel
  }

  /** The joined path starts with the base, ends with the relative part, and adds at most one separator. */
  lemma PathJoinShape(base: string, rel: string)
    ensures var p := PathJoin(base, rel);
      && StartsWith(p, base) && |rel| <= |p| && p[|p| - |rel|..] == rel
      && |p| <= |base| + 1 + |rel|
      && (IsDriveName(base) ==> p == base + rel)
      && (base == [] ==> p == rel)
      && (base != [] && (base[|base| - 1] == '/' || base[|base| - 1] == '\\') ==> p == base + rel)
      && (base != [] && !IsDriveName(base) && base[|base| - 1] != '/' && base[|base| - 1] != '\\' ==> p == base + "/" + rel)
  {
  }

  /** The file whose presence marks a Steam installation. */
  predicate HasSteamExe(m: Machine, p: string) {
    Exists(m, PathJoin(p, "steam.exe"))
  }

  /** `os.getenv(name)`. */
  function GetEnv(m: Machine, name: string): Option<string> {
    if name in m.env then Some(m.env[name]) else None
  }

  /** Python truthiness of an optional string: set and not empty. */
  predicate Truthy(v: Option<string>) {
    v.Some? && v.value != []
  }

  /** Python's `a or b` on optional strings. */
  function Or(a: Option<string>, b: Option<string>): (r: Option<string>)
    ensures Truthy(r) <==> Truthy(a) || Truthy(b)
    ensures Truthy(a) ==> r == a
    ensures !Truthy(a) ==> r == b
  {
    if Truthy(a) then a else b
  }

  /** `os.getenv('STEAMPATH') or os.getenv('ProgramFiles(x86)')`. */
  function EnvSteamRoot(m: Machine): Option<string> {
    Or(GetEnv(m, "STEAMPATH"), GetEnv(m, "ProgramFiles(x86)"))
  }

  /** The one candidate the environment proposes, if any. */
  function EnvCandidates(m: Machine): seq<string> {
    var root := EnvSteamRoot(m);
    if Truthy(root) then [PathJoin(root.value, "Steam")] else []
  }

  /** `get_steam_path_from_env`. */
  function SteamPathFromEnv(m: Machine): (r: Option<string>)
    ensures r.Some? ==> HasSteamExe(m, r.value) && r.value in EnvCandidates(m)
    ensures r.None? ==> EnvCandidates(m) == [] || !HasSteamExe(m, EnvCandidates(m)[0])
  {
    var root := EnvSteamRoot(m);
    if Truthy(root) then
      var p := PathJoin(root.value, "Steam");
      if HasSteamExe(m, p) then Some(p) else None
    else None
  }

  /** A non-empty `STEAMPATH` alone decides the environment probe: `ProgramFiles(x86)` is then never looked at. */
  lemma SteamPathShadowsProgramFiles(m: Machine, other: string)
    requires Truthy(GetEnv(m, "STEAMPATH"))
    ensures SteamPathFromEnv(m) == SteamPathFromEnv(m.(env := m.env["ProgramFiles(x86)" := other]))
  {
    var m' := m.(env := m.env["ProgramFiles(x86)" := other]);
    assert GetEnv(m', "STEAMPATH") == GetEnv(m, "STEAMPATH");
  }

  /** An unset or empty `STEAMPATH` gives way to `ProgramFiles(x86)`. */
  lemma EmptySteamPathFallsBack(m: Machine)
    requires !Truthy(GetEnv(m, "STEAMPATH"))
    ensures EnvSteamRoot(m) == GetEnv(m, "ProgramFiles(x86)")
  {
  }

  /** `string.ascii_uppercase`, the letters from A to Z. */
  const Letters: string := "ABCDEFGHIJKLMNOPQRSTUVWXYZ"

  /** The letters are in strictly increasing order. */
  lemma LettersIncrease()
    ensures Increasing(Letters)
  {
    assert forall i :: 0 <= i < |Letters| ==> Letters[i] as int == 'A' as int + i;
  }

  /** The drive name `X:` the source builds for a letter. */
  function DriveName(d: char): string {
    [d] + ":"
  }

  /** The drive root `X:/` whose existence selects a drive. */
  function DriveRoot(d: char): string {
    [d] + ":/"
  }

  /** The letters whose drive root exists, in the order of `letters`. */
  function DrivesFrom(m: Machine, letters: string): (ds: string)
    ensures |ds| <= |letters|
  {
    if letters == [] then []
    else
      var rest := DrivesFrom(m, letters[1..]);
      if Exists(m, DriveRoot(letters[0])) then [letters[0]] + rest else rest
  }

  /** A letter is kept exactly when it is one of `letters` and its drive root exists. */
  lemma {:induction false} DrivesFromMembers(m: Machine, letters: string)
    ensures forall c :: c in DrivesFrom(m, letters) <==> c in letters && Exists(m, DriveRoot(c))
  {
    if letters != [] {
      DrivesFromMembers(m, letters[1..]);
      assert forall c :: c in letters[1..] ==> c in letters;
      assert letters == [letters[0]] + letters[1..];
    }
  }

  predicate Increasing(s: string) {
    forall i, j :: 0 <= i < j < |s| ==> s[i] < s[j]
  }

  /** Filtering a strictly increasing string keeps it strictly increasing. */
  lemma {:induction false} DrivesFromInOrder(m: Machine, letters: string)
    requires Increasing(letters)
    ensures Increasing(DrivesFrom(m, letters))
  {
    if letters != [] {
      var rest := DrivesFrom(m, letters[1..]);
      DrivesFromInOrder(m, letters[1..]);
      DrivesFromMembers(m, letters[1..]);
      if Exists(m, DriveRoot(letters[0])) {
        var ds := [letters[0]] + rest;
        forall i, j | 0 <= i < j < |ds|
          ensures ds[i] < ds[j]
        {
          assert ds[j] == rest[j - 1] && rest[j - 1] in letters[1..];
          if i == 0 {
            assert ds[0] == letters[0];
            var t :| 0 <= t < |letters[1..]| && letters[1..][t] == ds[j];
            assert letters[t + 1] == ds[j];
            assert letters[0] < letters[t + 1];
          } else {
            assert ds[i] == rest[i - 1];
            assert rest[i - 1] < rest[j - 1];
          }
        }
      }
    }
  }

  /** The list comprehension `drives`: every letter from A to Z whose root exists. */
  function Drives(m: Machine): string {
    DrivesFrom(m, Letters)
  }

  /** A letter is a drive exactly when it is in A to Z and its root exists. */
  lemma DrivesMembers(m: Machine)
    ensures forall c :: c in Drives(m) <==> c in Letters && Exists(m, DriveRoot(c))
  {
    DrivesFromMembers(m, Letters);
  }

  /** The drives are tried in alphabetical order. */
  lemma DrivesInOrder(m: Machine)
    ensures Increasing(Drives(m))
  {
    LettersIncrease();
    DrivesFromInOrder(m, Letters);
  }

  const LikelyFolders: seq<string> := ["Program Files (x86)/Steam", "Program Files/Steam", "Steam"]

  /** How the drive loop joins a drive and a folder: as the source does, or from the drive root. */
  datatype DriveJoin = AsWritten | Rooted

  function DriveBase(d: char, how: DriveJoin): string {
    match how
    case AsWritten => DriveName(d)
    case Rooted => DriveRoot(d)
  }

  /** The three likely folders on one drive, in the order they are tried. */
  function FolderCandidates(base: string): seq<string> {
    [PathJoin(base, LikelyFolders[0]), PathJoin(base, LikelyFolders[1]), PathJoin(base, LikelyFolders[2])]
  }

  /** The candidates the drive loop tries: each drive in turn, each folder in turn. */
  function DriveCandidates(ds: string, how: DriveJoin): (cs: seq<string>)
    ensures |cs| == 3 * |ds|
  {
    if ds == [] then [] else FolderCandidates(DriveBase(ds[0], how)) + DriveCandidates(ds[1..], how)
  }

  /** Candidate `3 * i + k` is folder `k` of drive `i`. */
  lemma {:induction false} DriveCandidateAt(ds: string, how: DriveJoin, i: nat, k: nat)
    requires i < |ds| && k < 3
    ensures DriveCandidates(ds, how)[3 * i + k] == PathJoin(DriveBase(ds[i], how), LikelyFolders[k])
  {
    var head := FolderCandidates(DriveBase(ds[0], how));
    var rest := DriveCandidates(ds[1..], how);
    assert DriveCandidates(ds, how) == head + rest;
    if i > 0 {
      var n := 3 * (i - 1) + k;
      assert 3 * i + k == |head| + n;
      DriveCandidateAt(ds[1..], how, i - 1, k);
      MiddleIndex(head, rest, [], n);
      assert head + rest + [] == head + rest;
    }
  }

  lemma ConcatAssoc(a: seq<string>, b: seq<string>, c: seq<string>)
    ensures (a + b) + c == a + (b + c)
  {
  }

  lemma DriveCandidatesFrom(ds: string, i: nat, how: DriveJoin)
    requires i < |ds|
    ensures DriveCandidates(ds[i..], how) == FolderCandidates(DriveBase(ds[i], how)) + DriveCandidates(ds[i + 1..], how)
  {
    assert ds[i..][0] == ds[i] && ds[i..][1..] == ds[i + 1..];
  }

  /** The registry value as a candidate, if it could be read. */
  function RegistryCandidates(m: Machine): seq<string> {
    match m.registryInstallPath
    case None => []
    case Some(p) => [p]
  }

  /** Every candidate `get_steam_install_path` tries, in order. */
  function Candidates(m: Machine, how: DriveJoin): seq<string> {
    EnvCandidates(m) + DriveCandidates(Drives(m), how) + RegistryCandidates(m)
  }

  /** After the environment's candidate, candidate `3 * i + k` is folder `k` of drive `i`. */
  lemma CandidateAt(m: Machine, how: DriveJoin, i: nat, k: nat)
    requires i < |Drives(m)| && k < 3
    ensures var at := |EnvCandidates(m)| + 3 * i + k;
      at < |Candidates(m, how)| && Candidates(m, how)[at] == PathJoin(DriveBase(Drives(m)[i], how), LikelyFolders[k])
  {
    var e, dc, r := EnvCandidates(m), DriveCandidates(Drives(m), how), RegistryCandidates(m);
    DriveCandidateAt(Drives(m), how, i, k);
    MiddleIndex(e, dc, r, 3 * i + k);
  }

  lemma MiddleIndex(a: seq<string>, b: seq<string>, c: seq<string>, j: nat)
    requires j < |b|
    ensures |a| + j < |a + b + c| && (a + b + c)[|a| + j] == b[j]
  {
  }

  /** The first candidate that holds `steam.exe`. */
  function FirstWithSteam(m: Machine, cs: seq<string>): (r: Option<string>)
    ensures r.Some? ==> r.value in cs && HasSteamExe(m, r.value)
  {
    if cs == [] then None
    else if HasSteamExe(m, cs[0]) then Some(cs[0])
    else FirstWithSteam(m, cs[1..])
  }

  /** Nothing is found exactly when no candidate holds `steam.exe`. */
  lemma {:induction false} FirstWithSteamNone(m: Machine, cs: seq<string>)
    ensures FirstWithSteam(m, cs).None? <==> forall k :: 0 <= k < |cs| ==> !HasSteamExe(m, cs[k])
  {
    if cs != [] {
      FirstWithSteamNone(m, cs[1..]);
      assert forall k :: 1 <= k < |cs| ==> cs[k] == cs[1..][k - 1];
    }
  }

  /** The first qualifying candidate is chosen, whatever qualifies after it. */
  lemma {:induction false} FirstWithSteamIsFirst(m: Machine, cs: seq<string>, k: nat)
    requires k < |cs| && HasSteamExe(m, cs[k])
    requires forall j :: 0 <= j < k ==> !HasSteamExe(m, cs[j])
    ensures FirstWithSteam(m, cs) == Some(cs[k])
  {
    if k > 0 {
      FirstWithSteamIsFirst(m, cs[1..], k - 1);
    }
  }

  lemma FirstWithSteamCons(m: Machine, c: string, rest: seq<string>)
    ensures FirstWithSteam(m, [c] + rest) == if HasSteamExe(m, c) then Some(c) else FirstWithSteam(m, rest)
  {
    assert ([c] + rest)[1..] == rest;
  }

  /** Searching a concatenation searches the second part only when the first has no candidate. */
  lemma {:induction false} FirstWithSteamAppend(m: Machine, a: seq<string>, b: seq<string>)
    ensures FirstWithSteam(m, a + b) ==
      if FirstWithSteam(m, a).Some? then FirstWithSteam(m, a) else FirstWithSteam(m, b)
  {
    if a == [] {
      assert a + b == b;
    } else {
      assert a + b == [a[0]] + (a[1..] + b);
      assert a == [a[0]] + a[1..];
      FirstWithSteamCons(m, a[0], a[1..] + b);
      FirstWithSteamCons(m, a[0], a[1..]);
      FirstWithSteamAppend(m, a[1..], b);
    }
  }

  /** The environment probe is the search over the environment's candidates. */
  lemma EnvIsFirstCandidate(m: Machine)
    ensures SteamPathFromEnv(m) == FirstWithSteam(m, EnvCandidates(m))
  {
    if Truthy(EnvSteamRoot(m)) {
      FirstWithSteamCons(m, PathJoin(EnvSteamRoot(m).value, "Steam"), []);
      assert [PathJoin(EnvSteamRoot(m).value, "Steam")] + [] == EnvCandidates(m);
    }
  }

  /**
   `get_steam_install_path`: the first candidate holding `steam.exe`. With
   `AsWritten` the drive folders are joined to the bare drive name, as the
   source does; with `Rooted` they are joined to the drive root.
   */
  function SteamInstallPath(m: Machine, how: DriveJoin): (r: Option<string>)
    ensures r.Some? ==> r.value in Candidates(m, how) && HasSteamExe(m, r.value)
  {
    FirstWithSteam(m, Candidates(m, how))
  }

  /**
   The install path is found exactly when some candidate holds `steam.exe`,
   and it is the first such candidate in the order environment, drives
   A to Z with three folders each, registry.
   */
  lemma SteamInstallPathSpec(m: Machine, how: DriveJoin)
    ensures var r, cs := SteamInstallPath(m, how), Candidates(m, how);
      && (r.Some? <==> exists k :: 0 <= k < |cs| && HasSteamExe(m, cs[k]))
      && (r.Some? ==> exists k :: 0 <= k < |cs| && r.value == cs[k] && HasSteamExe(m, cs[k])
                                  && forall j :: 0 <= j < k ==> !HasSteamExe(m, cs[j]))
  {
    var cs := Candidates(m, how);
    FirstWithSteamNone(m, cs);
    if SteamInstallPath(m, how).Some? {
      FirstIndex(m, cs);
    }
  }

  lemma {:induction false} FirstIndex(m: Machine, cs: seq<string>)
    requires FirstWithSteam(m, cs).Some?
    ensures exists k :: 0 <= k < |cs| && FirstWithSteam(m, cs).value == cs[k] && HasSteamExe(m, cs[k])
                        && forall j :: 0 <= j < k ==> !HasSteamExe(m, cs[j])
  {
    var r := FirstWithSteam(m, cs).value;
    if !HasSteamExe(m, cs[0]) {
      var t := cs[1..];
      assert FirstWithSteam(m, t).value == r;
      FirstIndex(m, t);
      var k :| 0 <= k < |t| && r == t[k] && HasSteamExe(m, t[k]) && forall j :: 0 <= j < k ==> !HasSteamExe(m, t[j]);
      assert r == cs[k + 1] && HasSteamExe(m, cs[k + 1]);
      forall j | 0 <= j < k + 1
        ensures !HasSteamExe(m, cs[j])
      {
        if j > 0 {
          assert cs[j] == t[j - 1];
        }
      }
    } else {
      assert r == cs[0];
    }
  }

  /** When the environment finds Steam, drives and registry are never consulted. */
  lemma EnvWins(m: Machine, how: DriveJoin)
    requires SteamPathFromEnv(m).Some?
    ensures SteamInstallPath(m, how) == SteamPathFromEnv(m)
  {
    EnvIsFirstCandidate(m);
    FirstWithSteamAppend(m, EnvCandidates(m) + DriveCandidates(Drives(m), how), RegistryCandidates(m));
    FirstWithSteamAppend(m, EnvCandidates(m), DriveCandidates(Drives(m), how));
  }

  /**
   The intended behaviour of the drive loop: Steam in a likely folder of an
   existing drive is always found.
   */
  lemma RootedFindsLikelyFolder(m: Machine, d: char, k: nat)
    requires d in Letters && Exists(m, DriveRoot(d)) && k < 3
    requires HasSteamExe(m, PathJoin(DriveRoot(d), LikelyFolders[k]))
    ensures SteamInstallPath(m, Rooted).Some?
  {
    var ds := Drives(m);
    DrivesMembers(m);
    assert d in ds;
    var i :| 0 <= i < |ds| && ds[i] == d;
    CandidateAt(m, Rooted, i, k);
    FirstWithSteamNone(m, Candidates(m, Rooted));
  }

  /** The inner loop of `get_steam_install_path`: the likely folders of one drive, in order. */
  method ProbeDrive(m: Machine, drive: char, how: DriveJoin) returns (r: Option<string>)
    ensures r == FirstWithSteam(m, FolderCandidates(DriveBase(drive, how)))
  {
    ghost var here := FolderCandidates(DriveBase(drive, how));
    var j := 0;
    while j < |LikelyFolders|
      invariant 0 <= j <= |LikelyFolders|
      invariant FirstWithSteam(m, here[j..]) == FirstWithSteam(m, here)
    {
      var checkPath := PathJoin(DriveBase(drive, how), LikelyFolders[j]);
      assert here[j..] == [checkPath] + here[j + 1..];
      FirstWithSteamCons(m, checkPath, here[j + 1..]);
      if Exists(m, PathJoin(checkPath, "steam.exe")) {
        return Some(checkPath);
      }
      j := j + 1;
    }
    assert here[j..] == [];
    r := None;
  }

  /**
   The loops of `get_steam_install_path`: the environment, then each likely
   folder of each existing drive, then the registry; the first path that
   holds `steam.exe` is returned. `how` says how a drive and a folder are
   joined: `AsWritten` is the source's loop.
   */
  method GetSteamInstallPath(m: Machine, how: DriveJoin) returns (r: Option<string>)
    ensures r == SteamInstallPath(m, how)
  {
    var envPath := SteamPathFromEnv(m);
    ghost var reg := RegistryCandidates(m);
    var drives := Drives(m);
    EnvIsFirstCandidate(m);
    assert Candidates(m, how) == EnvCandidates(m) + (DriveCandidates(drives, how) + reg);
    FirstWithSteamAppend(m, EnvCandidates(m), DriveCandidates(drives, how) + reg);
    if envPath.Some? {
      return envPath;
    }
    var i := 0;
    while i < |drives|
      invariant 0 <= i <= |drives|
      invariant FirstWithSteam(m, DriveCandidates(drives[i..], how) + reg) == SteamInstallPath(m, how)
    {
      ghost var here := FolderCandidates(DriveBase(drives[i], how));
      ghost var later := DriveCandidates(drives[i + 1..], how) + reg;
      DriveCandidatesFrom(drives, i, how);
      ConcatAssoc(here, DriveCandidates(drives[i + 1..], how), reg);
      FirstWithSteamAppend(m, here, later);
      var found := ProbeDrive(m, drives[i], how);
      if found.Some? {
        return found;
      }
      i := i + 1;
    }
    assert DriveCandidates(drives[i..], how) + reg == reg;
    if m.registryInstallPath.Some? {
      var steamPath := m.registryInstallPath.value;
      FirstWithSteamCons(m, steamPath, []);
      assert reg == [steamPath] + [];
      if Exists(m, PathJoin(steamPath, "steam.exe")) {
        return Some(steamPath);
      }
    }
    r := None;
  }

  /** The marker of a library line in `libraryfolders.vdf`. */
  const PathKey: string := "\"path\""
  const ManifestRel: string := "steamapps/libraryfolders.vdf"
  const SteamAppsRel: string := "steamapps"

  /** A line holding the marker holds at least two double quotes. */
  lemma PathKeyQuotes(line: string)
    requires Contains(line, PathKey)
    ensures multiset(line)['"'] >= 2
  {
    var i :| 0 <= i <= |line| - |PathKey| && OccursAt(line, PathKey, i);
    assert line == line[..i] + PathKey + line[i + |PathKey|..];
    assert multiset(PathKey)['"'] == 2 by {
      assert PathKey == ['"'] + "path" + ['"'];
    }
  }

  /** `line.split('"')[-2]` for a line holding the marker. */
  function QuotedTail(line: string): string
    requires Contains(line, PathKey)
  {
    PathKeyQuotes(line);
    SplitCount(line, '"');
    var pieces := Split(line, '"');
    pieces[|pieces| - 2]
  }

  /** The positions of the parts of `a + [q] + v + [q] + w`. */
  lemma Framed(a: string, v: string, w: string, q: char)
    ensures var t := a + [q] + v + [q] + w;
      && |t| == |a| + |v| + |w| + 2
      && t[|a|] == q && t[|a| + 1..|a| + 1 + |v|] == v && t[|a| + 1 + |v|] == q && t[|a| + 2 + |v|..] == w
  {
  }

  /** The value of a library line is the text between its last two double quotes. */
  lemma QuotedTailBetweenLastQuotes(line: string)
    requires Contains(line, PathKey)
    ensures var v := QuotedTail(line);
      && '"' !in v
      && exists i :: && 0 <= i && i + |v| + 2 <= |line| && line[i] == '"'
                     && line[i + 1..i + 1 + |v|] == v && line[i + 1 + |v|] == '"'
                     && '"' !in line[i + 2 + |v|..]
  {
    PathKeyQuotes(line);
    SplitCount(line, '"');
    var pieces := Split(line, '"');
    var n := |pieces|;
    SplitLastTwo(line, '"');
    var front := Join(pieces[..n - 2], "\"");
    var v, w := pieces[n - 2], pieces[n - 1];
    assert '"' !in v && '"' !in w;
    Framed(front, v, w, '"');
    var i := |front|;
    assert line[i + 2 + |v|..] == w;
  }

  /** The library directories listed by the lines of `libraryfolders.vdf`, in file order. */
  function ManifestPaths(lines: seq<string>): (r: seq<string>)
    ensures |r| <= |lines|
  {
    if lines == [] then []
    else
      var line := lines[|lines| - 1];
      ManifestPaths(lines[..|lines| - 1]) +
        (if Contains(line, PathKey) then [PathJoin(QuotedTail(line), SteamAppsRel)] else [])
  }

  lemma ManifestPathsStep(lines: seq<string>, i: nat)
    requires i < |lines|
    ensures ManifestPaths(lines[..i + 1]) == ManifestPaths(lines[..i]) +
      (if Contains(lines[i], PathKey) then [PathJoin(QuotedTail(lines[i]), SteamAppsRel)] else [])
  {
    assert lines[..i + 1][..i] == lines[..i];
  }

  /** Reading the manifest is a homomorphism on its lines. */
  lemma {:induction false} ManifestPathsAppend(a: seq<string>, b: seq<string>)
    ensures ManifestPaths(a + b) == ManifestPaths(a) + ManifestPaths(b)
    decreases |b|
  {
    if b == [] {
      assert a + b == a;
    } else {
      assert (a + b)[..|a + b| - 1] == a + b[..|b| - 1];
      assert (a + b)[|a + b| - 1] == b[|b| - 1];
      ManifestPathsAppend(a, b[..|b| - 1]);
    }
  }

  /**
   Every line holding the marker contributes its quoted tail joined with
   `steamapps`, and every listed library comes from such a line.
   */
  lemma {:induction false} ManifestPathsFromPathLines(lines: seq<string>)
    ensures forall j :: 0 <= j < |lines| && Contains(lines[j], PathKey) ==>
      PathJoin(QuotedTail(lines[j]), SteamAppsRel) in ManifestPaths(lines)
    ensures forall q :: q in ManifestPaths(lines) ==>
      exists j :: 0 <= j < |lines| && Contains(lines[j], PathKey) && q == PathJoin(QuotedTail(lines[j]), SteamAppsRel)
  {
    if lines != [] {
      var p := lines[..|lines| - 1];
      var last := lines[|lines| - 1];
      ManifestPathsFromPathLines(p);
      assert forall j :: 0 <= j < |p| ==> p[j] == lines[j];
      var r := ManifestPaths(lines);
      forall q | q in r
        ensures exists j :: 0 <= j < |lines| && Contains(lines[j], PathKey) && q == PathJoin(QuotedTail(lines[j]), SteamAppsRel)
      {
        if q in ManifestPaths(p) {
          var j :| 0 <= j < |p| && Contains(p[j], PathKey) && q == PathJoin(QuotedTail(p[j]), SteamAppsRel);
          assert lines[j] == p[j];
        } else {
          assert Contains(last, PathKey) && q == PathJoin(QuotedTail(last), SteamAppsRel);
          assert lines[|lines| - 1] == last;
        }
      }
    }
  }

  /** `get_steam_library_paths`: the Steam folder's own `steamapps`, then those the manifest lists. */
  function LibraryPaths(m: Machine, steam: string): (r: seq<string>)
    ensures |r| >= 1 && r[0] == PathJoin(steam, SteamAppsRel)
    ensures PathJoin(steam, ManifestRel) !in m.files ==> r == [PathJoin(steam, SteamAppsRel)]
  {
    var manifest := PathJoin(steam, ManifestRel);
    [PathJoin(steam, SteamAppsRel)] + (if manifest in m.files then ManifestPaths(m.files[manifest]) else [])
  }

  /** The loop of `get_steam_library_paths`; an unreadable manifest leaves the first entry only. */
  method GetSteamLibraryPaths(m: Machine, steam: string) returns (libraryPaths: seq<string>)
    ensures libraryPaths == LibraryPaths(m, steam)
  {
    var manifest := PathJoin(steam, ManifestRel);
    libraryPaths := [PathJoin(steam, SteamAppsRel)];
    if manifest in m.files {
      var lines := m.files[manifest];
      var i := 0;
      while i < |lines|
        invariant 0 <= i <= |lines|
        invariant libraryPaths == [PathJoin(steam, SteamAppsRel)] + ManifestPaths(lines[..i])
      {
        ManifestPathsStep(lines, i);
        if Contains(lines[i], PathKey) {
          var path := QuotedTail(lines[i]);
          libraryPaths := libraryPaths + [PathJoin(path, SteamAppsRel)];
        }
        i := i + 1;
      }
      assert lines[..i] == lines;
    }
  }

  /** A typical library line of the manifest. */
  function LibraryLine(lib: string): string {
    "\t\t\"path\"\t\t\"" + lib + "\""
  }

  /** A library line holds the marker and yields the quoted directory. */
  lemma LibraryLineTail(lib: string)
    requires '"' !in lib
    ensures Contains(LibraryLine(lib), PathKey) && QuotedTail(LibraryLine(lib)) == lib
  {
    var l1 := LibraryLine(lib);
    assert OccursAt(l1, PathKey, 2);
    var pieces := ["\t\t", "path", "\t\t", lib, ""];
    assert Join(pieces, "\"") == l1 by {
      assert Join(pieces[4..], "\"") == "";
      assert Join(pieces[3..], "\"") == lib + "\"";
      assert Join(pieces[2..], "\"") == "\t\t\"" + lib + "\"";
      assert Join(pieces[1..], "\"") == "path\"\t\t\"" + lib + "\"";
    }
    SplitOfJoin(pieces, '"');
  }

  /** The header line of the manifest holds no marker. */
  lemma HeaderLineHasNoPath()
    ensures !Contains("\"libraryfolders\"", PathKey)
  {
    var l0 := "\"libraryfolders\"";
    forall i | 0 <= i <= |l0| - |PathKey|
      ensures !OccursAt(l0, PathKey, i)
    {
      assert l0[i + 1] != PathKey[1];
    }
  }

  /** A manifest with a header line and one library line lists that library after the Steam folder's own. */
  lemma OneLibraryLine(m: Machine, steam: string, lib: string)
    requires '"' !in lib
    requires PathJoin(steam, ManifestRel) in m.files
    requires m.files[PathJoin(steam, ManifestRel)] == ["\"libraryfolders\"", LibraryLine(lib)]
    ensures LibraryPaths(m, steam) == [PathJoin(steam, SteamAppsRel), PathJoin(lib, SteamAppsRel)]
  {
    HeaderLineHasNoPath();
    LibraryLineTail(lib);
    var lines := ["\"libraryfolders\"", LibraryLine(lib)];
    ManifestPathsStep(lines, 0);
    ManifestPathsStep(lines, 1);
    assert lines[..0] == [] && lines[..2] == lines;
  }

  const GameRel: string := "common/Project Zomboid"
  const GameRelAlt: string := "common/ProjectZomboid"
  const WorkshopRel: string := "workshop/content/108600"

  /** The game directory of one library: `common/Project Zomboid` if it exists, else `common/ProjectZomboid`. */
  function GameDirIn(m: Machine, lib: string): (r: Option<string>)
    ensures r.Some? ==> Exists(m, r.value)
    ensures Exists(m, PathJoin(lib, GameRel)) ==> r == Some(PathJoin(lib, GameRel))
    ensures !Exists(m, PathJoin(lib, GameRel)) ==>
      r == if Exists(m, PathJoin(lib, GameRelAlt)) then Some(PathJoin(lib, GameRelAlt)) else None
  {
    var p := PathJoin(lib, GameRel);
    var q := if Exists(m, p) then p else PathJoin(lib, GameRelAlt);
    if Exists(m, q) then Some(q) else None
  }

  /** A library whose game directory exists and which holds the workshop content of app 108600. */
  predicate HasWorkshop(m: Machine, lib: string) {
    GameDirIn(m, lib).Some? && Exists(m, PathJoin(lib, WorkshopRel))
  }

  /** The pair `(workshop_directory, zomboid_directory)`. */
  datatype Located = Located(workshop: Option<string>, zomboid: Option<string>)

  /** The library loop of `find_project_zomboid_workshop`, from a game directory seen so far. */
  function WorkshopSearch(m: Machine, libs: seq<string>, zomboid: Option<string>): Located {
    if libs == [] then Located(None, zomboid)
    else
      match GameDirIn(m, libs[0])
      case None => WorkshopSearch(m, libs[1..], zomboid)
      case Some(g) =>
        var w := PathJoin(libs[0], WorkshopRel);
        if Exists(m, w) then Located(Some(w), Some(g)) else WorkshopSearch(m, libs[1..], Some(g))
  }

  /** The index of the first library with the workshop, or -1. */
  function FirstWorkshop(m: Machine, libs: seq<string>): (k: int)
    ensures -1 <= k < |libs|
    ensures k >= 0 ==> HasWorkshop(m, libs[k])
    ensures forall j :: 0 <= j < |libs| && (k < 0 || j < k) ==> !HasWorkshop(m, libs[j])
  {
    if libs == [] then -1
    else
      var k := FirstWorkshop(m, libs[..|libs| - 1]);
      assert forall j :: 0 <= j < |libs| - 1 ==> libs[..|libs| - 1][j] == libs[j];
      if k >= 0 then k else if HasWorkshop(m, libs[|libs| - 1]) then |libs| - 1 else -1
  }

  /** The index of the last library before `n` with a game directory, or -1. */
  function LastGame(m: Machine, libs: seq<string>, n: nat): (k: int)
    requires n <= |libs|
    ensures -1 <= k < n
    ensures k >= 0 ==> GameDirIn(m, libs[k]).Some?
    ensures forall j :: k < j < n ==> GameDirIn(m, libs[j]).None?
  {
    if n == 0 then -1
    else if GameDirIn(m, libs[n - 1]).Some? then n - 1
    else LastGame(m, libs, n - 1)
  }

  function GameAt(m: Machine, libs: seq<string>, k: int): Option<string>
    requires k < |libs|
  {
    if k < 0 then None else GameDirIn(m, libs[k])
  }

  /** What the library loop yields, stated through the indices of the libraries. */
  function Expected(m: Machine, libs: seq<string>): Located {
    var k := FirstWorkshop(m, libs);
    if k >= 0 then Located(Some(PathJoin(libs[k], WorkshopRel)), GameDirIn(m, libs[k]))
    else Located(None, GameAt(m, libs, LastGame(m, libs, |libs|)))
  }

  /** One iteration of the library loop. */
  lemma WorkshopSearchStep(m: Machine, libs: seq<string>, z: Option<string>)
    requires libs != []
    ensures WorkshopSearch(m, libs, z) ==
      if HasWorkshop(m, libs[0]) then Located(Some(PathJoin(libs[0], WorkshopRel)), GameDirIn(m, libs[0]))
      else WorkshopSearch(m, libs[1..], if GameDirIn(m, libs[0]).Some? then GameDirIn(m, libs[0]) else z)
  {
  }

  /** The game directory the loop carries on with after library `lib`. */
  function NextGame(m: Machine, lib: string, z: Option<string>): Option<string> {
    if GameDirIn(m, lib).Some? then GameDirIn(m, lib) else z
  }

  /** No library before index `i` has the workshop. */
  predicate NoWorkshopBefore(m: Machine, libs: seq<string>, i: nat) {
    var k := FirstWorkshop(m, libs);
    k < 0 || i <= k
  }

  lemma SearchEnd(m: Machine, libs: seq<string>, z: Option<string>)
    requires NoWorkshopBefore(m, libs, |libs|)
    requires z == GameAt(m, libs, LastGame(m, libs, |libs|))
    ensures WorkshopSearch(m, libs[|libs|..], z) == Expected(m, libs)
  {
    assert libs[|libs|..] == [];
    assert FirstWorkshop(m, libs) < 0;
  }

  lemma SearchHit(m: Machine, libs: seq<string>, i: nat, z: Option<string>)
    requires i < |libs| && HasWorkshop(m, libs[i])
    requires NoWorkshopBefore(m, libs, i)
    ensures WorkshopSearch(m, libs[i..], z) == Expected(m, libs)
  {
    var rest := libs[i..];
    assert rest[0] == libs[i];
    WorkshopSearchStep(m, rest, z);
    assert FirstWorkshop(m, libs) == i;
  }

  lemma SearchMiss(m: Machine, libs: seq<string>, i: nat, z: Option<string>)
    requires i < |libs| && !HasWorkshop(m, libs[i])
    requires NoWorkshopBefore(m, libs, i)
    requires z == GameAt(m, libs, LastGame(m, libs, i))
    ensures WorkshopSearch(m, libs[i..], z) == WorkshopSearch(m, libs[i + 1..], NextGame(m, libs[i], z))
    ensures NextGame(m, libs[i], z) == GameAt(m, libs, LastGame(m, libs, i + 1))
    ensures NoWorkshopBefore(m, libs, i + 1)
  {
    var rest := libs[i..];
    assert rest[0] == libs[i] && rest[1..] == libs[i + 1..];
    WorkshopSearchStep(m, rest, z);
  }

  lemma {:induction false} SearchFrom(m: Machine, libs: seq<string>, i: nat, z: Option<string>)
    requires i <= |libs|
    requires NoWorkshopBefore(m, libs, i)
    requires z == GameAt(m, libs, LastGame(m, libs, i))
    ensures WorkshopSearch(m, libs[i..], z) == Expected(m, libs)
    decreases |libs| - i
  {
    if i == |libs| {
      SearchEnd(m, libs, z);
    } else if HasWorkshop(m, libs[i]) {
      SearchHit(m, libs, i, z);
    } else {
      SearchMiss(m, libs, i, z);
      SearchFrom(m, libs, i + 1, NextGame(m, libs[i], z));
    }
  }

  /**
   The library loop stops at the first library that has both the game
   directory and the workshop and returns both; when there is none, the
   workshop is unknown and the game directory is the one of the last
   library that had it.
   */
  lemma WorkshopSearchResult(m: Machine, libs: seq<string>)
    ensures WorkshopSearch(m, libs, None) == Expected(m, libs)
  {
    SearchFrom(m, libs, 0, None);
    assert libs[0..] == libs;
  }

  /** `find_project_zomboid_workshop`. */
  function FindWorkshop(m: Machine, how: DriveJoin): Located {
    match SteamInstallPath(m, how)
    case None => Located(None, None)
    case Some(steam) => WorkshopSearch(m, LibraryPaths(m, steam), None)
  }

  /** A workshop directory is reported only together with the game directory of the same library. */
  lemma WorkshopComesWithGame(m: Machine, how: DriveJoin)
    ensures var r := FindWorkshop(m, how);
      r.workshop.Some? ==> exists lib :: r.workshop.value == PathJoin(lib, WorkshopRel) && r.zomboid == GameDirIn(m, lib)
                                         && GameDirIn(m, lib).Some?
  {
    if SteamInstallPath(m, how).Some? {
      var libs := LibraryPaths(m, SteamInstallPath(m, how).value);
      WorkshopSearchResult(m, libs);
      var k := FirstWorkshop(m, libs);
      if k >= 0 {
        assert FindWorkshop(m, how).workshop.value == PathJoin(libs[k], WorkshopRel);
      }
    }
  }

  /** The Steam folder's own library is tried first: when it has the game and the workshop, the manifest does not matter. */
  lemma SteamLibraryFirst(m: Machine, how: DriveJoin, steam: string)
    requires SteamInstallPath(m, how) == Some(steam)
    requires HasWorkshop(m, PathJoin(steam, SteamAppsRel))
    ensures var lib := PathJoin(steam, SteamAppsRel);
      FindWorkshop(m, how) == Located(Some(PathJoin(lib, WorkshopRel)), GameDirIn(m, lib))
  {
  }

  /**
   The loop of `find_project_zomboid_workshop`: without Steam nothing is
   found; otherwise the libraries are tried in order and the loop stops at
   the first one holding the workshop.
   */
  method FindProjectZomboidWorkshop(m: Machine, how: DriveJoin) returns (workshop: Option<string>, zomboid: Option<string>)
    ensures Located(workshop, zomboid) == FindWorkshop(m, how)
  {
    var steamPath := GetSteamInstallPath(m, how);
    if steamPath.None? {
      return None, None;
    }
    var libraryPaths := GetSteamLibraryPaths(m, steamPath.value);
    workshop, zomboid := None, None;
    var i := 0;
    while i < |libraryPaths|
      invariant 0 <= i <= |libraryPaths|
      invariant WorkshopSearch(m, libraryPaths[i..], zomboid) == FindWorkshop(m, how)
      invariant workshop.None?
    {
      var lib := libraryPaths[i];
      assert libraryPaths[i..][0] == lib && libraryPaths[i..][1..] == libraryPaths[i + 1..];
      WorkshopSearchStep(m, libraryPaths[i..], zomboid);
      var projectZomboidPath := PathJoin(lib, GameRel);
      if !Exists(m, projectZomboidPath) {
        projectZomboidPath := PathJoin(lib, GameRelAlt);
      }
      assert Exists(m, projectZomboidPath) <==> GameDirIn(m, lib).Some?;
      assert Exists(m, projectZomboidPath) ==> GameDirIn(m, lib) == Some(projectZomboidPath);
      if Exists(m, projectZomboidPath) {
        zomboid := Some(projectZomboidPath);
        var workshopPath := PathJoin(lib, WorkshopRel);
        if Exists(m, workshopPath) {
          workshop := Some(workshopPath);
          break;
        }
      }
      i := i + 1;
    }
    if i == |libraryPaths| {
      assert libraryPaths[i..] == [];
    }
  }

  /** A machine without the environment variables, without any drive root and without the registry value yields nothing. */
  lemma NothingToProbe(m: Machine, how: DriveJoin)
    requires !Truthy(GetEnv(m, "STEAMPATH")) && !Truthy(GetEnv(m, "ProgramFiles(x86)"))
    requires forall c :: c in Letters ==> !Exists(m, DriveRoot(c))
    requires m.registryInstallPath.None?
    ensures FindWorkshop(m, how) == Located(None, None)
  {
    DrivesFromNone(m, Letters);
    assert Candidates(m, how) == [];
  }

  /** Without any drive root no drive is tried. */
  lemma {:induction false} DrivesFromNone(m: Machine, letters: string)
    requires forall c :: c in letters ==> !Exists(m, DriveRoot(c))
    ensures DrivesFrom(m, letters) == []
  {
    if letters != [] {
      assert letters[0] in letters;
      assert forall c :: c in letters[1..] ==> c in letters;
      DrivesFromNone(m, letters[1..]);
    }
  }

  /** The drive filter is a homomorphism on the letters. */
  lemma {:induction false} DrivesFromAppend(m: Machine, a: string, b: string)
    ensures DrivesFrom(m, a + b) == DrivesFrom(m, a) + DrivesFrom(m, b)
  {
    if a != [] {
      assert (a + b)[0] == a[0] && (a + b)[1..] == a[1..] + b;
      DrivesFromAppend(m, a[1..], b);
    } else {
      assert a + b == b;
    }
  }

  /** Every path built on the root of drive C has `/` as its third character. */
  lemma RootedThirdChar(g: string, rel: string)
    ensures var q := PathJoin(PathJoin(DriveRoot('C'), g), rel); |q| >= 3 && q[2] == '/'
  {
    var b := PathJoin(DriveRoot('C'), g);
    assert b == DriveRoot('C') + g;
    PathJoinShape(b, rel);
    assert PathJoin(b, rel)[..|b|] == b;
  }

  /** A path the source builds on the bare drive C has the folder's first character as its third. */
  lemma DriveRelativeThirdChar(f: string, rel: string)
    requires f != [] && rel != []
    ensures var q := PathJoin(PathJoin(DriveName('C'), f), rel); |q| > 3 && q[2] == f[0]
  {
    var b := PathJoin(DriveName('C'), f);
    assert b == DriveName('C') + f;
    PathJoinShape(b, rel);
    assert PathJoin(b, rel)[..|b|] == b;
  }

  /** The probe file of the first likely folder on the root of drive C. */
  function RootedSteamExe(): string {
    PathJoin(PathJoin(DriveRoot('C'), LikelyFolders[0]), "steam.exe")
  }

  /** The machine of the finding: only the root of C and the Steam executable under its first likely folder exist. */
  predicate OnlyCRootAndSteam(m: Machine) {
    m.paths == {DriveRoot('C'), RootedSteamExe()}
  }

  /** On that machine the first likely folder under the root of C holds `steam.exe`. */
  lemma RootedSteamExists(m: Machine)
    requires OnlyCRootAndSteam(m)
    ensures HasSteamExe(m, PathJoin(DriveRoot('C'), LikelyFolders[0]))
  {
  }

  /** On that machine, the only drive root is the one of C. */
  lemma OnlyDriveC(m: Machine, c: char)
    requires OnlyCRootAndSteam(m)
    ensures Exists(m, DriveRoot(c)) <==> c == 'C'
  {
    RootedThirdChar(LikelyFolders[0], "steam.exe");
    assert DriveRoot(c)[0] == c && DriveRoot('C')[0] == 'C';
    assert |DriveRoot(c)| == 3;
    assert |RootedSteamExe()| > 3 by {
      PathJoinShape(PathJoin(DriveRoot('C'), LikelyFolders[0]), "steam.exe");
    }
  }

  lemma {:induction false} NoDriveButC(m: Machine, letters: string)
    requires OnlyCRootAndSteam(m) && 'C' !in letters
    ensures DrivesFrom(m, letters) == []
  {
    if letters != [] {
      OnlyDriveC(m, letters[0]);
      assert 'C' !in letters[1..] by {
        assert forall c :: c in letters[1..] ==> c in letters;
      }
      NoDriveButC(m, letters[1..]);
    }
  }

  /** The letters before and after C. */
  lemma LettersAroundC() returns (before: string, after: string)
    ensures Letters == before + "C" + after && 'C' !in before && 'C' !in after
  {
    before, after := "AB", "DEFGHIJKLMNOPQRSTUVWXYZ";
  }

  /** On that machine only drive C is tried. */
  lemma DrivesOnlyC(m: Machine)
    requires OnlyCRootAndSteam(m)
    ensures Drives(m) == "C"
  {
    var before, after := LettersAroundC();
    DrivesFromAppend(m, before + "C", after);
    DrivesFromAppend(m, before, "C");
    NoDriveButC(m, before);
    NoDriveButC(m, after);
    OnlyDriveC(m, 'C');
    assert DrivesFrom(m, "C") == "C" by {
      assert "C"[0] == 'C' && "C"[1..] == [];
    }
  }

  /** On that machine no folder joined to the bare drive C holds `steam.exe`. */
  lemma AsWrittenMisses(m: Machine, k: nat)
    requires OnlyCRootAndSteam(m) && k < 3
    ensures !HasSteamExe(m, PathJoin(DriveName('C'), LikelyFolders[k]))
  {
    DriveRelativeThirdChar(LikelyFolders[k], "steam.exe");
    RootedThirdChar(LikelyFolders[0], "steam.exe");
    assert LikelyFolders[k][0] != '/';
  }

  /**
   On a machine whose only paths are the drive root `C:/` and
   `C:/Program Files (x86)/Steam/steam.exe`, without the environment
   variables and the registry value, the source's drive loop misses Steam:
   it probes `C:Program Files (x86)/Steam`, a path relative to the current
   directory of drive C, which does not exist there. Joining from the drive
   root finds it.
   */
  lemma DriveRelativeMissesSteam(m: Machine)
    requires OnlyCRootAndSteam(m)
    requires m.env == map[] && m.registryInstallPath.None?
    ensures SteamInstallPath(m, AsWritten) == None
    ensures FindWorkshop(m, AsWritten) == Located(None, None)
    ensures SteamInstallPath(m, Rooted) == Some(PathJoin(DriveRoot('C'), LikelyFolders[0]))
  {
    DrivesOnlyC(m);
    AsWrittenMisses(m, 0);
    AsWrittenMisses(m, 1);
    AsWrittenMisses(m, 2);
    AsWrittenFindsNothing(m);
    RootedSteamExists(m);
    RootedFindsFirstFolder(m);
  }

  /** The candidates on that machine are the three folders of drive C. */
  lemma OnlyDriveCCandidates(m: Machine, how: DriveJoin)
    requires Drives(m) == "C" && m.env == map[] && m.registryInstallPath.None?
    ensures Candidates(m, how) == FolderCandidates(DriveBase('C', how))
  {
    assert EnvCandidates(m) == [] by {
      assert GetEnv(m, "STEAMPATH") == None && GetEnv(m, "ProgramFiles(x86)") == None;
    }
    var fs := FolderCandidates(DriveBase('C', how));
    assert DriveCandidates("C", how) == fs by {
      assert "C"[0] == 'C' && "C"[1..] == [];
      assert fs + [] == fs;
    }
    assert [] + fs + [] == fs;
  }

  lemma AsWrittenFindsNothing(m: Machine)
    requires forall k :: 0 <= k < 3 ==> !HasSteamExe(m, PathJoin(DriveName('C'), LikelyFolders[k]))
    requires Drives(m) == "C" && m.env == map[] && m.registryInstallPath.None?
    ensures SteamInstallPath(m, AsWritten) == None
  {
    var fs := FolderCandidates(DriveName('C'));
    OnlyDriveCCandidates(m, AsWritten);
    FirstWithSteamNone(m, fs);
  }

  lemma RootedFindsFirstFolder(m: Machine)
    requires HasSteamExe(m, PathJoin(DriveRoot('C'), LikelyFolders[0]))
    requires Drives(m) == "C" && m.env == map[] && m.registryInstallPath.None?
    ensures SteamInstallPath(m, Rooted) == Some(PathJoin(DriveRoot('C'), LikelyFolders[0]))
  {
    var fs := FolderCandidates(DriveRoot('C'));
    OnlyDriveCCandidates(m, Rooted);
    assert fs == [fs[0]] + fs[1..];
    FirstWithSteamCons(m, fs[0], fs[1..]);
  }
}
