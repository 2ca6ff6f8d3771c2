/**
 The `mod.info` scanner (`read_mod_info`). A line sets the id only when it
 starts exactly with `id=` and sets the name only when it starts with
 `name=`; the value is the second `=`-piece of the stripped line. Scanning
 stops right after the first line at which both values are non-empty.
 */
module ModInfoFile {
  import opened Wrappers
  import opened PyStr

  const IdKey: string := "id="
  const NameKey: string := "name="

  /** The pair `(mod_id, mod_name)`; `None` means no matching line was seen. */
  datatype ModInfo = ModInfo(id: Option<string>, name: Option<string>)

  /** Python truthiness of `mod_id` or `mod_name`: neither `None` nor empty. */
  predicate IsSet(v: Option<string>) {
    v.Some? && v.value != []
  }

  /** The condition of the early `break`. */
  predicate Complete(m: ModInfo) {
    IsSet(m.id) && IsSet(m.name)
  }

  predicate IsKey(key: string) {
    key == IdKey || key == NameKey
  }

  /** Both keys are a `=`-free word followed by `=`, with no whitespace. */
  lemma KeyShape(key: string)
    requires IsKey(key)
    ensures |key| >= 3 && key[|key| - 1] == '=' && '=' !in key[..|key| - 1]
    ensures forall k :: 0 <= k < |key| ==> !IsSpace(key[k])
  {
    if key == IdKey {
      assert key[..|key| - 1] == "id";
    } else {
      assert key[..|key| - 1] == "name";
    }
  }

  /** `line.strip().split('=')[1]` for a line that starts with `key`. */
  function FieldValue(line: string, key: string): string
    requires IsKey(key) && StartsWith(line, key)
  {
    KeyShape(key);
    StripKeepsPrefix(line, key);
    assert key[..|key| - 1] + ['='] == key;
    SecondPiece(Strip(line), key[..|key| - 1], '=');
    Split(Strip(line), '=')[1]
  }

  /**
   The value of a key line is the text of the stripped line between the `=`
   that ends the key and the next `=`, or the end of the stripped line.
   */
  lemma FieldValueBetweenEquals(line: string, key: string)
    requires IsKey(key) && StartsWith(line, key)
    ensures var t, v := Strip(line), FieldValue(line, key);
      && |key| + |v| <= |t| && t[..|key|] == key
      && t[|key|..|key| + |v|] == v
      && (|key| + |v| == |t| || t[|key| + |v|] == '=')
      && '=' !in v
  {
    KeyShape(key);
    StripKeepsPrefix(line, key);
    assert key[..|key| - 1] + ['='] == key;
    SecondPiece(Strip(line), key[..|key| - 1], '=');
  }

  /** One iteration of the loop body before the `break` test. */
  function Step(m: ModInfo, line: string): ModInfo {
    if StartsWith(line, IdKey) then m.(id := Some(FieldValue(line, IdKey)))
    else if StartsWith(line, NameKey) then m.(name := Some(FieldValue(line, NameKey)))
    else m
  }

  /** The loop from state `m` over the remaining `lines`. */
  function ParseFrom(m: ModInfo, lines: seq<string>): ModInfo
    decreases |lines|
  {
    if lines == [] then m
    else
      var m' := Step(m, lines[0]);
      if Complete(m') then m' else ParseFrom(m', lines[1..])
  }

  /** One unfolding of the loop at line `i`. */
  lemma ParseFromAt(m: ModInfo, lines: seq<string>, i: nat)
    requires i < |lines|
    ensures ParseFrom(m, lines[i..]) ==
      var m' := Step(m, lines[i]); if Complete(m') then m' else ParseFrom(m', lines[i + 1..])
  {
    assert lines[i..][1..] == lines[i + 1..];
  }

  /** What `read_mod_info` returns for a file that reads as `lines`. */
  function ParseModInfo(lines: seq<string>): ModInfo {
    ParseFrom(ModInfo(None, None), lines)
  }

  /** What `read_mod_info` returns; `None` stands for a file that cannot be opened. */
  function ModInfoOf(contents: Option<seq<string>>): ModInfo {
    match contents
    case None => ModInfo(None, None)
    case Some(lines) => ParseModInfo(lines)
  }

  /**
   The index of the LAST line of `lines` that starts with `key`, or -1 when
   no line does.
   */
  function LastKeyLine(lines: seq<string>, key: string): (k: int)
    ensures -1 <= k < |lines|
    ensures k >= 0 ==> StartsWith(lines[k], key)
    ensures forall j :: k < j < |lines| ==> !StartsWith(lines[j], key)
  {
    if lines == [] then -1
    else if StartsWith(lines[|lines| - 1], key) then |lines| - 1
    else
      var k := LastKeyLine(lines[..|lines| - 1], key);
      assert forall j :: k < j < |lines| - 1 ==> lines[..|lines| - 1][j] == lines[j];
      k
  }

  /**
   Reference definition, independent of the loop: the value of the last line
   of `lines` that starts with `key`, or `None` when no line does.
   */
  function LastValue(lines: seq<string>, key: string): Option<string>
    requires IsKey(key)
  {
    var k := LastKeyLine(lines, key);
    if k < 0 then None else Some(FieldValue(lines[k], key))
  }

  /** The state a scan WITHOUT the early `break` reaches after `lines`. */
  function Unstopped(lines: seq<string>): ModInfo {
    ModInfo(LastValue(lines, IdKey), LastValue(lines, NameKey))
  }

  /**
   `read_mod_info`: iterates over the lines, updating `mod_id` or (through
   the `elif`) `mod_name`, and breaks once both are non-empty.
   */
  method ReadModInfo(contents: Option<seq<string>>) returns (modId: Option<string>, modName: Option<string>)
    ensures ModInfo(modId, modName) == ModInfoOf(contents)
  {
    modId, modName := None, None;
    if contents.None? {
      return;
    }
    var lines := contents.value;
    var i := 0;
    while i < |lines|
      invariant 0 <= i <= |lines|
      invariant ParseFrom(ModInfo(modId, modName), lines[i..]) == ParseModInfo(lines)
    {
      ParseFromAt(ModInfo(modId, modName), lines, i);
      ghost var before := ModInfo(modId, modName);
      var line := lines[i];
      if StartsWith(line, IdKey) {
        modId := Some(FieldValue(line, IdKey));
      } else if StartsWith(line, NameKey) {
        modName := Some(FieldValue(line, NameKey));
      }
      assert ModInfo(modId, modName) == Step(before, line);
      if Complete(ModInfo(modId, modName)) {
        break;
      }
      i := i + 1;
    }
  }

  // ---------------------------------------------------------------------
  // What the scan computes, stated against the reference definition.
  // ---------------------------------------------------------------------

  /** No line starts with both keys, so the `elif` never has to choose. */
  lemma KeysExclusive(line: string)
    ensures !(StartsWith(line, IdKey) && StartsWith(line, NameKey))
  {
    if StartsWith(line, IdKey) {
      assert line[0] == IdKey[0] != NameKey[0];
    }
  }

  /** A step of the loop extends the reference state by one line. */
  lemma StepExtendsUnstopped(p: seq<string>, l: string)
    ensures Step(Unstopped(p), l) == Unstopped(p + [l])
  {
    var q := p + [l];
    assert q[..|p|] == p;
    KeysExclusive(l);
  }

  /** One iteration of the scan, from the reference state of the first `i` lines. */
  lemma ParseFromPrefixAt(lines: seq<string>, i: nat)
    requires i < |lines|
    ensures ParseFrom(Unstopped(lines[..i]), lines[i..]) ==
      if Complete(Unstopped(lines[..i + 1])) then Unstopped(lines[..i + 1])
      else ParseFrom(Unstopped(lines[..i + 1]), lines[i + 1..])
  {
    ParseFromAt(Unstopped(lines[..i]), lines, i);
    assert lines[..i] + [lines[i]] == lines[..i + 1];
    StepExtendsUnstopped(lines[..i], lines[i]);
  }

  /**
   From a state that is the reference state of the first `i` lines, the scan
   ends at the reference state of the first `k` lines, when `k` is the first
   prefix longer than `i` that is complete, or the whole file.
   */
  lemma {:induction false} ParseFromStops(lines: seq<string>, i: nat, k: nat)
    requires i <= k <= |lines|
    requires i < k || k == |lines|
    requires forall j :: i < j < k ==> !Complete(Unstopped(lines[..j]))
    requires k == |lines| || Complete(Unstopped(lines[..k]))
    ensures ParseFrom(Unstopped(lines[..i]), lines[i..]) == Unstopped(lines[..k])
    decreases k - i
  {
    if i == |lines| {
      assert lines[i..] == [];
    } else {
      ParseFromPrefixAt(lines, i);
      if !Complete(Unstopped(lines[..i + 1])) {
        ParseFromStops(lines, i + 1, k);
      }
    }
  }

  /**
   The scan stops at the first line after which both values are set, and
   returns what the lines up to that one give, later lines having
   overwritten earlier ones.
   */
  lemma ParseStopsAtFirstComplete(lines: seq<string>, k: nat)
    requires 0 < k <= |lines|
    requires Complete(Unstopped(lines[..k]))
    requires forall j :: 0 < j < k ==> !Complete(Unstopped(lines[..j]))
    ensures ParseModInfo(lines) == Unstopped(lines[..k])
  {
    assert lines[..0] == [] && lines[0..] == lines;
    ParseFromStops(lines, 0, k);
  }

  /** A file that never supplies both values is read to the end. */
  lemma ParseNeverComplete(lines: seq<string>)
    requires forall j :: 0 < j <= |lines| ==> !Complete(Unstopped(lines[..j]))
    ensures ParseModInfo(lines) == Unstopped(lines)
    ensures !Complete(ParseModInfo(lines))
  {
    assert lines[..0] == [] && lines[0..] == lines && lines[..|lines|] == lines;
    ParseFromStops(lines, 0, |lines|);
    if |lines| == 0 {
      assert !Complete(Unstopped(lines));
    }
  }

  /** Any complete prefix has a shortest complete prefix below it. */
  lemma {:induction false} FirstCompletePrefix(lines: seq<string>, k: nat)
    requires 0 < k <= |lines| && Complete(Unstopped(lines[..k]))
    ensures exists f :: (0 < f <= k && Complete(Unstopped(lines[..f]))
      && forall j :: 0 < j < f ==> !Complete(Unstopped(lines[..j])))
    decreases k
  {
    if exists j :: 0 < j < k && Complete(Unstopped(lines[..j])) {
      var j :| 0 < j < k && Complete(Unstopped(lines[..j]));
      FirstCompletePrefix(lines, j);
    }
  }

  /**
   The result is always the reference state of some prefix of the file, and
   it has both values set exactly when some prefix of the file sets both.
   */
  lemma ParseIsPrefixState(lines: seq<string>)
    ensures exists k :: 0 <= k <= |lines| && ParseModInfo(lines) == Unstopped(lines[..k])
    ensures Complete(ParseModInfo(lines)) <==>
      exists k :: 0 < k <= |lines| && Complete(Unstopped(lines[..k]))
  {
    if exists k :: 0 < k <= |lines| && Complete(Unstopped(lines[..k])) {
      var k :| 0 < k <= |lines| && Complete(Unstopped(lines[..k]));
      FirstCompletePrefix(lines, k);
      var f :| 0 < f <= k && Complete(Unstopped(lines[..f]))
        && forall j :: 0 < j < f ==> !Complete(Unstopped(lines[..j]));
      ParseStopsAtFirstComplete(lines, f);
    } else {
      ParseNeverComplete(lines);
      assert lines[..|lines|] == lines;
    }
  }

  /**
   A value in the result comes from a line of the file that starts exactly
   with its key, as that line's `FieldValue`.
   */
  lemma ParsedValuesComeFromKeyLines(lines: seq<string>)
    ensures var r := ParseModInfo(lines);
      && (r.id.Some? ==> exists i :: 0 <= i < |lines| && StartsWith(lines[i], IdKey)
                                     && r.id.value == FieldValue(lines[i], IdKey))
      && (r.name.Some? ==> exists i :: 0 <= i < |lines| && StartsWith(lines[i], NameKey)
                                       && r.name.value == FieldValue(lines[i], NameKey))
  {
    ParseIsPrefixState(lines);
    var k :| 0 <= k <= |lines| && ParseModInfo(lines) == Unstopped(lines[..k]);
    var p := lines[..k];
    var a := LastKeyLine(p, IdKey);
    var b := LastKeyLine(p, NameKey);
    if a >= 0 {
      assert p[a] == lines[a];
    }
    if b >= 0 {
      assert p[b] == lines[b];
    }
  }

  // ---------------------------------------------------------------------
  // The quirks of the scanner on concrete files.
  // ---------------------------------------------------------------------

  /** The stripped form of a line `key + rest + "\n"` whose `rest` ends in a non-space. */
  lemma StripOneLine(line: string, body: string)
    requires line == body + "\n" && body != [] && !IsSpace(body[0]) && !IsSpace(body[|body| - 1])
    ensures Strip(line) == body
  {
    assert LStrip(line) == line;
    assert line[..|line| - 1] == body;
    assert RStrip(line) == RStrip(body);
  }

  /** A key line whose stripped text is `key + v`, with no `=` in `v`, has value `v`. */
  lemma ValueOfPlainLine(line: string, key: string, v: string)
    requires IsKey(key) && StartsWith(line, key)
    requires Strip(line) == key + v && '=' !in v
    ensures FieldValue(line, key) == v
  {
    FieldValueBetweenEquals(line, key);
    var t := Strip(line);
    assert forall j :: |key| <= j < |t| ==> t[j] == v[j - |key|];
  }

  /** `id=<a>=<b>` gives `<a>` whatever `<b>` is; the text after the second `=` is lost. */
  lemma SecondEqualsCutsValue(a: string, b: string)
    requires '=' !in a
    ensures ParseModInfo([IdKey + a + "=" + b + "\n"]) == ModInfo(Some(a), None)
  {
    var line := IdKey + a + "=" + b + "\n";
    var n := |IdKey| + |a|;
    assert line[..n + 1] == IdKey + a + "=";
    assert StartsWith(line, IdKey) by {
      assert line[..3] == IdKey;
    }
    StripPastNonSpace(line, n);
    var t := Strip(line);
    var u := t[n + 1..];
    assert t == "id" + ['='] + (a + ['='] + u);
    SplitAfterPiece("id", '=', a + ['='] + u);
    SplitAfterPiece(a, '=', u);
    assert FieldValue(line, IdKey) == a;
    KeysExclusive(line);
    var m0 := ModInfo(None, None);
    assert Step(m0, line) == ModInfo(Some(a), None);
    ParseFromAt(m0, [line], 0);
    assert [line][1..] == [];
  }

  /** Stripping a line that starts with a non-space keeps it up to any later non-space. */
  lemma StripPastNonSpace(line: string, n: nat)
    requires n < |line| && !IsSpace(line[0]) && !IsSpace(line[n])
    ensures n < |Strip(line)| && Strip(line) == line[..n + 1] + Strip(line)[n + 1..]
  {
    assert LStrip(line) == line;
    RStripSpec(line);
    var t := RStrip(line);
    assert t[..n + 1] == line[..n + 1];
  }

  /** `id=` gives the empty value, which counts as unset. */
  lemma EmptyValueIsUnset(name: string)
    requires '=' !in name && (name == [] || !IsSpace(name[|name| - 1]))
    ensures ParseModInfo([IdKey + "\n", NameKey + name + "\n"]) == ModInfo(Some(""), Some(name))
    ensures !Complete(ParseModInfo([IdKey + "\n", NameKey + name + "\n"]))
  {
    var lines := [IdKey + "\n", NameKey + name + "\n"];
    assert IdKey + "" + "\n" == lines[0];
    var m0 := ModInfo(None, None);
    var m1 := ModInfo(Some(""), None);
    StepOnKeyLine(m0, IdKey, "");
    StepOnKeyLine(m1, NameKey, name);
    ParseFromAt(m0, lines, 0);
    ParseFromAt(m1, lines, 1);
    assert lines[2..] == [];
  }

  /** A leading space hides the key: ` id=x` is not an id line. */
  lemma KeyMustStartTheLine()
    ensures ParseModInfo([" id=x"]) == ModInfo(None, None)
  {
    var line := " id=x";
    assert !StartsWith(line, IdKey) by {
      assert line[..3][0] != IdKey[0];
    }
    assert !StartsWith(line, NameKey) by {
      assert line[..5][0] != NameKey[0];
    }
  }

  /** The step on a line `key + v + "\n"` with no `=` in `v` and no trailing blank. */
  lemma StepOnKeyLine(m: ModInfo, key: string, v: string)
    requires IsKey(key) && '=' !in v && (v == [] || !IsSpace(v[|v| - 1]))
    ensures Step(m, key + v + "\n") ==
      if key == IdKey then m.(id := Some(v)) else m.(name := Some(v))
  {
    var line := key + v + "\n";
    KeyShape(key);
    assert StartsWith(line, key) by {
      assert line[..|key|] == key;
    }
    var body := key + v;
    assert body[|body| - 1] == if v == [] then '=' else v[|v| - 1];
    StripOneLine(line, body);
    ValueOfPlainLine(line, key, v);
    KeysExclusive(line);
  }

  /** Before both values are set, a later `id=` line overwrites an earlier one. */
  lemma LaterIdOverwrites()
    ensures ParseModInfo(["id=a\n", "id=b\n", "name=c\n"]) == ModInfo(Some("b"), Some("c"))
  {
    var lines := ["id=a\n", "id=b\n", "name=c\n"];
    assert IdKey + "a" + "\n" == lines[0];
    assert IdKey + "b" + "\n" == lines[1];
    assert NameKey + "c" + "\n" == lines[2];
    var m0 := ModInfo(None, None);
    StepOnKeyLine(m0, IdKey, "a");
    var m1 := ModInfo(Some("a"), None);
    StepOnKeyLine(m1, IdKey, "b");
    var m2 := ModInfo(Some("b"), None);
    StepOnKeyLine(m2, NameKey, "c");
    ParseFromAt(m0, lines, 0);
    ParseFromAt(m1, lines, 1);
    ParseFromAt(m2, lines, 2);
  }

  /**
   Once both values are set the scan stops, so a later `id=` line with an
   empty value is never seen; a scan without the `break` would end unset.
   */
  lemma BreakShieldsLaterLines()
    ensures ParseModInfo(["id=a\n", "name=b\n", "id=\n"]) == ModInfo(Some("a"), Some("b"))
    ensures Unstopped(["id=a\n", "name=b\n", "id=\n"]).id == Some("")
  {
    var lines := ["id=a\n", "name=b\n", "id=\n"];
    assert IdKey + "a" + "\n" == lines[0];
    assert NameKey + "b" + "\n" == lines[1];
    assert IdKey + "" + "\n" == lines[2];
    var m0 := ModInfo(None, None);
    StepOnKeyLine(m0, IdKey, "a");
    var m1 := ModInfo(Some("a"), None);
    StepOnKeyLine(m1, NameKey, "b");
    ParseFromAt(m0, lines, 0);
    ParseFromAt(m1, lines, 1);
    StepOnKeyLine(m0, IdKey, "");
    assert LastKeyLine(lines, IdKey) == 2;
  }

  /** A plain two-line `mod.info` sets both values, whatever the id. */
  lemma PlainModInfo(id: string, name: string)
    requires id != [] && '=' !in id && !IsSpace(id[|id| - 1])
    requires name != [] && '=' !in name && !IsSpace(name[|name| - 1])
    ensures ParseModInfo([IdKey + id + "\n", NameKey + name + "\n"]) == ModInfo(Some(id), Some(name))
  {
    var lines := [IdKey + id + "\n", NameKey + name + "\n"];
    var m0 := ModInfo(None, None);
    var m1 := ModInfo(Some(id), None);
    StepOnKeyLine(m0, IdKey, id);
    StepOnKeyLine(m1, NameKey, name);
    ParseFromAt(m0, lines, 0);
  }

  /** A `mod.info` with only a `name=` line leaves the id unset. */
  lemma NameOnlyModInfo(name: string)
    requires '=' !in name && (name == [] || !IsSpace(name[|name| - 1]))
    ensures ParseModInfo([NameKey + name + "\n"]) == ModInfo(None, Some(name))
    ensures !Complete(ParseModInfo([NameKey + name + "\n"]))
  {
    var lines := [NameKey + name + "\n"];
    var m0 := ModInfo(None, None);
    StepOnKeyLine(m0, NameKey, name);
    ParseFromAt(m0, lines, 0);
    assert lines[1..] == [];
  }
}
