/**
 The export and display formats: the four files `save_to_files` writes
 into `Documents/Zomboid-ModInfo` (a `;`-delimited CSV with a header, the
 ids joined by `;`, the names joined by `;`, one workshop URL per line)
 and the lines `process_directory` shows, each a link to the mod's
 workshop page.
 */
module Exporter {
  import opened PyStr
  import opened Enumerator

  /** The workshop page address, up to the id. */
  const UrlScheme: string := "https://"
  const UrlHost: string := "steamcommunity.com"
  const UrlPath: string := "/sharedfiles/filedetails/?id="
  const UrlPrefix: string := UrlScheme + UrlHost + UrlPath

  /** The workshop page of a mod. */
  function ModUrl(id: string): (u: string)
    ensures StartsWith(u, UrlPrefix) && u[|UrlPrefix|..] == id
  {
    UrlPrefix + id
  }

  /** `url_list`: one URL per workshop id, in order. */
  function UrlList(ids: seq<string>): (us: seq<string>)
    ensures |us| == |ids|
    ensures forall i :: 0 <= i < |ids| ==> us[i] == ModUrl(ids[i])
  {
    if ids == [] then [] else [ModUrl(ids[0])] + UrlList(ids[1..])
  }

  // ---------------------------------------------------------------------
  // CSV, as `csv.writer(file, delimiter=';')` writes it: minimal quoting
  // with `"`, quotes doubled inside a quoted field, rows ended by CR LF.
  // ---------------------------------------------------------------------

  /** A field is quoted when it holds the delimiter, the quote or a line break. */
  predicate NeedsQuotes(f: string) {
    ';' in f || '"' in f || '\r' in f || '\n' in f
  }

  function DoubleQuotes(f: string): string {
    if f == [] then [] else (if f[0] == '"' then "\"\"" else [f[0]]) + DoubleQuotes(f[1..])
  }

  /** The inverse of `DoubleQuotes`, as a CSV reader applies it inside quotes. */
  function UndoubleQuotes(f: string): string {
    if f == [] then []
    else if |f| >= 2 && f[0] == '"' && f[1] == '"' then "\"" + UndoubleQuotes(f[2..])
    else [f[0]] + UndoubleQuotes(f[1..])
  }

  lemma {:induction false} UndoubleDouble(f: string)
    ensures UndoubleQuotes(DoubleQuotes(f)) == f
  {
    if f != [] {
      UndoubleDouble(f[1..]);
      var head := if f[0] == '"' then "\"\"" else [f[0]];
      var t := head + DoubleQuotes(f[1..]);
      if f[0] == '"' {
        assert t[2..] == DoubleQuotes(f[1..]);
      } else {
        assert t[1..] == DoubleQuotes(f[1..]);
      }
      assert f == [f[0]] + f[1..];
    }
  }

  /** One field as the writer emits it; a quoted field reads back as the original. */
  function CsvField(f: string): (r: string)
    ensures !NeedsQuotes(f) ==> r == f
    ensures NeedsQuotes(f) ==> |r| >= 2 && r[0] == '"' && r[|r| - 1] == '"' && UndoubleQuotes(r[1..|r| - 1]) == f
  {
    if NeedsQuotes(f) then
      UndoubleDouble(f);
      var r := "\"" + DoubleQuotes(f) + "\"";
      assert r[1..|r| - 1] == DoubleQuotes(f);
      r
    else f
  }

  function CsvFields(fields: seq<string>): (r: seq<string>)
    ensures |r| == |fields|
    ensures forall i :: 0 <= i < |fields| ==> r[i] == CsvField(fields[i])
  {
    if fields == [] then [] else [CsvField(fields[0])] + CsvFields(fields[1..])
  }

  /** `writer.writerow(fields)`. */
  function CsvRow(fields: seq<string>): string {
    Join(CsvFields(fields), ";") + "\r\n"
  }

  /** The rows written one after the other. */
  function CsvRows(rows: seq<seq<string>>): string {
    if rows == [] then "" else CsvRow(rows[0]) + CsvRows(rows[1..])
  }

  const CsvHeader: seq<string> := ["WorkshopItems", "Mods"]

  /** The rows `[workshop_items[i], mods[i]]` for every index of `workshop_items`. */
  function PairRows(ws: seq<string>, mods: seq<string>): (rows: seq<seq<string>>)
    requires |ws| <= |mods|
    ensures |rows| == |ws|
    ensures forall i :: 0 <= i < |ws| ==> rows[i] == [ws[i], mods[i]]
  {
    if ws == [] then [] else [[ws[0], mods[0]]] + PairRows(ws[1..], mods[1..])
  }

  /** The content of `ModInfo.csv`. */
  function CsvText(ws: seq<string>, mods: seq<string>): string
    requires |ws| <= |mods|
  {
    CsvRows([CsvHeader] + PairRows(ws, mods))
  }

  /** A row as a reader of this dialect sees it: the line without its CR, split at `;`. */
  function DropCR(line: string): string {
    if line != [] && line[|line| - 1] == '\r' then line[..|line| - 1] else line
  }

  function ParseLines(lines: seq<string>): (rows: seq<seq<string>>)
    ensures |rows| == |lines|
  {
    if lines == [] then [] else [Split(DropCR(lines[0]), ';')] + ParseLines(lines[1..])
  }

  /** Reads back a CSV text whose fields needed no quoting: every line ended by LF is one row. */
  function ParseCsv(text: string): seq<seq<string>> {
    var lines := Split(text, '\n');
    ParseLines(lines[..|lines| - 1])
  }

  /** Rows of plain fields: none needs quoting, and none is an empty row. */
  predicate PlainRows(rows: seq<seq<string>>) {
    forall i :: 0 <= i < |rows| ==> |rows[i]| >= 1 && forall j :: 0 <= j < |rows[i]| ==> !NeedsQuotes(rows[i][j])
  }

  /** The lines of the CSV text before their LF. */
  function RowBodies(rows: seq<seq<string>>): seq<string> {
    if rows == [] then [] else [Join(rows[0], ";") + "\r"] + RowBodies(rows[1..])
  }

  lemma PlainFieldsUnchanged(fields: seq<string>)
    requires forall j :: 0 <= j < |fields| ==> !NeedsQuotes(fields[j])
    ensures CsvFields(fields) == fields
  {
  }

  /** A field joined with `;` holds neither a line break nor, when the fields are plain, a `;` of its own. */
  lemma {:induction false} JoinKeepsOut(xs: seq<string>, sep: string, c: char)
    requires c !in sep && forall j :: 0 <= j < |xs| ==> c !in xs[j]
    ensures c !in Join(xs, sep)
  {
    if |xs| > 1 {
      JoinKeepsOut(xs[1..], sep, c);
    }
  }

  lemma {:induction false} SplitCsvRows(rows: seq<seq<string>>)
    requires PlainRows(rows)
    ensures Split(CsvRows(rows), '\n') == RowBodies(rows) + [""]
  {
    if rows == [] {
      assert Split("", '\n') == [[]];
    } else {
      var r := rows[0];
      PlainFieldsUnchanged(r);
      JoinKeepsOut(r, ";", '\n');
      var body := Join(r, ";") + "\r";
      assert CsvRows(rows) == body + ['\n'] + CsvRows(rows[1..]);
      SplitAfterPiece(body, '\n', CsvRows(rows[1..]));
      assert PlainRows(rows[1..]) by {
        assert forall i :: 0 <= i < |rows[1..]| ==> rows[1..][i] == rows[i + 1];
      }
      SplitCsvRows(rows[1..]);
    }
  }

  lemma {:induction false} ParseBodies(rows: seq<seq<string>>)
    requires PlainRows(rows)
    ensures ParseLines(RowBodies(rows)) == rows
  {
    if rows != [] {
      var r := rows[0];
      var body := Join(r, ";") + "\r";
      assert DropCR(body) == Join(r, ";");
      SplitOfJoin(r, ';');
      assert forall j :: 0 <= j < |r| ==> ';' !in r[j];
      assert PlainRows(rows[1..]) by {
        assert forall i :: 0 <= i < |rows[1..]| ==> rows[1..][i] == rows[i + 1];
      }
      ParseBodies(rows[1..]);
      assert rows == [r] + rows[1..];
    }
  }

  /** Reading the written CSV back gives the rows that were written. */
  lemma CsvRoundTrip(rows: seq<seq<string>>)
    requires PlainRows(rows)
    ensures ParseCsv(CsvRows(rows)) == rows
  {
    SplitCsvRows(rows);
    var lines := RowBodies(rows) + [""];
    assert lines[..|lines| - 1] == RowBodies(rows);
    ParseBodies(rows);
  }

  /** The contents of `ModInfo.csv`, `WorkshopItems.txt`, `Mods.txt` and `ModURLs.txt`, in that order. */
  datatype ExportFiles = ExportFiles(csv: string, workshopItems: string, mods: string, urls: string)

  /** The header row as written: `WorkshopItems;Mods` and CRLF. */
  const CsvHeaderLine: string := "WorkshopItems;Mods\r\n"

  /**
   `save_to_files` applied to the lists of the last scan. The CSV always
   starts with its header row, and `ModURLs.txt` is empty exactly when
   there is no workshop item.
   */
  function Export(l: Lists): (e: ExportFiles)
    requires |l.workshopItems| <= |l.mods|
    ensures StartsWith(e.csv, CsvHeaderLine)
    ensures e.urls == [] <==> l.workshopItems == []
  {
    CsvHeaderFirst(l.workshopItems, l.mods);
    UrlsEmpty(l.workshopItems);
    ExportFiles(
      CsvText(l.workshopItems, l.mods),
      Join(l.workshopItems, ";"),
      Join(l.mods, ";"),
      Join(UrlList(l.workshopItems), "\n"))
  }

  lemma HeaderRow()
    ensures CsvRow(CsvHeader) == CsvHeaderLine
  {
    assert !NeedsQuotes(CsvHeader[0]) && !NeedsQuotes(CsvHeader[1]);
    PlainFieldsUnchanged(CsvHeader);
    assert Join(CsvHeader, ";") == "WorkshopItems;Mods";
  }

  lemma CsvHeaderFirst(ws: seq<string>, mods: seq<string>)
    requires |ws| <= |mods|
    ensures StartsWith(CsvText(ws, mods), CsvHeaderLine)
  {
    var rows := [CsvHeader] + PairRows(ws, mods);
    assert rows[0] == CsvHeader && rows[1..] == PairRows(ws, mods);
    HeaderRow();
    assert CsvText(ws, mods) == CsvHeaderLine + CsvRows(PairRows(ws, mods));
  }

  lemma UrlsEmpty(ws: seq<string>)
    ensures Join(UrlList(ws), "\n") == [] <==> ws == []
  {
    var us := UrlList(ws);
    if ws != [] {
      assert |ModUrl(ws[0])| >= |UrlPrefix| > 0;
      assert |Join(us, "\n")| >= |us[0]|;
    } else {
      assert us == [];
    }
  }

  /** Plain workshop ids and names: no quoting needed and no line break. */
  predicate PlainLists(l: Lists) {
    && (forall i :: 0 <= i < |l.workshopItems| ==> !NeedsQuotes(l.workshopItems[i]))
    && (forall i :: 0 <= i < |l.mods| ==> !NeedsQuotes(l.mods[i]))
  }

  /**
   `ModInfo.csv` reads back as the header followed by one row
   `[workshop_items[i], mods[i]]` per index.
   */
  lemma CsvFileShape(l: Lists)
    requires |l.workshopItems| <= |l.mods| && PlainLists(l)
    ensures var rows := ParseCsv(Export(l).csv);
      && |rows| == |l.workshopItems| + 1
      && rows[0] == CsvHeader
      && forall i :: 0 <= i < |l.workshopItems| ==> rows[i + 1] == [l.workshopItems[i], l.mods[i]]
  {
    var rows := [CsvHeader] + PairRows(l.workshopItems, l.mods);
    HeaderAndPairsPlain(l);
    CsvRoundTrip(rows);
    assert Export(l).csv == CsvRows(rows);
  }

  lemma HeaderAndPairsPlain(l: Lists)
    requires |l.workshopItems| <= |l.mods| && PlainLists(l)
    ensures PlainRows([CsvHeader] + PairRows(l.workshopItems, l.mods))
  {
    HeaderPlain();
    PairsPlain(l);
    PlainRowsAppend([CsvHeader], PairRows(l.workshopItems, l.mods));
  }

  lemma HeaderPlain()
    ensures PlainRows([CsvHeader])
  {
    assert !NeedsQuotes(CsvHeader[0]) && !NeedsQuotes(CsvHeader[1]);
  }

  lemma PairsPlain(l: Lists)
    requires |l.workshopItems| <= |l.mods| && PlainLists(l)
    ensures PlainRows(PairRows(l.workshopItems, l.mods))
  {
    var pairs := PairRows(l.workshopItems, l.mods);
    forall i | 0 <= i < |pairs|
      ensures |pairs[i]| >= 1 && forall j :: 0 <= j < |pairs[i]| ==> !NeedsQuotes(pairs[i][j])
    {
      assert pairs[i] == [l.workshopItems[i], l.mods[i]];
    }
  }

  lemma PlainRowsAppend(a: seq<seq<string>>, b: seq<seq<string>>)
    requires PlainRows(a) && PlainRows(b)
    ensures PlainRows(a + b)
  {
    forall i | 0 <= i < |a + b|
      ensures |(a + b)[i]| >= 1 && forall j :: 0 <= j < |(a + b)[i]| ==> !NeedsQuotes((a + b)[i][j])
    {
      if i < |a| {
        assert (a + b)[i] == a[i];
      } else {
        assert (a + b)[i] == b[i - |a|];
      }
    }
  }

  /** `WorkshopItems.txt` splits back at `;` into the ids, when there is one and none holds a `;`. */
  lemma IdsFileRoundTrip(l: Lists)
    requires |l.workshopItems| <= |l.mods| && l.workshopItems != []
    requires forall i :: 0 <= i < |l.workshopItems| ==> ';' !in l.workshopItems[i]
    ensures Split(Export(l).workshopItems, ';') == l.workshopItems
  {
    SplitOfJoin(l.workshopItems, ';');
  }

  /** `Mods.txt` splits back at `;` into the names, when there is one and none holds a `;`. */
  lemma NamesFileRoundTrip(l: Lists)
    requires |l.workshopItems| <= |l.mods| && l.mods != []
    requires forall i :: 0 <= i < |l.mods| ==> ';' !in l.mods[i]
    ensures Split(Export(l).mods, ';') == l.mods
  {
    SplitOfJoin(l.mods, ';');
  }

  /** `ModURLs.txt` has one line per id, and line `i` is the workshop page of id `i`. */
  lemma UrlsFileLines(l: Lists)
    requires |l.workshopItems| <= |l.mods| && l.workshopItems != []
    requires forall i :: 0 <= i < |l.workshopItems| ==> '\n' !in l.workshopItems[i]
    ensures var lines := Split(Export(l).urls, '\n');
      && |lines| == |l.workshopItems|
      && forall i :: 0 <= i < |lines| ==> lines[i] == ModUrl(l.workshopItems[i]) && lines[i][|UrlPrefix|..] == l.workshopItems[i]
  {
    var us := UrlList(l.workshopItems);
    forall i | 0 <= i < |us|
      ensures '\n' !in us[i]
    {
      assert '\n' !in UrlPrefix by {
        assert '\n' !in UrlScheme;
        assert '\n' !in UrlHost;
        assert '\n' !in UrlPath;
      }
      assert us[i] == UrlPrefix + l.workshopItems[i];
    }
    SplitOfJoin(us, '\n');
  }

  /** An id holding `;` comes back from `WorkshopItems.txt` as two ids. */
  lemma SemicolonSplitsAnId(p: string, q: string, mods: seq<string>)
    requires ';' !in p && ';' !in q && |mods| >= 1
    ensures Split(Export(Lists([p + ";" + q], mods, [])).workshopItems, ';') == [p, q]
  {
    assert Join([p + ";" + q], ";") == p + [';'] + q;
    SplitAfterPiece(p, ';', q);
    SplitWithoutSeparator(q, ';');
  }

  /** With no mods the CSV holds the header alone and the three text files are empty. */
  lemma EmptyExport()
    ensures Export(Lists([], [], [])) == ExportFiles("WorkshopItems;Mods\r\n", "", "", "")
  {
    HeaderRow();
    assert [CsvHeader] + PairRows([], []) == [CsvHeader];
    assert CsvText([], []) == CsvRow(CsvHeader) + CsvRows([]);
    assert UrlList([]) == [];
  }

  /** The lists of a scan export one CSV row per record, holding its container name and mod name. */
  lemma ExportOfRecords(recs: seq<ModRecord>)
    requires forall i :: 0 <= i < |recs| ==> !NeedsQuotes(recs[i].workshopId) && !NeedsQuotes(recs[i].name)
    ensures |ListsOf(recs).workshopItems| <= |ListsOf(recs).mods|
    ensures var rows := ParseCsv(Export(ListsOf(recs)).csv);
      && |rows| == |recs| + 1 && rows[0] == CsvHeader
      && forall i :: 0 <= i < |recs| ==> rows[i + 1] == [recs[i].workshopId, recs[i].name]
  {
    ListsOfAligned(recs);
    CsvFileShape(ListsOf(recs));
  }

  // ---------------------------------------------------------------------
  // The result pane of `process_directory`.
  // ---------------------------------------------------------------------

  /** The line shown for one display item `(mod_name, gameid)`. */
  function DisplayLine(item: (string, string)): string {
    item.0 + " - " + item.1 + "\n"
  }

  /** The text of the result pane: the lines one after the other. */
  function DisplayText(items: seq<(string, string)>): string {
    if items == [] then "" else DisplayLine(items[0]) + DisplayText(items[1..])
  }

  function DisplayBodies(items: seq<(string, string)>): (r: seq<string>)
    ensures |r| == |items|
    ensures forall i :: 0 <= i < |items| ==> r[i] == items[i].0 + " - " + items[i].1
  {
    if items == [] then [] else [items[0].0 + " - " + items[0].1] + DisplayBodies(items[1..])
  }

  /** The pane holds one line `mod_name - gameid` per item, each ended by a line break. */
  lemma {:induction false} DisplayTextLines(items: seq<(string, string)>)
    requires forall i :: 0 <= i < |items| ==> '\n' !in items[i].0 && '\n' !in items[i].1
    ensures Split(DisplayText(items), '\n') == DisplayBodies(items) + [""]
  {
    if items == [] {
      assert Split("", '\n') == [[]];
    } else {
      var body := items[0].0 + " - " + items[0].1;
      assert '\n' !in body by {
        assert '\n' !in " - ";
        assert forall c :: c in body ==> c in items[0].0 || c in " - " || c in items[0].1;
      }
      assert DisplayText(items) == body + ['\n'] + DisplayText(items[1..]);
      SplitAfterPiece(body, '\n', DisplayText(items[1..]));
      assert forall i :: 0 <= i < |items[1..]| ==> items[1..][i] == items[i + 1];
      DisplayTextLines(items[1..]);
    }
  }

  /** The line of a scanned mod shows its name and its container name. */
  lemma DisplayOfRecords(recs: seq<ModRecord>, i: nat)
    requires i < |recs|
    ensures |ListsOf(recs).displayItems| == |recs|
    ensures DisplayBodies(ListsOf(recs).displayItems)[i] == recs[i].name + " - " + recs[i].workshopId
  {
    ListsOfAligned(recs);
    var l := ListsOf(recs);
    assert l.displayItems[i] == (l.mods[i], l.workshopItems[i]);
  }

  /**
   The index of the last display item with the given mod name, or -1. The
   source tags each line with the mod name and binds the click on that tag,
   so of several lines with one name, all open the URL bound last.
   */
  function LastWithName(items: seq<(string, string)>, name: string): (k: int)
    ensures -1 <= k < |items|
    ensures k >= 0 ==> items[k].0 == name
    ensures forall j :: k < j < |items| ==> items[j].0 != name
  {
    if items == [] then -1
    else if items[|items| - 1].0 == name then |items| - 1
    else LastWithName(items[..|items| - 1], name)
  }

  /** The page a click on line `i` opens, as the source binds it. */
  function LinkTargetAsWritten(items: seq<(string, string)>, i: nat): string
    requires i < |items|
  {
    ModUrl(items[LastWithName(items, items[i].0)].1)
  }

  /** The page a click on line `i` opens with one tag per line: the page of that line's id. */
  function LinkTarget(items: seq<(string, string)>, i: nat): string
    requires i < |items|
  {
    ModUrl(items[i].1)
  }

  /** With one tag per line every link opens the page of its own line, the same URL `ModURLs.txt` lists. */
  lemma LinkTargetMatchesUrlFile(l: Lists, i: nat)
    requires Aligned(l) && i < |l.displayItems|
    ensures LinkTarget(l.displayItems, i) == UrlList(l.workshopItems)[i]
    ensures LinkTarget(l.displayItems, i)[|UrlPrefix|..] == l.workshopItems[i]
  {
  }

  /** When the mod names are distinct, the source's links coincide with the one-tag-per-line links. */
  lemma DistinctNamesLinkRightly(items: seq<(string, string)>, i: nat)
    requires i < |items|
    requires forall a, b :: 0 <= a < b < |items| ==> items[a].0 != items[b].0
    ensures LinkTargetAsWritten(items, i) == LinkTarget(items, i)
  {
    var k := LastWithName(items, items[i].0);
    assert k >= i;
  }

  /** Two mods sharing a name in containers `1000` and `2000`: the first line opens the page of `2000`. */
  lemma SharedNameMisroutesLink()
    ensures var items := [("Alpha", "1000"), ("Alpha", "2000")];
      && LinkTargetAsWritten(items, 0) == ModUrl("2000")
      && LinkTarget(items, 0) == ModUrl("1000")
      && ModUrl("2000") != ModUrl("1000")
  {
    var items := [("Alpha", "1000"), ("Alpha", "2000")];
    assert LastWithName(items, "Alpha") == 1;
    assert ModUrl("2000")[|UrlPrefix|..] == "2000";
  }
}
