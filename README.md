# Ant's Mod Checker — a Dafny model of the mod pipeline

Ant's Mod Checker is a small desktop tool for Project Zomboid. It finds
the game's Steam workshop folder. It lists the mods found under that
folder, or under a folder the user picks. It writes the list out in four
formats that a server configuration can take. This project models the part
of `import-ModsV2.3-color-auto.py` that does this work and proves
properties of it:

- `mod_info.dfy` (module `ModInfoFile`) covers `read_mod_info`. It is a
  line scanner for `id=` and `name=` that stops once both values are
  non-empty. `ReadModInfo` is the loop itself. It is proved equal to
  `ParseModInfo`. Lemmas relate `ParseModInfo` to an independent reference,
  `Unstopped`, the state a scan without the `break` reaches. The result is
  `Unstopped` of the shortest prefix that sets both values, or of the whole
  file when no prefix does.
- `enumerator.dfy` (module `Enumerator`) covers `generate_lists`. This is
  the walk over `<root>/<container>/mods/<mod>/mod.info`. It builds three
  index-parallel lists. The methods `GenerateLists`, `ScanContainer`
  (the body of the outer loop), `AppendMods` and `ReadModEntry` are the
  nested loops. They are proved against the
  specification function `Scan`, and the lemmas characterise `Scan`.
- `locator.dfy` (module `Locator`) covers three functions:
  - `get_steam_path_from_env` and `get_steam_install_path`, a
    first-that-exists probe over the environment, the drives A to Z and the
    registry;
  - `get_steam_library_paths`, which reads `libraryfolders.vdf`;
  - `find_project_zomboid_workshop`.

  Each loop is a method proved equal to a function. The lemmas state what
  that function selects.
- `exporter.dfy` (module `Exporter`) covers the text that `save_to_files`
  writes: the `;` CSV with its header, the two `;`-joined files and the URL
  file. It also covers the lines `process_directory` shows. The lemmas
  read each format back.
- `pystr.dfy` (module `PyStr`) holds the Python string operations the code
  relies on: `strip`, `split`, `join`, `startswith` and `in`.
  `wrappers.dfy` holds `Option` and `Result`.

Outside effects become inputs:

- A directory tree is a `Node` value. Each directory lists its entries in
  `os.listdir` order.
- The machine the locator probes is a `Machine` value. It holds the set of
  paths that exist, spelled as the program builds them, and the readable
  files with their lines. It also holds the environment variables and the
  registry value, if one can be read.
- A file that cannot be opened is `None`.

## Model

| member | source | states |
|---|---|---|
| ModInfoFile.ReadModInfo | import-ModsV2.3-color-auto.py:85-98 | The loop over the lines, with the `elif` and the early `break`. It returns exactly the pair `ParseModInfo` gives. A file that cannot be opened gives `(None, None)`. |
| ModInfoFile.KeysExclusive | import-ModsV2.3-color-auto.py:90-93 | No line starts with both `id=` and `name=`, so a line sets at most one of the two values. |
| ModInfoFile.FieldValueBetweenEquals | import-ModsV2.3-color-auto.py:91-93 | The value of a key line is the text of the stripped line after the key's `=`. It runs up to the next `=` or the end, and it contains no `=`. |
| ModInfoFile.ParseStopsAtFirstComplete | import-ModsV2.3-color-auto.py:89-95 | If prefix `k` is the first prefix after which both values are non-empty, the result is the reference state of that prefix. In that state the last key line of each kind wins. |
| ModInfoFile.ParseNeverComplete | import-ModsV2.3-color-auto.py:86-98 | A file in which no prefix sets both values is read to the end. The result then lacks a value or has an empty one. |
| ModInfoFile.ParseIsPrefixState | import-ModsV2.3-color-auto.py:86-98 | The result is always the reference state of some prefix. It has both values set if and only if some prefix sets both. |
| ModInfoFile.ParsedValuesComeFromKeyLines | import-ModsV2.3-color-auto.py:89-93 | Every value returned is the field value of a line that starts exactly with its key. |
| ModInfoFile.SecondEqualsCutsValue | import-ModsV2.3-color-auto.py:91 | For any `a` without `=` and any `b`, `id=<a>=<b>` yields the id `<a>`: whatever follows the second `=` is dropped. |
| ModInfoFile.EmptyValueIsUnset | import-ModsV2.3-color-auto.py:91-95 | `id=` followed by a `name=` line yields the empty id with that name, and the empty id does not count as set, so the mod is not listed. |
| ModInfoFile.KeyMustStartTheLine | import-ModsV2.3-color-auto.py:90-92 | A line with leading blanks before `id=` is not a key line. |
| ModInfoFile.LaterIdOverwrites | import-ModsV2.3-color-auto.py:90-95 | Until both values are set, a later `id=` line overwrites an earlier one. |
| ModInfoFile.BreakShieldsLaterLines | import-ModsV2.3-color-auto.py:94-95 | Lines after the `break` are never read. Without the `break`, a later empty `id=` would have won. |
| ModInfoFile.PlainModInfo | import-ModsV2.3-color-auto.py:86-98 | A two-line `id=<id>` / `name=<name>` file gives both values, for every plain id and name. |
| ModInfoFile.NameOnlyModInfo | import-ModsV2.3-color-auto.py:86-98 | A file with only a `name=` line leaves the id `None`, so it is not complete. |
| Enumerator.ModsRecords | import-ModsV2.3-color-auto.py:113-125 | Each entry of `mods` yields at most one record. Every record carries the container name as its id and a non-empty mod name. |
| Enumerator.ReadModEntry | import-ModsV2.3-color-auto.py:114-127 | The body of the inner loop. It yields the record of one entry exactly as `ModEntryRecords` defines it. |
| Enumerator.AppendMods | import-ModsV2.3-color-auto.py:113-125 | The inner loop extends the three lists by exactly the records of the `mods` entries, in listing order. |
| Enumerator.ScanContainer | import-ModsV2.3-color-auto.py:107-125 | One pass of the outer loop extends the lists by exactly that container's records. If its `mods` is a file, it returns the error `os.listdir` raises. |
| Enumerator.GenerateLists | import-ModsV2.3-color-auto.py:101-130 | The result is the lists of `Scan(root)`, or the error `os.listdir` raises on a `mods` that is a file. On success the lists are aligned. |
| Enumerator.ListsOfAligned | import-ModsV2.3-color-auto.py:102-125 | `workshop_items`, `mods` and `display_items` have one length, `display_items[i] == (mods[i], workshop_items[i])`, and entry `i` comes from record `i`. |
| Enumerator.ModsRecordsAppend | import-ModsV2.3-color-auto.py:113-125 | The records of a concatenation of `mods` entries are the concatenation of their records: listing order is kept. |
| Enumerator.ScanAppend | import-ModsV2.3-color-auto.py:106-125 | Scanning two runs of containers concatenates their records, and the first error wins. |
| Enumerator.ScanFailureSticks | import-ModsV2.3-color-auto.py:106-113 | Once a prefix of the root raises, the whole walk raises the same error. |
| Enumerator.ModEntryRecorded | import-ModsV2.3-color-auto.py:116-125 | A mod entry is recorded if and only if it is a directory whose `mod.info` sets both values. Its record is the container name with the parsed name. |
| Enumerator.SkippedModEntry | import-ModsV2.3-color-auto.py:116-129 | Removing an entry that is skipped (a file, no `mod.info`, an unset id or name) leaves the records of the other entries unchanged. |
| Enumerator.SkippedContainer | import-ModsV2.3-color-auto.py:109-112 | Removing a container that is a file or has no `mods` leaves the result unchanged. |
| Enumerator.ContainerBlock | import-ModsV2.3-color-auto.py:106-125 | A container's mods appear as one consecutive block between the records before and after it. Every entry of the block carries the container's name. |
| Enumerator.ScanFailsAtFirstModsFile | import-ModsV2.3-color-auto.py:110-113 | The walk fails if and only if some container has a `mods` that is a file. The error names the first such container. |
| Enumerator.ContainerNameIsTheId | import-ModsV2.3-color-auto.py:106-125 | In a mixed root, the one valid mod is listed under its container's name, whatever id it declares. Stray files and a mod without `id=` add nothing. |
| Enumerator.ModsFileAbortsTheScan | import-ModsV2.3-color-auto.py:112-113 | A `mods` file in a later container aborts the walk, even after valid mods. |
| Locator.Or | import-ModsV2.3-color-auto.py:12 | Python `or` on optional strings: the result is the first when it is truthy and the second otherwise, so it is truthy if and only if one of the two is. |
| Locator.SteamPathFromEnv | import-ModsV2.3-color-auto.py:11-17 | A returned path is the environment's candidate `<root>/Steam` and holds `steam.exe`. `None` means there is no candidate or it lacks `steam.exe`. |
| Locator.SteamPathShadowsProgramFiles | import-ModsV2.3-color-auto.py:12 | A non-empty `STEAMPATH` makes `ProgramFiles(x86)` irrelevant. |
| Locator.EmptySteamPathFallsBack | import-ModsV2.3-color-auto.py:12 | When `STEAMPATH` is unset or empty, `ProgramFiles(x86)` is used. |
| Locator.PathJoinShape | import-ModsV2.3-color-auto.py:14 | `Path(base) / rel` (also at lines 30, 48-49, 56 and 72-77) is `rel` for an empty base and `base + rel` when the base ends in `/` or `\`. Otherwise it is `base + "/" + rel`, except for a bare drive `X:`, where nothing is added, so the result is relative to that drive's current directory. |
| Locator.DrivesMembers | import-ModsV2.3-color-auto.py:25 | A letter is a drive if and only if it is in A to Z and its root `X:/` exists. |
| Locator.DrivesInOrder | import-ModsV2.3-color-auto.py:25 | The drives are in strictly increasing letter order. |
| Locator.FirstWithSteamNone | import-ModsV2.3-color-auto.py:28-44 | The probe finds nothing if and only if no candidate holds `steam.exe`. |
| Locator.FirstWithSteamIsFirst | import-ModsV2.3-color-auto.py:28-32 | The first candidate holding `steam.exe` is the one returned. |
| Locator.EnvIsFirstCandidate | import-ModsV2.3-color-auto.py:20-22 | The environment check is the probe of the first candidate. |
| Locator.SteamInstallPath | import-ModsV2.3-color-auto.py:19-44 | `get_steam_install_path`, for the source's join of the bare drive name (`AsWritten`) or the join to the drive root (`Rooted`). A returned path is one of the candidates and holds `steam.exe`. |
| Locator.SteamInstallPathSpec | import-ModsV2.3-color-auto.py:19-44 | For either join, a path is found if and only if some candidate holds `steam.exe`. It is the first such candidate in the order: environment, then each drive with its three folders, then the registry. |
| Locator.EnvWins | import-ModsV2.3-color-auto.py:20-22 | When the environment yields a path, the install path is that path, for either join. |
| Locator.RootedFindsLikelyFolder | import-ModsV2.3-color-auto.py:25-32 | With the `Rooted` join (the corrected probe), when a likely folder under an existing drive root holds `steam.exe`, some install path is found. With the source's `AsWritten` join this fails; see `DriveRelativeMissesSteam`. |
| Locator.ProbeDrive | import-ModsV2.3-color-auto.py:29-32 | The inner loop returns the first of the drive's three folders that holds `steam.exe`. With `AsWritten` each folder is joined to the bare `X:` as in the source, with `Rooted` to `X:/`. |
| Locator.GetSteamInstallPath | import-ModsV2.3-color-auto.py:19-44 | The loops with early returns compute exactly `SteamInstallPath` for the same join. With `AsWritten` this is the source's function. |
| Locator.PathKeyQuotes | import-ModsV2.3-color-auto.py:54-55 | A line containing `"path"` has at least two `"`, so `split('"')[-2]` is defined. |
| Locator.QuotedTailBetweenLastQuotes | import-ModsV2.3-color-auto.py:54-55 | The extracted text contains no `"`. A `"` stands on each side of it, and no `"` follows. |
| Locator.ManifestPathsAppend | import-ModsV2.3-color-auto.py:53-56 | The library entries of a concatenation of manifest lines are the concatenation of their entries, in file order. |
| Locator.ManifestPathsFromPathLines | import-ModsV2.3-color-auto.py:53-56 | Every line containing `"path"` contributes its quoted text plus `steamapps`. Every entry comes from such a line. |
| Locator.LibraryPaths | import-ModsV2.3-color-auto.py:47-59 | The first entry is the Steam folder's `steamapps`. Without a readable manifest it is the only one. |
| Locator.GetSteamLibraryPaths | import-ModsV2.3-color-auto.py:47-59 | The loop appending to `library_paths` computes exactly `LibraryPaths`. |
| Locator.OneLibraryLine | import-ModsV2.3-color-auto.py:47-59 | A manifest with a header line and one `"path"` line yields two libraries: the Steam folder's own, then the one listed. |
| Locator.GameDirIn | import-ModsV2.3-color-auto.py:72-75 | `common/Project Zomboid` is preferred, `common/ProjectZomboid` is the fallback, and the result exists. |
| Locator.WorkshopSearchResult | import-ModsV2.3-color-auto.py:71-82 | The loop returns the workshop of the first library that has both the game and the workshop, with that library's game folder. With no such library it returns no workshop and the game folder of the last library that had one. |
| Locator.WorkshopComesWithGame | import-ModsV2.3-color-auto.py:71-82 | A workshop directory is returned only together with the game directory of the same library. |
| Locator.SteamLibraryFirst | import-ModsV2.3-color-auto.py:67-80 | When the Steam folder's own library has both folders, it is chosen. |
| Locator.FindProjectZomboidWorkshop | import-ModsV2.3-color-auto.py:62-82 | The method computes exactly `FindWorkshop` for the same join, so with `AsWritten` it is the source's function. That is `(None, None)` without a Steam path, and otherwise the library search. |
| Locator.NothingToProbe | import-ModsV2.3-color-auto.py:63-65 | With no environment path, no drive and no registry value, the result is `(None, None)` for either join. |
| Locator.DriveRelativeMissesSteam | import-ModsV2.3-color-auto.py:28-32 | On a machine whose only Steam is `C:/Program Files (x86)/Steam`, with no environment variable and no registry value, the probe as written, which joins `C:` and the folder, finds nothing, so the workshop search returns `(None, None)`. The rooted probe finds it. |
| Exporter.ModUrl | import-ModsV2.3-color-auto.py:160 | A URL is the workshop prefix followed by the id, and the id is recovered by dropping the prefix. |
| Exporter.UrlList | import-ModsV2.3-color-auto.py:160 | One URL per id, in the order of the ids. |
| Exporter.CsvField | import-ModsV2.3-color-auto.py:143-146 | A field without `;`, `"` or a line break is written as is. Any other field is written quoted and reads back as the original. |
| Exporter.UndoubleDouble | import-ModsV2.3-color-auto.py:143-146 | Undoubling the quotes inside a quoted field inverts the writer's doubling. |
| Exporter.CsvRoundTrip | import-ModsV2.3-color-auto.py:143-146 | Reading the written CSV back by lines and `;` gives the rows written, for fields that need no quoting. |
| Exporter.Export | import-ModsV2.3-color-auto.py:141-162 | The four file contents `save_to_files` writes. The CSV always starts with the header row `WorkshopItems;Mods`, and `ModURLs.txt` is empty exactly when there are no workshop items. |
| Exporter.CsvFileShape | import-ModsV2.3-color-auto.py:141-146 | When no id or name holds `;`, `"` or a line break, `ModInfo.csv` reads back as the header `WorkshopItems;Mods` followed by exactly one row `[workshop_items[i], mods[i]]` per index, in order. |
| Exporter.ExportOfRecords | import-ModsV2.3-color-auto.py:141-146 | After a scan in which no container name or mod name holds `;`, `"` or a line break, the CSV reads back with one row per record: the container name and the mod name. |
| Exporter.IdsFileRoundTrip | import-ModsV2.3-color-auto.py:149-151 | Splitting `WorkshopItems.txt` on `;` gives the ids back, when there is at least one and none contains `;`. |
| Exporter.NamesFileRoundTrip | import-ModsV2.3-color-auto.py:154-156 | Splitting `Mods.txt` on `;` gives the names back, when there is at least one and none contains `;`. |
| Exporter.SemicolonSplitsAnId | import-ModsV2.3-color-auto.py:151 | An id that contains `;` comes back from `WorkshopItems.txt` as two ids. |
| Exporter.UrlsFileLines | import-ModsV2.3-color-auto.py:159-162 | When there is at least one id and no id holds a line break, `ModURLs.txt` has exactly one line per id, in order. Line `i` is the page of id `i`. |
| Exporter.EmptyExport | import-ModsV2.3-color-auto.py:141-162 | With no mods, the CSV is the header line alone and the three text files are empty. |
| Exporter.DisplayTextLines | import-ModsV2.3-color-auto.py:197-200 | When no name or id holds a line break, the pane holds one line `<mod_name> - <gameid>` per display item, each ended by a line break. |
| Exporter.DisplayOfRecords | import-ModsV2.3-color-auto.py:197-198 | The line of a scanned mod shows its name and its container name. |
| Exporter.LinkTargetMatchesUrlFile | import-ModsV2.3-color-auto.py:197-200 | With one link per line, line `i` opens the page of `workshop_items[i]`, the same URL `ModURLs.txt` lists at line `i`. |
| Exporter.DistinctNamesLinkRightly | import-ModsV2.3-color-auto.py:168-172 | When the mod names are distinct, the links as the source binds them each open their own line's page. |
| Exporter.SharedNameMisroutesLink | import-ModsV2.3-color-auto.py:168-172 | When two lines share a mod name, the first line's link opens the second line's page. |

## Left out

- The tkinter window: labels, panes, styling, the mod count label, clearing and exit. The click targets of the result pane are kept, in `Exporter`.
- `messagebox`, `webbrowser`, `filedialog` and every `print`. They are outside effects with no result the pipeline uses.
- Real filesystem, environment and registry access. They are the inputs `Node`/`Entry` and `Machine`, and `Exists` is membership in a set of spelled paths. Path normalisation is not modelled: pathlib's separator normalisation, collapsing doubled separators and reading `.` are absent; paths are spelled with `/`. Nor are symbolic links.
- `os.getenv` being case-insensitive on Windows: the environment is an exact map.
- Enumerator.Lookup: Windows file names are case-insensitive, so `os.path.exists` at lines 112 and 119 also accepts a folder listed as `Mods` or a file `MOD.INFO`. The model matches `mods` and `mod.info` exactly and skips such a container or mod. The same holds for `Exists` in the locator, which matches paths as spelled.
- The listing order of `os.listdir`. It is an input, the order of the `entries` of each directory.
- The root directory: the model takes its entries as given. The `OSError` of `os.listdir` on a root that is not a directory is not modelled.
- The I/O errors of `read_mod_info` and `get_steam_library_paths` while reading. A file either reads fully or cannot be opened. A read that fails halfway returns, in the source, what was parsed so far. Here it is not distinguished.
- Text mode line translation: `ModURLs.txt`, `WorkshopItems.txt` and `Mods.txt` are opened in text mode. On Windows each `\n` is written as `\r\n`. The model gives the strings passed to `write`. `ModInfo.csv` is opened with `newline=''`, so its `\r\n` row ends are exact.
- The CSV writer's rule that quotes a row holding a single empty field. Every row here has two fields.
- The `NameError` of `save_to_files` before any directory has been processed. `Export` takes the lists of the last scan as its argument.
- The save folder `~/Documents/Zomboid-ModInfo` and its creation. `Export` gives the contents of the four files; their names and paths are not modelled. Neither is the failure path: `save_to_files` has no `try`, so a failing `mkdir`, `open` or `write` raises out of the button callback, and the files written before it stay on disk.
- Exporter.ExportOfRecords: proved only for scans whose container and mod names need no quoting (no `;`, `"` or line break). A mod name is free text after `name=`, so one like `A;B` is ordinary input. For it the writer quotes the field, which `CsvField` covers field by field, but the whole-file read-back is not proved.
- Exporter.CsvRoundTrip: the read-back is proved only for fields that need no quoting. Quoted fields are covered field by field by `CsvField`.

## Findings

| source | as written | input that shows it | evidently intended | confidence | as-written member | corrected member |
|---|---|---|---|---|---|---|
| import-ModsV2.3-color-auto.py:25-32 | `drives` holds bare names such as `C:`. `Path("C:") / folder` is relative to the current directory of drive C, not to its root. | The only Steam is `C:/Program Files (x86)/Steam/steam.exe`, no environment path or registry value, and the current directory is not `C:/` | probe `C:/Program Files (x86)/Steam`, the folder under the drive root | medium, not executed | Locator.DriveRelativeMissesSteam | Locator.RootedFindsLikelyFolder |
| import-ModsV2.3-color-auto.py:168-200 | Each line's link tag is named after the mod. Every `tag_bind` on that name replaces the previous binding, so all lines with one name open the URL bound last. | Two mods named `Alpha`, in containers `1000` and `2000`. The first line opens the page of `2000`. | each line opens the page of its own container | medium, not executed | Exporter.SharedNameMisroutesLink | Exporter.LinkTargetMatchesUrlFile |

The source's drive probe is `Locator.SteamInstallPath` with `AsWritten`, and the corrected one is the same function with `Rooted`. `Locator.GetSteamInstallPath`, `Locator.FindWorkshop` and `Locator.FindProjectZomboidWorkshop` take the join as a parameter, so both versions carry the same contracts. The corrected link target is `Exporter.LinkTarget`, one tag per line.
