# Batocera widget: gamelist scanning and plugin routing, in Dafny

This project models the core of a Kodi add-on that lists the games of a Batocera or RetroPie ROM
collection. The add-on walks the ROM directory for `gamelist.xml` files and parses each one. It then
collects either the games marked as favourites, or the 20 most recently added games of each file, by
their `added_date`. The add-on's entry script picks the ROM directory from the add-on settings,
dispatches the plugin URL to an action, and checks the year and rating of a game before it is shown.

Modules:

- `Wrappers`: `Option` and `Result`.
- `Digits`: ASCII decimal digits, their values, zero-padded and plain decimal text, and the round trips between them.
- `ElementTree`: an XML element tree with `find` and `findall(".//tag")`.
  - `find` is the first direct child with the tag.
  - `findall` returns the matching descendants in document order; the root itself is not included.
- `Timestamp`: `datetime.strptime(text, "%Y-%m-%dT%H:%M:%S")`.
  - It covers the calendar checks `datetime` makes and the order in which `datetime` values compare.
- `Walk`: `find_gamelist_files`. It is a top-down `os.walk` with the hidden subdirectories pruned, written as a method with an explicit stack.
  - The method is proved equal to a recursive definition of the walk.
  - That definition is shown to yield exactly the directories reachable without entering a hidden one.
- `GamelistParser`: `get_game_info`, `search_favorite_games`, `search_last_20_added` and `process_gamelist_files`.
  - Each loop of the source is a method proved equal to a specification function.
  - Lemmas state what those functions promise.
- `Plugin`: in the entry script:
  - the settings store (a class over a `map`);
  - `get_rom_directory` and `update_rom_directory`;
  - `router`;
  - the year and rating checks.

External effects become parameters:

- `load_xml`: `ET.parse` of a path becomes the function `load: string -> Option<Element>`. `None` stands for a `ParseError`.
- The file system becomes a `Dir` tree. A directory that cannot be listed (or does not exist) is marked `readable == false`, and `os.walk` skips it silently.
- The folder the `Dialog().browse` prompt returns is a parameter of `GetRomDirectory`.
- `parse_qs` is left out. `Router` takes the dictionary that `parse_qs` returns.

A `<added_date>` element with no text makes `strptime` raise `TypeError`. The source catches only
`ValueError`, so the `TypeError` escapes `search_last_20_added` and `process_gamelist_files`. The model
returns `Failure(TypeError)` there. An unparsable date is skipped, as the source does.

The menu advertises "Latest 25 Games" (default.py:132), and the cache query orders by `last_modified` with `LIMIT 25` (default.py:73). The parser does neither:

- The "latest" result is capped at 20 games per `gamelist.xml`. Each file's list is sorted on its own, and the lists are concatenated in walk order. There is no global sort and no cap of 25 (`GamelistParser.LatestNotMerged`, `GamelistParser.LatestCapIsPerFile`).
- Games are ordered by the parsed `added_date`, not by a file modification time.
- A game record holds only `name`, `thumbnail` and, in the "latest" mode, `added_date`. Paths are not resolved, and no platform is derived.

## Model

| member | source | states |
|---|---|---|
| ElementTree.FindIsFirst | resources/lib/gamelist_parser.py:17 | `find(tag)` returns something iff some direct child has the tag, and then returns the first such child |
| ElementTree.FindAllMembers | resources/lib/gamelist_parser.py:16 | `findall(".//game")` holds exactly the descendants (root excluded) with that tag |
| ElementTree.FindAll | resources/lib/gamelist_parser.py:16 | `findall` returns at most as many elements as there are descendants |
| ElementTree.WithTagAppend | resources/lib/gamelist_parser.py:16 | selecting by tag keeps document order: the matches in a concatenation are the matches of each part, in order |
| GamelistParser.GameInfoOf | resources/lib/gamelist_parser.py:41-49 | the record has only the keys `name` and `thumbnail`; each key is present iff the game has that child, and maps to the child's text (which may be `None`) |
| GamelistParser.GetGameInfo | resources/lib/gamelist_parser.py:41-49 | building the dictionary key by key gives the record above |
| GamelistParser.SearchFavoriteGames | resources/lib/gamelist_parser.py:14-20 | the loop returns the records of the `game` descendants that have a `favorite` child, in document order |
| GamelistParser.FavoritesLength | resources/lib/gamelist_parser.py:16-19 | one record per favourite game, so never more records than games |
| GamelistParser.FavoritesMembers | resources/lib/gamelist_parser.py:16-19 | a record is in the result iff it is the record of some game that has a `favorite` child |
| GamelistParser.FavoritesStep | resources/lib/gamelist_parser.py:17-19 | one turn of the loop appends the game's record exactly when the game has a `favorite` child |
| GamelistParser.FavoritesAppend | resources/lib/gamelist_parser.py:16-19 | selecting favourites distributes over concatenation of the game list |
| GamelistParser.FavoriteGamesBound | resources/lib/gamelist_parser.py:14-20 | the result is no longer than `root.findall(".//game")` |
| Timestamp.DaysInMonth | resources/lib/gamelist_parser.py:29 | months have 28 to 31 days, and February has 29 exactly in Gregorian leap years |
| Timestamp.EarlierIsStrictTotalOrder | resources/lib/gamelist_parser.py:37 | comparison of `datetime` keys is irreflexive, transitive, total and asymmetric |
| Timestamp.Field | resources/lib/gamelist_parser.py:29 | a fixed-width numeric field is read iff all its characters are digits |
| Timestamp.ParseAddedDate | resources/lib/gamelist_parser.py:29 | an accepted text is 19 characters long and denotes a real date and time (year 1-9999, a day that exists in that month, h < 24, m < 60, s < 60) |
| Timestamp.Format | resources/lib/gamelist_parser.py:29 | the canonical text of a timestamp has the format's separators at their fixed places |
| Timestamp.FormatThenParse | resources/lib/gamelist_parser.py:29 | parsing the canonical text of any valid timestamp gives that timestamp back, and so does the same text with a lower-case `t` (the format matches case-insensitively) |
| Timestamp.ParseThenFormat | resources/lib/gamelist_parser.py:29 | every accepted text is the canonical text of its value, up to the case of the `T` |
| GamelistParser.StampOf | resources/lib/gamelist_parser.py:26-29 | classifies a game, each case by an iff: no `added_date` child; a child with no text (the `TypeError` case); a text that does not parse; otherwise the date the text parses to |
| GamelistParser.DatedKey | resources/lib/gamelist_parser.py:30-31 | a kept game's record carries its parsed date under `added_date`, and that date is its sort key |
| GamelistParser.CollectDatedFails | resources/lib/gamelist_parser.py:25-34 | collecting fails iff some game has an `added_date` child with no text |
| GamelistParser.FailureSticks | resources/lib/gamelist_parser.py:28-29 | once collecting has failed on a prefix of the games, it fails on all of them with `TypeError` |
| GamelistParser.CollectDatedLength | resources/lib/gamelist_parser.py:25-34 | on success, exactly the games with a parsable date are kept |
| GamelistParser.CollectDatedMembers | resources/lib/gamelist_parser.py:25-34 | on success, a record is collected iff it is the dated record of some game whose date parses |
| GamelistParser.CollectDatedAppend | resources/lib/gamelist_parser.py:25-34 | collecting distributes over concatenation, and a failure in either part is a failure of the whole |
| GamelistParser.InsertByDate | resources/lib/gamelist_parser.py:37 | inserting adds exactly one record (as a multiset) |
| GamelistParser.SortByDateDesc | resources/lib/gamelist_parser.py:37 | the sorted list is a permutation of its input |
| GamelistParser.NotLaterTransitive | resources/lib/gamelist_parser.py:37 | "not later than" on records is transitive |
| GamelistParser.InsertDescending | resources/lib/gamelist_parser.py:37 | inserting into a list sorted newest first keeps it sorted |
| GamelistParser.SortDescending | resources/lib/gamelist_parser.py:37 | `sorted(..., reverse=True)` orders the records newest first |
| GamelistParser.SortStable | resources/lib/gamelist_parser.py:37 | the sort is stable: records with equal dates keep their original relative order |
| GamelistParser.WithDateMembers | resources/lib/gamelist_parser.py:37 | a record has a given date in the picked list iff it is in the list and has that date |
| GamelistParser.DescendingDeterminedByDates | resources/lib/gamelist_parser.py:37 | two newest-first lists that agree on the order within each date are equal |
| GamelistParser.StableSortUnique | resources/lib/gamelist_parser.py:37 | any newest-first, stable rearrangement of the records is the sort's result, so the model is the sort Python performs |
| GamelistParser.FirstTwenty | resources/lib/gamelist_parser.py:37 | `[:20]` keeps the first min(n, 20) records |
| GamelistParser.NewestTwenty | resources/lib/gamelist_parser.py:37 | the first 20 of the sorted records are min(n, 20) records, newest first, drawn from the input |
| GamelistParser.SearchLast20Added | resources/lib/gamelist_parser.py:22-39 | the loop, with its early `TypeError` exit, returns the specification `Last20Added` |
| GamelistParser.Last20AddedFails | resources/lib/gamelist_parser.py:22-39 | the call raises iff some `game` descendant has a text-less `added_date` |
| GamelistParser.Last20AddedResult | resources/lib/gamelist_parser.py:22-39 | otherwise the result has min(number of parsable dates, 20) records, newest first; it is a prefix of the stable sort and a sub-multiset of the dated records |
| GamelistParser.SearchGames | resources/lib/gamelist_parser.py:67-70 | `"0"` gives the favourites of the document, `"1"` gives its latest-20 result (failing exactly when that search raises, and at most 20 games), and any other type adds nothing |
| GamelistParser.Extend | resources/lib/gamelist_parser.py:68-70 | `games.extend(found)` appends, and an exception from either side propagates |
| GamelistParser.ProcessStep | resources/lib/gamelist_parser.py:63-70 | one more file extends the games gathered so far by that file's games |
| GamelistParser.ProcessFailureSticks | resources/lib/gamelist_parser.py:63-70 | once a file raised, the whole call raises `TypeError` |
| GamelistParser.ProcessFilesAppend | resources/lib/gamelist_parser.py:63-70 | processing a list of files distributes over concatenation of the list |
| GamelistParser.ProcessGamelistFiles | resources/lib/gamelist_parser.py:60-71 | the loop over the found files returns the specification `ProcessedGames`, `Failure(TypeError)` included |
| GamelistParser.Parsed | resources/lib/gamelist_parser.py:64-65 | never more paths than were found |
| GamelistParser.ParsedMembers | resources/lib/gamelist_parser.py:64-65 | a path is kept iff it was found and its XML parses |
| GamelistParser.ParsedAppend | resources/lib/gamelist_parser.py:63-65 | keeping the parsed paths preserves their order: it distributes over concatenation |
| GamelistParser.ProcessSkipsUnparsed | resources/lib/gamelist_parser.py:64-65 | files whose XML does not parse contribute nothing |
| GamelistParser.UnknownSearchTypeYieldsNothing | resources/lib/gamelist_parser.py:67-70 | a search type other than `"0"` and `"1"` gives an empty list |
| GamelistParser.FavoritesNeverFail | resources/lib/gamelist_parser.py:67-68 | the favourites search never raises |
| GamelistParser.LatestCapIsPerFile | resources/lib/gamelist_parser.py:69-70 | the "latest" result is bounded by 20 per parsed file, not 20 overall |
| GamelistParser.LatestNotMerged | resources/lib/gamelist_parser.py:69-70 | the "latest" results of two files are concatenated as they are, not merged and re-sorted |
| Walk.Join | resources/lib/gamelist_parser.py:57 | `os.path.join`: an absolute second part replaces the first; otherwise a `/` is added between the parts only when the first is non-empty and does not already end with one |
| Walk.MatchesContents | resources/lib/gamelist_parser.py:55-57 | a directory contributes `join(root, "gamelist.xml")` for each file named exactly `gamelist.xml`, and contributes something iff it has one |
| Walk.AtMostOnePerDirectory | resources/lib/gamelist_parser.py:55-57 | as a directory lists each name once, it contributes at most one path |
| Walk.AppendMatches | resources/lib/gamelist_parser.py:55-57 | the inner loop appends exactly that directory's matches |
| Walk.VisitStep | resources/lib/gamelist_parser.py:53-54 | popping a directory yields it and queues its non-hidden subdirectories before the rest; an unlistable directory is dropped |
| Walk.VisitAllAppend | resources/lib/gamelist_parser.py:53 | walking a list of directories distributes over concatenation |
| Walk.FindGamelistFiles | resources/lib/gamelist_parser.py:51-58 | the stack-driven walk returns `GamelistPaths`, the matches of the top-down walk in order |
| Walk.VisibleMembers | resources/lib/gamelist_parser.py:54 | pruning keeps exactly the subdirectories whose names do not start with `.` |
| Walk.ChildEntriesMembers | resources/lib/gamelist_parser.py:53-54 | each subdirectory is walked under `join(parent, name)` |
| Walk.VisitAllMembers | resources/lib/gamelist_parser.py:53 | a directory is visited from a list iff it is visited from one of its entries |
| Walk.ReachableIsVisited | resources/lib/gamelist_parser.py:53-54 | every directory reachable through listable, non-hidden subdirectories is visited |
| Walk.VisitedIsReachable | resources/lib/gamelist_parser.py:53-54 | every visited directory is reachable in that way |
| Walk.CollectMembers | resources/lib/gamelist_parser.py:55-57 | a path is collected iff some visited directory holds `gamelist.xml` and the path is its join |
| Walk.GamelistPathsExactly | resources/lib/gamelist_parser.py:51-58 | a path is returned iff it is `join(dir, "gamelist.xml")` for a reachable directory that holds that file |
| Plugin.Addon.constructor | default.py:13 | the settings store starts with the given settings |
| Plugin.Addon.SetSetting | default.py:50 | writing a setting changes that one key and no other, and reading it back gives the value |
| Plugin.GetRomDirectory | default.py:38-52 | type `"0"` and `"1"` give the fixed directories, and type `"2"` gives the stored custom directory. With nothing stored, type `"2"` gives the browsed folder and stores it. Any other type gives `None`. Only the prompt case writes a setting. |
| Plugin.UpdateRomDirectory | default.py:54-60 | types `"0"` and `"1"` store their fixed directory as the custom one; any other type leaves the settings unchanged |
| Plugin.Router | default.py:113-125 | `favorites` and `latest` show search types `"0"` and `"1"` exactly. `run` with a `rom_path` launches the first `rom_path`. Every other case, including `run` without a `rom_path`, shows the main menu. |
| Plugin.YearValue | default.py:103 | a year that is empty or not all digits shows as 0; a non-zero year came from a run of digits |
| Plugin.YearRoundTrip | default.py:103 | the decimal text of any number reads back as that number |
| Plugin.YearPaddedRoundTrip | default.py:103 | leading zeros do not change the year read |
| Plugin.RemoveFirstDot | default.py:104 | `replace('.', '', 1)` leaves a text without `.` unchanged and makes any other text one character shorter |
| Plugin.RemoveFirstDotAt | default.py:104 | when the first `.` is at position k, the result is the text with exactly that character removed |
| Plugin.RatingAcceptedExactly | default.py:104 | a rating is accepted iff it is a non-empty run of digits, or digits around one single `.` with at least one digit |
| Plugin.RatingExamples | default.py:104 | `1.5`, `.5` and `5.` are accepted; `.`, `1.2.3` and `-1` are rejected |

## Left out

- Timestamp.ParseAddedDate: models only the zero-padded form of each field. `strptime` also accepts one-digit months, days, hours, minutes and seconds, and a space-padded day. It also accepts non-ASCII digits. Such texts are rejected by the model.
- Plugin.YearValue: `str.isdigit` also accepts non-ASCII digits (some of which `int` then rejects). The model knows only ASCII digits.
- Plugin.RatingAcceptedExactly: states the check only. The `float` conversion of an accepted rating is floating point and is not modelled. `str.isdigit` also accepts non-ASCII digits (which `float` then converts); the model knows only ASCII digits and rejects such ratings.
- `load_xml`: the XML parser itself is not modelled. It is the parameter `load`, and a `ParseError` is `None`. Other exceptions of `ET.parse`, such as an I/O error, are not modelled.
- `os.walk`: it is a `Dir` tree, so real file system access is not modelled. Symbolic links are not followed, and the tree does not change during the walk.
- `xbmc.log` calls are left out. They have no effect on the results.
- `init_db`, `load_platform_map`, `display_games` and `main` are not part of this model. They are SQLite access, JSON loading, and Kodi list building and UI calls.
  - In `display_games`, the `fetchall` calls that log the query results drain the cursor, so the list built from it afterwards is always empty.
  - `display_games` then calls `process_gamelist_files` with three arguments where the function takes two. Modelling this would need the database and UI layer, which is out of scope.
- `launch_game` is neither defined in nor imported by default.py, so the call at default.py:123 raises `NameError`. The model stops at the `LaunchGame` action.
- `parse_qs`: URL query decoding is not modelled. `Router` takes its result, which has a non-empty value list for every key.
- The module-level start-up sequence (`update_rom_directory`, `init_db`, `router` over `sys.argv`) is not modelled as one step. Its parts are modelled separately.
