# kex-mem, modelled in Dafny

kex-mem is a command-line memory store for coding agents. A project's
`memory/` directory holds a durable `MEMORY.md` and one Markdown log per day
(`YYYY-MM-DD.md`). Lines of the form `- HH:MM [tag] message` are appended to
the day's log. An SQLite database indexes every Markdown file for full-text
search. The commands are `init`, `log`, `todo`, `brief`, `compact`, `index`,
`reindex` and `config`.

This project models the deterministic core of those commands. The memory
directory is an input snapshot (`Files.MemDir`): a listing plus a map from file
name to content, modification time and size. Each command's effect is a value:
the lines it prints, the files it writes or renames, the new store.

- **The index store** is a class, `Db.Store`. It holds the full-text rows (a
  sequence of path, title and body), the `file_meta` map (path to mtime and
  size) and an optional per-path embedding map. Its methods update those fields
  in place. Each method is specified by a pure transition on `Db.Tables`, and
  lemmas prove the properties of those transitions.
- **The indexers** (`Indexer`, `Reindex`) are methods with loops. They are
  proved equal to pure specifications, and the specifications are proved to
  keep the store invariant: at most one row per path, and row paths equal to
  the meta keys.
- **The text layer** covers Markdown title and body extraction (`Markdown`) and
  the daily-log entry regex (`Parser`). The regex is modelled as a
  backtracking search in the regex engine's priority order.
- **The commands built on the text layer** are `Log`, `Todo`, `Brief` and
  `Compact`. Their loops are methods proved against functions that specify
  them.
- **The small transforms** are date formatting and parsing (`Paths`), the
  Claude settings merge (`Settings`), the CLAUDE.md marker splice (`Init`),
  embedder selection and batching (`Embedder`), configuration defaults
  (`ConfigStore`) and `config set` (`ConfigCommand`).

JavaScript semantics are written out where the model depends on them:
- `trim` uses JavaScript's white-space set, and `split("\n")` is total.
- `localeCompare` on daily-log names is code-unit order.
- `new Date(y, m - 1, d)` maps years 0 to 99 to 1900 + y.
- JSON truthiness and `??` are modelled on a small JSON value type.

## Model

| member | source | states |
|---|---|---|
| Paths.DaysInMonth | src/lib/paths.ts:62-65 | The month length needed for the rollover check is between 28 and 31, and it is 29 exactly for February of a leap year |
| Paths.DateCtorYear | src/lib/paths.ts:62 | The year that `new Date(y, m, d)` uses: 1900 + y for y in 0..99, otherwise y |
| Paths.ParseDate | src/lib/paths.ts:54-67 | A string not shaped `\d{4}-\d{2}-\d{2}` fails with the format error. A shaped one succeeds exactly when its fields name a real calendar date (month 1..12, day 1..31 and within the month), and the error otherwise is the invalid-date message |
| Paths.ParseFormatDate | src/lib/paths.ts:47-67 | Formatting a valid date with a four-digit year and parsing it back returns the same date |
| Paths.FormatParseDate | src/lib/paths.ts:47-67 | Formatting a date that parsed, from a string whose year has no leading zero, returns that string |
| Paths.FormatDateIsLogName | src/lib/paths.ts:36-41 | The file name of a day's log has the `YYYY-MM-DD.md` shape that `todo`, `brief` and `compact` scan for |
| Paths.PathLayout | src/lib/paths.ts:24-41 | The database, MEMORY.md and every daily log sit directly under the memory directory, under distinct names |
| Text.Trim | src/lib/markdown.ts:29 | `trim` removes a white-space prefix and suffix only, leaves no white space at either end, and yields "" exactly for all-white-space input |
| Text.JoinSplit | src/lib/markdown.ts:44-47 | Joining the lines of `split("\n")` with "\n" gives back the text |
| Text.SplitJoin | src/lib/markdown.ts:44-47 | Splitting the join of newline-free lines gives back those lines |
| Text.IndexOf | src/commands/init.ts:35-37 | `indexOf` is -1 exactly when the text does not occur; otherwise it is the first position where it starts |
| Text.Pad2Digits | src/lib/paths.ts:49-50 | `padStart(2, "0")` of a number below 100 is two digits that read back as the number |
| Markdown.LineTitle | src/lib/markdown.ts:29-35 | The title of a non-blank line: the trimmed text after "# " when the trimmed line starts so, otherwise the trimmed line |
| Markdown.TitleOfLines | src/lib/markdown.ts:26-38 | The title is never empty, and it is "Untitled" when every line is blank after trimming |
| Markdown.TitleOfFirstNonBlank | src/lib/markdown.ts:26-38 | The title is the title of the first line that is not blank after trimming |
| Markdown.StripHeading | src/lib/markdown.ts:46 | `/^#{1,6}\s+/` removes one to six leading '#' and all the white space after them when such a prefix exists, and otherwise leaves the line unchanged. A line shrinks exactly when it has that prefix |
| Markdown.HeadingMarkAtHashes | src/lib/markdown.ts:46 | A line has a heading mark exactly when its run of leading '#' (at most six) is followed by white space |
| Markdown.ExtractBodyLines | src/lib/markdown.ts:43-49 | The stripped text has one line per original line, and every line without a heading mark is kept unchanged |
| Markdown.ExtractBodyWithoutHeadings | src/lib/markdown.ts:43-49 | Text without heading marks has the trimmed text as its body |
| Markdown.AppendText | src/lib/markdown.ts:17-21 | Appending keeps the existing text as a prefix and the new text as a suffix, with one "\n" between them exactly when the existing text is non-empty and lacks a final newline |
| Parser.MatchEntry | src/lib/parser.ts:9 | A matching line starts "- HH:MM". The time is that capture, the message is a non-empty single-line suffix of the line, and a tag is a non-empty run of word characters |
| Parser.LogEntriesSpec | src/lib/parser.ts:11-27 | Every entry names a line by its 1-based number, carries that line unchanged as `raw`, and holds its match. Entries are in increasing line order, and every matching line has an entry |
| Parser.ParseLogEntries | src/lib/parser.ts:11-27 | The loop over the lines returns exactly the entries of the specification, and none for empty content |
| Parser.FilterByTag | src/lib/parser.ts:29-31 | The result holds exactly the entries whose tag equals the argument |
| Parser.FilterByTagAppend | src/lib/parser.ts:29-31 | Filtering distributes over concatenation, so the original order is kept |
| Log.ValidTagsText | src/commands/log.ts:7 | The valid tags are joined as "decision, bug, convention, todo" |
| Log.InvalidTagError | src/commands/log.ts:15-18 | The rejection message names the tag and lists the four valid tags |
| Log.LogRun | src/commands/log.ts:9-43 | A tag outside the four valid ones is rejected with that message. Otherwise the day's file is the existing text with the entry appended, plus the "# date" header when the file was empty, and the message names the date |
| Log.Logged | src/commands/log.ts:26-32 | The earlier content stays a prefix and the entry ends the file. A new file starts with the header, and an existing one gains a newline only when it lacked one |
| Log.LogAllOnto | src/commands/log.ts:26-32 | Logging several entries onto a non-empty file gives the file followed by the entries: no header is added |
| Log.HeaderOnce | src/commands/log.ts:26-32 | Starting from an empty file, many entries give one header followed by the entries |
| Log.ClockShape | src/commands/log.ts:21 | The time of an entry is two digits, a colon and two digits |
| Log.EntryRoundTrip | src/commands/log.ts:21-23 | A formatted entry line parses back to the same time, tag and message when the message is single-line, non-empty and starts with a non-space character (and, untagged, not with '[') |
| Log.EntryLineSingle | src/commands/log.ts:21-23 | An entry line of a single-line message holds no newline |
| Log.LoggedLastEntry | src/commands/log.ts:21-32 | After logging, the last entry the parser finds in the file is the one just written: its time, effective tag and message, its own line as raw text, and the line number of the file's last line |
| Log.LogCommand | src/commands/log.ts:9-43 | The command's outcome is the run above. A rejected tag leaves the store alone, and the written file is upserted with the title and body the Markdown extractors take from its new text |
| Log.LogIndexes | src/commands/log.ts:35-40 | A logged file that is newer than its stored meta is indexed with its new meta and one row, whose title and body are `extractTitle` and `extractBody` of the file's new text |
| Db.Store.GetFileMeta | src/lib/db.ts:94-101 | Nothing exactly when the path has no meta, otherwise exactly the stored time and size |
| Db.Store.Upsert | src/lib/db.ts:39-68 | The store becomes the upsert transition of its old state |
| Db.UpsertEffect | src/lib/db.ts:47-67 | Nothing changes when the stored mtime is at least the new one, including equal. Otherwise the path has the new meta and exactly one row with the new title and body, and a given embedding is stored |
| Db.UpsertFrame | src/lib/db.ts:55-65 | An upsert leaves every other path's rows, meta and embedding as they were |
| Db.UpsertConsistent | src/lib/db.ts:55-65 | An upsert keeps the invariant: one row per path, and row paths equal to meta keys |
| Db.Store.Remove | src/lib/db.ts:86-92 | The store becomes the removal transition of its old state |
| Db.RemoveEffect | src/lib/db.ts:86-92 | Removal deletes the paths' rows and meta, and their embeddings when the vector table exists. Every other path is untouched and the invariant is kept |
| Db.RemoveAbsent | src/lib/db.ts:86-92 | Removing a path that has no rows and no meta changes nothing |
| Db.RemoveTwice | src/lib/db.ts:86-92 | Removing paths one after another is removing their union |
| Db.DropPathsSpec | src/lib/db.ts:86-92 | Deleting the rows of a set of paths keeps exactly the other rows, and keeps paths distinct |
| Db.Store.Clear | src/commands/index.ts:63-65 | The full rebuild empties both tables, and the embeddings when vectors are in use |
| Db.Store.SearchFts | src/lib/db.ts:70-84 | At most `limit` hits (10 by default), as many as there are matches up to that limit, each a stored row that matches |
| Files.MdFiles | src/commands/index.ts:67 | The `.md` names of the listing, in order, distinct when the listing is |
| Files.DailyLogs | src/commands/todo.ts:50 | The `YYYY-MM-DD.md` names of the listing, in order |
| Files.CollectSpec | src/commands/index.ts:67-81 | The collected entries are those of the non-empty files, one per path, each built from its file |
| Indexer.SingleFileEffect | src/commands/index.ts:28-58 | A missing or empty file loses its rows and meta. A newer non-empty file gets one row with its title and body and its new meta. An up-to-date file changes nothing. No other path is touched, and the invariant is kept |
| Indexer.IndexSingle | src/commands/index.ts:28-58 | Single-file mode performs that transition and prints "Removed p from index." or "Indexed p" |
| Indexer.BatchEmbeddings | src/commands/index.ts:83-90 | Embeddings exist exactly when there is an embedder, at least one entry and the batch call succeeds, and they are its result |
| Indexer.HasEmbedder | src/commands/index.ts:16-25 | An embedder exists exactly when vectors are in use and creating one does not throw |
| Indexer.FullRebuildSpec | src/commands/index.ts:62-98 | After the rebuild the indexed paths are exactly the non-empty `.md` files. Each has its meta and one row with its title and body, embedding `i` goes with entry `i`, and the invariant holds |
| Indexer.FullRebuild | src/commands/index.ts:62-99 | The rebuild clears, collects, embeds and upserts to the specified state and reports the number of entries |
| Indexer.CollectEntries | src/commands/index.ts:67-81 | The collecting loop returns the specified entries |
| Indexer.UpsertEntries | src/commands/index.ts:92-95 | The upsert loop applies the entries in order, entry `i` with embedding `i` |
| Indexer.UpsertPrefixIdempotent | src/commands/index.ts:92-95 | Upserting the same entries again, with any embeddings, changes nothing |
| Indexer.RemoveDeleted | src/commands/index.ts:103-114 | Every indexed path not among the `.md` files on disk is removed, and `removed` is their number |
| Indexer.ChangedNames | src/commands/index.ts:119-140 | The changed files are exactly the `.md` files whose stored meta is older, or absent, and whose content is non-empty |
| Indexer.CollectChanged | src/commands/index.ts:116-140 | The scan returns the changed entries, and skipped plus changed is the number of `.md` files |
| Indexer.SummaryLineCases | src/commands/index.ts:157-160 | "Indexed n files." when nothing was skipped or removed, otherwise the nonzero skipped and removed counts in parentheses |
| Indexer.IndexIncremental | src/commands/index.ts:102-160 | The incremental run reaches the specified state. It counts each `.md` file once, as skipped or changed, counts the removed paths, and prints the summary line |
| Indexer.IncrementalSpec | src/commands/index.ts:102-154 | From a store that keeps the invariant: afterwards the indexed paths are the old ones still on disk plus the changed ones. Each changed file has its new row, meta and embedding. A skipped file, including one that became empty, keeps its old entry. The invariant holds |
| Indexer.SelectMode | src/commands/index.ts:27-62 | A non-empty path selects single-file mode, then `--full` the rebuild, otherwise the incremental run |
| Indexer.IndexCommand | src/commands/index.ts:10-161 | The command's store transition and printed line are those of the mode selected, with embeddings used only when an embedder exists |
| Reindex.ReindexCommand | src/commands/reindex.ts:7-28 | The loop upserts every non-empty `.md` file with the title and body `extractTitle` and `extractBody` give for its text, counts the files and prints "Indexed n files." |
| Reindex.ReindexCount | src/commands/reindex.ts:15-24 | The count is the number of non-empty `.md` files, even when the mtime guard skips an upsert |
| Reindex.ReindexKeys | src/commands/reindex.ts:15-24 | Reindexing never removes an entry: the indexed paths become the old ones plus the non-empty `.md` files |
| Reindex.ReindexSkips | src/commands/reindex.ts:13-18 | A path that is not a non-empty `.md` file is left alone |
| Reindex.ReindexIdempotent | src/commands/reindex.ts:22 | Reindexing an unchanged directory a second time leaves the store identical |
| Reindex.ReindexReplaces | src/commands/reindex.ts:22 | A file newer than its stored meta gets its new meta and one row with its new title and body |
| Reindex.ReindexConsistent | src/commands/reindex.ts:15-24 | Reindexing keeps the store invariant |
| Todo.TodoFiles | src/commands/todo.ts:47-56 | The scanned files are exactly the `YYYY-MM-DD.md` names of the listing, in descending order and distinct |
| Todo.DoneTailFromSpec | src/commands/todo.ts:72 | The search for `/\s*\[done\]\s*$/` finds the leftmost position where the pattern matches the rest of the text, and fails only when there is none |
| Todo.StripDoneSpec | src/commands/todo.ts:72 | Removing the pattern cuts the message at its leftmost match and keeps it unchanged when there is no match |
| Todo.StripMarked | src/commands/todo.ts:70-72 | A message marked by `--resolve` displays as the original message without trailing white space |
| Todo.CollectTodos | src/commands/todo.ts:46-78 | The nested loops return exactly the specified items |
| Todo.TodosOfMembers | src/commands/todo.ts:46-78 | An item is collected exactly when it comes from a todo entry of a daily log in the listing |
| Todo.FileTodosMembers | src/commands/todo.ts:63-74 | A file's items are its todo entries, dated by the file name, and done exactly when the raw line holds "[done]". An empty file gives none |
| Todo.TodosOfOrdered | src/commands/todo.ts:55-75 | Items come newest file first and in line order within a file |
| Todo.FilterKeepsOrder | src/lib/parser.ts:29-31 | Filtering by tag keeps entries in line order |
| Todo.OpenItems | src/commands/todo.ts:33 | The open items are exactly the items that are not done |
| Todo.Listing | src/commands/todo.ts:26-43 | "No open TODOs." when nothing would be shown, otherwise one line per shown item in order: all items with `--all`, else the open ones |
| Todo.ResolveTarget | src/commands/todo.ts:81-85 | The target is an open item whose message contains the text. When there is none, no open item's message contains it |
| Todo.ResolveTargetFirst | src/commands/todo.ts:81-85 | The target is the first open match in collection order |
| Todo.MarkDoneLines | src/commands/todo.ts:93-99 | A file is written exactly when the line exists. Then that line gains " [done]", and every other line and the line count stay |
| Todo.ItemLineExists | src/commands/todo.ts:95-97 | The line of a collected item exists in its file, so a resolve always writes |
| Todo.ResolvedReparses | src/commands/todo.ts:92-100 | A logged todo line, once resolved, parses as a todo entry holding "[done]", so it is collected as done and shows its original message |
| Todo.TodoCommand | src/commands/todo.ts:17-107 | Listing leaves the store and directory alone. A missing match prints "No matching open TODO." and changes nothing. A resolve rewrites the file, prints "Resolved: m" and then "Indexed f" for the file f, and re-indexes that file alone |
| Todo.ResolveCommand | src/commands/todo.ts:80-107 | With no open match, it prints "No matching open TODO." and leaves the store and directory alone. Otherwise it marks the first open match done, prints "Resolved: m" and "Indexed f", and re-indexes that one file |
| Todo.ResolvedIndexable | src/commands/todo.ts:99-106 | After a resolve, the directory is still well formed and the resolved file is a non-empty daily log that still exists, so re-indexing it indexes it |
| Brief.DurableShows | src/commands/brief.ts:16-25 | DURABLE shows the first `maxLines` lines of a non-empty MEMORY.md. When the file is longer, a note counts the remaining lines |
| Brief.FilesPartition | src/commands/brief.ts:35-37 | The recent files are the `maxDays` newest logs and the older files the rest. Together they are the whole list, and every older name sorts at or below every recent one |
| Brief.FilesDisjoint | src/commands/brief.ts:35-37 | No log is both recent and older |
| Brief.RecentShown | src/commands/brief.ts:41-65 | RECENT appears exactly when some recent file is non-empty |
| Brief.RecentLines | src/commands/brief.ts:41-79 | Every RECENT line is the date heading or a raw entry line of a non-empty recent file with a daily-log name: older files contribute nothing there |
| Brief.AllTodosMembers | src/commands/brief.ts:52-79 | A todo is listed exactly when it is an open item of `todo` |
| Brief.AllTodosAreOpenItems | src/commands/brief.ts:52-87 | Whatever `--days` is, the TODO section lists `todo`'s open items in `todo`'s order |
| Brief.NoDataWhenEmpty | src/commands/brief.ts:89-92 | "No memory data found." is printed exactly when MEMORY.md is empty and there are no recent lines and no open todos |
| Brief.RecentAndTodos | src/commands/brief.ts:27-79 | The loops over the recent and the older files produce the specified RECENT section and todo list |
| Brief.BriefCommand | src/commands/brief.ts:7-95 | The command prints the specified sections, with 20 lines and 3 days when the options are not given |
| Compact.CompactFiles | src/commands/compact.ts:13-15 | The compacted candidates are exactly the `YYYY-MM-DD.md` names of the listing, in ascending order |
| Compact.OldFilesSpec | src/commands/compact.ts:17-20 | The old files are the candidates whose date is before the cutoff, in ascending order |
| Compact.ChangesOnlyOnAuto | src/commands/compact.ts:22-88 | Files are written or renamed only with `--auto`, without `--smart` and when some log is old. `--smart` overrides `--auto`. With no old log the run only prints "No logs older than N days." |
| Compact.GroupsMonths | src/commands/compact.ts:52-57 | The month map has each month once, and exactly the months of the old files |
| Compact.GroupsFiles | src/commands/compact.ts:52-57 | Each month's group holds exactly that month's files, in their order |
| Compact.GroupsInOrder | src/commands/compact.ts:52-57 | For sorted files the groups are consecutive runs that together are the files again |
| Compact.ArchiveHolds | src/commands/compact.ts:64-70 | A month's archive starts "# Archive: M\n\n" and holds each file's content followed by the separator, in file order |
| Compact.AutoArchives | src/commands/compact.ts:50-80 | `--auto` writes one archive per month in ascending month order, each holding exactly that month's old files. It renames the old files in order, each unless its rename throws |
| Compact.RenamedMembers | src/commands/compact.ts:72-78 | A file is moved to `archive/daily-<f>` exactly when it is old and its rename does not throw |
| Compact.RecentStays | src/commands/compact.ts:17-20 | A file that is not an old daily log keeps its place and content |
| Compact.SmartListsAll | src/commands/compact.ts:27-47 | The `--smart` prompt shows every old file's content and lists it as `- memory/<f>` |
| Compact.DryRunLines | src/commands/compact.ts:82-87 | The dry run prints the count, each old file indented, then the `--auto` hint |
| Compact.GroupByMonth | src/commands/compact.ts:52-57 | The grouping loop builds the specified map |
| Compact.Combine | src/commands/compact.ts:65-69 | The `combined` loop builds the specified archive text |
| Compact.RenameAll | src/commands/compact.ts:72-78 | The rename loop gives the specified moves and warnings |
| Compact.ArchiveMonths | src/commands/compact.ts:64-80 | The loop over the map writes, renames and reports per month as specified |
| Compact.Prompt | src/commands/compact.ts:28-46 | The appends build the specified `--smart` prompt |
| Compact.CompactCommand | src/commands/compact.ts:6-89 | The command's outcome is the specified one, with 30 days when `--days` is not given |
| Settings.MergeIntoNoHooks | src/lib/settings.ts:27-33 | Settings without hooks get the new hooks, and every other key is kept |
| Settings.MergeIntoHooks | src/lib/settings.ts:35-55 | For each new event, the merge gives the existing entries without a kex-mem hook, in order, followed by the new ones. Events the new hooks do not name are carried over, and other keys are kept |
| Settings.MergeFails | src/lib/settings.ts:37-50 | The merge throws exactly when a new event has truthy existing entries that are not an array, or cannot be filtered |
| Settings.FilteredSpec | src/lib/settings.ts:46-50 | The filter succeeds when its callback does on every entry, and keeps exactly the entries the callback keeps |
| Settings.NoHookListKept | src/lib/settings.ts:47-48 | Entries without a hooks list are kept |
| Settings.GeneratedAllKexMem | src/lib/settings.ts:1-23 | Every generated entry carries a kex-mem hook, so a second merge drops it |
| Settings.MergeIdempotent | src/lib/settings.ts:26-56 | For new hooks whose every entry carries a kex-mem hook, as the generated ones do, a merge that succeeds gives the same result when run a second time |
| Settings.Merge | src/lib/settings.ts:26-56 | The copy-and-assign loop returns the specified merge |
| Init.SpliceAppends | src/commands/init.ts:45-55 | Without a start marker, the result is the content, the separator, the injection and a newline |
| Init.SpliceReplaces | src/commands/init.ts:35-40 | With both markers, the text from the first start marker to the end of the first end marker is replaced by the injection, and the text before and after is kept |
| Init.SpliceTruncates | src/commands/init.ts:41-43 | With a start marker and no end marker, the content is cut at the start marker and then the injection is appended |
| Init.SeparatorBlankLine | src/commands/init.ts:45-54 | The separator adds at most two newlines and leaves non-empty content ending in a blank line |
| Init.SpliceKeepsPrefix | src/commands/init.ts:35-55 | The text before the first start marker stays a prefix |
| Init.SpliceMarkers | src/commands/init.ts:35-55 | The result holds the injection right after the kept prefix, and its first start and end markers are the injection's |
| Init.SpliceIdempotent | src/commands/init.ts:35-55 | Splicing the result again changes nothing when the end marker does not come before the start marker |
| Init.SpliceOneSection | src/commands/init.ts:35-55 | Content without a complete section ends up with exactly one start marker and one end marker |
| Init.StrayEndRepeats | src/commands/init.ts:36-39 | A stray end marker before the start marker makes every run add another copy of the section |
| Init.InitCreates | src/commands/init.ts:10-66 | MEMORY.md gets the template only when absent, and is otherwise kept. The memory directory and CLAUDE.md exist afterwards, and `--hooks` creates the plugin directory |
| Init.InitReports | src/commands/init.ts:17-21 | "Created …/MEMORY.md" is printed exactly when MEMORY.md was absent |
| Init.InitTwice | src/commands/init.ts:6-69 | Running `init` twice leaves the project as one run does, when CLAUDE.md has no end marker before its first start marker |
| Embedder.NewOpenAI | src/lib/embedder.ts:44-47 | The constructor succeeds exactly for a truthy key, and otherwise throws "OpenAI API key is required" |
| Embedder.CreateEmbedder | src/lib/embedder.ts:91-98 | A provider other than openai gets the local embedder. openai uses the configured key when truthy, else a non-empty environment key, and throws the key-required error when it has neither |
| Embedder.DimensionAgrees | src/lib/embedder.ts:91-98 | The created embedder's dimension is the configured provider's, 384 or 1536 |
| Embedder.SortByIndex | src/lib/embedder.ts:86 | Sorting by index gives an ordered permutation of the response items, and it is stable: the items with one index keep their order |
| Embedder.CallApiStable | src/lib/embedder.ts:85-87 | An ok response's vectors are the embeddings of a stable sort of its items by index |
| Embedder.TiesKeepOrder | src/lib/embedder.ts:86 | When every item has the same index, the vectors come back in response order |
| Embedder.TwoTies | src/lib/embedder.ts:86 | Two items that both have index 0 come back in response order |
| Embedder.SortedPermutationIsIdentity | src/lib/embedder.ts:85-87 | When the indices are a permutation of 0..k-1, item i of the sorted list has index i |
| Embedder.CallApi | src/lib/embedder.ts:66-88 | A non-ok response throws "OpenAI API error status: body". An ok one gives one vector per item |
| Embedder.CallApiInOrder | src/lib/embedder.ts:85-87 | With permuted indices, output i is the embedding the response gave index i |
| Embedder.Chunks | src/lib/embedder.ts:56-59 | The slices hold between 1 and 512 inputs each |
| Embedder.ChunksCover | src/lib/embedder.ts:56-62 | The slices concatenate to the inputs, and there are ceil(n/512) of them |
| Embedder.BatchOutcomeOrdered | src/lib/embedder.ts:58-63 | When every call's indices are a permutation, the batch succeeds. The result has one vector per input, and each slice's part of it holds, position by position, the embedding its response gave that index |
| Embedder.EmbedBatch | src/lib/embedder.ts:54-64 | The loop calls the API on the slices in order, stops at the first error, and concatenates the results |
| Embedder.LocalEmbedder.GetPipeline | src/lib/embedder.ts:11-19 | The pipeline is loaded when first needed and never again |
| Embedder.LocalEmbedder.EmbedBatch | src/lib/embedder.ts:27-37 | One vector per input, in input order, with the pipeline loaded once |
| ConfigStore.LoadConfig | src/lib/config-store.ts:25-41 | A missing or unparseable file gives the defaults. Each field that is absent or null is defaulted on its own, and every other value, false included, is kept. The key is present exactly when it is truthy |
| ConfigStore.LoadSaved | src/lib/config-store.ts:25-48 | Loading a saved well-typed config gives it back |
| ConfigStore.DimensionForProvider | src/lib/config-store.ts:50-52 | 1536 for openai, 384 otherwise |
| ConfigCommand.Command | src/commands/config.ts:5-48 | No arguments shows the config. A bad command, provider or key fails with exit code 1 and saves nothing. `set embedding v` sets the provider, its dimension and enabled, and says "Dimension changed" exactly when the dimension changes. `set openai-key v` changes only the key |
| ConfigCommand.SetThenLoad | src/commands/config.ts:24-42 | A config saved by `set` loads back unchanged, a key set to "" excepted (it loads back absent) |
| ConfigCommand.SetEmbeddingTwice | src/commands/config.ts:24-37 | Setting the same provider again saves the same config and reports no dimension change |
| ConfigCommand.Settings.Apply | src/commands/config.ts:21-47 | Assigning the fields in place gives the command's outcome. Only an accepted `set` changes the fields |
| ConfigCommand.Run | src/commands/config.ts:5-48 | A file is written exactly when the command saves, and it holds the new config |

## Left out

- File-system and process effects are given as inputs or returned as values. This covers `readdirSync`, `statSync`, `existsSync`, reads and writes, `mkdirSync`, `console` output and `process.exit`. A command's printed lines, written files and renames are its results. Process exit is `ConfigCommand.Outcome.ExitCode`. Modification times and sizes are parameters.
- `findProjectRoot` (src/lib/paths.ts) is not modelled: it walks the real directory tree. Every command is given its memory directory.
- SQLite is not modelled: opening the database, WAL mode, the schema, transactions and FTS5 tokenising, ranking, snippets and `MATCH` syntax. Full-text matching is the parameter `matches`.
- Db.Store.SearchFts: does not state the order of the hits, because the ranking belongs to SQLite.
- The store interface follows src/commands/index.ts, which calls a newer database API than src/lib/db.ts as shown. It passes an embedding to the upsert, a vector flag to the removal, and uses `getAllIndexedFilepaths`. The model adds a per-path embedding map, and takes the indexed paths to be the meta keys. Vector search and dimension migration are not part of this model.
- Paths.PathJoin: puts one "/" between the parts (none when the first is empty or already ends in "/") and does not normalise "..", "." or repeated separators as `path.join` does. The model's paths are plain relative names, where the two agree.
- Modification times: `stat.mtimeMs` is a floating-point number in the source and an integer in the model. The guard `existing.mtime >= mtime` is modelled on integers, so two times that differ by less than a millisecond are not distinguished.
- Embeddings are opaque values. The local model is the parameter `model`, and each OpenAI HTTP exchange is the parameter `api`. The request body, authentication header and URL are not modelled.
- Embedder.EmbedBatch: the slices sent to the API are a ghost result, because the calls are the effect of the `api` parameter.
- The error lines printed when an embedder cannot be created or a batch fails (src/commands/index.ts:22-24, 51-53, 87-89) are not modelled. Only their effect is: no embedding is stored.
- `parseInt` of the `brief` options `--lines` and `--days` and the `compact` option `--days` is not modelled. The options arrive parsed, as `Option<nat>`, and NaN and negative values are out of scope.
- The compact cutoff `new Date(date + "T00:00:00") < cutoff` is the predicate `isOld` on the file's date: the clock and time zone are not modelled.
- The clock of `log`: the date and time are the input `Log.Now`.
- Compact: the creation of `archive/` and the overwrite of an existing archive file are not modelled. A rename that throws is the parameter `err`.
- `localeCompare` is code-unit order on the names compared. These are `YYYY-MM-DD.md` names, where both orders agree.
- JSON numbers are integers and object key order is not kept (objects are maps). Printing the config as indented JSON is text the model does not produce.
- Settings: "does not mutate its input" holds because values are immutable in the model. The cast of `hooks.hooks` to an object of arrays is taken as given.
- The CLAUDE.md injection text (src/lib/config.ts) is a parameter that starts with the start marker, ends with the end marker and holds each once. The marker strings and the MEMORY.md template are the real constants.
- Init.InitTwice: holds only when CLAUDE.md has no end marker before its first start marker, for the reason given under Init.SpliceIdempotent.
- Init.SpliceIdempotent: needs the end marker not to come before the first start marker, because the code as written duplicates the section otherwise (Init.StrayEndRepeats).
- src/cli.ts, src/commands/search.ts and src/commands/recall.ts only wire and print, and are not part of this model.
- `writeMarkdown`, `readMarkdown` and `saveConfig` are file I/O. A missing file reads as "", and a saved config is its JSON value.
- Where this README and the source's tests disagree, the model follows the source. Two tests do: the init test expects "longmem" marker strings that `config.ts` does not use, and the recall and search tests expect options that the sources do not implement.
