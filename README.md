# DataHub2 hash database, modelled in Dafny

DataHub2 keeps a CSV database that maps each file path to its modification
time, size and md5 hash. A run scans a directory tree and carries forward
every hash whose stat data is unchanged. It can optionally guess hashes from
an index of an older database keyed by (time, size). It hashes whatever is
left and stores the database again. A small browser viewer reads such
databases into a tree of directories. It sums sizes and file counts up the
tree, XOR-combines the hashes of each directory's children, and lists, for
every hash, the paths that carry it.

The project models three parts:

- `common.dfy` (module `Common`): options, results, and the decimal
  rendering and parsing of integers shared by the Python writer (`str`,
  `int`) and the viewer (template strings, `* 1`).
- `data.py` becomes `data.dfy` (module `Data`):
  - the `File` record;
  - the `path2hash` dict as a `Table`, an insertion-ordered sequence of
    keys plus a map, so that dict iteration order is part of the model;
  - the class `Hashes` with its in-place updates and the `index_by_stat`
    loop;
  - `store_hashes` and `load_hashes` at the level of rows of string fields.
  The model writes `sorted` on paths as an insertion sort over the
  code-point order of strings, which is the order Python compares `str`
  values in. `Data.SortAscending` proves that this sort gives a strictly
  ascending permutation of the distinct keys. `Data.AscendingUnique`
  proves that only one such permutation exists, so any correct sort,
  Python's included, gives the same order.
- `workflow.py` becomes `workflow.dfy` (module `Workflow`):
  - `expand_path`;
  - the per-path decision of `fill_known_hashes` and its loop over a
    `Hashes` object;
  - the `compute_hashes` generator as a function that gives the yielded
    pairs and how the run ended, and the loop that writes each yielded
    hash into its record;
  - the module-level script: load, optional stat index, fill, hash, store
    at the normal or the `-tmp.csv` path.
  Four things are parameters rather than state:
  - the file system: a map from expanded path to readable bytes or an
    unreadable entry; an absent path raises `FileNotFoundError`;
  - md5, as a function of the bytes;
  - the moment the user interrupts, given as the number of queued paths
    handled before it;
  - the configuration flags.
- `browse/browse.js` becomes `browse.dfy` (module `Browse`):
  - the pure helpers: `split`/`join` on `/`, `split_filepath`,
    `is_ignored`, `hash2str`, `size2str`, `combine_hash`;
  - the class `Viewer`, holding the viewer's globals (directories by id,
    the next id, the `/size`, `/hash` and `/count` keys by directory, and
    `hash2paths`), with `get_directory`, `index_hash`, `handle` and the
    recursive `traverse_tree`.
  Each method is proved against a specification function:
  - `Descend` for `get_directory`;
  - `HandleFrom` for `handle`;
  - `Summary` and `Indexing` for `traverse_tree`.

Three behaviours of the code worth noting:

- A `KeyboardInterrupt` during hashing falls through to the normal store at
  `DATABASE_PATH`. Only other exceptions store at `DATABASE_PATH-tmp.csv`
  and re-raise.
- With guessing off, a previous hash that starts with `?` is not carried
  forward; the path is queued again.
- `index_by_stat` maps any stat pair seen twice to None, even when the two
  hashes agree.

## Model

| member | source | states |
|---|---|---|
| `Common.ParseDigits` | data.py:52 | parsing succeeds exactly on a non-empty run of decimal digits |
| `Common.ParseIntOfDecimal` | data.py:38-52 | an integer written with `str` reads back with `int` as the same integer |
| `Data.WithEntry` | data.py:52 | assigning a key keeps the dict well formed: keys listed once each, and exactly the map's keys |
| `Data.WithHash` | workflow.py:173 | setting one record's hash keeps the dict well formed |
| `Data.IndexKeys` | data.py:20-31 | the stat index has a key for the (time, size) of every record, records without a hash included, and no other key |
| `Data.IndexUnique` | data.py:26-29 | a stat pair carried by exactly one record maps to that record's hash |
| `Data.IndexCollision` | data.py:26-27 | a stat pair carried by two records maps to None, whether or not their hashes agree |
| `Data.BelowIrreflexive` | data.py:38 | no string sorts before itself |
| `Data.BelowTransitive` | data.py:38 | string order is transitive |
| `Data.BelowTotal` | data.py:38 | of two different strings one sorts first |
| `Data.InsertPermutes` | data.py:38 | inserting into a sorted list adds exactly the one element |
| `Data.InsertAscending` | data.py:38 | inserting a new element keeps the list strictly ascending |
| `Data.SortAscending` | data.py:38 | sorting distinct keys gives a strictly ascending permutation of them |
| `Data.AscendingUnique` | data.py:38 | two strictly ascending lists of the same keys are equal, so every correct sort of distinct paths gives the stored order |
| `Data.SortedPaths` | data.py:38 | `sorted(path2hash)` holds exactly the dict's keys, as many as there are |
| `Data.SortedPathsAscending` | data.py:38 | the sorted keys are strictly ascending and free of repeats |
| `Data.AscendingDistinct` | data.py:38 | a strictly ascending list has no repeats |
| `Data.StoredRowPaths` | data.py:33-40 | the stored rows are the header and then, in sorted path order, one four-field row per path holding that path's record |
| `Data.StoreRowsShape` | data.py:33-40 | the header, then exactly one row per path, in strictly ascending path order, each holding the path, its hash (`''` for None), its time and its size |
| `Data.DecodeRow` | data.py:51-52 | a row without exactly four fields is an error; a decoded row keeps its path, and an empty hash field becomes None |
| `Data.DecodeRows` | data.py:51-52 | when decoding succeeds, every data row decodes, in order |
| `Data.Collect` | data.py:52 | assigning the entries one by one gives a well-formed dict |
| `Data.LoadRows` | data.py:43-57 | a missing file loads as the empty database; a file without a header row does not load |
| `Data.DecodeRowsOutcome` | data.py:51-52 | decoding succeeds exactly when every data row decodes; otherwise it fails with the error of the first row that does not |
| `Data.DecodeErrorSticks` | data.py:51-52 | once a row fails to decode, loading fails with that row's error whatever follows |
| `Data.LoadRejectsFieldCount` | data.py:51 | a data row without exactly four fields makes loading fail |
| `Data.CollectKeys` | data.py:52 | the loaded keys are exactly the paths of the entries |
| `Data.CollectLast` | data.py:52 | a path maps to the record of the last entry naming it |
| `Data.CollectDistinct` | data.py:52 | entries with distinct paths keep their order as the dict's order |
| `Data.CollectKeysRecords` | data.py:52 | collecting one entry per key, keys distinct, gives back exactly those keys in that order and those records |
| `Data.LoadLastRowWins` | data.py:43-57 | after a successful load every data row has four fields and decodes; the keys are exactly the rows' paths, each mapping to the record of the LAST row that names it |
| `Data.DecodedEntries` | data.py:51-52 | the decoded entries follow the data rows one for one |
| `Data.LoadedPaths` | data.py:47-52 | the loaded keys are exactly the paths of the data rows |
| `Data.LoadedLast` | data.py:51-52 | a path maps to the record decoded from the last row naming it |
| `Data.LoadNoEmptyHash` | data.py:52 | no loaded record has the empty string as its hash (`file_hash or None`) |
| `Data.DecodeEncodedRow` | data.py:38-52 | a stored row reads back as the path and record it was written from, if the hash is not `''` and the time text reads back as the time |
| `Data.DecodeEncodedRows` | data.py:38-52 | rows encoded from entries decode back to exactly those entries |
| `Data.LoadStoreRoundTrip` | data.py:33-57 | loading what `store_hashes` wrote gives the same records, keys now in ascending order, as long as no hash is `''` and times read back |
| `Data.Hashes.Create` | data.py:16-18 | a new database is empty |
| `Data.Hashes.Put` | data.py:52 | `path2hash[p] = f`: a new key goes last, an existing one keeps its place |
| `Data.Hashes.SetHash` | workflow.py:173 | only the named record's hash changes |
| `Data.Hashes.IndexByStat` | data.py:20-31 | the loop over `values()` builds exactly the stat index of the records in dict order |
| `Data.StoreHashes` | data.py:33-40 | the rows written are the stored rows of the database: header, then sorted paths |
| `Data.LoadHashes` | data.py:43-57 | loading succeeds exactly when the rows decode, and then holds the loaded table; otherwise it fails with the decoding error |
| `Workflow.ExpandFirstMatch` | workflow.py:29-32 | the first location whose `{name}` starts the path replaces it |
| `Workflow.ExpandNoMatch` | workflow.py:29-34 | a path that starts with no location token comes back unchanged |
| `Workflow.TokensExclusive` | workflow.py:31 | two tokens without `}` in their names that both start a path are the same token |
| `Workflow.ExpandPathKnown` | workflow.py:29-32 | `{name}rest` for a known name expands to that location followed by `rest` |
| `Workflow.ExpandPathUnknown` | workflow.py:29-34 | any path that starts with no known token is left as it is |
| `Workflow.Last32` | workflow.py:102 | `s[-32:]` is the last `min(len(s), 32)` characters of `s` |
| `Workflow.DecideCopied` | workflow.py:86-96 | the previous hash is carried forward exactly when the previous record has a hash and the same time and size, and guessing is on or the hash does not start with `?`; the copy is that hash |
| `Workflow.DecideWithoutGuessing` | workflow.py:86-105 | with guessing off nothing is guessed, and a path is queued exactly when there is no previous record or hash, the time or size differs, or the previous hash starts with `?` |
| `Workflow.DecideWithGuessing` | workflow.py:98-105 | with guessing on, an outdated path gets `?` and the last 32 characters of the indexed hash when there is one and is queued otherwise; an up-to-date path is copied |
| `Workflow.Filled` | workflow.py:83-103 | filling keeps the dict's keys and their order |
| `Workflow.QueueMembers` | workflow.py:83-105 | the outdated list holds exactly the scanned paths whose outcome is Queued |
| `Workflow.QueueInTable` | workflow.py:83-105 | every queued path is a scanned one |
| `Workflow.InScanOrderAppend` | workflow.py:105 | appending the path being visited keeps the list in scan order |
| `Workflow.QueueInOrder` | workflow.py:83-105 | the outdated list follows the scan order, so it holds each path once |
| `Workflow.FilledRecords` | workflow.py:83-103 | after filling, the same paths in the same order, times and sizes unchanged; a queued path keeps its record, every other path holds the hash its outcome names |
| `Workflow.FillStep` | workflow.py:83-105 | visiting the next path settles its record and appends it to the list when its outcome is Queued |
| `Workflow.ProgressRecords` | workflow.py:83-103 | after visiting the first `i` paths those are settled and the others untouched |
| `Workflow.ProgressEnds` | workflow.py:83-103 | visiting every path gives the filled table |
| `Workflow.FillKnownHashes` | workflow.py:80-107 | the loop leaves the filled table in place and returns the queue, even when `previous` is `current` itself |
| `Workflow.FillOne` | workflow.py:84-105 | one turn decides the path against the previous record and stores the hash its outcome names; nothing else changes |
| `Workflow.HashRun` | workflow.py:110-145 | every yielded path is a queued one |
| `Workflow.HashStep` | workflow.py:121-141 | a path the run gets past puts the md5 of its bytes in its record, or changes nothing when the file is missing and that is tolerated; the run goes on from the next path |
| `Workflow.HashRunYields` | workflow.py:121-141 | the run yields, in queue order, every path before its stopping point whose file exists, each with the md5 of that file's bytes |
| `Workflow.HashRunPaths` | workflow.py:121-141 | the yielded paths are exactly the existing ones before the stopping point |
| `Workflow.HashRunHashes` | workflow.py:131-134 | each yielded hash is the md5 of its path's readable file |
| `Workflow.HashRunRaises` | workflow.py:121-141 | the run raises exactly when it reaches a failing path before the interrupt, and then on the first such path |
| `Workflow.ExistingDistinct` | workflow.py:121-141 | the yielded paths are the queued ones whose file exists, and without repeats when the queue has none |
| `Workflow.RunDistinct` | workflow.py:121-141 | every run, however it ends, yields each path at most once |
| `Workflow.HashRunEnd` | workflow.py:121-141 | the run completes only after the last path and is interrupted only where the user interrupts; it raises `FileNotFoundError` only with the flag off and on a missing file, any other error on an unreadable one; with the flag off every path it got past exists |
| `Workflow.ExistingAll` | workflow.py:136-138 | with every file present, the existing paths are all of them |
| `Workflow.WithHashes` | workflow.py:172-173 | writing the yielded hashes keeps the dict's keys and their order |
| `Workflow.WithHashesRecords` | workflow.py:172-173 | each yielded hash lands in its path's record, times and sizes stay, and no other record changes |
| `Workflow.ComputeHashes` | workflow.py:171-173 | the loop ends as the run ends and leaves exactly the run's hashes written into the records |
| `Workflow.HashFile` | workflow.py:121-141 | one turn either stops the run unchanged, or writes the path's hash and leaves the rest of the run to do the remainder |
| `Workflow.Update` | workflow.py:165-173 | the updated database has the scanned keys in the scanned order |
| `Workflow.UpdateRecords` | workflow.py:166-173 | however the run ended, each queued path it got past whose file exists holds the md5 of that file, and every other record is as `fill_known_hashes` left it |
| `Workflow.PartialRecord` | workflow.py:166-173 | the same for one record |
| `Workflow.UpdateCompleted` | workflow.py:165-173 | after a run that completes with missing files not tolerated every record has a hash and its old time and size; a queued one holds the md5 of its file |
| `Workflow.UpdatedRecord` | workflow.py:165-173 | one record after a completed run has a hash and its old time and size, and a queued one holds its file's md5 |
| `Workflow.CompletedRecords` | workflow.py:172-173 | a completed run gives each queued record the md5 of its file and changes no other record |
| `Workflow.CompletedRun` | workflow.py:121-141 | a run that completes with the flag off yields every queued path, in order, with the md5 of its file |
| `Workflow.LoadedDecidable` | workflow.py:94 | deciding against a loaded database never reads the first character of an empty hash |
| `Workflow.Persist` | workflow.py:171-185 | the stored rows are the database's; after a completed or interrupted run they go to `DATABASE_PATH` and nothing is re-raised; after an error they go to `DATABASE_PATH-tmp.csv` and that error is re-raised |
| `Workflow.ScriptLoads` | workflow.py:154-157 | the script fails to load exactly when the database, or the backup table when guessing is on, does not load |
| `Workflow.ScriptEnding` | workflow.py:154-185 | once both tables load, the script re-raises exactly when the run reaches, before any interrupt, a queued path whose file is unreadable or missing while that is not tolerated, re-raising the first such path's error at `-tmp.csv`; an interrupted or completed run stores at `DATABASE_PATH` and raises nothing |
| `Workflow.UpdateEnd` | workflow.py:166-182 | filling and hashing end in an error exactly when the run reaches, before any interrupt, a queued path that fails, and then with the first such path's error |
| `Workflow.ScriptRaises` | workflow.py:171-182 | a run that re-raises stores at `-tmp.csv`, and what it re-raises names a file missing while that is not tolerated, or one it could not read |
| `Workflow.RunScript` | workflow.py:153-185 | running the script gives exactly the ending the script's definition describes |
| `Workflow.UpdateAndStore` | workflow.py:165-185 | filling, hashing and storing in place give the store of the updated database and the way the run ended |
| `Browse.Split` | browse/browse.js:72 | `split('/')` gives at least one piece, none holding a slash |
| `Browse.SplitConcat` | browse/browse.js:72 | splitting at a slash splits both sides independently |
| `Browse.SplitPiece` | browse/browse.js:72 | a string without slashes splits into itself |
| `Browse.JoinSplit` | browse/browse.js:72 | joining the pieces with `/` gives back the string |
| `Browse.SplitJoin` | browse/browse.js:72 | splitting slash-free pieces joined with `/` gives back the pieces |
| `Browse.LastSlash` | browse/browse.js:11 | `lastIndexOf('/')` is -1 exactly when there is no slash, else a slash with none after it |
| `Browse.SplitFilepath` | browse/browse.js:10-20 | throws exactly when there is no slash; otherwise `dir + '/' + name` is the path and the name holds no slash |
| `Browse.SplitFilepathPieces` | browse/browse.js:10-20 | the file name is the last piece of the path and the directory's pieces come before it |
| `Browse.IgnoredByName` | browse/browse.js:95-99 | `Thumbs.db` and `Picasa.ini` are ignored in any directory |
| `Browse.IgnoredInside` | browse/browse.js:95-105 | everything in a `.Trash-*`, `$RECYCLE.BIN` or `System Volume Information` folder directly under a root is ignored |
| `Browse.IgnoredSinglePiece` | browse/browse.js:95-101 | a path of one piece is ignored exactly for its name |
| `Browse.ToNumberOfDecimal` | browse/browse.js:125 | a size or time written as an integer reads back with `* 1` as that integer |
| `Browse.AddCommutes` | browse/browse.js:154 | adding two sizes gives the same number in either order, NaN included |
| `Browse.AddAssociates` | browse/browse.js:154 | adding sizes does not depend on how they are grouped |
| `Browse.AddZero` | browse/browse.js:132-154 | the running size starts at 0, which leaves any size unchanged |
| `Browse.Hash2Str` | browse/browse.js:42-47 | `[unknown]` exactly for the empty hash, else the hash's first six characters (fewer if shorter) |
| `Browse.Size2StrUnits` | browse/browse.js:49-69 | from 1024 up: `K` below 1 MiB, `M` below 1 GiB, `G` from there up, and the number is the size in whole units rounded down |
| `Browse.Size2StrSmall` | browse/browse.js:49-54 | a non-zero size below 1024 shows as its own decimal |
| `Browse.HexDigit` | browse/browse.js:29 | `toString(16)` gives a lower-case hex digit whose value is the number |
| `Browse.HexDigitOfValue` | browse/browse.js:29 | writing back the value of a lower-case hex digit gives the digit |
| `Browse.CombineHash` | browse/browse.js:22-33 | `''` exactly when either hash is `''`; otherwise 32 lower-case hex digits, each the XOR of the inputs' digits |
| `Browse.SameDigits` | browse/browse.js:22-33 | two 32-digit hashes with the same digit values are equal |
| `Browse.CombineCommutes` | browse/browse.js:22-33 | combining is commutative |
| `Browse.CombineAssociates` | browse/browse.js:22-33 | combining is associative, so a directory's hash does not depend on how its children are grouped |
| `Browse.CombineZero` | browse/browse.js:22-33 | `'0'*32` is the identity on 32-digit hashes |
| `Browse.CombineCancels` | browse/browse.js:22-33 | combining a 32-digit lower-case hex hash with the same known hash twice gives it back, as it does for every hash the Python side writes; an upper-case or shorter hash comes back lower-cased or padded with zeros instead |
| `Browse.Combine` | browse/browse.js:22-33 | the digit loop computes the combined hash |
| `Browse.AddChild` | browse/browse.js:81-88 | a new empty directory gets the next id and is entered under its parent; everything there before stays |
| `Browse.Descend` | browse/browse.js:71-93 | walking the parts keeps the tree consistent, keeps every directory, and returns a directory of the tree |
| `Browse.DescendExtends` | browse/browse.js:71-93 | `get_directory` only adds: existing directories keep their entries and names, new ones get fresh ids |
| `Browse.Find` | browse/browse.js:79-80 | a lookup that creates nothing lands on a directory with an id no smaller than where it started |
| `Browse.FindExtends` | browse/browse.js:71-93 | a lookup keeps its answer in any extension of the tree |
| `Browse.DescendFinds` | browse/browse.js:71-93 | the directory returned is afterwards found by the same parts |
| `Browse.DescendExisting` | browse/browse.js:76-80 | where every part already names a directory, nothing is created and the existing one is returned |
| `Browse.DescendTwice` | browse/browse.js:71-93 | a repeated `get_directory` of the same path creates nothing and returns the same directory |
| `Browse.Place` | browse/browse.js:125 | `dir[filename] = entry` puts the entry under the name and leaves every other directory as it was |
| `Browse.FindPlace` | browse/browse.js:123-125 | placing a file in a directory leaves unchanged every lookup that ends at that directory or at one with a smaller id |
| `Browse.Indexed` | browse/browse.js:35-40 | `index_hash` appends the path to its hash's list and leaves the other lists alone |
| `Browse.IndexAllConcat` | browse/browse.js:35-40 | indexing two batches in turn is indexing them together |
| `Browse.HandleRow` | browse/browse.js:112-127 | a row throws exactly when it is filed and its path has no slash; a filed row lists its path under its unmarked hash, any other row leaves the index alone |
| `Browse.HandleFrom` | browse/browse.js:110-129 | handling rows keeps the tree consistent |
| `Browse.HandleRowPlaces` | browse/browse.js:115-127 | a filed row puts `[hash without '?', mtime * 1, size * 1]` under its name in the directory its path names, and lists the path last under that hash |
| `Browse.HandleLists` | browse/browse.js:110-129 | under every hash, `handle` lists the paths of the filed rows carrying it, in row order, up to the row where it threw; it throws only on a filed row without a slash |
| `Browse.Summary` | browse/browse.js:131-166 | a directory's hash is `''` or 32 hex digits, and its count is not negative |
| `Browse.SummaryOf` | browse/browse.js:137-158 | the running hash is `''` or 32 hex digits, and the running count is not negative |
| `Browse.ChildTotals` | browse/browse.js:141-152 | a child's count is not negative |
| `Browse.SummaryUnknown` | browse/browse.js:137-158 | the combined hash is `''` exactly when some child's hash is |
| `Browse.ChildrenTotals` | browse/browse.js:137-152 | the list of children's totals follows the given names one for one |
| `Browse.SummaryOfAccumulates` | browse/browse.js:137-158 | the running totals are the children's totals added in the order the names were added |
| `Browse.AccumulateSwap` | browse/browse.js:154-157 | two children's totals can be added in either order |
| `Browse.AccumulateRemove` | browse/browse.js:137-158 | any one child's totals can be added last |
| `Browse.AccumulatePermutation` | browse/browse.js:137-158 | adding the same children's totals in any other order gives the same totals |
| `Browse.ChildrenPermutation` | browse/browse.js:137-152 | listing the children in another order lists their totals in that order |
| `Browse.OrderedChildren` | browse/browse.js:137 | any ordering of a directory's names names only its children |
| `Browse.SummaryAnyOrder` | browse/browse.js:137-162 | the `/size`, `/hash` and `/count` stored for a directory do not depend on the order in which `Object.keys` lists its children |
| `Browse.SingleChild` | browse/browse.js:160-165 | a directory with one child whose hash is `''` or 32 lower-case hex digits, as every hash the Python side writes is, has exactly that child's totals, which is why it is not listed under its hash; an upper-case or shorter hash would come out lower-cased or padded |
| `Browse.IndexingPaths` | browse/browse.js:131-166 | traversal never lists the empty path; from the root only descendants are listed |
| `Browse.IndexingOfPaths` | browse/browse.js:137-158 | the children's traversals never list the empty path |
| `Browse.Viewer.constructor` | browse/browse.js:1-8 | an empty root, no ids handed out, nothing listed |
| `Browse.Viewer.GetDirectory` | browse/browse.js:71-93 | the loop changes the tree and returns the directory as the walk over the parts does, touching nothing else |
| `Browse.Viewer.NewDirectory` | browse/browse.js:81-88 | creating a directory hands out the next id and adds the child, touching nothing else |
| `Browse.Viewer.IndexHash` | browse/browse.js:35-40 | the path goes last in its hash's list, and nothing else changes |
| `Browse.Viewer.Handle` | browse/browse.js:110-129 | the loop over the rows from row 1 leaves the tree and index as handling those rows does, and reports the row where it threw |
| `Browse.Viewer.HandleOne` | browse/browse.js:112-127 | one row either throws and changes nothing, or changes the tree and index as handling that row does |
| `Browse.Reach` | browse/browse.js:137-152 | the directories a traversal from `id` visits are `id` and directories of the tree with larger ids |
| `Browse.SummarisedUnion` | browse/browse.js:137-157 | summaries stored for one set of directories and then for another, each time touching nothing else, are stored for both |
| `Browse.SummarisedOwn` | browse/browse.js:160 | storing a directory's own totals after its children's covers every directory it reaches |
| `Browse.Viewer.TraverseTree` | browse/browse.js:131-166 | every directory reached from `id`, `id` included, holds its summary in `/size`, `/hash` and `/count`; every other directory's totals are as before; the index lists exactly the traversal's (hash, path) pairs in order; no directory changes |
| `Browse.Viewer.VisitChild` | browse/browse.js:141-157 | one child gives its totals (a subdirectory after traversing it, a file its own size and hash and a count of one); a subdirectory and every directory it reaches hold their summaries, and no other totals change |

## Left out

- `collect_files` (workflow.py:51-76) walks the file system with `os.walk` and `os.stat`. The model takes the scanned table as an input instead.
- `compute_file_hash.md5` is a parameter: a deterministic function of the file's bytes. Chunked reading is not modelled.
- Modification times are compared only for equality. The float-to-text conversion in the CSV file is a pair of parameters, `showTime` and `parseTime`.
- The csv module's quoting is not modelled. A table file is a sequence of rows of string fields.
- Python's `int` also accepts surrounding blanks, `_` between digits, and non-ASCII Unicode decimal digits (such as Arabic-Indic digits). Sizes are always written with `str(int)`, so no stated property depends on this. The model reads only an optional sign and ASCII digits, and treats anything else as the error `int` raises.
- tqdm progress bars, `time_me`, `print` output, `get_file_size` (used only for progress) and `compute_hashes_dry` are display only.
- The moment of a `KeyboardInterrupt` is a parameter: it falls between two queued paths, never inside one.
- Workflow.Decide requires that, with guessing off, an up-to-date previous record's hash is not `''`. The source would raise `IndexError` at workflow.py:94 on such a hash. `Workflow.LoadedDecidable` shows a loaded database never holds one.
- Workflow.WithHashes passes over a yielded path that has no record, where the source would raise `KeyError`. Every yielded path is a queued, hence scanned, one (`Workflow.HashRun`, `Workflow.QueueInTable`), so this never happens.
- The viewer's `generate`, `toggle` and `init` are not modelled: they build HTML and DOM elements and fetch `config.json` and the tables. `init` stops at the first `handle` that throws; the model reports that row and stops as well.
- The root directory is registered in the model's id table under -1. The source's `id2dir` literal uses the string key `'ROOT_ID'` instead.
- `Object.keys` lists integer-like names first, in numeric order, and the others in insertion order. The model visits names in insertion order. `Browse.SummaryAnyOrder` proves that the stored totals are the same for every order, so only the order of the `hash2paths` lists that `traverse_tree` builds depends on it.
- Names such as `__proto__` or `toString`, which `in` finds on every JavaScript object, are not modelled.
- Browse.ToNumber reads only an optional sign and decimal digits; every other string is NaN. JavaScript's `* 1` also trims surrounding white space (so `" "` is 0), reads `0x` hexadecimal, `Infinity`, decimal fractions and exponents, and rounds to double precision. Python writes modification times as floats such as `1589300000.0`, which the model reads as NaN. The modelled viewer code never reads a modification time, so this changes no stated property.
- Strings are sequences of Unicode scalar values. JavaScript strings are UTF-16 code units, and Python paths may carry surrogate escapes. The splitting, prefix and slicing in the model only look for ASCII characters (`/`, `?`, the location tokens), so their results are the same on either representation.
- Browse.Descend returns None where a part names a file rather than a directory. The source goes on walking into the file's `[hash, mtime, size]` array, and `handle` then writes into it; that is not modelled.
