/** The change detector and hashing pipeline (workflow.py): which scanned
    files keep, guess or recompute their hash, the hashing run over the
    queue, and where the database is stored afterwards. */
module Workflow {
  import opened Common
  import opened Data

  // ------------------------------------------------------------ locations

  /** `LOCATIONS`, in the order the dict literal lists (and iterates) them. */
  const Locations: seq<(string, string)> := [
    ("test", "/home/grzesiu/Videos"),
    ("ggrz_drive1", "/media/grzesiu/USB-HDD"),
    ("ggrz_drive2", "/media/grzesiu/TOSHIBA EXT"),
    ("ggrz_drive3", "/media/grzesiu/ggrz_drive3"),
    ("recent", "/home/grzesiu/Desktop/temp/recent")
  ]

  /** The placeholder `{name}` that stands for a location in a path. */
  function Token(name: string): string {
    "{" + name + "}"
  }

  /** `expand_path` over a list of (name, location) pairs: the first pair
      whose token starts the path replaces that token. */
  function ExpandWith(locations: seq<(string, string)>, path: string): string {
    if locations == [] then path
    else if StartsWith(path, Token(locations[0].0)) then locations[0].1 + path[|locations[0].0| + 2..]
    else ExpandWith(locations[1..], path)
  }

  function ExpandPath(path: string): string {
    ExpandWith(Locations, path)
  }

  /** The first matching location wins. */
  lemma {:induction false} ExpandFirstMatch(locations: seq<(string, string)>, path: string, k: nat)
    requires k < |locations| && StartsWith(path, Token(locations[k].0))
    requires forall j :: 0 <= j < k ==> !StartsWith(path, Token(locations[j].0))
    ensures ExpandWith(locations, path) == locations[k].1 + path[|locations[k].0| + 2..]
  {
    if k > 0 {
      ExpandFirstMatch(locations[1..], path, k - 1);
    }
  }

  /** A path that starts with no token comes back unchanged. */
  lemma {:induction false} ExpandNoMatch(locations: seq<(string, string)>, path: string)
    requires forall j :: 0 <= j < |locations| ==> !StartsWith(path, Token(locations[j].0))
    ensures ExpandWith(locations, path) == path
  {
    if locations != [] {
      ExpandNoMatch(locations[1..], path);
    }
  }

  /** Two tokens that both start the same path name the same location,
      as long as no name holds a closing brace. */
  lemma TokensExclusive(a: string, b: string, path: string)
    requires '}' !in a && '}' !in b
    requires StartsWith(path, Token(a)) && StartsWith(path, Token(b))
    ensures a == b
  {
    var n := Min(|a|, |b|);
    forall k | 0 <= k < n
      ensures a[k] == b[k]
    {
      assert Token(a)[k + 1] == path[k + 1] == Token(b)[k + 1];
    }
    assert Token(a)[n + 1] == path[n + 1] == Token(b)[n + 1];
  }

  /** `{name}rest` for a known `name` expands to that location followed by
      `rest`. */
  lemma ExpandPathKnown(path: string, i: nat)
    requires i < |Locations| && StartsWith(path, Token(Locations[i].0))
    ensures ExpandPath(path) == Locations[i].1 + path[|Locations[i].0| + 2..]
  {
    forall j | 0 <= j < i
      ensures !StartsWith(path, Token(Locations[j].0))
    {
      if StartsWith(path, Token(Locations[j].0)) {
        assert '}' !in Locations[j].0 && '}' !in Locations[i].0;
        TokensExclusive(Locations[j].0, Locations[i].0, path);
      }
    }
    ExpandFirstMatch(Locations, path, i);
  }

  /** Any other path is left as it is. */
  lemma ExpandPathUnknown(path: string)
    requires forall i :: 0 <= i < |Locations| ==> !StartsWith(path, Token(Locations[i].0))
    ensures ExpandPath(path) == path
  {
    ExpandNoMatch(Locations, path);
  }

  // ---------------------------------------------------------------- config

  /** The settings of class `Config`. */
  datatype Config = Config(
    scanPath: string,
    databasePath: string,
    collectFiles: bool,
    guessHashFromStat: bool,
    ignoreFileNotFound: bool)

  /** The backup table the stat index is built from when guessing is on. */
  const StatIndexPath: string := "csv_backups/ggrz_drive3.csv-2020-05-12_renames"

  // ------------------------------------------------------- known hashes

  /** What `fill_known_hashes` does with one scanned path. */
  datatype Outcome =
    | Copied(hash: string)  // the previous hash is carried forward
    | Guessed(hash: string) // '?' and a hash taken from the stat index
    | Queued                // the file has to be hashed

  function Lookup(records: map<Path, File>, p: Path): Option<File> {
    if p in records then Some(records[p]) else None
  }

  /** `is_outdated`: no previous record, no previous hash, or different stat. */
  predicate IsOutdated(previous: Option<File>, current: File) {
    || previous.None?
    || previous.value.fileHash.None?
    || previous.value.modificationTime != current.modificationTime
    || previous.value.size != current.size
  }

  /** `s[-32:]`: the last 32 characters, or all of a shorter string. */
  function Last32(s: string): (r: string)
    ensures |r| == Min(|s|, 32)
    ensures s == s[..|s| - |r|] + r
  {
    if |s| <= 32 then s else s[|s| - 32..]
  }

  /** `STAT_INDEX.get(stat)`: None for a missing key and for a collided one. */
  function IndexedHash(statIndex: StatIndex, f: File): Option<string> {
    if StatOf(f) in statIndex then statIndex[StatOf(f)] else None
  }

  /** A previous hash is looked at by its first character only when it is
      carried over with guessing off; an empty one would raise there. */
  predicate Decidable(current: File, previous: Option<File>, guessFromStat: bool) {
    !guessFromStat && !IsOutdated(previous, current) ==> previous.value.fileHash.value != ""
  }

  function Decide(current: File, previous: Option<File>, guessFromStat: bool, statIndex: StatIndex): Outcome
    requires Decidable(current, previous, guessFromStat)
  {
    if !IsOutdated(previous, current) && (guessFromStat || previous.value.fileHash.value[0] != '?') then
      Copied(previous.value.fileHash.value)
    else if guessFromStat && IndexedHash(statIndex, current).Some? then
      Guessed("?" + Last32(IndexedHash(statIndex, current).value))
    else
      Queued
  }

  /** The previous hash is carried forward exactly when the previous record
      has a hash and the same stat, and guessing is on or that hash is not a
      guess. */
  lemma DecideCopied(current: File, previous: Option<File>, guessFromStat: bool, statIndex: StatIndex)
    requires Decidable(current, previous, guessFromStat)
    ensures Decide(current, previous, guessFromStat, statIndex).Copied? <==>
      && previous.Some? && previous.value.fileHash.Some?
      && previous.value.modificationTime == current.modificationTime
      && previous.value.size == current.size
      && (guessFromStat || previous.value.fileHash.value[0] != '?')
    ensures Decide(current, previous, guessFromStat, statIndex).Copied? ==>
      Some(Decide(current, previous, guessFromStat, statIndex).hash) == previous.value.fileHash
  {
  }

  /** With guessing off, a path is queued exactly when it has no previous
      record, no previous hash, a different time or size, or a previous hash
      that is itself a guess; nothing is ever guessed. */
  lemma DecideWithoutGuessing(current: File, previous: Option<File>, statIndex: StatIndex)
    requires Decidable(current, previous, false)
    ensures !Decide(current, previous, false, statIndex).Guessed?
    ensures Decide(current, previous, false, statIndex).Queued? <==>
      || previous.None?
      || previous.value.fileHash.None?
      || previous.value.modificationTime != current.modificationTime
      || previous.value.size != current.size
      || previous.value.fileHash.value[0] == '?'
  {
  }

  /** With guessing on, an outdated path takes '?' and the last 32
      characters of the hash its stat pair maps to, and is queued only when
      that pair maps to no hash. */
  lemma DecideWithGuessing(current: File, previous: Option<File>, statIndex: StatIndex)
    ensures IsOutdated(previous, current) ==>
      match IndexedHash(statIndex, current)
      case Some(g) => Decide(current, previous, true, statIndex) == Guessed("?" + Last32(g))
      case None => Decide(current, previous, true, statIndex) == Queued
    ensures !IsOutdated(previous, current) ==> Decide(current, previous, true, statIndex).Copied?
  {
  }

  /** The record after the decision: only the hash can change. */
  function Settle(f: File, o: Outcome): File {
    match o
    case Copied(h) => f.(fileHash := Some(h))
    case Guessed(h) => f.(fileHash := Some(h))
    case Queued => f
  }

  /** Every scanned record can be decided against the previous records. */
  ghost predicate FillDecidable(t: Table, previous: map<Path, File>, guessFromStat: bool) {
    forall p :: p in t.records ==> Decidable(t.records[p], Lookup(previous, p), guessFromStat)
  }

  function OutcomeOf(t: Table, previous: map<Path, File>, guessFromStat: bool, statIndex: StatIndex, p: Path): Outcome
    requires p in t.records && FillDecidable(t, previous, guessFromStat)
  {
    Decide(t.records[p], Lookup(previous, p), guessFromStat, statIndex)
  }

  /** The scanned table once every record has been decided. */
  function Filled(t: Table, previous: map<Path, File>, guessFromStat: bool, statIndex: StatIndex): (r: Table)
    requires FillDecidable(t, previous, guessFromStat)
    ensures r.order == t.order && r.records.Keys == t.records.Keys
  {
    Table(t.order, map p | p in t.records :: Settle(t.records[p], OutcomeOf(t, previous, guessFromStat, statIndex, p)))
  }

  /** The paths of `t.order[..n]` whose outcome is Queued, in that order. */
  function Queue(t: Table, previous: map<Path, File>, guessFromStat: bool, statIndex: StatIndex, n: nat): seq<Path>
    requires WellFormed(t) && FillDecidable(t, previous, guessFromStat) && n <= |t.order|
  {
    if n == 0 then []
    else
      var p := t.order[n - 1];
      Queue(t, previous, guessFromStat, statIndex, n - 1) +
        (if OutcomeOf(t, previous, guessFromStat, statIndex, p).Queued? then [p] else [])
  }

  /** The outdated list holds exactly the scanned paths whose outcome is
      Queued. */
  lemma {:induction false} QueueMembers(t: Table, previous: map<Path, File>, guessFromStat: bool, statIndex: StatIndex, n: nat)
    requires WellFormed(t) && FillDecidable(t, previous, guessFromStat) && n <= |t.order|
    ensures forall p :: p in Queue(t, previous, guessFromStat, statIndex, n) <==>
      p in t.order[..n] && OutcomeOf(t, previous, guessFromStat, statIndex, p).Queued?
  {
    if n > 0 {
      QueueMembers(t, previous, guessFromStat, statIndex, n - 1);
      assert t.order[..n] == t.order[..n - 1] + [t.order[n - 1]];
    }
  }

  /** Every queued path is a scanned one. */
  lemma QueueInTable(t: Table, previous: map<Path, File>, guessFromStat: bool, statIndex: StatIndex)
    requires WellFormed(t) && FillDecidable(t, previous, guessFromStat)
    ensures forall p :: p in Queue(t, previous, guessFromStat, statIndex, |t.order|) ==> p in t.records
  {
    QueueMembers(t, previous, guessFromStat, statIndex, |t.order|);
    assert t.order[..|t.order|] == t.order;
  }

  /** Whenever `q` lists one path before another, `order` does too. */
  ghost predicate InScanOrder(q: seq<Path>, order: seq<Path>) {
    forall i, j, a, b {:trigger q[i], q[j], order[a], order[b]} ::
      0 <= i < j < |q| && 0 <= a < |order| && 0 <= b < |order| && order[a] == q[i] && order[b] == q[j] ==> a < b
  }

  /** Appending the path at `m` to a list in scan order of paths before
      `m` keeps it in scan order. */
  lemma InScanOrderAppend(q0: seq<Path>, order: seq<Path>, m: nat, add: bool)
    requires Distinct(order) && m < |order| && InScanOrder(q0, order)
    requires forall p :: p in q0 ==> p in order[..m]
    ensures InScanOrder(q0 + (if add then [order[m]] else []), order)
  {
    var q := q0 + (if add then [order[m]] else []);
    forall i, j, a, b | 0 <= i < j < |q| && 0 <= a < |order| && 0 <= b < |order| &&
                        order[a] == q[i] && order[b] == q[j]
      ensures a < b
    {
      if j == |q0| {
        assert q[i] == q0[i] && q[j] == order[m];
        assert q0[i] in order[..m];
        var a' :| 0 <= a' < m && order[a'] == q[i];
        assert a == a' && b == m;
      } else {
        assert q[i] == q0[i] && q[j] == q0[j];
      }
    }
  }

  /** The outdated list follows the order in which the scan visits the
      paths, and so holds each path once. */
  lemma {:induction false} QueueInOrder(t: Table, previous: map<Path, File>, guessFromStat: bool, statIndex: StatIndex, n: nat)
    requires WellFormed(t) && FillDecidable(t, previous, guessFromStat) && n <= |t.order|
    ensures InScanOrder(Queue(t, previous, guessFromStat, statIndex, n), t.order)
    ensures Distinct(Queue(t, previous, guessFromStat, statIndex, n))
  {
    var q := Queue(t, previous, guessFromStat, statIndex, n);
    if n > 0 {
      QueueInOrder(t, previous, guessFromStat, statIndex, n - 1);
      QueueMembers(t, previous, guessFromStat, statIndex, n - 1);
      FillStep(t, previous, guessFromStat, statIndex, n - 1);
      InScanOrderAppend(Queue(t, previous, guessFromStat, statIndex, n - 1), t.order, n - 1,
        OutcomeOf(t, previous, guessFromStat, statIndex, t.order[n - 1]).Queued?);
    }
    QueueMembers(t, previous, guessFromStat, statIndex, n);
    forall i, j | 0 <= i < j < |q|
      ensures q[i] != q[j]
    {
      assert q[i] in t.order[..n];
      var a :| 0 <= a < n && t.order[a] == q[i];
      assert t.order[a] == q[i];
    }
  }

  /** After filling, the table has the same paths in the same order, every
      record keeps its time and size, a queued path keeps its record as it
      was, and every other path holds the hash its outcome names. */
  lemma FilledRecords(t: Table, previous: map<Path, File>, guessFromStat: bool, statIndex: StatIndex)
    requires WellFormed(t) && FillDecidable(t, previous, guessFromStat)
    ensures var r := Filled(t, previous, guessFromStat, statIndex);
      && WellFormed(r) && r.order == t.order && r.records.Keys == t.records.Keys
      && (forall p :: p in t.records ==> StatOf(r.records[p]) == StatOf(t.records[p]))
      && (forall p :: p in t.records ==>
            match OutcomeOf(t, previous, guessFromStat, statIndex, p)
            case Queued => r.records[p] == t.records[p]
            case Copied(h) => r.records[p].fileHash == Some(h)
            case Guessed(h) => r.records[p].fileHash == Some(h))
  {
  }

  /** The records once the first `i` paths of the scan have been decided. */
  function Progress(t: Table, previous: map<Path, File>, guessFromStat: bool, statIndex: StatIndex, i: nat): map<Path, File>
    requires WellFormed(t) && FillDecidable(t, previous, guessFromStat) && i <= |t.order|
  {
    if i == 0 then t.records
    else
      var p := t.order[i - 1];
      Progress(t, previous, guessFromStat, statIndex, i - 1)[p := Settle(t.records[p], OutcomeOf(t, previous, guessFromStat, statIndex, p))]
  }

  /** Deciding the next path of the scan settles its record and queues it
      when its outcome says so. */
  lemma FillStep(t: Table, previous: map<Path, File>, guessFromStat: bool, statIndex: StatIndex, i: nat)
    requires WellFormed(t) && FillDecidable(t, previous, guessFromStat) && i < |t.order|
    ensures var p := t.order[i];
      var o := OutcomeOf(t, previous, guessFromStat, statIndex, p);
      && Progress(t, previous, guessFromStat, statIndex, i + 1) ==
           Progress(t, previous, guessFromStat, statIndex, i)[p := Settle(t.records[p], o)]
      && Queue(t, previous, guessFromStat, statIndex, i + 1) ==
           Queue(t, previous, guessFromStat, statIndex, i) + (if o.Queued? then [p] else [])
  {
  }

  /** The first `i` paths are decided, the others untouched. */
  lemma {:induction false} ProgressRecords(t: Table, previous: map<Path, File>, guessFromStat: bool, statIndex: StatIndex, i: nat)
    requires WellFormed(t) && FillDecidable(t, previous, guessFromStat) && i <= |t.order|
    ensures Progress(t, previous, guessFromStat, statIndex, i).Keys == t.records.Keys
    ensures forall k :: 0 <= k < |t.order| ==>
      Progress(t, previous, guessFromStat, statIndex, i)[t.order[k]] ==
        (if k < i then Settle(t.records[t.order[k]], OutcomeOf(t, previous, guessFromStat, statIndex, t.order[k]))
         else t.records[t.order[k]])
  {
    if i > 0 {
      ProgressRecords(t, previous, guessFromStat, statIndex, i - 1);
    }
  }

  lemma ProgressEnds(t: Table, previous: map<Path, File>, guessFromStat: bool, statIndex: StatIndex)
    requires WellFormed(t) && FillDecidable(t, previous, guessFromStat)
    ensures Progress(t, previous, guessFromStat, statIndex, |t.order|) == Filled(t, previous, guessFromStat, statIndex).records
  {
    ProgressRecords(t, previous, guessFromStat, statIndex, |t.order|);
    var r := Progress(t, previous, guessFromStat, statIndex, |t.order|);
    forall p | p in t.records
      ensures r[p] == Settle(t.records[p], OutcomeOf(t, previous, guessFromStat, statIndex, p))
    {
      var k :| 0 <= k < |t.order| && t.order[k] == p;
    }
  }

  /** `fill_known_hashes`. The previous records are read as the loop goes,
      so `previous` may be `current` itself (when no scan is made): each
      record is looked up before it is overwritten. */
  method FillKnownHashes(current: Hashes, previous: Hashes, guessFromStat: bool, statIndex: StatIndex) returns (outdated: seq<Path>)
    requires current.Valid()
    requires FillDecidable(current.Value(), previous.path2hash, guessFromStat)
    modifies current
    ensures current.Valid()
    ensures current.Value() == Filled(old(current.Value()), old(previous.path2hash), guessFromStat, statIndex)
    ensures outdated == Queue(old(current.Value()), old(previous.path2hash), guessFromStat, statIndex, |current.order|)
  {
    ghost var before := current.Value();
    ghost var known := previous.path2hash;
    var order := current.order;
    outdated := [];
    for i := 0 to |order|
      invariant current.Valid() && current.order == order
      invariant current.path2hash == Progress(before, known, guessFromStat, statIndex, i)
      invariant previous == current || previous.path2hash == known
      invariant outdated == Queue(before, known, guessFromStat, statIndex, i)
    {
      var filePath := order[i];
      assert current.path2hash[filePath] == before.records[filePath] by {
        ProgressRecords(before, known, guessFromStat, statIndex, i);
      }
      assert Lookup(previous.path2hash, filePath) == Lookup(known, filePath) by {
        if previous == current {
          assert known == before.records;
        }
      }
      FillStep(before, known, guessFromStat, statIndex, i);
      var outcome := FillOne(current, previous, guessFromStat, statIndex, filePath);
      if outcome.Queued? {
        outdated := outdated + [filePath];
      }
    }
    ProgressEnds(before, known, guessFromStat, statIndex);
  }

  /** One turn of `fill_known_hashes`' loop: decide the path and store the
      hash its outcome names. */
  method FillOne(current: Hashes, previous: Hashes, guessFromStat: bool, statIndex: StatIndex, filePath: Path)
    returns (outcome: Outcome)
    requires current.Valid() && filePath in current.path2hash
    requires Decidable(current.path2hash[filePath], Lookup(previous.path2hash, filePath), guessFromStat)
    modifies current
    ensures outcome == Decide(old(current.path2hash[filePath]), Lookup(old(previous.path2hash), filePath), guessFromStat, statIndex)
    ensures current.Valid() && current.order == old(current.order)
    ensures current.path2hash == old(current.path2hash)[filePath := Settle(old(current.path2hash[filePath]), outcome)]
  {
    var currentFile := current.path2hash[filePath];
    var previousFile := Lookup(previous.path2hash, filePath);
    outcome := Decide(currentFile, previousFile, guessFromStat, statIndex);
    if !outcome.Queued? {
      current.SetHash(filePath, Some(outcome.hash));
    }
  }

  // ------------------------------------------------------------ hashing

  /** What opening a path finds: a readable file, or one that raises an
      error other than FileNotFoundError (a directory, no permission). A
      path missing from the file system raises FileNotFoundError. */
  datatype Content = Readable(bytes: seq<bv8>) | Unreadable

  type FileSystem = map<string, Content>

  /** The exception that ends a hashing run. */
  datatype Failure = NotFound(path: Path) | ReadFailed(path: Path)

  datatype End = Completed | Interrupted | Raised(failure: Failure)

  /** A hashing run: the `(path, hash)` pairs `compute_hashes` yields, how
      the run ended, and the index of the first queued path it did not get
      past. */
  datatype Run = Run(pairs: seq<(Path, string)>, end: End, stop: nat)

  /** `compute_hashes` from the `i`-th queued path on. `md5` stands for
      `compute_file_hash.md5` on the file's bytes; `interruptAt` is the
      number of queued paths handled before the user interrupts, if they
      do. */
  function HashRun(files: seq<Path>, i: nat, ignoreFileNotFound: bool, fs: FileSystem,
                   md5: seq<bv8> -> string, interruptAt: Option<nat>): (r: Run)
    requires i <= |files|
    ensures i <= r.stop <= |files|
    ensures forall k :: 0 <= k < |r.pairs| ==> r.pairs[k].0 in files
    decreases |files| - i
  {
    if interruptAt == Some(i) then Run([], Interrupted, i)
    else if i == |files| then Run([], Completed, i)
    else
      var full := ExpandPath(files[i]);
      if full !in fs then
        if ignoreFileNotFound then HashRun(files, i + 1, ignoreFileNotFound, fs, md5, interruptAt)
        else Run([], Raised(NotFound(files[i])), i)
      else match fs[full]
        case Unreadable => Run([], Raised(ReadFailed(files[i])), i)
        case Readable(bytes) =>
          var rest := HashRun(files, i + 1, ignoreFileNotFound, fs, md5, interruptAt);
          Run([(files[i], md5(bytes))] + rest.pairs, rest.end, rest.stop)
  }

  /** A path the run gets past: a readable file has its hash land in its
      record, a missing one (when tolerated) changes nothing, and the run
      goes on from the next path. */
  lemma HashStep(t: Table, files: seq<Path>, i: nat, ignoreFileNotFound: bool, fs: FileSystem,
                 md5: seq<bv8> -> string, interruptAt: Option<nat>)
    requires WellFormed(t) && (forall p :: p in files ==> p in t.records)
    requires i < |files| && interruptAt != Some(i)
    requires ExpandPath(files[i]) in fs ==> fs[ExpandPath(files[i])].Readable?
    requires ExpandPath(files[i]) !in fs ==> ignoreFileNotFound
    ensures var run := HashRun(files, i, ignoreFileNotFound, fs, md5, interruptAt);
      var rest := HashRun(files, i + 1, ignoreFileNotFound, fs, md5, interruptAt);
      var full := ExpandPath(files[i]);
      && run.end == rest.end
      && WithHashes(t, run.pairs) ==
         WithHashes(if full in fs then WithHash(t, files[i], Some(md5(fs[full].bytes))) else t, rest.pairs)
  {
    var full := ExpandPath(files[i]);
    if full in fs {
      var rest := HashRun(files, i + 1, ignoreFileNotFound, fs, md5, interruptAt).pairs;
      var pairs := HashRun(files, i, ignoreFileNotFound, fs, md5, interruptAt).pairs;
      assert pairs[0] == (files[i], md5(fs[full].bytes)) && pairs[1..] == rest;
    }
  }

  function PairedPaths(pairs: seq<(Path, string)>): (s: seq<Path>)
    ensures |s| == |pairs|
    ensures forall k :: 0 <= k < |pairs| ==> s[k] == pairs[k].0
  {
    seq(|pairs|, k requires 0 <= k < |pairs| => pairs[k].0)
  }

  /** The paths of `files` whose file exists, in order. */
  function Existing(files: seq<Path>, fs: FileSystem): seq<Path> {
    if files == [] then []
    else (if ExpandPath(files[0]) in fs then [files[0]] else []) + Existing(files[1..], fs)
  }

  /** The run yields, in queue order, every path before its stopping point
      whose file exists, each with the md5 of that file's bytes. */
  lemma HashRunYields(files: seq<Path>, i: nat, ignoreFileNotFound: bool, fs: FileSystem,
                      md5: seq<bv8> -> string, interruptAt: Option<nat>)
    requires i <= |files|
    ensures var r := HashRun(files, i, ignoreFileNotFound, fs, md5, interruptAt);
      && i <= r.stop <= |files|
      && PairedPaths(r.pairs) == Existing(files[i..r.stop], fs)
      && (forall k :: 0 <= k < |r.pairs| ==>
            ExpandPath(r.pairs[k].0) in fs && fs[ExpandPath(r.pairs[k].0)].Readable? &&
            r.pairs[k].1 == md5(fs[ExpandPath(r.pairs[k].0)].bytes))
  {
    HashRunPaths(files, i, ignoreFileNotFound, fs, md5, interruptAt);
    HashRunHashes(files, i, ignoreFileNotFound, fs, md5, interruptAt);
  }

  /** The yielded paths are the existing ones before the stopping point. */
  lemma {:induction false} HashRunPaths(files: seq<Path>, i: nat, ignoreFileNotFound: bool, fs: FileSystem,
                                        md5: seq<bv8> -> string, interruptAt: Option<nat>)
    requires i <= |files|
    ensures var r := HashRun(files, i, ignoreFileNotFound, fs, md5, interruptAt);
      && i <= r.stop <= |files|
      && PairedPaths(r.pairs) == Existing(files[i..r.stop], fs)
    decreases |files| - i
  {
    if interruptAt != Some(i) && i < |files| {
      var full := ExpandPath(files[i]);
      if (full !in fs && ignoreFileNotFound) || (full in fs && fs[full].Readable?) {
        HashRunPaths(files, i + 1, ignoreFileNotFound, fs, md5, interruptAt);
        PathsStep(files, i, ignoreFileNotFound, fs, md5, interruptAt);
      }
    }
  }

  /** A path the run gets past adds itself to the yielded paths exactly
      when its file exists. */
  lemma PathsStep(files: seq<Path>, i: nat, ignoreFileNotFound: bool, fs: FileSystem,
                  md5: seq<bv8> -> string, interruptAt: Option<nat>)
    requires i < |files| && interruptAt != Some(i)
    requires var full := ExpandPath(files[i]);
      (full !in fs && ignoreFileNotFound) || (full in fs && fs[full].Readable?)
    requires var rest := HashRun(files, i + 1, ignoreFileNotFound, fs, md5, interruptAt);
      PairedPaths(rest.pairs) == Existing(files[i + 1..rest.stop], fs)
    ensures var r := HashRun(files, i, ignoreFileNotFound, fs, md5, interruptAt);
      PairedPaths(r.pairs) == Existing(files[i..r.stop], fs)
  {
    var full := ExpandPath(files[i]);
    var r := HashRun(files, i, ignoreFileNotFound, fs, md5, interruptAt);
    var rest := HashRun(files, i + 1, ignoreFileNotFound, fs, md5, interruptAt);
    assert r.stop == rest.stop;
    assert files[i..r.stop][0] == files[i] && files[i..r.stop][1..] == files[i + 1..r.stop];
    if full in fs {
      assert r.pairs == [(files[i], md5(fs[full].bytes))] + rest.pairs;
      assert PairedPaths(r.pairs) == [files[i]] + PairedPaths(rest.pairs);
    } else {
      assert r == rest;
    }
  }

  /** Each pair holds a path whose file is readable and the md5 of that
      file's bytes. */
  ghost predicate Hashed(pairs: seq<(Path, string)>, fs: FileSystem, md5: seq<bv8> -> string) {
    forall k :: 0 <= k < |pairs| ==>
      ExpandPath(pairs[k].0) in fs && fs[ExpandPath(pairs[k].0)].Readable? &&
      pairs[k].1 == md5(fs[ExpandPath(pairs[k].0)].bytes)
  }

  /** Each yielded hash is the md5 of its path's readable file. */
  lemma {:induction false} HashRunHashes(files: seq<Path>, i: nat, ignoreFileNotFound: bool, fs: FileSystem,
                                         md5: seq<bv8> -> string, interruptAt: Option<nat>)
    requires i <= |files|
    ensures Hashed(HashRun(files, i, ignoreFileNotFound, fs, md5, interruptAt).pairs, fs, md5)
    decreases |files| - i
  {
    if interruptAt != Some(i) && i < |files| {
      var full := ExpandPath(files[i]);
      if full !in fs && ignoreFileNotFound {
        HashRunHashes(files, i + 1, ignoreFileNotFound, fs, md5, interruptAt);
      } else if full in fs && fs[full].Readable? {
        var r := HashRun(files, i, ignoreFileNotFound, fs, md5, interruptAt);
        var rest := HashRun(files, i + 1, ignoreFileNotFound, fs, md5, interruptAt);
        HashRunHashes(files, i + 1, ignoreFileNotFound, fs, md5, interruptAt);
        assert r.pairs == [(files[i], md5(fs[full].bytes))] + rest.pairs;
      }
    }
  }



  /** How the run ends: it completes only after the last queued path, is
      interrupted only where the user interrupts, and raises on the path it
      stopped at: FileNotFoundError only with the flag off, any other error
      regardless. With the flag off, every path it got past exists. */
  lemma {:induction false} HashRunEnd(files: seq<Path>, i: nat, ignoreFileNotFound: bool, fs: FileSystem,
                                      md5: seq<bv8> -> string, interruptAt: Option<nat>)
    requires i <= |files|
    ensures var r := HashRun(files, i, ignoreFileNotFound, fs, md5, interruptAt);
      && i <= r.stop <= |files|
      && (r.end == Completed ==> r.stop == |files|)
      && (r.end == Interrupted ==> interruptAt == Some(r.stop))
      && (interruptAt.Some? && i <= interruptAt.value ==> r.stop <= interruptAt.value)
      && (r.end.Raised? ==> r.stop < |files| && r.end.failure.path == files[r.stop])
      && (r.end.Raised? && r.end.failure.NotFound? ==> !ignoreFileNotFound && ExpandPath(files[r.stop]) !in fs)
      && (r.end.Raised? && r.end.failure.ReadFailed? ==>
            ExpandPath(files[r.stop]) in fs && fs[ExpandPath(files[r.stop])] == Unreadable)
      && (!ignoreFileNotFound ==> forall k :: i <= k < r.stop ==> ExpandPath(files[k]) in fs)
    decreases |files| - i
  {
    if interruptAt != Some(i) && i < |files| {
      HashRunEnd(files, i + 1, ignoreFileNotFound, fs, md5, interruptAt);
    }
  }

  /** A queued path `compute_hashes` cannot get past: its file is missing
      while missing files are not tolerated, or it cannot be read. */
  predicate Fails(p: Path, ignoreFileNotFound: bool, fs: FileSystem) {
    var full := ExpandPath(p);
    (full !in fs && !ignoreFileNotFound) || (full in fs && fs[full].Unreadable?)
  }

  /** A run started at `i` reaches the `k`-th queued path unless the user
      interrupts at or before it. */
  predicate Reaches(interruptAt: Option<nat>, i: nat, k: nat) {
    interruptAt.None? || interruptAt.value < i || k < interruptAt.value
  }

  /** The run raises exactly when it reaches a path that fails, and then it
      raises on the first such path. */
  lemma {:induction false} HashRunRaises(files: seq<Path>, i: nat, ignoreFileNotFound: bool, fs: FileSystem,
                                         md5: seq<bv8> -> string, interruptAt: Option<nat>)
    requires i <= |files|
    ensures var r := HashRun(files, i, ignoreFileNotFound, fs, md5, interruptAt);
      && (r.end.Raised? <==>
            exists k :: i <= k < |files| && Fails(files[k], ignoreFileNotFound, fs) && Reaches(interruptAt, i, k))
      && (r.end.Raised? ==>
            r.stop < |files| && r.end.failure.path == files[r.stop] && Fails(files[r.stop], ignoreFileNotFound, fs) &&
            forall j :: i <= j < r.stop ==> !Fails(files[j], ignoreFileNotFound, fs))
    decreases |files| - i
  {
    if interruptAt != Some(i) && i < |files| {
      if Fails(files[i], ignoreFileNotFound, fs) {
        assert Reaches(interruptAt, i, i);
      } else {
        HashRunRaises(files, i + 1, ignoreFileNotFound, fs, md5, interruptAt);
        if exists k :: i <= k < |files| && Fails(files[k], ignoreFileNotFound, fs) && Reaches(interruptAt, i, k) {
          var k :| i <= k < |files| && Fails(files[k], ignoreFileNotFound, fs) && Reaches(interruptAt, i, k);
          assert i + 1 <= k && Reaches(interruptAt, i + 1, k);
        }
        if exists k :: i + 1 <= k < |files| && Fails(files[k], ignoreFileNotFound, fs) && Reaches(interruptAt, i + 1, k) {
          var k :| i + 1 <= k < |files| && Fails(files[k], ignoreFileNotFound, fs) && Reaches(interruptAt, i + 1, k);
          assert Reaches(interruptAt, i, k);
        }
      }
    }
  }

  /** The existing paths are the listed ones whose file exists, and a list
      without repeats gives one without repeats. */
  lemma {:induction false} ExistingDistinct(files: seq<Path>, fs: FileSystem)
    ensures forall p :: p in Existing(files, fs) <==> p in files && ExpandPath(p) in fs
    ensures Distinct(files) ==> Distinct(Existing(files, fs))
  {
    if files != [] {
      var rest := Existing(files[1..], fs);
      ExistingDistinct(files[1..], fs);
      assert files == [files[0]] + files[1..];
      if Distinct(files) {
        assert Distinct(files[1..]) by {
          forall i, j | 0 <= i < j < |files[1..]|
            ensures files[1..][i] != files[1..][j]
          {
            assert files[1..][i] == files[i + 1] && files[1..][j] == files[j + 1];
          }
        }
        assert files[0] !in rest;
      }
    }
  }

  /** Every run yields each path at most once: the queue holds no repeats. */
  lemma RunDistinct(files: seq<Path>, i: nat, ignoreFileNotFound: bool, fs: FileSystem,
                    md5: seq<bv8> -> string, interruptAt: Option<nat>)
    requires i <= |files| && Distinct(files)
    ensures Distinct(PairedPaths(HashRun(files, i, ignoreFileNotFound, fs, md5, interruptAt).pairs))
  {
    var r := HashRun(files, i, ignoreFileNotFound, fs, md5, interruptAt);
    HashRunPaths(files, i, ignoreFileNotFound, fs, md5, interruptAt);
    var part := files[i..r.stop];
    assert Distinct(part) by {
      forall a, b | 0 <= a < b < |part|
        ensures part[a] != part[b]
      {
        assert part[a] == files[i + a] && part[b] == files[i + b];
      }
    }
    ExistingDistinct(part, fs);
  }

  /** With the flag off, the existing paths before the stopping point are
      all of them. */
  lemma {:induction false} ExistingAll(files: seq<Path>, fs: FileSystem)
    requires forall k :: 0 <= k < |files| ==> ExpandPath(files[k]) in fs
    ensures Existing(files, fs) == files
  {
    if files != [] {
      ExistingAll(files[1..], fs);
    }
  }

  /** `path2hash[p].file_hash = h` for each yielded pair, in order. Every
      yielded path is a queued, hence scanned, one; a pair naming no record
      (where the source would raise `KeyError`) is passed over. */
  function WithHashes(t: Table, pairs: seq<(Path, string)>): (r: Table)
    requires WellFormed(t)
    ensures WellFormed(r) && r.order == t.order && r.records.Keys == t.records.Keys
    decreases |pairs|
  {
    if pairs == [] then t
    else if pairs[0].0 !in t.records then WithHashes(t, pairs[1..])
    else WithHashes(WithHash(t, pairs[0].0, Some(pairs[0].1)), pairs[1..])
  }

  /** Each yielded hash lands in its path's record; the record's time and
      size, and every record no yield names, stay as they were. */
  lemma {:induction false} WithHashesRecords(t: Table, pairs: seq<(Path, string)>)
    requires WellFormed(t)
    requires forall k :: 0 <= k < |pairs| ==> pairs[k].0 in t.records
    requires Distinct(PairedPaths(pairs))
    ensures var r := WithHashes(t, pairs);
      && (forall k :: 0 <= k < |pairs| ==> r.records[pairs[k].0] == t.records[pairs[k].0].(fileHash := Some(pairs[k].1)))
      && (forall p :: p in t.records && p !in PairedPaths(pairs) ==> r.records[p] == t.records[p])
    decreases |pairs|
  {
    if pairs != [] {
      var t' := WithHash(t, pairs[0].0, Some(pairs[0].1));
      var rest := pairs[1..];
      assert PairedPaths(pairs) == [pairs[0].0] + PairedPaths(rest);
      WithHashesRecords(t', rest);
      var r := WithHashes(t, pairs);
      forall k | 0 <= k < |pairs|
        ensures r.records[pairs[k].0] == t.records[pairs[k].0].(fileHash := Some(pairs[k].1))
      {
        if k > 0 {
          assert rest[k - 1] == pairs[k];
          assert PairedPaths(pairs)[k] != PairedPaths(pairs)[0];
        } else {
          assert pairs[0].0 !in PairedPaths(rest);
        }
      }
    }
  }

  /** The hashing loop: `compute_hashes` and, for each pair it yields, the
      assignment of the hash to the path's record. */
  method ComputeHashes(current: Hashes, files: seq<Path>, ignoreFileNotFound: bool, fs: FileSystem,
                       md5: seq<bv8> -> string, interruptAt: Option<nat>) returns (end: End)
    requires current.Valid()
    requires forall p :: p in files ==> p in current.path2hash
    modifies current
    ensures current.Valid()
    ensures var r := HashRun(files, 0, ignoreFileNotFound, fs, md5, interruptAt);
      && end == r.end
      && current.Value() == WithHashes(old(current.Value()), r.pairs)
  {
    ghost var before := current.Value();
    ghost var run := HashRun(files, 0, ignoreFileNotFound, fs, md5, interruptAt);
    ghost var target := WithHashes(before, run.pairs);
    ghost var rest := run;
    var i := 0;
    while i < |files|
      invariant 0 <= i <= |files| && rest == HashRun(files, i, ignoreFileNotFound, fs, md5, interruptAt)
      invariant current.Valid() && current.path2hash.Keys == before.records.Keys
      invariant rest.end == run.end && WithHashes(current.Value(), rest.pairs) == target
      decreases |files| - i
    {
      var stop := HashFile(current, files, i, ignoreFileNotFound, fs, md5, interruptAt);
      if stop.Some? {
        return stop.value;
      }
      i := i + 1;
      rest := HashRun(files, i, ignoreFileNotFound, fs, md5, interruptAt);
    }
    if interruptAt == Some(i) {
      return Interrupted;
    }
    return Completed;
  }
  /** One turn of `compute_hashes`' loop: stop when interrupted before the
      path or when it cannot be hashed, otherwise store its hash (a missing
      file, when tolerated, is passed over). */
  method HashFile(current: Hashes, files: seq<Path>, i: nat, ignoreFileNotFound: bool, fs: FileSystem,
                  md5: seq<bv8> -> string, interruptAt: Option<nat>) returns (stop: Option<End>)
    requires current.Valid() && i < |files| && forall p :: p in files ==> p in current.path2hash
    modifies current
    ensures current.Valid() && current.path2hash.Keys == old(current.path2hash.Keys)
    ensures var run := HashRun(files, i, ignoreFileNotFound, fs, md5, interruptAt);
      stop.Some? ==> stop.value == run.end && run.pairs == [] && current.Value() == old(current.Value())
    ensures var run := HashRun(files, i, ignoreFileNotFound, fs, md5, interruptAt);
      var rest := HashRun(files, i + 1, ignoreFileNotFound, fs, md5, interruptAt);
      stop.None? ==> run.end == rest.end && WithHashes(current.Value(), rest.pairs) == WithHashes(old(current.Value()), run.pairs)
  {
    if interruptAt == Some(i) {
      return Some(Interrupted);
    }
    var fullFilePath := ExpandPath(files[i]);
    if fullFilePath !in fs {
      if !ignoreFileNotFound {
        return Some(Raised(NotFound(files[i])));
      }
      HashStep(current.Value(), files, i, ignoreFileNotFound, fs, md5, interruptAt);
      return None;
    }
    match fs[fullFilePath] {
      case Unreadable =>
        return Some(Raised(ReadFailed(files[i])));
      case Readable(bytes) =>
        var fileHash := md5(bytes);
        HashStep(current.Value(), files, i, ignoreFileNotFound, fs, md5, interruptAt);
        current.SetHash(files[i], Some(fileHash));
        return None;
    }
  }


  // ------------------------------------------------------------ the script

  /** The scanned table after `fill_known_hashes` and the hashing loop,
      with the way the loop ended. */
  function Update(current: Table, previous: map<Path, File>, guessFromStat: bool, statIndex: StatIndex,
                  ignoreFileNotFound: bool, fs: FileSystem, md5: seq<bv8> -> string, interruptAt: Option<nat>): (r: (Table, End))
    requires WellFormed(current) && FillDecidable(current, previous, guessFromStat)
    ensures WellFormed(r.0) && r.0.order == current.order && r.0.records.Keys == current.records.Keys
  {
    var filled := Filled(current, previous, guessFromStat, statIndex);
    var queue := Queue(current, previous, guessFromStat, statIndex, |current.order|);
    QueueInTable(current, previous, guessFromStat, statIndex);
    var run := HashRun(queue, 0, ignoreFileNotFound, fs, md5, interruptAt);
    (WithHashes(filled, run.pairs), run.end)
  }

  /** A run that is neither interrupted nor stopped by an error, with
      missing files not tolerated, leaves every record with a hash: the
      queued ones hold the md5 of their file, the others what their outcome
      names; no record changes its time or size. */
  lemma UpdateCompleted(current: Table, previous: map<Path, File>, guessFromStat: bool, statIndex: StatIndex,
                        fs: FileSystem, md5: seq<bv8> -> string)
    requires WellFormed(current) && FillDecidable(current, previous, guessFromStat)
    requires Update(current, previous, guessFromStat, statIndex, false, fs, md5, None).1 == Completed
    ensures var r := Update(current, previous, guessFromStat, statIndex, false, fs, md5, None).0;
      && (forall p :: p in r.records ==> r.records[p].fileHash.Some? && StatOf(r.records[p]) == StatOf(current.records[p]))
      && (forall p :: p in r.records && OutcomeOf(current, previous, guessFromStat, statIndex, p).Queued? ==>
            ExpandPath(p) in fs && fs[ExpandPath(p)].Readable? && r.records[p].fileHash == Some(md5(fs[ExpandPath(p)].bytes)))
  {
    var filled := Filled(current, previous, guessFromStat, statIndex);
    var queue := Queue(current, previous, guessFromStat, statIndex, |current.order|);
    QueueInTable(current, previous, guessFromStat, statIndex);
    var run := HashRun(queue, 0, false, fs, md5, None);
    assert Update(current, previous, guessFromStat, statIndex, false, fs, md5, None) == (WithHashes(filled, run.pairs), run.end);
    var r := WithHashes(filled, run.pairs);
    forall p | p in r.records
      ensures r.records[p].fileHash.Some? && StatOf(r.records[p]) == StatOf(current.records[p])
      ensures OutcomeOf(current, previous, guessFromStat, statIndex, p).Queued? ==>
        ExpandPath(p) in fs && fs[ExpandPath(p)].Readable? && r.records[p].fileHash == Some(md5(fs[ExpandPath(p)].bytes))
    {
      UpdatedRecord(current, previous, guessFromStat, statIndex, filled, queue, fs, md5, p);
    }
  }

  /** One record after a completed run: it has a hash and its old time and
      size, and a queued one holds the md5 of its file. */
  lemma UpdatedRecord(current: Table, previous: map<Path, File>, guessFromStat: bool, statIndex: StatIndex,
                      filled: Table, queue: seq<Path>, fs: FileSystem, md5: seq<bv8> -> string, p: Path)
    requires WellFormed(current) && FillDecidable(current, previous, guessFromStat) && p in current.records
    requires filled == Filled(current, previous, guessFromStat, statIndex)
    requires queue == Queue(current, previous, guessFromStat, statIndex, |current.order|)
    requires forall k :: 0 <= k < |queue| ==> queue[k] in current.records
    requires HashRun(queue, 0, false, fs, md5, None).end == Completed
    ensures WellFormed(filled)
    ensures var r := WithHashes(filled, HashRun(queue, 0, false, fs, md5, None).pairs);
      && r.records[p].fileHash.Some? && StatOf(r.records[p]) == StatOf(current.records[p])
      && (OutcomeOf(current, previous, guessFromStat, statIndex, p).Queued? ==>
            ExpandPath(p) in fs && fs[ExpandPath(p)].Readable? && r.records[p].fileHash == Some(md5(fs[ExpandPath(p)].bytes)))
  {
    var n := |current.order|;
    var o := OutcomeOf(current, previous, guessFromStat, statIndex, p);
    assert StatOf(filled.records[p]) == StatOf(current.records[p])
      && (!o.Queued? ==> filled.records[p].fileHash.Some?) by {
      FilledRecords(current, previous, guessFromStat, statIndex);
    }
    assert Distinct(queue) by {
      QueueInOrder(current, previous, guessFromStat, statIndex, n);
    }
    assert p in queue <==> o.Queued? by {
      QueueMembers(current, previous, guessFromStat, statIndex, n);
      assert current.order[..n] == current.order;
    }
    CompletedRecords(filled, queue, fs, md5);
  }

  /** Applying a completed run to a table: a queued path's record gets the
      md5 of its file, every other record stays as it was. */
  lemma CompletedRecords(t: Table, files: seq<Path>, fs: FileSystem, md5: seq<bv8> -> string)
    requires WellFormed(t) && Distinct(files) && forall k :: 0 <= k < |files| ==> files[k] in t.records
    requires HashRun(files, 0, false, fs, md5, None).end == Completed
    ensures var r := WithHashes(t, HashRun(files, 0, false, fs, md5, None).pairs);
      && (forall p :: p in files ==>
            ExpandPath(p) in fs && fs[ExpandPath(p)].Readable? &&
            r.records[p] == t.records[p].(fileHash := Some(md5(fs[ExpandPath(p)].bytes))))
      && (forall p :: p in t.records && p !in files ==> r.records[p] == t.records[p])
  {
    var run := HashRun(files, 0, false, fs, md5, None);
    CompletedRun(files, fs, md5);
    WithHashesRecords(t, run.pairs);
    forall p | p in files
      ensures ExpandPath(p) in fs && fs[ExpandPath(p)].Readable?
      ensures WithHashes(t, run.pairs).records[p] == t.records[p].(fileHash := Some(md5(fs[ExpandPath(p)].bytes)))
    {
      var k :| 0 <= k < |files| && files[k] == p;
      assert run.pairs[k].0 == p;
    }
  }

  /** A run that completes with missing files not tolerated yields every
      queued path, in order, with the md5 of its file. */
  lemma CompletedRun(files: seq<Path>, fs: FileSystem, md5: seq<bv8> -> string)
    requires HashRun(files, 0, false, fs, md5, None).end == Completed
    ensures var r := HashRun(files, 0, false, fs, md5, None);
      && PairedPaths(r.pairs) == files
      && forall k :: 0 <= k < |files| ==>
           ExpandPath(files[k]) in fs && fs[ExpandPath(files[k])].Readable? &&
           r.pairs[k].1 == md5(fs[ExpandPath(files[k])].bytes)
  {
    var r := HashRun(files, 0, false, fs, md5, None);
    HashRunEnd(files, 0, false, fs, md5, None);
    HashRunYields(files, 0, false, fs, md5, None);
    assert files[0..r.stop] == files;
    ExistingAll(files, fs);
    forall k | 0 <= k < |files|
      ensures ExpandPath(files[k]) in fs && fs[ExpandPath(files[k])].Readable? &&
              r.pairs[k].1 == md5(fs[ExpandPath(files[k])].bytes)
    {
      assert PairedPaths(r.pairs)[k] == r.pairs[k].0;
    }
  }

  /** However the run ended (completed, interrupted, or stopped by an
      error), a record the run got to whose file exists holds the md5 of
      that file, and every other record is as `fill_known_hashes` left it. */
  lemma UpdateRecords(current: Table, previous: map<Path, File>, guessFromStat: bool, statIndex: StatIndex,
                      ignoreFileNotFound: bool, fs: FileSystem, md5: seq<bv8> -> string, interruptAt: Option<nat>)
    requires WellFormed(current) && FillDecidable(current, previous, guessFromStat)
    ensures var r := Update(current, previous, guessFromStat, statIndex, ignoreFileNotFound, fs, md5, interruptAt).0;
      var filled := Filled(current, previous, guessFromStat, statIndex);
      var queue := Queue(current, previous, guessFromStat, statIndex, |current.order|);
      var run := HashRun(queue, 0, ignoreFileNotFound, fs, md5, interruptAt);
      forall p :: p in r.records ==>
        if p in queue[..run.stop] && ExpandPath(p) in fs then
          fs[ExpandPath(p)].Readable? && r.records[p] == filled.records[p].(fileHash := Some(md5(fs[ExpandPath(p)].bytes)))
        else
          r.records[p] == filled.records[p]
  {
    var filled := Filled(current, previous, guessFromStat, statIndex);
    var queue := Queue(current, previous, guessFromStat, statIndex, |current.order|);
    QueueInTable(current, previous, guessFromStat, statIndex);
    var run := HashRun(queue, 0, ignoreFileNotFound, fs, md5, interruptAt);
    assert Update(current, previous, guessFromStat, statIndex, ignoreFileNotFound, fs, md5, interruptAt).0
      == WithHashes(filled, run.pairs);
    forall p | p in current.records
      ensures if p in queue[..run.stop] && ExpandPath(p) in fs then
          fs[ExpandPath(p)].Readable? &&
          WithHashes(filled, run.pairs).records[p] == filled.records[p].(fileHash := Some(md5(fs[ExpandPath(p)].bytes)))
        else
          WithHashes(filled, run.pairs).records[p] == filled.records[p]
    {
      PartialRecord(current, previous, guessFromStat, statIndex, filled, queue, ignoreFileNotFound, fs, md5, interruptAt, p);
    }
  }

  /** One record after any run: see `UpdateRecords`. */
  lemma PartialRecord(current: Table, previous: map<Path, File>, guessFromStat: bool, statIndex: StatIndex,
                      filled: Table, queue: seq<Path>, ignoreFileNotFound: bool, fs: FileSystem,
                      md5: seq<bv8> -> string, interruptAt: Option<nat>, p: Path)
    requires WellFormed(current) && FillDecidable(current, previous, guessFromStat) && p in current.records
    requires filled == Filled(current, previous, guessFromStat, statIndex)
    requires queue == Queue(current, previous, guessFromStat, statIndex, |current.order|)
    requires forall k :: 0 <= k < |queue| ==> queue[k] in current.records
    ensures WellFormed(filled)
    ensures var run := HashRun(queue, 0, ignoreFileNotFound, fs, md5, interruptAt);
      var r := WithHashes(filled, run.pairs);
      if p in queue[..run.stop] && ExpandPath(p) in fs then
        fs[ExpandPath(p)].Readable? && r.records[p] == filled.records[p].(fileHash := Some(md5(fs[ExpandPath(p)].bytes)))
      else
        r.records[p] == filled.records[p]
  {
    FilledRecords(current, previous, guessFromStat, statIndex);
    var run := HashRun(queue, 0, ignoreFileNotFound, fs, md5, interruptAt);
    assert Distinct(queue) by {
      QueueInOrder(current, previous, guessFromStat, statIndex, |current.order|);
    }
    RunDistinct(queue, 0, ignoreFileNotFound, fs, md5, interruptAt);
    HashRunYields(queue, 0, ignoreFileNotFound, fs, md5, interruptAt);
    ExistingDistinct(queue[0..run.stop], fs);
    assert queue[0..run.stop] == queue[..run.stop];
    WithHashesRecords(filled, run.pairs);
    if p in queue[..run.stop] && ExpandPath(p) in fs {
      assert p in PairedPaths(run.pairs);
      var k :| 0 <= k < |run.pairs| && PairedPaths(run.pairs)[k] == p;
      assert run.pairs[k].0 == p;
    }
  }

  /** What is stored: where, the rows written, and the error re-raised. */
  datatype Stored = Stored(path: string, rows: seq<Row>)

  datatype Ending =
    | LoadFailed(error: LoadError)                      // a table did not load; nothing is stored
    | Finished(stored: Stored, raised: Option<Failure>) // stored, then `raised` re-raised if present

  /** The rows of the table file at `path`; None when there is none. */
  function FileAt(tables: map<string, seq<Row>>, path: string): Option<seq<Row>> {
    if path in tables then Some(tables[path]) else None
  }

  /** A loaded table never holds an empty hash, so deciding against it never
      reads the first character of an empty string. */
  lemma LoadedDecidable(file: Option<seq<Row>>, parseTime: string -> Option<Mtime>, current: Table, guessFromStat: bool)
    requires LoadRows(file, parseTime).Ok?
    ensures FillDecidable(current, LoadRows(file, parseTime).value.records, guessFromStat)
  {
    if file.Some? {
      LoadNoEmptyHash(file.value, parseTime);
    }
  }

  /** The store at the end of the script: the normal path after a run that
      completed or was interrupted, the `-tmp.csv` path (and the error
      re-raised) after any other error. */
  function Persist(databasePath: string, t: Table, end: End, showTime: Mtime -> string): (e: Ending)
    requires WellFormed(t)
    ensures e.Finished? && e.stored.rows == StoreRows(t, showTime)
    ensures e.raised == (if end.Raised? then Some(end.failure) else None)
    ensures e.stored.path == (if end.Raised? then databasePath + "-tmp.csv" else databasePath)
    ensures e.raised.None? <==> e.stored.path == databasePath
  {
    if end.Raised? then Finished(Stored(databasePath + "-tmp.csv", StoreRows(t, showTime)), Some(end.failure))
    else Finished(Stored(databasePath, StoreRows(t, showTime)), None)
  }

  /** The module-level script: load the database, build the stat index
      when guessing, take the scanned table (or the loaded one), fill known
      hashes, hash the rest, and store. `tables` holds the table files by
      path and `scanned` stands for what `collect_files` returns. */
  function Script(cfg: Config, tables: map<string, seq<Row>>, scanned: Table, fs: FileSystem,
                  md5: seq<bv8> -> string, interruptAt: Option<nat>,
                  showTime: Mtime -> string, parseTime: string -> Option<Mtime>): Ending
    requires WellFormed(scanned)
  {
    match LoadRows(FileAt(tables, cfg.databasePath), parseTime)
    case Err(e) => LoadFailed(e)
    case Ok(previous) =>
      var backup := if cfg.guessHashFromStat then LoadRows(FileAt(tables, StatIndexPath), parseTime) else Ok(Empty);
      match backup
      case Err(e) => LoadFailed(e)
      case Ok(older) =>
        var current := if cfg.collectFiles then scanned else previous;
        LoadedDecidable(FileAt(tables, cfg.databasePath), parseTime, current, cfg.guessHashFromStat);
        var statIndex := IndexOf(Records(older));
        var (t, end) := Update(current, previous.records, cfg.guessHashFromStat, statIndex,
                               cfg.ignoreFileNotFound, fs, md5, interruptAt);
        Persist(cfg.databasePath, t, end, showTime)
  }

  /** A run of the script that re-raises stores at the `-tmp.csv` path, and
      what it re-raises names a file it could not hash: one missing while
      missing files are not tolerated, or one it could not read. */
  lemma ScriptRaises(cfg: Config, tables: map<string, seq<Row>>, scanned: Table, fs: FileSystem,
                     md5: seq<bv8> -> string, interruptAt: Option<nat>,
                     showTime: Mtime -> string, parseTime: string -> Option<Mtime>)
    requires WellFormed(scanned)
    requires var e := Script(cfg, tables, scanned, fs, md5, interruptAt, showTime, parseTime);
      e.Finished? && e.raised.Some?
    ensures var e := Script(cfg, tables, scanned, fs, md5, interruptAt, showTime, parseTime);
      && e.stored.path == cfg.databasePath + "-tmp.csv"
      && (e.raised.value.NotFound? ==> !cfg.ignoreFileNotFound && ExpandPath(e.raised.value.path) !in fs)
      && (e.raised.value.ReadFailed? ==>
            ExpandPath(e.raised.value.path) in fs && fs[ExpandPath(e.raised.value.path)] == Unreadable)
  {
    var previous := LoadRows(FileAt(tables, cfg.databasePath), parseTime).value;
    var older := (if cfg.guessHashFromStat then LoadRows(FileAt(tables, StatIndexPath), parseTime) else Ok(Empty)).value;
    var current := if cfg.collectFiles then scanned else previous;
    LoadedDecidable(FileAt(tables, cfg.databasePath), parseTime, current, cfg.guessHashFromStat);
    var statIndex := IndexOf(Records(older));
    var queue := Queue(current, previous.records, cfg.guessHashFromStat, statIndex, |current.order|);
    HashRunEnd(queue, 0, cfg.ignoreFileNotFound, fs, md5, interruptAt);
  }

  /** The script fails to load exactly when a table it reads does not load:
      the database, or the backup table when guessing is on. */
  lemma ScriptLoads(cfg: Config, tables: map<string, seq<Row>>, scanned: Table, fs: FileSystem,
                    md5: seq<bv8> -> string, interruptAt: Option<nat>,
                    showTime: Mtime -> string, parseTime: string -> Option<Mtime>)
    requires WellFormed(scanned)
    ensures var e := Script(cfg, tables, scanned, fs, md5, interruptAt, showTime, parseTime);
      var loaded := LoadRows(FileAt(tables, cfg.databasePath), parseTime);
      var backup := if cfg.guessHashFromStat then LoadRows(FileAt(tables, StatIndexPath), parseTime) else Ok(Empty);
      e.LoadFailed? <==> loaded.Err? || backup.Err?
  {
  }

  /** Once both tables load, the script stores the database, and it
      re-raises exactly when the hashing run reaches a queued path that
      fails before the user interrupts; it then re-raises the first such
      path's error and stores at the `-tmp.csv` path. A run that completes
      or is interrupted stores at the normal path and raises nothing. */
  lemma ScriptEnding(cfg: Config, tables: map<string, seq<Row>>, scanned: Table, fs: FileSystem,
                     md5: seq<bv8> -> string, interruptAt: Option<nat>,
                     showTime: Mtime -> string, parseTime: string -> Option<Mtime>)
    requires WellFormed(scanned)
    ensures var e := Script(cfg, tables, scanned, fs, md5, interruptAt, showTime, parseTime);
      var loaded := LoadRows(FileAt(tables, cfg.databasePath), parseTime);
      var backup := if cfg.guessHashFromStat then LoadRows(FileAt(tables, StatIndexPath), parseTime) else Ok(Empty);
      (loaded.Ok? && backup.Ok? ==>
            var current := if cfg.collectFiles then scanned else loaded.value;
            && FillDecidable(current, loaded.value.records, cfg.guessHashFromStat)
            && var queue := Queue(current, loaded.value.records, cfg.guessHashFromStat,
                                  IndexOf(Records(backup.value)), |current.order|);
               && e.Finished?
               && (e.raised.Some? <==>
                     exists k :: 0 <= k < |queue| && Fails(queue[k], cfg.ignoreFileNotFound, fs) && Reaches(interruptAt, 0, k))
               && (e.raised.Some? ==>
                     exists k :: 0 <= k < |queue| && queue[k] == e.raised.value.path &&
                       Fails(queue[k], cfg.ignoreFileNotFound, fs) &&
                       forall j :: 0 <= j < k ==> !Fails(queue[j], cfg.ignoreFileNotFound, fs))
               && e.stored.path == (if e.raised.Some? then cfg.databasePath + "-tmp.csv" else cfg.databasePath))
  {
    var loaded := LoadRows(FileAt(tables, cfg.databasePath), parseTime);
    var backup := if cfg.guessHashFromStat then LoadRows(FileAt(tables, StatIndexPath), parseTime) else Ok(Empty);
    if loaded.Ok? && backup.Ok? {
      var current := if cfg.collectFiles then scanned else loaded.value;
      LoadedDecidable(FileAt(tables, cfg.databasePath), parseTime, current, cfg.guessHashFromStat);
      var statIndex := IndexOf(Records(backup.value));
      var u := Update(current, loaded.value.records, cfg.guessHashFromStat, statIndex,
                      cfg.ignoreFileNotFound, fs, md5, interruptAt);
      assert Script(cfg, tables, scanned, fs, md5, interruptAt, showTime, parseTime)
        == Persist(cfg.databasePath, u.0, u.1, showTime);
      UpdateEnd(current, loaded.value.records, cfg.guessHashFromStat, statIndex,
                cfg.ignoreFileNotFound, fs, md5, interruptAt);
    }
  }

  /** The update raises exactly when the run reaches a failing queued path
      before the user interrupts, and then with the first such path's
      error. */
  lemma UpdateEnd(current: Table, previous: map<Path, File>, guessFromStat: bool, statIndex: StatIndex,
                  ignoreFileNotFound: bool, fs: FileSystem, md5: seq<bv8> -> string, interruptAt: Option<nat>)
    requires WellFormed(current) && FillDecidable(current, previous, guessFromStat)
    ensures var end := Update(current, previous, guessFromStat, statIndex, ignoreFileNotFound, fs, md5, interruptAt).1;
      var queue := Queue(current, previous, guessFromStat, statIndex, |current.order|);
      && (end.Raised? <==>
            exists k :: 0 <= k < |queue| && Fails(queue[k], ignoreFileNotFound, fs) && Reaches(interruptAt, 0, k))
      && (end.Raised? ==>
            exists k :: 0 <= k < |queue| && queue[k] == end.failure.path &&
              Fails(queue[k], ignoreFileNotFound, fs) &&
              forall j :: 0 <= j < k ==> !Fails(queue[j], ignoreFileNotFound, fs))
  {
    var queue := Queue(current, previous, guessFromStat, statIndex, |current.order|);
    var run := HashRun(queue, 0, ignoreFileNotFound, fs, md5, interruptAt);
    assert Update(current, previous, guessFromStat, statIndex, ignoreFileNotFound, fs, md5, interruptAt).1 == run.end;
    HashRunRaises(queue, 0, ignoreFileNotFound, fs, md5, interruptAt);
  }

  /** Running the script. */
  method RunScript(cfg: Config, tables: map<string, seq<Row>>, scanned: Hashes, fs: FileSystem,
                   md5: seq<bv8> -> string, interruptAt: Option<nat>,
                   showTime: Mtime -> string, parseTime: string -> Option<Mtime>) returns (ending: Ending)
    requires scanned.Valid()
    modifies scanned
    ensures ending == Script(cfg, tables, old(scanned.Value()), fs, md5, interruptAt, showTime, parseTime)
  {
    var loaded := LoadHashes(FileAt(tables, cfg.databasePath), parseTime);
    if loaded.Err? {
      return LoadFailed(loaded.error);
    }
    var previousHashes := loaded.value;
    var statIndex: StatIndex := map[];
    if cfg.guessHashFromStat {
      var backup := LoadHashes(FileAt(tables, StatIndexPath), parseTime);
      if backup.Err? {
        return LoadFailed(backup.error);
      }
      statIndex := backup.value.IndexByStat();
    } else {
      assert Records(Empty) == [];
    }
    var currentHashes := if cfg.collectFiles then scanned else previousHashes;
    LoadedDecidable(FileAt(tables, cfg.databasePath), parseTime, currentHashes.Value(), cfg.guessHashFromStat);
    ending := UpdateAndStore(cfg, currentHashes, previousHashes, statIndex, fs, md5, interruptAt, showTime);
  }

  /** The script once the tables are loaded: fill known hashes, hash the
      rest, and store. */
  method UpdateAndStore(cfg: Config, currentHashes: Hashes, previousHashes: Hashes, statIndex: StatIndex,
                        fs: FileSystem, md5: seq<bv8> -> string, interruptAt: Option<nat>,
                        showTime: Mtime -> string) returns (ending: Ending)
    requires currentHashes.Valid()
    requires FillDecidable(currentHashes.Value(), previousHashes.path2hash, cfg.guessHashFromStat)
    modifies currentHashes
    ensures var u := Update(old(currentHashes.Value()), old(previousHashes.path2hash), cfg.guessHashFromStat, statIndex,
                            cfg.ignoreFileNotFound, fs, md5, interruptAt);
      ending == Persist(cfg.databasePath, u.0, u.1, showTime)
  {
    ghost var current := currentHashes.Value();
    ghost var previous := previousHashes.path2hash;
    var outdatedFiles := FillKnownHashes(currentHashes, previousHashes, cfg.guessHashFromStat, statIndex);
    QueueInTable(current, previous, cfg.guessHashFromStat, statIndex);
    var end := ComputeHashes(currentHashes, outdatedFiles, cfg.ignoreFileNotFound, fs, md5, interruptAt);
    var rows := StoreHashes(currentHashes, showTime);
    if end.Raised? {
      return Finished(Stored(cfg.databasePath + "-tmp.csv", rows), Some(end.failure));
    }
    return Finished(Stored(cfg.databasePath, rows), None);
  }
}
