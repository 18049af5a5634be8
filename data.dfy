/** The hash database: one record per file path, the stat index built from
    it, and its row-level table codec (data.py). */
module Data {
  import opened Common

  type Path = string

  /** A modification time. The model only ever compares it for equality. */
  type Mtime = real

  /** `File`: one record of the database. `fileHash` is None when unknown; a
      value starting with '?' is a guess taken over from the stat index. */
  datatype File = File(modificationTime: Mtime, size: int, fileHash: Option<string>)

  /** The `(modification_time, size)` key of the stat index. */
  datatype Stat = Stat(modificationTime: Mtime, size: int)

  function StatOf(f: File): Stat {
    Stat(f.modificationTime, f.size)
  }

  /** The value of a `path2hash` dict: its keys in insertion order (the order
      in which Python iterates a dict) together with the records. */
  datatype Table = Table(order: seq<Path>, records: map<Path, File>)

  ghost predicate WellFormed(t: Table) {
    Distinct(t.order) && forall p :: p in t.records <==> p in t.order
  }

  const Empty: Table := Table([], map[])

  /** `path2hash[p] = f`: an existing key keeps its place, a new key goes last. */
  function WithEntry(t: Table, p: Path, f: File): (r: Table)
    requires WellFormed(t)
    ensures WellFormed(r)
  {
    Table(if p in t.records then t.order else t.order + [p], t.records[p := f])
  }

  /** `path2hash[p].file_hash = h`: the record's other fields and every other
      record stay as they are. */
  function WithHash(t: Table, p: Path, h: Option<string>): (r: Table)
    requires WellFormed(t) && p in t.records
    ensures WellFormed(r)
  {
    Table(t.order, t.records[p := t.records[p].(fileHash := h)])
  }

  /** `path2hash.values()`, in iteration order. */
  function Records(t: Table): (s: seq<File>)
    requires WellFormed(t)
    ensures |s| == |t.order|
    ensures forall i :: 0 <= i < |s| ==> s[i] == t.records[t.order[i]]
  {
    seq(|t.order|, i requires 0 <= i < |t.order| => t.records[t.order[i]])
  }

  // ---------------------------------------------------------------- stat index

  type StatIndex = map<Stat, Option<string>>

  /** The index `index_by_stat` builds from records visited in this order: a
      key seen for the first time takes the record's hash, a key seen again
      becomes None. */
  function IndexOf(files: seq<File>): StatIndex {
    if files == [] then map[]
    else
      var index := IndexOf(files[..|files| - 1]);
      var last := files[|files| - 1];
      if StatOf(last) in index then index[StatOf(last) := None]
      else index[StatOf(last) := last.fileHash]
  }

  /** The index has a key for the stat pair of every record, including
      records without a hash, and no other key. */
  lemma {:induction false} IndexKeys(files: seq<File>)
    ensures IndexOf(files).Keys == set f | f in files :: StatOf(f)
  {
    if files != [] {
      var prefix := files[..|files| - 1];
      IndexKeys(prefix);
      assert files == prefix + [files[|files| - 1]];
    }
  }

  /** A pair carried by exactly one record maps to that record's hash. */
  lemma {:induction false} IndexUnique(files: seq<File>, i: nat)
    requires i < |files|
    requires forall j :: 0 <= j < |files| && j != i ==> StatOf(files[j]) != StatOf(files[i])
    ensures StatOf(files[i]) in IndexOf(files)
    ensures IndexOf(files)[StatOf(files[i])] == files[i].fileHash
  {
    var n := |files|;
    var prefix := files[..n - 1];
    if i == n - 1 {
      IndexKeys(prefix);
      assert StatOf(files[i]) !in IndexOf(prefix);
    } else {
      IndexUnique(prefix, i);
    }
  }

  /** A pair carried by two or more records maps to None, whether or not
      their hashes agree. */
  lemma {:induction false} IndexCollision(files: seq<File>, i: nat, j: nat)
    requires i < j < |files|
    requires StatOf(files[i]) == StatOf(files[j])
    ensures StatOf(files[i]) in IndexOf(files)
    ensures IndexOf(files)[StatOf(files[i])] == None
  {
    var n := |files|;
    var prefix := files[..n - 1];
    if j == n - 1 {
      IndexKeys(prefix);
      assert files[i] in prefix;
    } else {
      IndexCollision(prefix, i, j);
    }
  }

  // ------------------------------------------------------------ string order

  /** Python's `<` on str: lexicographic by code point. */
  predicate Below(a: string, b: string)
    decreases |a|
  {
    if |a| == 0 then |b| > 0
    else |b| > 0 && (a[0] < b[0] || (a[0] == b[0] && Below(a[1..], b[1..])))
  }

  lemma {:induction false} BelowIrreflexive(a: string)
    ensures !Below(a, a)
  {
    if |a| > 0 {
      BelowIrreflexive(a[1..]);
    }
  }

  lemma {:induction false} BelowTransitive(a: string, b: string, c: string)
    requires Below(a, b) && Below(b, c)
    ensures Below(a, c)
    decreases |a|
  {
    if |a| > 0 && a[0] == b[0] && b[0] == c[0] {
      BelowTransitive(a[1..], b[1..], c[1..]);
    }
  }

  lemma {:induction false} BelowTotal(a: string, b: string)
    requires a != b
    ensures Below(a, b) || Below(b, a)
    decreases |a|
  {
    if |a| > 0 && |b| > 0 && a[0] == b[0] {
      assert a == [a[0]] + a[1..] && b == [b[0]] + b[1..];
      BelowTotal(a[1..], b[1..]);
    }
  }

  predicate Ascending(s: seq<string>) {
    forall i, j :: 0 <= i < j < |s| ==> Below(s[i], s[j])
  }

  /** Insertion into an ascending sequence. */
  function Insert(x: string, s: seq<string>): seq<string> {
    if s == [] then [x]
    else if Below(s[0], x) then [s[0]] + Insert(x, s[1..])
    else [x] + s
  }

  /** Python's `sorted` on a sequence of strings. */
  function Sort(s: seq<string>): seq<string> {
    if s == [] then [] else Insert(s[0], Sort(s[1..]))
  }

  /** Insertion adds exactly the one element. */
  lemma {:induction false} InsertPermutes(x: string, s: seq<string>)
    ensures multiset(Insert(x, s)) == multiset(s) + multiset{x}
  {
    if s != [] && Below(s[0], x) {
      InsertPermutes(x, s[1..]);
      assert s == [s[0]] + s[1..];
    }
  }

  lemma {:induction false} InsertAscending(x: string, s: seq<string>)
    requires Ascending(s) && x !in s
    ensures Ascending(Insert(x, s))
  {
    if s == [] {
    } else if Below(s[0], x) {
      var rest := s[1..];
      InsertAscending(x, rest);
      InsertPermutes(x, rest);
      var r := Insert(x, rest);
      forall k | 0 <= k < |r|
        ensures Below(s[0], r[k])
      {
        assert r[k] in multiset(r);
        if r[k] != x {
          assert r[k] in rest;
        }
      }
    } else {
      assert x != s[0];
      BelowTotal(x, s[0]);
      forall k | 0 <= k < |s|
        ensures Below(x, s[k])
      {
        if k > 0 {
          BelowTransitive(x, s[0], s[k]);
        }
      }
    }
  }

  /** A strictly ascending order of given keys is unique: any sort that
      orders distinct keys by code point gives the same list as `Sort`. */
  lemma {:induction false} AscendingUnique(a: seq<string>, b: seq<string>)
    requires Ascending(a) && Ascending(b) && multiset(a) == multiset(b)
    ensures a == b
  {
    if a != [] {
      AscendingFirst(a, b);
      AscendingRest(a);
      AscendingRest(b);
      assert multiset(a[1..]) == multiset(b[1..]) by {
        assert a == [a[0]] + a[1..] && b == [b[0]] + b[1..];
        forall y
          ensures multiset(a[1..])[y] == multiset(b[1..])[y]
        {
          assert multiset(a)[y] == multiset{a[0]}[y] + multiset(a[1..])[y];
          assert multiset(b)[y] == multiset{b[0]}[y] + multiset(b[1..])[y];
        }
      }
      AscendingUnique(a[1..], b[1..]);
      assert a == [a[0]] + a[1..] && b == [b[0]] + b[1..];
    }
  }

  /** Two strictly ascending lists of the same keys start alike. */
  lemma AscendingFirst(a: seq<string>, b: seq<string>)
    requires Ascending(a) && Ascending(b) && multiset(a) == multiset(b) && a != []
    ensures b != [] && a[0] == b[0]
  {
    assert a[0] in multiset(b) && b[0] in multiset(a);
    if a[0] != b[0] {
      var i :| 0 <= i < |a| && a[i] == b[0];
      var j :| 0 <= j < |b| && b[j] == a[0];
      assert Below(a[0], b[0]) && Below(b[0], a[0]);
      BelowTransitive(a[0], b[0], a[0]);
      BelowIrreflexive(a[0]);
      assert false;
    }
  }

  lemma AscendingRest(a: seq<string>)
    requires Ascending(a) && a != []
    ensures Ascending(a[1..])
  {
    forall i, j | 0 <= i < j < |a| - 1
      ensures Below(a[1..][i], a[1..][j])
    {
      assert a[1..][i] == a[i + 1] && a[1..][j] == a[j + 1];
    }
  }

  lemma {:induction false} SortAscending(s: seq<string>)
    requires Distinct(s)
    ensures multiset(Sort(s)) == multiset(s)
    ensures Ascending(Sort(s))
  {
    if s != [] {
      var rest := s[1..];
      assert s == [s[0]] + rest;
      SortAscending(rest);
      assert s[0] !in multiset(Sort(rest));
      InsertPermutes(s[0], Sort(rest));
      InsertAscending(s[0], Sort(rest));
    }
  }

  /** `sorted(path2hash)`: the keys of the table, in order (see
      `SortedPathsAscending`). */
  function SortedPaths(t: Table): (keys: seq<Path>)
    requires WellFormed(t)
    ensures |keys| == |t.order|
    ensures forall p :: p in keys <==> p in t.records
  {
    SortAscending(t.order);
    assert forall p :: p in Sort(t.order) <==> p in multiset(t.order);
    assert |Sort(t.order)| == |multiset(Sort(t.order))|;
    Sort(t.order)
  }

  /** The sorted keys are strictly ascending, hence free of repeats. */
  lemma SortedPathsAscending(t: Table)
    requires WellFormed(t)
    ensures Ascending(SortedPaths(t))
    ensures Distinct(SortedPaths(t))
  {
    SortAscending(t.order);
    AscendingDistinct(SortedPaths(t));
  }

  // -------------------------------------------------------------- table codec

  type Row = seq<string>

  const Header: Row := ["file_path", "hash", "modification_time", "size"]

  /** The csv writer writes None as the empty field. */
  function HashField(h: Option<string>): string {
    if h.Some? then h.value else ""
  }

  /** `file_hash or None`: the empty field reads back as None. */
  function DecodeHash(field: string): Option<string> {
    if field == "" then None else Some(field)
  }

  function EncodeRow(p: Path, f: File, showTime: Mtime -> string): Row {
    [p, HashField(f.fileHash), showTime(f.modificationTime), IntToDecimal(f.size)]
  }

  /** One row per path of `keys`, in that order. */
  function EncodeRows(keys: seq<Path>, records: map<Path, File>, showTime: Mtime -> string): (rows: seq<Row>)
    requires forall i :: 0 <= i < |keys| ==> keys[i] in records
    ensures |rows| == |keys|
    ensures forall i {:trigger rows[i]} :: 0 <= i < |keys| ==> rows[i] == EncodeRow(keys[i], records[keys[i]], showTime)
  {
    seq(|keys|, i requires 0 <= i < |keys| => EncodeRow(keys[i], records[keys[i]], showTime))
  }

  /** The rows `store_hashes` writes: the header, then one row per path in
      sorted order. */
  function StoreRows(t: Table, showTime: Mtime -> string): seq<Row>
    requires WellFormed(t)
  {
    [Header] + EncodeRows(SortedPaths(t), t.records, showTime)
  }

  /** The stored rows are the header, then the encoding of each path in
      sorted order. */
  lemma StoredRowPaths(t: Table, showTime: Mtime -> string)
    requires WellFormed(t)
    ensures var rows := StoreRows(t, showTime); var keys := SortedPaths(t);
      && |rows| == |keys| + 1 && rows[0] == Header
      && forall i :: 1 <= i < |rows| ==> |rows[i]| == 4 && rows[i][0] == keys[i - 1] &&
                                         rows[i] == EncodeRow(keys[i - 1], t.records[keys[i - 1]], showTime)
  {
  }

  /** What `store_hashes` writes: the header row, then exactly one row per
      path, in strictly ascending path order, each holding the path, its
      hash ('' for None), its time and its size. */
  lemma StoreRowsShape(t: Table, showTime: Mtime -> string)
    requires WellFormed(t)
    ensures var rows := StoreRows(t, showTime);
      && |rows| == |t.order| + 1 && rows[0] == Header
      && (forall i :: 1 <= i < |rows| ==>
            |rows[i]| == 4 && rows[i][0] in t.records &&
            rows[i] == EncodeRow(rows[i][0], t.records[rows[i][0]], showTime))
      && (forall i, j :: 1 <= i < j < |rows| ==> Below(rows[i][0], rows[j][0]))
      && (forall p :: p in t.records ==> exists i :: 1 <= i < |rows| && rows[i][0] == p)
  {
    var keys := SortedPaths(t);
    var rows := StoreRows(t, showTime);
    StoredRowPaths(t, showTime);
    SortedPathsAscending(t);
    forall p | p in t.records
      ensures exists i :: 1 <= i < |rows| && rows[i][0] == p
    {
      var i :| 0 <= i < |keys| && keys[i] == p;
      assert rows[i + 1][0] == p;
    }
  }

  datatype LoadError =
    | MissingHeader        // an empty file: `next(reader)` raises StopIteration
    | FieldCount(row: nat) // unpacking a row that does not have four fields
    | BadTime(row: nat)    // `float(modification_time)` raises ValueError
    | BadSize(row: nat)    // `int(size)` raises ValueError

  /** One data row, numbered `k` in the file. */
  function DecodeRow(row: Row, k: nat, parseTime: string -> Option<Mtime>): (r: Result<(Path, File), LoadError>)
    ensures |row| != 4 ==> r == Err(FieldCount(k))
    ensures r.Ok? ==> |row| == 4 && r.value.0 == row[0] && r.value.1.fileHash == DecodeHash(row[1])
  {
    if |row| != 4 then Err(FieldCount(k))
    else match parseTime(row[2])
      case None => Err(BadTime(k))
      case Some(t) =>
        match ParseInt(row[3])
        case None => Err(BadSize(k))
        case Some(n) => Ok((row[0], File(t, n, DecodeHash(row[1]))))
  }

  /** The entries decoded from `rows[1..n]`, or the error of the first row
      that does not decode. */
  function DecodeRows(rows: seq<Row>, n: nat, parseTime: string -> Option<Mtime>): (r: Result<seq<(Path, File)>, LoadError>)
    requires 1 <= n <= |rows|
    ensures r.Ok? ==> |r.value| == n - 1
    ensures r.Ok? ==> forall k :: 1 <= k < n ==> DecodeRow(rows[k], k, parseTime) == Ok(r.value[k - 1])
  {
    if n == 1 then Ok([])
    else
      match DecodeRows(rows, n - 1, parseTime)
      case Err(e) => Err(e)
      case Ok(entries) =>
        match DecodeRow(rows[n - 1], n - 1, parseTime)
        case Err(e) => Err(e)
        case Ok(entry) => Ok(entries + [entry])
  }

  /** The dict after `path2hash[p] = f` for each entry in turn. */
  function Collect(entries: seq<(Path, File)>): (t: Table)
    ensures WellFormed(t)
  {
    if entries == [] then Empty
    else
      var last := entries[|entries| - 1];
      WithEntry(Collect(entries[..|entries| - 1]), last.0, last.1)
  }

  /** `load_hashes`: `file` is None when the file does not exist. Inserting
      as it goes and stopping at the first bad row, as the loader does, ends
      in the same result as decoding every row first and inserting after. */
  function LoadRows(file: Option<seq<Row>>, parseTime: string -> Option<Mtime>): (r: Result<Table, LoadError>)
    ensures file.None? ==> r == Ok(Empty)
    ensures file == Some([]) ==> r == Err(MissingHeader)
  {
    match file
    case None => Ok(Empty)
    case Some(rows) =>
      if |rows| == 0 then Err(MissingHeader)
      else
        match DecodeRows(rows, |rows|, parseTime)
        case Err(e) => Err(e)
        case Ok(entries) => Ok(Collect(entries))
  }

  /** Decoding succeeds exactly when every data row decodes; otherwise it
      fails with the error of the first row that does not (a row without
      exactly four fields among them). */
  lemma {:induction false} DecodeRowsOutcome(rows: seq<Row>, n: nat, parseTime: string -> Option<Mtime>)
    requires 1 <= n <= |rows|
    ensures DecodeRows(rows, n, parseTime).Ok? <==> forall k :: 1 <= k < n ==> DecodeRow(rows[k], k, parseTime).Ok?
    ensures forall k :: 1 <= k < n && DecodeRow(rows[k], k, parseTime).Err? &&
                        (forall j :: 1 <= j < k ==> DecodeRow(rows[j], j, parseTime).Ok?) ==>
                        DecodeRows(rows, n, parseTime) == Err(DecodeRow(rows[k], k, parseTime).error)
  {
    if n > 1 {
      DecodeRowsOutcome(rows, n - 1, parseTime);
      var k := n - 1;
      if DecodeRow(rows[k], k, parseTime).Err? && (forall j :: 1 <= j < k ==> DecodeRow(rows[j], j, parseTime).Ok?) {
        assert DecodeRows(rows, n - 1, parseTime).Ok?;
      }
    }
  }

  /** Once a row fails to decode, decoding fails with that row's error. */
  lemma {:induction false} DecodeErrorSticks(rows: seq<Row>, m: nat, n: nat, parseTime: string -> Option<Mtime>)
    requires 1 <= m <= n <= |rows|
    requires DecodeRows(rows, m, parseTime).Err?
    ensures DecodeRows(rows, n, parseTime) == DecodeRows(rows, m, parseTime)
    decreases n
  {
    if n > m {
      DecodeErrorSticks(rows, m, n - 1, parseTime);
    }
  }

  /** A file with a data row that does not have exactly four fields does
      not load. */
  lemma LoadRejectsFieldCount(rows: seq<Row>, k: nat, parseTime: string -> Option<Mtime>)
    requires 1 <= k < |rows| && |rows[k]| != 4
    ensures LoadRows(Some(rows), parseTime).Err?
  {
    DecodeRowsOutcome(rows, |rows|, parseTime);
  }

  /** The paths of a sequence of entries, in order. */
  function Paths(entries: seq<(Path, File)>): (s: seq<Path>)
    ensures |s| == |entries|
    ensures forall i :: 0 <= i < |entries| ==> s[i] == entries[i].0
  {
    seq(|entries|, i requires 0 <= i < |entries| => entries[i].0)
  }

  /** Collecting entries: the keys are exactly the entries' paths. */
  lemma {:induction false} CollectKeys(entries: seq<(Path, File)>)
    ensures forall p :: p in Collect(entries).records <==> p in Paths(entries)
  {
    if entries != [] {
      var n := |entries|;
      var prefix := entries[..n - 1];
      CollectKeys(prefix);
      assert Paths(entries) == Paths(prefix) + [entries[n - 1].0];
    }
  }

  /** Collecting entries: a path maps to the record of the LAST entry that
      names it. */
  lemma {:induction false} CollectLast(entries: seq<(Path, File)>, i: nat)
    requires i < |entries|
    requires forall j :: i < j < |entries| ==> entries[j].0 != entries[i].0
    ensures entries[i].0 in Collect(entries).records
    ensures Collect(entries).records[entries[i].0] == entries[i].1
  {
    var n := |entries|;
    if i < n - 1 {
      var prefix := entries[..n - 1];
      assert prefix[i] == entries[i];
      CollectLast(prefix, i);
    }
  }

  /** After a successful load, the paths are exactly those of the data rows,
      each mapping to the record decoded from the LAST row that names it. */
  lemma LoadLastRowWins(rows: seq<Row>, parseTime: string -> Option<Mtime>)
    requires LoadRows(Some(rows), parseTime).Ok?
    ensures |rows| > 0
    ensures forall k :: 1 <= k < |rows| ==> |rows[k]| == 4 && DecodeRow(rows[k], k, parseTime).Ok?
    ensures forall p :: p in LoadRows(Some(rows), parseTime).value.records <==>
      exists k :: 1 <= k < |rows| && rows[k][0] == p
    ensures forall k :: 1 <= k < |rows| && (forall j :: k < j < |rows| ==> rows[j][0] != rows[k][0]) ==>
      rows[k][0] in LoadRows(Some(rows), parseTime).value.records &&
      LoadRows(Some(rows), parseTime).value.records[rows[k][0]] == DecodeRow(rows[k], k, parseTime).value.1
  {
    LoadedPaths(rows, parseTime);
    forall k | 1 <= k < |rows| && (forall j :: k < j < |rows| ==> rows[j][0] != rows[k][0])
      ensures rows[k][0] in LoadRows(Some(rows), parseTime).value.records &&
        LoadRows(Some(rows), parseTime).value.records[rows[k][0]] == DecodeRow(rows[k], k, parseTime).value.1
    {
      LoadedLast(rows, parseTime, k);
    }
  }

  /** The decoded entries follow the data rows one for one. */
  lemma DecodedEntries(rows: seq<Row>, parseTime: string -> Option<Mtime>)
    requires |rows| > 0 && DecodeRows(rows, |rows|, parseTime).Ok?
    ensures var entries := DecodeRows(rows, |rows|, parseTime).value;
      forall k :: 1 <= k < |rows| ==>
        DecodeRow(rows[k], k, parseTime).Ok? &&
        entries[k - 1].0 == rows[k][0] && entries[k - 1].1 == DecodeRow(rows[k], k, parseTime).value.1
  {
  }

  /** The loaded paths are those of the data rows. */
  lemma LoadedPaths(rows: seq<Row>, parseTime: string -> Option<Mtime>)
    requires LoadRows(Some(rows), parseTime).Ok?
    ensures forall p :: p in LoadRows(Some(rows), parseTime).value.records <==>
      exists k :: 1 <= k < |rows| && rows[k][0] == p
  {
    var entries := DecodeRows(rows, |rows|, parseTime).value;
    var c := Collect(entries);
    assert LoadRows(Some(rows), parseTime).value == c;
    DecodedEntries(rows, parseTime);
    CollectKeys(entries);
    forall p
      ensures p in c.records <==> exists k :: 1 <= k < |rows| && rows[k][0] == p
    {
      if p in c.records {
        var i :| 0 <= i < |entries| && Paths(entries)[i] == p;
        assert rows[i + 1][0] == p;
      }
      if exists k :: 1 <= k < |rows| && rows[k][0] == p {
        var k :| 1 <= k < |rows| && rows[k][0] == p;
        assert Paths(entries)[k - 1] == p;
      }
    }
  }

  /** A path maps to the record of the last row that names it. */
  lemma LoadedLast(rows: seq<Row>, parseTime: string -> Option<Mtime>, k: nat)
    requires LoadRows(Some(rows), parseTime).Ok?
    requires 1 <= k < |rows| && forall j :: k < j < |rows| ==> rows[j][0] != rows[k][0]
    ensures rows[k][0] in LoadRows(Some(rows), parseTime).value.records &&
      LoadRows(Some(rows), parseTime).value.records[rows[k][0]] == DecodeRow(rows[k], k, parseTime).value.1
  {
    var entries := DecodeRows(rows, |rows|, parseTime).value;
    assert LoadRows(Some(rows), parseTime).value == Collect(entries);
    assert entries[k - 1].0 == rows[k][0] && entries[k - 1].1 == DecodeRow(rows[k], k, parseTime).value.1
      && forall j :: k - 1 < j < |entries| ==> entries[j].0 != entries[k - 1].0 by {
      DecodedEntries(rows, parseTime);
      forall j | k - 1 < j < |entries|
        ensures entries[j].0 != entries[k - 1].0
      {
        assert rows[j + 1][0] != rows[k][0];
      }
    }
    CollectLast(entries, k - 1);
  }



  /** No record that loading builds has the empty string as its hash. */
  lemma LoadNoEmptyHash(rows: seq<Row>, parseTime: string -> Option<Mtime>)
    requires LoadRows(Some(rows), parseTime).Ok?
    ensures forall p :: p in LoadRows(Some(rows), parseTime).value.records ==>
      LoadRows(Some(rows), parseTime).value.records[p].fileHash != Some("")
  {
    var entries := DecodeRows(rows, |rows|, parseTime).value;
    CollectKeys(entries);
    forall p | p in Collect(entries).records
      ensures Collect(entries).records[p].fileHash != Some("")
    {
      var i :| 0 <= i < |entries| && entries[i].0 == p && forall j :: i < j < |entries| ==> entries[j].0 != p by {
        var k :| 0 <= k < |entries| && Paths(entries)[k] == p;
        LastWithPath(entries, p);
      }
      CollectLast(entries, i);
      assert DecodeRow(rows[i + 1], i + 1, parseTime) == Ok(entries[i]);
    }
  }

  lemma LastWithPath(entries: seq<(Path, File)>, p: Path)
    requires exists i :: 0 <= i < |entries| && entries[i].0 == p
    ensures exists i :: 0 <= i < |entries| && entries[i].0 == p && forall j :: i < j < |entries| ==> entries[j].0 != p
  {
    var i :| 0 <= i < |entries| && entries[i].0 == p;
    while exists j :: i < j < |entries| && entries[j].0 == p
      invariant 0 <= i < |entries| && entries[i].0 == p
      decreases |entries| - i
    {
      var j :| i < j < |entries| && entries[j].0 == p;
      i := j;
    }
  }

  /** A stored row reads back as the path and record it was written from. */
  lemma DecodeEncodedRow(p: Path, f: File, k: nat, showTime: Mtime -> string, parseTime: string -> Option<Mtime>)
    requires f.fileHash != Some("")
    requires parseTime(showTime(f.modificationTime)) == Some(f.modificationTime)
    ensures DecodeRow(EncodeRow(p, f, showTime), k, parseTime) == Ok((p, f))
  {
    ParseIntOfDecimal(f.size);
  }

  /** Storing a database and loading the rows back gives the same records,
      now in ascending path order, as long as no hash is the empty string
      and the time text reads back as the same time. */
  lemma LoadStoreRoundTrip(t: Table, showTime: Mtime -> string, parseTime: string -> Option<Mtime>)
    requires WellFormed(t)
    requires forall p :: p in t.records ==> t.records[p].fileHash != Some("")
    requires forall x :: parseTime(showTime(x)) == Some(x)
    ensures LoadRows(Some(StoreRows(t, showTime)), parseTime) == Ok(Table(SortedPaths(t), t.records))
  {
    var keys := SortedPaths(t);
    var rows := StoreRows(t, showTime);
    var entries := seq(|keys|, i requires 0 <= i < |keys| => (keys[i], t.records[keys[i]]));
    assert DecodeRows(rows, |rows|, parseTime) == Ok(entries) by {
      StoredRowPaths(t, showTime);
      DecodeEncodedRows(rows, entries, |rows|, showTime, parseTime);
      assert entries[..|rows| - 1] == entries;
    }
    assert Collect(entries) == Table(keys, t.records) by {
      SortedPathsAscending(t);
      CollectKeysRecords(t.records, keys, entries);
    }
  }

  /** Collecting one entry per key, keys all distinct, gives back those keys
      in that order and the records they were taken from. */
  lemma CollectKeysRecords(records: map<Path, File>, keys: seq<Path>, entries: seq<(Path, File)>)
    requires Distinct(keys) && |entries| == |keys|
    requires forall p :: p in keys <==> p in records
    requires forall i :: 0 <= i < |keys| ==> entries[i] == (keys[i], records[keys[i]])
    ensures Collect(entries) == Table(keys, records)
  {
    CollectOrder(keys, entries);
    CollectRecords(records, keys, entries);
  }

  lemma CollectOrder(keys: seq<Path>, entries: seq<(Path, File)>)
    requires Distinct(keys) && |entries| == |keys|
    requires forall i :: 0 <= i < |keys| ==> entries[i].0 == keys[i]
    ensures Collect(entries).order == keys
  {
    assert Paths(entries) == keys;
    CollectDistinct(entries);
  }

  lemma CollectRecords(records: map<Path, File>, keys: seq<Path>, entries: seq<(Path, File)>)
    requires Distinct(keys) && |entries| == |keys|
    requires forall p :: p in keys <==> p in records
    requires forall i :: 0 <= i < |keys| ==> entries[i] == (keys[i], records[keys[i]])
    ensures Collect(entries).records == records
  {
    var c := Collect(entries);
    assert c.records.Keys == records.Keys by {
      assert Paths(entries) == keys;
      CollectKeys(entries);
    }
    forall p | p in records
      ensures c.records[p] == records[p]
    {
      CollectAt(records, keys, entries, p);
    }
  }

  /** One key of `CollectKeysRecords`: its entry is the last naming it. */
  lemma CollectAt(records: map<Path, File>, keys: seq<Path>, entries: seq<(Path, File)>, p: Path)
    requires Distinct(keys) && |entries| == |keys| && p in records
    requires forall p :: p in keys <==> p in records
    requires forall i :: 0 <= i < |keys| ==> entries[i] == (keys[i], records[keys[i]])
    ensures p in Collect(entries).records && Collect(entries).records[p] == records[p]
  {
    var i :| 0 <= i < |keys| && keys[i] == p;
    forall j | i < j < |entries|
      ensures entries[j].0 != entries[i].0
    {
      assert keys[j] != keys[i];
    }
    CollectLast(entries, i);
  }

  /** Rows encoded from entries decode back to those entries. */
  lemma {:induction false} DecodeEncodedRows(rows: seq<Row>, entries: seq<(Path, File)>, n: nat,
                                             showTime: Mtime -> string, parseTime: string -> Option<Mtime>)
    requires |rows| == |entries| + 1
    requires forall i :: 0 <= i < |entries| ==> rows[i + 1] == EncodeRow(entries[i].0, entries[i].1, showTime)
    requires forall i :: 0 <= i < |entries| ==> entries[i].1.fileHash != Some("")
    requires forall x :: parseTime(showTime(x)) == Some(x)
    requires 1 <= n <= |rows|
    ensures DecodeRows(rows, n, parseTime) == Ok(entries[..n - 1])
  {
    if n > 1 {
      DecodeEncodedRows(rows, entries, n - 1, showTime, parseTime);
      var e := entries[n - 2];
      DecodeEncodedRow(e.0, e.1, n - 1, showTime, parseTime);
      assert entries[..n - 1] == entries[..n - 2] + [e];
    }
  }

  /** Collecting entries with distinct paths keeps their order. */
  lemma {:induction false} CollectDistinct(entries: seq<(Path, File)>)
    requires Distinct(Paths(entries))
    ensures Collect(entries).order == Paths(entries)
  {
    if entries != [] {
      var n := |entries|;
      var prefix := entries[..n - 1];
      assert Paths(prefix) == Paths(entries)[..n - 1];
      CollectDistinct(prefix);
      CollectKeys(prefix);
      assert entries[n - 1].0 !in Collect(prefix).records;
      assert Paths(entries) == Paths(prefix) + [entries[n - 1].0];
    }
  }

  lemma AscendingDistinct(s: seq<string>)
    requires Ascending(s)
    ensures Distinct(s)
  {
    forall i, j | 0 <= i < j < |s|
      ensures s[i] != s[j]
    {
      if s[i] == s[j] {
        BelowIrreflexive(s[i]);
      }
    }
  }

  // ------------------------------------------------------------ the object

  /** `Hashes`, a wrapper around the `path2hash` dict that the program
      creates, fills and updates record by record. */
  class Hashes {
    var order: seq<Path>
    var path2hash: map<Path, File>

    function Value(): Table
      reads this
    {
      Table(order, path2hash)
    }

    ghost predicate Valid()
      reads this
    {
      WellFormed(Value())
    }

    /** `Hashes.create()`: an empty database. */
    constructor Create()
      ensures Valid() && Value() == Empty
    {
      order := [];
      path2hash := map[];
    }

    /** `path2hash[p] = f`. */
    method Put(p: Path, f: File)
      requires Valid()
      modifies this
      ensures Valid() && Value() == WithEntry(old(Value()), p, f)
    {
      if p !in path2hash {
        order := order + [p];
      }
      path2hash := path2hash[p := f];
    }

    /** `path2hash[p].file_hash = h` on an existing record. */
    method SetHash(p: Path, h: Option<string>)
      requires Valid() && p in path2hash
      modifies this
      ensures Valid() && Value() == WithHash(old(Value()), p, h)
    {
      path2hash := path2hash[p := path2hash[p].(fileHash := h)];
    }

    /** `index_by_stat`: visits the records in dict order. */
    method IndexByStat() returns (index: StatIndex)
      requires Valid()
      ensures index == IndexOf(Records(Value()))
    {
      var files := Records(Value());
      index := map[];
      var i := 0;
      while i < |order|
        invariant 0 <= i <= |order|
        invariant index == IndexOf(files[..i])
      {
        var obj := path2hash[order[i]];
        var key := StatOf(obj);
        assert files[..i + 1][..i] == files[..i];
        if key in index {
          index := index[key := None];
        } else {
          index := index[key := obj.fileHash];
        }
        i := i + 1;
      }
      assert files[..i] == files;
    }
  }

  /** `store_hashes`: the rows written to the file, header first. */
  method StoreHashes(hashes: Hashes, showTime: Mtime -> string) returns (rows: seq<Row>)
    requires hashes.Valid()
    ensures rows == StoreRows(hashes.Value(), showTime)
  {
    var t := hashes.Value();
    ghost var all := StoreRows(t, showTime);
    var keys := SortedPaths(t);
    StoredRowPaths(t, showTime);
    rows := [Header];
    var i := 0;
    while i < |keys|
      invariant 0 <= i <= |keys| && |rows| == i + 1 && rows[0] == Header
      invariant forall j :: 1 <= j <= i ==> rows[j] == all[j]
    {
      var filePath := keys[i];
      var fileObj := hashes.path2hash[filePath];
      rows := rows + [EncodeRow(filePath, fileObj, showTime)];
      i := i + 1;
    }
    assert forall j :: 0 <= j < |rows| ==> rows[j] == all[j];
    assert rows == all[..|all|];
  }

  /** `load_hashes`: `file` is None when there is no file at the path. */
  method LoadHashes(file: Option<seq<Row>>, parseTime: string -> Option<Mtime>) returns (r: Result<Hashes, LoadError>)
    ensures r.Ok? <==> LoadRows(file, parseTime).Ok?
    ensures r.Ok? ==> fresh(r.value) && r.value.Valid() && r.value.Value() == LoadRows(file, parseTime).value
    ensures r.Err? ==> r.error == LoadRows(file, parseTime).error
  {
    var hashes := new Hashes.Create();
    if file.None? {
      return Ok(hashes);
    }
    var rows := file.value;
    if |rows| == 0 {
      return Err(MissingHeader);
    }
    var i := 1;
    ghost var entries: seq<(Path, File)> := [];
    while i < |rows|
      invariant 1 <= i <= |rows|
      invariant fresh(hashes) && hashes.Valid()
      invariant DecodeRows(rows, i, parseTime) == Ok(entries)
      invariant hashes.Value() == Collect(entries)
    {
      var row := rows[i];
      if |row| != 4 {
        assert DecodeRows(rows, i + 1, parseTime) == Err(FieldCount(i));
        DecodeErrorSticks(rows, i + 1, |rows|, parseTime);
        return Err(FieldCount(i));
      }
      var filePath, fileHash, modificationTime, size := row[0], row[1], row[2], row[3];
      var time := parseTime(modificationTime);
      if time.None? {
        assert DecodeRows(rows, i + 1, parseTime) == Err(BadTime(i));
        DecodeErrorSticks(rows, i + 1, |rows|, parseTime);
        return Err(BadTime(i));
      }
      var n := ParseInt(size);
      if n.None? {
        assert DecodeRows(rows, i + 1, parseTime) == Err(BadSize(i));
        DecodeErrorSticks(rows, i + 1, |rows|, parseTime);
        return Err(BadSize(i));
      }
      var fileObj := File(time.value, n.value, DecodeHash(fileHash));
      assert DecodeRows(rows, i + 1, parseTime) == Ok(entries + [(filePath, fileObj)]);
      assert (entries + [(filePath, fileObj)])[..|entries|] == entries;
      hashes.Put(filePath, fileObj);
      entries := entries + [(filePath, fileObj)];
      i := i + 1;
    }
    return Ok(hashes);
  }
}
