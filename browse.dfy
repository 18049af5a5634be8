/** The browser viewer (browse/browse.js): it reads hash tables into a tree
    of directories, sums sizes and file counts up the tree, combines the
    hashes of a directory's children by XOR, and lists, for every hash, the
    paths that carry it. */
module Browse {
  import opened Common

  // ------------------------------------------------------------------ paths

  /** `s.split('/')`: the pieces between slashes; there is always one more
      piece than there are slashes. */
  function Split(s: string): (parts: seq<string>)
    ensures |parts| >= 1 && forall k :: 0 <= k < |parts| ==> '/' !in parts[k]
  {
    if |s| == 0 then [""]
    else
      var rest := Split(s[1..]);
      if s[0] == '/' then [""] + rest
      else [[s[0]] + rest[0]] + rest[1..]
  }

  /** `parts.join('/')`. */
  function Join(parts: seq<string>): string
    requires |parts| >= 1
  {
    if |parts| == 1 then parts[0] else parts[0] + "/" + Join(parts[1..])
  }

  /** Splitting at a slash splits the two sides independently. */
  lemma {:induction false} SplitConcat(x: string, y: string)
    ensures Split(x + "/" + y) == Split(x) + Split(y)
  {
    if |x| == 0 {
      assert x + "/" + y == "/" + y;
      assert ("/" + y)[1..] == y;
    } else {
      var s := x + "/" + y;
      SplitConcat(x[1..], y);
      assert s[0] == x[0] && s[1..] == x[1..] + "/" + y;
      var head, tail := Split(x[1..]), Split(y);
      assert Split(s[1..]) == head + tail;
      if x[0] == '/' {
        AppendAssociates([""], head, tail);
      } else {
        assert Split(x) == [[x[0]] + head[0]] + head[1..];
        JoinFirstPiece([x[0]], head, tail);
      }
    }
  }

  /** Gluing a prefix onto the first piece commutes with appending more
      pieces. */
  lemma JoinFirstPiece(prefix: string, head: seq<string>, tail: seq<string>)
    requires |head| >= 1
    ensures [prefix + (head + tail)[0]] + (head + tail)[1..] == ([prefix + head[0]] + head[1..]) + tail
  {
    assert (head + tail)[0] == head[0];
    assert (head + tail)[1..] == head[1..] + tail;
  }

  /** A piece without slashes splits into itself. */
  lemma {:induction false} SplitPiece(x: string)
    requires '/' !in x
    ensures Split(x) == [x]
  {
    if |x| > 0 {
      SplitPiece(x[1..]);
      assert [x[0]] + x[1..] == x;
    }
  }

  /** Joining the pieces gives back the string. */
  lemma {:induction false} JoinSplit(s: string)
    ensures Join(Split(s)) == s
  {
    if |s| > 0 {
      var rest := Split(s[1..]);
      JoinSplit(s[1..]);
      if s[0] == '/' {
        assert Split(s)[1..] == rest;
      } else {
        var parts := Split(s);
        assert parts[1..] == rest[1..];
        if |rest| == 1 {
          assert s == [s[0]] + rest[0];
        } else {
          assert Join(rest) == rest[0] + "/" + Join(rest[1..]);
        }
      }
    }
  }

  /** Splitting joined pieces gives back the pieces. */
  lemma {:induction false} SplitJoin(parts: seq<string>)
    requires |parts| >= 1 && forall k :: 0 <= k < |parts| ==> '/' !in parts[k]
    ensures Split(Join(parts)) == parts
  {
    SplitPiece(parts[0]);
    if |parts| > 1 {
      SplitJoin(parts[1..]);
      SplitConcat(parts[0], Join(parts[1..]));
    }
  }

  /** `filepath.lastIndexOf('/')`, None for -1. */
  function LastSlash(s: string): (r: Option<nat>)
    ensures r.None? <==> '/' !in s
    ensures r.Some? ==> r.value < |s| && s[r.value] == '/' && '/' !in s[r.value + 1..]
  {
    if |s| == 0 then None
    else if s[|s| - 1] == '/' then Some(|s| - 1)
    else
      var r := LastSlash(s[..|s| - 1]);
      if r.Some? then
        assert s[r.value + 1..] == s[..|s| - 1][r.value + 1..] + [s[|s| - 1]];
        r
      else r
  }

  /** `split_filepath`: the directory and the file name either side of the
      last slash; None where the source throws, a path without a slash. */
  function SplitFilepath(path: string): (r: Option<(string, string)>)
    ensures r.None? <==> '/' !in path
    ensures r.Some? ==> r.value.0 + "/" + r.value.1 == path && '/' !in r.value.1
  {
    match LastSlash(path)
    case None => None
    case Some(i) =>
      assert path[..i] + "/" + path[i + 1..] == path;
      Some((path[..i], path[i + 1..]))
  }

  /** The file name is the last piece of the path; the directory's pieces
      come before it. */
  lemma SplitFilepathPieces(path: string)
    requires SplitFilepath(path).Some?
    ensures var (dir, name) := SplitFilepath(path).value; Split(path) == Split(dir) + [name]
  {
    var (dir, name) := SplitFilepath(path).value;
    SplitConcat(dir, name);
    SplitPiece(name);
  }

  // --------------------------------------------------------- ignored files

  /** `is_ignored`: thumbnail caches by name, and whatever sits in a trash or
      system folder directly under a root. */
  predicate IsIgnored(path: string) {
    var parts := Split(path);
    parts[|parts| - 1] == "Thumbs.db" || parts[|parts| - 1] == "Picasa.ini" ||
    (|parts| >= 2 &&
      (StartsWith(parts[1], ".Trash-") || parts[1] == "$RECYCLE.BIN" || parts[1] == "System Volume Information"))
  }

  /** A file named `Thumbs.db` or `Picasa.ini` is ignored in any directory. */
  lemma IgnoredByName(dir: string, name: string)
    requires '/' !in name && (name == "Thumbs.db" || name == "Picasa.ini")
    ensures IsIgnored(dir + "/" + name)
  {
    SplitConcat(dir, name);
    SplitPiece(name);
  }

  /** Everything inside a trash or system folder directly under a root is
      ignored, whatever its name. */
  lemma IgnoredInside(root: string, folder: string, rest: string)
    requires '/' !in root && '/' !in folder
    requires StartsWith(folder, ".Trash-") || folder == "$RECYCLE.BIN" || folder == "System Volume Information"
    ensures IsIgnored(root + "/" + folder + "/" + rest)
  {
    SplitConcat(root + "/" + folder, rest);
    SplitConcat(root, folder);
    SplitPiece(root);
    SplitPiece(folder);
  }

  /** A path of one piece is ignored only for its name. */
  lemma IgnoredSinglePiece(path: string)
    requires '/' !in path
    ensures IsIgnored(path) <==> path == "Thumbs.db" || path == "Picasa.ini"
  {
    SplitPiece(path);
  }

  // --------------------------------------------------------------- numbers

  /** A JavaScript number as the viewer meets it: a table field times one. */
  datatype Num = Finite(n: int) | NaN

  /** `s * 1` on the fields the tables hold: the empty string is 0 and an
      optionally signed run of decimal digits is its value. Every other
      string is NaN here; see the README for the inputs where JavaScript
      gives a number instead. */
  function ToNumber(s: string): Num {
    if s == "" then Finite(0)
    else match ParseInt(s)
      case Some(v) => Finite(v)
      case None => NaN
  }

  /** A size or time the tables write with `str(int)` reads back exactly. */
  lemma ToNumberOfDecimal(n: int)
    ensures ToNumber(IntToDecimal(n)) == Finite(n)
  {
    ParseIntOfDecimal(n);
  }

  /** `a + b` on numbers: NaN absorbs. */
  function Add(a: Num, b: Num): (r: Num)
    ensures r.NaN? <==> a.NaN? || b.NaN?
  {
    if a.NaN? || b.NaN? then NaN else Finite(a.n + b.n)
  }

  /** Sizes add up the same whichever child comes first. */
  lemma AddCommutes(a: Num, b: Num)
    ensures Add(a, b) == Add(b, a)
  {
  }

  lemma AddAssociates(a: Num, b: Num, c: Num)
    ensures Add(Add(a, b), c) == Add(a, Add(b, c))
  {
  }

  /** The running size starts at 0, which adds nothing. */
  lemma AddZero(a: Num)
    ensures Add(Finite(0), a) == a && Add(a, Finite(0)) == a
  {
  }

  // ---------------------------------------------------------- display text

  /** `hash2str`: the first six characters, `[unknown]` for no hash. */
  function Hash2Str(hash: string): (r: string)
    ensures r == "[unknown]" <==> hash == ""
    ensures hash != "" ==> |r| == Min(6, |hash|) && r == hash[..|r|]
  {
    if hash == "" then "[unknown]" else hash[..Min(6, |hash|)]
  }

  const KiB := 1024
  const MiB := 1024 * 1024
  const GiB := 1024 * 1024 * 1024

  /** `size2str`: `empty`, the plain number below 1024, else the number of
      whole KiB, MiB or GiB with its unit letter. */
  function Size2Str(size: Num): string {
    match size
    case NaN => "NaNG"
    case Finite(n) =>
      if n == 0 then "empty"
      else if n < 1024 then IntToDecimal(n)
      else if n / 1024 < 1024 then IntToDecimal(n / 1024) + "K"
      else if n / 1024 / 1024 < 1024 then IntToDecimal(n / 1024 / 1024) + "M"
      else IntToDecimal(n / 1024 / 1024 / 1024) + "G"
  }

  /** What `size2str` shows for a size of at least 1024: its unit letter is
      K below 1 MiB, M below 1 GiB and G from there up, and the number
      before it is the size in whole units, rounded down. */
  lemma Size2StrUnits(n: int)
    requires n >= 1024
    ensures var r := Size2Str(Finite(n));
      && |r| >= 2 && ParseInt(r[..|r| - 1]).Some?
      && var v := ParseInt(r[..|r| - 1]).value;
      && (r[|r| - 1] == 'K' <==> n < MiB)
      && (r[|r| - 1] == 'M' <==> MiB <= n < GiB)
      && (r[|r| - 1] == 'G' <==> GiB <= n)
      && (r[|r| - 1] == 'K' ==> v * KiB <= n < (v + 1) * KiB)
      && (r[|r| - 1] == 'M' ==> v * MiB <= n < (v + 1) * MiB)
      && (r[|r| - 1] == 'G' ==> v * GiB <= n < (v + 1) * GiB)
  {
    var q1 := n / 1024;
    var q2 := q1 / 1024;
    var q3 := q2 / 1024;
    assert q1 * 1024 <= n < q1 * 1024 + 1024;
    assert q2 * 1024 <= q1 < q2 * 1024 + 1024;
    assert q3 * 1024 <= q2 < q3 * 1024 + 1024;
    assert q2 * MiB <= n < (q2 + 1) * MiB;
    assert q3 * GiB <= n < (q3 + 1) * GiB;
    var r := Size2Str(Finite(n));
    var v := if q1 < 1024 then q1 else if q2 < 1024 then q2 else q3;
    assert r[..|r| - 1] == IntToDecimal(v);
    ParseIntOfDecimal(v);
  }

  /** Below 1024 and other than 0, `size2str` shows the number itself. */
  lemma Size2StrSmall(n: int)
    requires n < 1024 && n != 0
    ensures ParseInt(Size2Str(Finite(n))) == Some(n)
  {
    ParseIntOfDecimal(n);
  }

  // --------------------------------------------------------------- hashes

  /** `parseInt(c, 16)` as the XOR operator sees it: NaN becomes 0. */
  function HexValue(c: char): bv4 {
    if '0' <= c <= '9' then ((c as int) - ('0' as int)) as bv4
    else if 'a' <= c <= 'f' then ((c as int) - ('a' as int) + 10) as bv4
    else if 'A' <= c <= 'F' then ((c as int) - ('A' as int) + 10) as bv4
    else 0
  }

  predicate IsHexDigit(c: char) {
    '0' <= c <= '9' || 'a' <= c <= 'f'
  }

  /** `v.toString(16)`. */
  function HexDigit(v: bv4): (c: char)
    ensures IsHexDigit(c) && HexValue(c) == v
  {
    if v < 10 then (('0' as int) + (v as int)) as char
    else (('a' as int) + (v as int) - 10) as char
  }

  /** Writing back the value of a lower-case hex digit gives the digit. */
  lemma HexDigitOfValue(c: char)
    requires IsHexDigit(c)
    ensures HexDigit(HexValue(c)) == c
  {
  }

  /** The `i`-th hex digit of `h`; past the end, `h[i]` is undefined and
      counts as 0. */
  function DigitOf(h: string, i: nat): bv4 {
    if i < |h| then HexValue(h[i]) else 0
  }

  /** A 32-digit lower-case hex hash, as `combine_hash` writes them. */
  predicate IsHash(h: string) {
    |h| == 32 && forall i :: 0 <= i < 32 ==> IsHexDigit(h[i])
  }

  /** `'0'.repeat(32)`. */
  function Zero32(): (z: string)
    ensures |z| == 32 && forall i :: 0 <= i < 32 ==> z[i] == '0'
  {
    seq(32, i => '0')
  }

  /** `combine_hash`: empty if either hash is unknown, else the digit-wise
      XOR of the first 32 hex digits. */
  function CombineHash(h1: string, h2: string): (r: string)
    ensures r == "" <==> h1 == "" || h2 == ""
    ensures r != "" ==> IsHash(r) && forall i :: 0 <= i < 32 ==> DigitOf(r, i) == DigitOf(h1, i) ^ DigitOf(h2, i)
  {
    if h1 == "" || h2 == "" then ""
    else seq(32, i requires 0 <= i < 32 => HexDigit(DigitOf(h1, i) ^ DigitOf(h2, i)))
  }

  /** Two hashes with the same digits are the same hash. */
  lemma SameDigits(a: string, b: string)
    requires IsHash(a) && IsHash(b) && forall i :: 0 <= i < 32 ==> DigitOf(a, i) == DigitOf(b, i)
    ensures a == b
  {
    forall i | 0 <= i < 32
      ensures a[i] == b[i]
    {
      HexDigitOfValue(a[i]);
      HexDigitOfValue(b[i]);
      assert HexValue(a[i]) == DigitOf(a, i);
    }
  }

  lemma CombineCommutes(a: string, b: string)
    ensures CombineHash(a, b) == CombineHash(b, a)
  {
    if a != "" && b != "" {
      SameDigits(CombineHash(a, b), CombineHash(b, a));
    }
  }

  lemma CombineAssociates(a: string, b: string, c: string)
    ensures CombineHash(CombineHash(a, b), c) == CombineHash(a, CombineHash(b, c))
  {
    if a != "" && b != "" && c != "" {
      SameDigits(CombineHash(CombineHash(a, b), c), CombineHash(a, CombineHash(b, c)));
    }
  }

  /** `'0'*32` is the identity for 32-digit hashes. */
  lemma CombineZero(h: string)
    requires IsHash(h)
    ensures CombineHash(Zero32(), h) == h
  {
    assert forall i :: 0 <= i < 32 ==> DigitOf(Zero32(), i) == 0;
    SameDigits(CombineHash(Zero32(), h), h);
  }

  /** Combining with the same known hash twice undoes it. */
  lemma CombineCancels(a: string, b: string)
    requires IsHash(a) && b != ""
    ensures CombineHash(CombineHash(a, b), b) == a
  {
    SameDigits(CombineHash(CombineHash(a, b), b), a);
  }

  /** The loop of `combine_hash`. */
  method Combine(h1: string, h2: string) returns (r: string)
    ensures r == CombineHash(h1, h2)
  {
    if h1 == "" || h2 == "" {
      return "";
    }
    r := [];
    for i := 0 to 32
      invariant |r| == i && forall j :: 0 <= j < i ==> r[j] == HexDigit(DigitOf(h1, j) ^ DigitOf(h2, j))
    {
      r := r + [HexDigit(DigitOf(h1, i) ^ DigitOf(h2, i))];
    }
  }

  // ------------------------------------------------------------ the tree

  /** What a directory holds under a name: a subdirectory (by its id) or a
      file's `[hash, mtime, size]`. */
  datatype Entry = Sub(id: int) | Leaf(hash: string, mtime: Num, size: Num)

  /** A directory object without its `/`-keys: its entries, and their names
      in the order the keys were added. */
  datatype Node = Node(names: seq<string>, children: map<string, Entry>)

  /** The `/size`, `/hash` and `/count` of a directory. */
  datatype Totals = Totals(size: Num, hash: string, count: int)

  /** The id of `directories`, the root. */
  const RootId: int := -1

  /** The directories by id (`id2dir`), and `next_directory_id`. */
  datatype Tree = Tree(dirs: map<int, Node>, nextId: int)

  const EmptyDir: Node := Node([], map[])

  /** Names are listed once each, every entry is listed, and a subdirectory
      has a larger id than its parent and is known by that id. */
  ghost predicate NodeOk(t: Tree, id: int)
    requires id in t.dirs
  {
    var node := t.dirs[id];
    Distinct(node.names) &&
    (forall name :: name in node.children <==> name in node.names) &&
    (forall name :: name in node.children && node.children[name].Sub? ==>
       id < node.children[name].id && node.children[name].id in t.dirs)
  }

  /** The root is known and every id was handed out before `nextId`. */
  ghost predicate Sound(t: Tree) {
    RootId in t.dirs &&
    forall id :: id in t.dirs ==> id < t.nextId && NodeOk(t, id)
  }

  /** `u` is `t` with more: every directory stays, keeps its entries and
      lists its old names first, and every new directory has an id handed
      out in between. */
  ghost predicate Extends(t: Tree, u: Tree) {
    t.nextId <= u.nextId &&
    (forall id :: id in u.dirs && id !in t.dirs ==> t.nextId <= id) &&
    forall id :: id in t.dirs ==>
      id in u.dirs && t.dirs[id].names <= u.dirs[id].names &&
      forall name :: name in t.dirs[id].children ==>
        name in u.dirs[id].children && u.dirs[id].children[name] == t.dirs[id].children[name]
  }

  /** `ret[part] = dir` and `id2dir[id] = dir` for a new, empty `dir`. */
  function AddChild(t: Tree, at: int, part: string): (r: Tree)
    requires Sound(t) && at in t.dirs && part !in t.dirs[at].children
    ensures Sound(r) && Extends(t, r) && r.nextId == t.nextId + 1
    ensures t.nextId in r.dirs && part in r.dirs[at].children && r.dirs[at].children[part] == Sub(t.nextId)
  {
    var node := t.dirs[at];
    var r := Tree(t.dirs[at := Node(node.names + [part], node.children[part := Sub(t.nextId)])][t.nextId := EmptyDir],
                  t.nextId + 1);
    assert NodeOk(r, at);
    assert forall id :: id in r.dirs ==> NodeOk(r, id);
    assert node.names <= r.dirs[at].names;
    r
  }

  /** `get_directory` from directory `at`: follow each part, creating the
      missing directories. None where a part names a file. */
  function Descend(t: Tree, at: int, parts: seq<string>): (r: (Tree, Option<int>))
    requires Sound(t) && at in t.dirs
    ensures Sound(r.0) && t.dirs.Keys <= r.0.dirs.Keys
    ensures r.1.Some? ==> r.1.value in r.0.dirs
    decreases |parts|
  {
    if parts == [] then (t, Some(at))
    else if parts[0] in t.dirs[at].children then
      match t.dirs[at].children[parts[0]]
      case Sub(id) => Descend(t, id, parts[1..])
      case Leaf(_, _, _) => (t, None)
    else
      Descend(AddChild(t, at, parts[0]), t.nextId, parts[1..])
  }

  /** `get_directory` only adds: existing directories keep their entries
      and the new ones get fresh ids. */
  lemma {:induction false} DescendExtends(t: Tree, at: int, parts: seq<string>)
    requires Sound(t) && at in t.dirs
    ensures Extends(t, Descend(t, at, parts).0)
    decreases |parts|
  {
    if parts != [] {
      if parts[0] in t.dirs[at].children {
        if t.dirs[at].children[parts[0]].Sub? {
          DescendExtends(t, t.dirs[at].children[parts[0]].id, parts[1..]);
        }
      } else {
        var t' := AddChild(t, at, parts[0]);
        DescendExtends(t', t.nextId, parts[1..]);
      }
    }
  }

  /** Looking a directory up without creating anything. */
  function Find(t: Tree, at: int, parts: seq<string>): (r: Option<int>)
    requires Sound(t) && at in t.dirs
    ensures r.Some? ==> r.value in t.dirs && at <= r.value
    decreases |parts|
  {
    if parts == [] then Some(at)
    else if parts[0] in t.dirs[at].children && t.dirs[at].children[parts[0]].Sub? then
      Find(t, t.dirs[at].children[parts[0]].id, parts[1..])
    else None
  }

  /** A lookup keeps its answer in any extension of the tree. */
  lemma {:induction false} FindExtends(t: Tree, u: Tree, at: int, parts: seq<string>)
    requires Sound(t) && Sound(u) && Extends(t, u) && at in t.dirs && Find(t, at, parts).Some?
    ensures Find(u, at, parts) == Find(t, at, parts)
    decreases |parts|
  {
    if parts != [] {
      FindExtends(t, u, t.dirs[at].children[parts[0]].id, parts[1..]);
    }
  }

  /** The directory `get_directory` returns is afterwards found by the
      same parts. */
  lemma {:induction false} DescendFinds(t: Tree, at: int, parts: seq<string>)
    requires Sound(t) && at in t.dirs && Descend(t, at, parts).1.Some?
    ensures var (u, dir) := Descend(t, at, parts); Find(u, at, parts) == dir
    decreases |parts|
  {
    if parts != [] {
      var (u, dir) := Descend(t, at, parts);
      if parts[0] in t.dirs[at].children {
        var id := t.dirs[at].children[parts[0]].id;
        DescendFinds(t, id, parts[1..]);
        DescendExtends(t, id, parts[1..]);
      } else {
        var t' := AddChild(t, at, parts[0]);
        DescendFinds(t', t.nextId, parts[1..]);
        DescendExtends(t', t.nextId, parts[1..]);
      }
    }
  }

  /** Where every part is already a directory, `get_directory` creates
      nothing and returns what is there. */
  lemma {:induction false} DescendExisting(t: Tree, at: int, parts: seq<string>)
    requires Sound(t) && at in t.dirs && Find(t, at, parts).Some?
    ensures Descend(t, at, parts) == (t, Find(t, at, parts))
    decreases |parts|
  {
    if parts != [] {
      DescendExisting(t, t.dirs[at].children[parts[0]].id, parts[1..]);
    }
  }

  /** A second `get_directory` of the same path changes nothing and returns
      the same directory. */
  lemma DescendTwice(t: Tree, at: int, parts: seq<string>)
    requires Sound(t) && at in t.dirs && Descend(t, at, parts).1.Some?
    ensures var (u, dir) := Descend(t, at, parts); Descend(u, at, parts) == (u, dir)
  {
    var (u, dir) := Descend(t, at, parts);
    DescendFinds(t, at, parts);
    DescendExisting(u, at, parts);
  }

  /** `dir[filename] = entry`: a new name goes last, an existing one keeps
      its place and loses what it held. */
  function Place(t: Tree, id: int, name: string, entry: Entry): (r: Tree)
    requires Sound(t) && id in t.dirs && entry.Leaf?
    ensures Sound(r) && r.nextId == t.nextId && r.dirs.Keys == t.dirs.Keys
    ensures name in r.dirs[id].children && r.dirs[id].children[name] == entry
    ensures forall d :: d in t.dirs && d != id ==> r.dirs[d] == t.dirs[d]
  {
    var node := t.dirs[id];
    var names := if name in node.children then node.names else node.names + [name];
    var r := Tree(t.dirs[id := Node(names, node.children[name := entry])], t.nextId);
    assert NodeOk(r, id);
    assert forall d :: d in r.dirs ==> NodeOk(r, d);
    r
  }

  /** Placing a file in directory `id` leaves unchanged every lookup that
      ends at `id` or at a directory with a smaller id: the path to a
      directory runs through smaller ids only. */
  lemma {:induction false} FindPlace(t: Tree, at: int, parts: seq<string>, id: int, name: string, entry: Entry)
    requires Sound(t) && at in t.dirs && id in t.dirs && entry.Leaf? && Find(t, at, parts).Some?
    requires Find(t, at, parts).value <= id
    ensures Find(Place(t, id, name, entry), at, parts) == Find(t, at, parts)
    decreases |parts|
  {
    if parts != [] {
      var c := t.dirs[at].children[parts[0]].id;
      FindPlace(t, c, parts[1..], id, name, entry);
    }
  }

  // ------------------------------------------------------------ the index

  /** The paths listed under a hash so far. */
  function Listed(index: map<string, seq<string>>, hash: string): seq<string> {
    if hash in index then index[hash] else []
  }

  /** `index_hash`: the path goes last in its hash's list. */
  function Indexed(index: map<string, seq<string>>, hash: string, path: string): (r: map<string, seq<string>>)
    ensures Listed(r, hash) == Listed(index, hash) + [path]
    ensures forall h :: h != hash ==> Listed(r, h) == Listed(index, h)
    ensures r.Keys == index.Keys + {hash}
  {
    index[hash := Listed(index, hash) + [path]]
  }

  /** `index_hash` for each (hash, path) in turn. */
  function IndexAll(index: map<string, seq<string>>, pairs: seq<(string, string)>): map<string, seq<string>>
    decreases |pairs|
  {
    if pairs == [] then index
    else
      var last := pairs[|pairs| - 1];
      Indexed(IndexAll(index, pairs[..|pairs| - 1]), last.0, last.1)
  }

  lemma {:induction false} IndexAllConcat(index: map<string, seq<string>>, a: seq<(string, string)>, b: seq<(string, string)>)
    ensures IndexAll(index, a + b) == IndexAll(IndexAll(index, a), b)
    decreases |b|
  {
    if b != [] {
      IndexAllConcat(index, a, b[..|b| - 1]);
      assert (a + b)[..|a + b| - 1] == a + b[..|b| - 1];
    } else {
      assert a + b == a;
    }
  }

  // ------------------------------------------------------------- handling

  /** The tree and `hash2paths`. */
  datatype View = View(tree: Tree, hash2paths: map<string, seq<string>>)

  /** Where `handle` got to: the view, and the row where `split_filepath`
      threw, if one did. */
  datatype Handled = Handled(view: View, thrownAt: Option<nat>)

  /** The hash with one leading `?` (a guessed hash's mark) removed. */
  function Unmarked(hash: string): string {
    if |hash| > 0 && hash[0] == '?' then hash[1..] else hash
  }

  /** A row `handle` files: four fields and a path that is not ignored. */
  predicate Filed(row: seq<string>) {
    |row| == 4 && !IsIgnored(row[0])
  }

  /** One row of `handle`; None where `split_filepath` throws. */
  function HandleRow(v: View, row: seq<string>): (r: Option<View>)
    requires Sound(v.tree)
    ensures r.Some? ==> Sound(r.value.tree)
    ensures r.None? <==> Filed(row) && '/' !in row[0]
    ensures r.Some? ==> r.value.hash2paths == if Filed(row) then Indexed(v.hash2paths, Unmarked(row[1]), row[0]) else v.hash2paths
  {
    if !Filed(row) then Some(v)
    else
      var path := row[0];
      var hash := Unmarked(row[1]);
      match SplitFilepath(path)
      case None => None
      case Some((dirpath, name)) =>
        var (t, dir) := Descend(v.tree, RootId, Split(dirpath));
        var t' := if dir.Some? then Place(t, dir.value, name, Leaf(hash, ToNumber(row[2]), ToNumber(row[3]))) else t;
        Some(View(t', Indexed(v.hash2paths, hash, path)))
  }

  /** `handle` from row `i` on. */
  function HandleFrom(v: View, data: seq<seq<string>>, i: nat): (r: Handled)
    requires Sound(v.tree)
    ensures Sound(r.view.tree)
    decreases |data| - i
  {
    if i >= |data| then Handled(v, None)
    else match HandleRow(v, data[i])
      case None => Handled(v, Some(i))
      case Some(v') => HandleFrom(v', data, i + 1)
  }

  /** A filed row whose directory can be reached puts the file, hash
      unmarked, under its name in the directory its path names, and lists
      the path last under that hash. */
  lemma HandleRowPlaces(v: View, row: seq<string>)
    requires Sound(v.tree) && Filed(row) && '/' in row[0]
    requires var (dirpath, _) := SplitFilepath(row[0]).value; Descend(v.tree, RootId, Split(dirpath)).1.Some?
    ensures var (dirpath, name) := SplitFilepath(row[0]).value;
      var v' := HandleRow(v, row).value;
      var id := Descend(v.tree, RootId, Split(dirpath)).1.value;
      && Find(v'.tree, RootId, Split(dirpath)) == Some(id)
      && v'.tree.dirs[id].children[name] == Leaf(Unmarked(row[1]), ToNumber(row[2]), ToNumber(row[3]))
      && Listed(v'.hash2paths, Unmarked(row[1])) == Listed(v.hash2paths, Unmarked(row[1])) + [row[0]]
  {
    var (dirpath, name) := SplitFilepath(row[0]).value;
    var (t, dir) := Descend(v.tree, RootId, Split(dirpath));
    DescendFinds(v.tree, RootId, Split(dirpath));
    FindPlace(t, RootId, Split(dirpath), dir.value, name, Leaf(Unmarked(row[1]), ToNumber(row[2]), ToNumber(row[3])));
  }

  /** The paths of the filed rows `lo` to `hi` whose unmarked hash is
      `hash`, in row order. */
  function Carrying(data: seq<seq<string>>, lo: nat, hi: nat, hash: string): seq<string>
    requires hi <= |data|
    decreases hi - lo
  {
    if lo >= hi then []
    else (if Filed(data[lo]) && Unmarked(data[lo][1]) == hash then [data[lo][0]] else []) + Carrying(data, lo + 1, hi, hash)
  }

  lemma AppendAssociates(a: seq<string>, b: seq<string>, c: seq<string>)
    ensures (a + b) + c == a + (b + c)
  {
  }

  /** `handle` lists, under every hash, the paths of the rows carrying it,
      in row order, up to the row where it threw; it throws only on a filed
      row whose path has no slash. */
  lemma {:induction false} HandleLists(v: View, data: seq<seq<string>>, i: nat)
    requires Sound(v.tree)
    ensures var r := HandleFrom(v, data, i);
      var stop := if r.thrownAt.Some? then r.thrownAt.value else |data|;
      && stop <= |data|
      && (r.thrownAt.Some? ==> i <= stop < |data| && Filed(data[stop]) && '/' !in data[stop][0])
      && forall h :: Listed(r.view.hash2paths, h) == Listed(v.hash2paths, h) + Carrying(data, i, stop, h)
    decreases |data| - i
  {
    if i < |data| {
      var r := HandleFrom(v, data, i);
      match HandleRow(v, data[i])
      case None =>
      case Some(v') =>
        HandleLists(v', data, i + 1);
        var stop := if r.thrownAt.Some? then r.thrownAt.value else |data|;
        assert r == HandleFrom(v', data, i + 1);
        forall h
          ensures Listed(r.view.hash2paths, h) == Listed(v.hash2paths, h) + Carrying(data, i, stop, h)
        {
          var here := if Filed(data[i]) && Unmarked(data[i][1]) == h then [data[i][0]] else [];
          assert Carrying(data, i, stop, h) == here + Carrying(data, i + 1, stop, h);
          assert Listed(v'.hash2paths, h) == Listed(v.hash2paths, h) + here;
          assert Listed(r.view.hash2paths, h) == Listed(v'.hash2paths, h) + Carrying(data, i + 1, stop, h);
          AppendAssociates(Listed(v.hash2paths, h), here, Carrying(data, i + 1, stop, h));
        }
    }
  }

  // ------------------------------------------------------------ traversal

  /** The path `traverse_tree` gives a child: no leading slash at the root. */
  function ChildPath(path: string, name: string): string {
    if path != "" then path + "/" + name else name
  }

  const NoTotals: Totals := Totals(Finite(0), Zero32(), 0)

  /** Adding one child's totals to the running totals, as the body of
      `traverse_tree`'s loop does. */
  function Accumulate(acc: Totals, child: Totals): Totals {
    Totals(Add(acc.size, child.size), CombineHash(acc.hash, child.hash), acc.count + child.count)
  }

  /** What `traverse_tree` stores for directory `id`. */
  function Summary(t: Tree, id: int): (r: Totals)
    requires Sound(t) && id in t.dirs
    ensures r.hash == "" || IsHash(r.hash)
    ensures r.count >= 0
    decreases t.nextId - id, |t.dirs[id].names| + 1
  {
    SummaryOf(t, id, |t.dirs[id].names|)
  }

  /** The running totals after the first `k` children of `id`: sizes and
      counts added up, hashes combined from `'0'*32`. */
  function SummaryOf(t: Tree, id: int, k: nat): (r: Totals)
    requires Sound(t) && id in t.dirs && k <= |t.dirs[id].names|
    ensures r.hash == "" || IsHash(r.hash)
    ensures r.count >= 0
    decreases t.nextId - id, k
  {
    if k == 0 then NoTotals
    else
      Accumulate(SummaryOf(t, id, k - 1), ChildTotals(t, id, t.dirs[id].names[k - 1]))
  }

  /** A subdirectory's totals, or a file's size and hash counting once. */
  function ChildTotals(t: Tree, id: int, name: string): (r: Totals)
    requires Sound(t) && id in t.dirs && name in t.dirs[id].children
    ensures r.count >= 0
    decreases t.nextId - id, 0
  {
    match t.dirs[id].children[name]
    case Sub(c) => Summary(t, c)
    case Leaf(hash, _, size) => Totals(size, hash, 1)
  }

  /** The combined hash is unknown exactly when some child's hash is. */
  lemma {:induction false} SummaryUnknown(t: Tree, id: int, k: nat)
    requires Sound(t) && id in t.dirs && k <= |t.dirs[id].names|
    ensures SummaryOf(t, id, k).hash == "" <==>
      exists j :: 0 <= j < k && ChildTotals(t, id, t.dirs[id].names[j]).hash == ""
  {
    if k > 0 {
      SummaryUnknown(t, id, k - 1);
    }
  }

  /** A directory with a single child has that child's totals; this is why
      such a directory is not listed under its hash. */
  lemma SingleChild(t: Tree, id: int)
    requires Sound(t) && id in t.dirs && |t.dirs[id].names| == 1
    requires var c := ChildTotals(t, id, t.dirs[id].names[0]); c.hash == "" || IsHash(c.hash)
    ensures Summary(t, id) == ChildTotals(t, id, t.dirs[id].names[0])
  {
    var c := ChildTotals(t, id, t.dirs[id].names[0]);
    assert SummaryOf(t, id, 0) == NoTotals;
    assert Add(Finite(0), c.size) == c.size;
    if c.hash != "" {
      CombineZero(c.hash);
    }
  }

  /** The running totals after the children whose totals `cs` lists, in
      that order. */
  function AccumulateAll(acc: Totals, cs: seq<Totals>): Totals
    decreases |cs|
  {
    if cs == [] then acc else Accumulate(AccumulateAll(acc, cs[..|cs| - 1]), cs[|cs| - 1])
  }

  /** The totals of the children `names` of `id`, in that order. */
  function ChildrenTotals(t: Tree, id: int, names: seq<string>): (cs: seq<Totals>)
    requires Sound(t) && id in t.dirs && forall k :: 0 <= k < |names| ==> names[k] in t.dirs[id].children
    ensures |cs| == |names| && forall k :: 0 <= k < |names| ==> cs[k] == ChildTotals(t, id, names[k])
    decreases |names|
  {
    if names == [] then [] else ChildrenTotals(t, id, names[..|names| - 1]) + [ChildTotals(t, id, names[|names| - 1])]
  }

  /** The stored totals are those of the children in the order they were
      added. */
  lemma {:induction false} SummaryOfAccumulates(t: Tree, id: int, k: nat)
    requires Sound(t) && id in t.dirs && k <= |t.dirs[id].names|
    ensures SummaryOf(t, id, k) == AccumulateAll(NoTotals, ChildrenTotals(t, id, t.dirs[id].names[..k]))
  {
    if k > 0 {
      var names := t.dirs[id].names;
      var cs := ChildrenTotals(t, id, names[..k]);
      SummaryOfAccumulates(t, id, k - 1);
      assert names[..k][..k - 1] == names[..k - 1];
      assert cs[..k - 1] == ChildrenTotals(t, id, names[..k - 1]);
      assert AccumulateAll(NoTotals, cs) == Accumulate(AccumulateAll(NoTotals, cs[..k - 1]), cs[k - 1]);
      assert SummaryOf(t, id, k) == Accumulate(SummaryOf(t, id, k - 1), ChildTotals(t, id, names[k - 1]));
    }
  }

  /** Two children can be added in either order. */
  lemma AccumulateSwap(acc: Totals, x: Totals, y: Totals)
    ensures Accumulate(Accumulate(acc, x), y) == Accumulate(Accumulate(acc, y), x)
  {
    AddAssociates(acc.size, x.size, y.size);
    AddAssociates(acc.size, y.size, x.size);
    AddCommutes(x.size, y.size);
    CombineAssociates(acc.hash, x.hash, y.hash);
    CombineAssociates(acc.hash, y.hash, x.hash);
    CombineCommutes(x.hash, y.hash);
  }

  /** Any one child can be added last. */
  lemma {:induction false} AccumulateRemove(acc: Totals, cs: seq<Totals>, j: nat)
    requires j < |cs|
    ensures AccumulateAll(acc, cs) == Accumulate(AccumulateAll(acc, cs[..j] + cs[j + 1..]), cs[j])
    decreases |cs|
  {
    var n := |cs| - 1;
    if j == n {
      assert cs[..j] + cs[j + 1..] == cs[..n];
    } else {
      var init := cs[..n];
      var rest := cs[..j] + cs[j + 1..];
      AccumulateRemove(acc, init, j);
      assert init[j] == cs[j];
      assert init[..j] + init[j + 1..] == rest[..|rest| - 1];
      assert rest[|rest| - 1] == cs[n];
      var before := AccumulateAll(acc, rest[..|rest| - 1]);
      assert AccumulateAll(acc, cs) == Accumulate(Accumulate(before, cs[j]), cs[n]);
      assert AccumulateAll(acc, rest) == Accumulate(before, cs[n]);
      AccumulateSwap(before, cs[j], cs[n]);
    }
  }

  /** Taking one element out of a sequence takes it out of its multiset. */
  lemma RemoveOne<T>(s: seq<T>, j: nat)
    requires j < |s|
    ensures multiset(s) == multiset(s[..j] + s[j + 1..]) + multiset{s[j]}
  {
    assert s == s[..j] + [s[j]] + s[j + 1..];
  }

  /** Two orderings of the same elements stay so once the same element is
      taken out of each. */
  lemma RemoveBoth<T>(a: seq<T>, i: nat, b: seq<T>, j: nat)
    requires i < |a| && j < |b| && a[i] == b[j] && multiset(a) == multiset(b)
    ensures multiset(a[..i] + a[i + 1..]) == multiset(b[..j] + b[j + 1..])
  {
    RemoveOne(a, i);
    RemoveOne(b, j);
    var ma, mb := multiset(a[..i] + a[i + 1..]), multiset(b[..j] + b[j + 1..]);
    forall y
      ensures ma[y] == mb[y]
    {
      assert multiset(a)[y] == ma[y] + multiset{a[i]}[y];
      assert multiset(b)[y] == mb[y] + multiset{b[j]}[y];
    }
  }

  /** Adding the same totals in another order gives the same totals. */
  lemma {:induction false} AccumulatePermutation(acc: Totals, a: seq<Totals>, b: seq<Totals>)
    requires multiset(a) == multiset(b)
    ensures AccumulateAll(acc, a) == AccumulateAll(acc, b)
    decreases |a|
  {
    if a == [] {
      assert |b| == |multiset(b)| == 0;
    } else {
      var n := |a| - 1;
      assert a[n] in multiset(b);
      var j :| 0 <= j < |b| && b[j] == a[n];
      RemoveBoth(a, n, b, j);
      assert a[..n] + a[n + 1..] == a[..n];
      AccumulatePermutation(acc, a[..n], b[..j] + b[j + 1..]);
      AccumulateRemove(acc, b, j);
    }
  }

  /** `f` applied to each element of `s`, in order. */
  function MapSeq<A, B>(f: A -> B, s: seq<A>): (r: seq<B>)
    ensures |r| == |s| && forall k :: 0 <= k < |s| ==> r[k] == f(s[k])
    decreases |s|
  {
    if s == [] then [] else MapSeq(f, s[..|s| - 1]) + [f(s[|s| - 1])]
  }

  /** Mapping two orderings of the same elements gives two orderings of
      the same images. */
  lemma {:induction false} MapPermutation<A, B>(f: A -> B, a: seq<A>, b: seq<A>)
    requires multiset(a) == multiset(b)
    ensures multiset(MapSeq(f, a)) == multiset(MapSeq(f, b))
    decreases |a|
  {
    if a == [] {
      assert |b| == |multiset(b)| == 0;
    } else {
      var n := |a| - 1;
      assert a[n] in multiset(b);
      var j :| 0 <= j < |b| && b[j] == a[n];
      RemoveBoth(a, n, b, j);
      assert a[..n] + a[n + 1..] == a[..n];
      var rest := b[..j] + b[j + 1..];
      MapPermutation(f, a[..n], rest);
      var fa, fb := MapSeq(f, a), MapSeq(f, b);
      RemoveOne(fa, n);
      RemoveOne(fb, j);
      MapRemove(f, a, n);
      MapRemove(f, b, j);
    }
  }

  /** Mapping commutes with taking one element out. */
  lemma MapRemove<A, B>(f: A -> B, s: seq<A>, j: nat)
    requires j < |s|
    ensures MapSeq(f, s)[..j] + MapSeq(f, s)[j + 1..] == MapSeq(f, s[..j] + s[j + 1..])
  {
    var l, r := MapSeq(f, s)[..j] + MapSeq(f, s)[j + 1..], MapSeq(f, s[..j] + s[j + 1..]);
    assert |l| == |r|;
    forall k | 0 <= k < |l|
      ensures l[k] == r[k]
    {
      if k < j {
        assert l[k] == f(s[k]);
      } else {
        assert l[k] == f(s[k + 1]);
      }
    }
  }

  /** Children listed in another order have their totals listed in that
      order. */
  lemma ChildrenPermutation(t: Tree, id: int, a: seq<string>, b: seq<string>)
    requires Sound(t) && id in t.dirs
    requires forall k :: 0 <= k < |a| ==> a[k] in t.dirs[id].children
    requires forall k :: 0 <= k < |b| ==> b[k] in t.dirs[id].children
    requires multiset(a) == multiset(b)
    ensures multiset(ChildrenTotals(t, id, a)) == multiset(ChildrenTotals(t, id, b))
  {
    var f := (n: string) => if n in t.dirs[id].children then ChildTotals(t, id, n) else NoTotals;
    assert ChildrenTotals(t, id, a) == MapSeq(f, a);
    assert ChildrenTotals(t, id, b) == MapSeq(f, b);
    MapPermutation(f, a, b);
  }

  /** `Object.keys` may list a directory's names in an order other than
      the one they were added in (integer-like names come first); the
      totals `traverse_tree` stores do not depend on it. */
  lemma SummaryAnyOrder(t: Tree, id: int, order: seq<string>)
    requires Sound(t) && id in t.dirs && multiset(order) == multiset(t.dirs[id].names)
    ensures forall k :: 0 <= k < |order| ==> order[k] in t.dirs[id].children
    ensures AccumulateAll(NoTotals, ChildrenTotals(t, id, order)) == Summary(t, id)
  {
    var names := t.dirs[id].names;
    OrderedChildren(t, id, order);
    SummaryFold(t, id);
    ChildrenPermutation(t, id, order, names);
    AccumulatePermutation(NoTotals, ChildrenTotals(t, id, order), ChildrenTotals(t, id, names));
  }

  /** The stored totals fold the children's totals in the names' order. */
  lemma SummaryFold(t: Tree, id: int)
    requires Sound(t) && id in t.dirs
    ensures forall k :: 0 <= k < |t.dirs[id].names| ==> t.dirs[id].names[k] in t.dirs[id].children
    ensures Summary(t, id) == AccumulateAll(NoTotals, ChildrenTotals(t, id, t.dirs[id].names))
  {
    var names := t.dirs[id].names;
    assert NodeOk(t, id);
    SummaryOfAccumulates(t, id, |names|);
    assert names[..|names|] == names;
  }

  /** Any ordering of a directory's names names its children. */
  lemma OrderedChildren(t: Tree, id: int, order: seq<string>)
    requires Sound(t) && id in t.dirs && multiset(order) == multiset(t.dirs[id].names)
    ensures forall k :: 0 <= k < |order| ==> order[k] in t.dirs[id].children
  {
    assert NodeOk(t, id);
    forall k | 0 <= k < |order|
      ensures order[k] in t.dirs[id].children
    {
      assert order[k] in multiset(t.dirs[id].names);
    }
  }

  /** The directories `traverse_tree` visits from `id`: `id` itself and,
      through its subdirectories, every directory below it. */
  ghost function Reach(t: Tree, id: int): (r: set<int>)
    requires Sound(t) && id in t.dirs
    ensures id in r && forall d :: d in r ==> d in t.dirs && id <= d
    decreases t.nextId - id, |t.dirs[id].names| + 1
  {
    {id} + ReachOf(t, id, |t.dirs[id].names|)
  }

  ghost function ReachOf(t: Tree, id: int, k: nat): (r: set<int>)
    requires Sound(t) && id in t.dirs && k <= |t.dirs[id].names|
    ensures forall d :: d in r ==> d in t.dirs && id < d
    decreases t.nextId - id, k
  {
    if k == 0 then {}
    else
      ReachOf(t, id, k - 1) + ChildReach(t, id, t.dirs[id].names[k - 1])
  }

  ghost function ChildReach(t: Tree, id: int, name: string): (r: set<int>)
    requires Sound(t) && id in t.dirs && name in t.dirs[id].children
    ensures forall d :: d in r ==> d in t.dirs && id < d
    decreases t.nextId - id, 0
  {
    assert NodeOk(t, id);
    match t.dirs[id].children[name]
    case Sub(c) => Reach(t, c)
    case Leaf(_, _, _) => {}
  }

  /** Each directory of `s` has its summary stored in `totals`. */
  ghost predicate Summarised(totals: map<int, Totals>, t: Tree, s: set<int>)
    requires Sound(t)
  {
    forall d :: d in s ==> d in t.dirs && d in totals && totals[d] == Summary(t, d)
  }

  /** `a` and `b` agree on every directory outside `s`. */
  ghost predicate SameOutside(a: map<int, Totals>, b: map<int, Totals>, s: set<int>) {
    forall d :: d !in s ==> (d in a <==> d in b) && (d in a ==> a[d] == b[d])
  }

  /** Summaries stored for `s1` and then for `s2`, each time touching
      nothing else, are summaries stored for both, touching nothing else. */
  lemma SummarisedUnion(a: map<int, Totals>, b: map<int, Totals>, c: map<int, Totals>, t: Tree, s1: set<int>, s2: set<int>)
    requires Sound(t)
    requires Summarised(b, t, s1) && SameOutside(b, a, s1)
    requires Summarised(c, t, s2) && SameOutside(c, b, s2)
    ensures Summarised(c, t, s1 + s2) && SameOutside(c, a, s1 + s2)
  {
  }

  /** Storing a directory's own summary after its children's completes
      the summaries of everything it reaches. */
  lemma SummarisedOwn(a: map<int, Totals>, b: map<int, Totals>, t: Tree, id: int)
    requires Sound(t) && id in t.dirs
    requires Summarised(b, t, ReachOf(t, id, |t.dirs[id].names|))
    requires SameOutside(b, a, ReachOf(t, id, |t.dirs[id].names|))
    ensures Summarised(b[id := Summary(t, id)], t, Reach(t, id))
    ensures SameOutside(b[id := Summary(t, id)], a, Reach(t, id))
  {
  }

  /** The (hash, path) pairs `traverse_tree` lists, in the order it lists
      them: each subdirectory's, then the directory itself if it has a path
      and more than one child. */
  function Indexing(t: Tree, id: int, path: string): seq<(string, string)>
    requires Sound(t) && id in t.dirs
    decreases t.nextId - id, |t.dirs[id].names| + 1
  {
    IndexingOf(t, id, path, |t.dirs[id].names|) +
    (if path != "" && |t.dirs[id].names| > 1 then [(Summary(t, id).hash, path)] else [])
  }

  function IndexingOf(t: Tree, id: int, path: string, k: nat): seq<(string, string)>
    requires Sound(t) && id in t.dirs && k <= |t.dirs[id].names|
    decreases t.nextId - id, k
  {
    if k == 0 then []
    else
      IndexingOf(t, id, path, k - 1) + ChildIndexing(t, id, path, t.dirs[id].names[k - 1])
  }

  /** What a child adds: a subdirectory's traversal, nothing for a file. */
  function ChildIndexing(t: Tree, id: int, path: string, name: string): seq<(string, string)>
    requires Sound(t) && id in t.dirs && name in t.dirs[id].children
    decreases t.nextId - id, 0
  {
    match t.dirs[id].children[name]
    case Sub(c) => Indexing(t, c, ChildPath(path, name))
    case Leaf(_, _, _) => []
  }

  /** Traversal from a directory with a path never lists the empty path;
      from the root, whose path is empty, only its descendants are listed. */
  lemma {:induction false} IndexingPaths(t: Tree, id: int, path: string)
    requires Sound(t) && id in t.dirs
    ensures forall e :: e in Indexing(t, id, path) ==> e.1 != ""
    decreases t.nextId - id, |t.dirs[id].names| + 1
  {
    IndexingOfPaths(t, id, path, |t.dirs[id].names|);
  }

  lemma {:induction false} IndexingOfPaths(t: Tree, id: int, path: string, k: nat)
    requires Sound(t) && id in t.dirs && k <= |t.dirs[id].names|
    ensures forall e :: e in IndexingOf(t, id, path, k) ==> e.1 != ""
    decreases t.nextId - id, k
  {
    if k > 0 {
      var name := t.dirs[id].names[k - 1];
      IndexingOfPaths(t, id, path, k - 1);
      match t.dirs[id].children[name]
      case Sub(c) => IndexingPaths(t, c, ChildPath(path, name));
      case Leaf(_, _, _) =>
    }
  }

  // ---------------------------------------------------------- the viewer

  /** The viewer's globals: `id2dir` with the directory objects,
      `next_directory_id`, the `/size`, `/hash` and `/count` keys by
      directory id, and `hash2paths`. */
  class Viewer {
    var dirs: map<int, Node>
    var nextId: int
    var totals: map<int, Totals>
    var hash2paths: map<string, seq<string>>

    function CurrentTree(): Tree
      reads this
    {
      Tree(dirs, nextId)
    }

    function Current(): View
      reads this
    {
      View(Tree(dirs, nextId), hash2paths)
    }

    ghost predicate Valid()
      reads this
    {
      Sound(CurrentTree())
    }

    /** An empty root and nothing listed. */
    constructor ()
      ensures Valid()
      ensures dirs == map[RootId := EmptyDir] && nextId == 0 && totals == map[] && hash2paths == map[]
    {
      dirs := map[RootId := EmptyDir];
      nextId := 0;
      totals := map[];
      hash2paths := map[];
    }

    /** `get_directory`. */
    method GetDirectory(dirpath: string) returns (dir: Option<int>)
      requires Valid()
      modifies this
      ensures Valid() && totals == old(totals) && hash2paths == old(hash2paths)
      ensures (CurrentTree(), dir) == Descend(old(CurrentTree()), RootId, Split(dirpath))
    {
      var parts := Split(dirpath);
      ghost var goal := Descend(CurrentTree(), RootId, parts);
      var at := RootId;
      for i := 0 to |parts|
        invariant Valid() && at in dirs && totals == old(totals) && hash2paths == old(hash2paths)
        invariant Descend(CurrentTree(), at, parts[i..]) == goal
      {
        var part := parts[i];
        assert parts[i..][0] == part && parts[i..][1..] == parts[i + 1..];
        if part in dirs[at].children {
          match dirs[at].children[part] {
            case Sub(id) =>
              at := id;
            case Leaf(_, _, _) =>
              return None;
          }
        } else {
          at := NewDirectory(at, part);
        }
      }
      assert parts[|parts|..] == [];
      return Some(at);
    }

    /** The branch of `get_directory` that creates `part` under `at`: the
        next id is handed out and the new, empty directory is entered both
        under its parent and in the id table. */
    method NewDirectory(at: int, part: string) returns (id: int)
      requires Valid() && at in dirs && part !in dirs[at].children
      modifies this
      ensures CurrentTree() == AddChild(old(CurrentTree()), at, part)
      ensures id == old(nextId) && totals == old(totals) && hash2paths == old(hash2paths)
    {
      id := nextId;
      nextId := nextId + 1;
      var node := dirs[at];
      dirs := dirs[at := Node(node.names + [part], node.children[part := Sub(id)])][id := EmptyDir];
    }

    /** `index_hash`. */
    method IndexHash(hash: string, path: string)
      modifies this
      ensures hash2paths == Indexed(old(hash2paths), hash, path)
      ensures dirs == old(dirs) && nextId == old(nextId) && totals == old(totals)
    {
      if hash !in hash2paths {
        hash2paths := hash2paths[hash := []];
      }
      hash2paths := hash2paths[hash := hash2paths[hash] + [path]];
    }

    /** `handle`: file every row after the header; the index of the row
      where `split_filepath` threw, if one did. */
    method Handle(data: seq<seq<string>>) returns (thrownAt: Option<nat>)
      requires Valid()
      modifies this
      ensures Valid() && totals == old(totals)
      ensures Handled(Current(), thrownAt) == HandleFrom(old(Current()), data, 1)
    {
      var i := 1;
      while i < |data|
        invariant i >= 1 && Valid() && totals == old(totals)
        invariant HandleFrom(Current(), data, i) == HandleFrom(old(Current()), data, 1)
        decreases |data| - i
      {
        var thrown := HandleOne(data[i]);
        if thrown {
          return Some(i);
        }
        i := i + 1;
      }
      return None;
    }

    /** The body of `handle`'s loop for one row; true where
      `split_filepath` throws. */
    method HandleOne(row: seq<string>) returns (thrown: bool)
      requires Valid()
      modifies this
      ensures Valid() && totals == old(totals)
      ensures thrown == HandleRow(old(Current()), row).None?
      ensures thrown ==> Current() == old(Current())
      ensures !thrown ==> Current() == HandleRow(old(Current()), row).value
    {
      if |row| != 4 || IsIgnored(row[0]) {
        return false;
      }
      var path := row[0];
      var hash := row[1];
      if |hash| > 0 && hash[0] == '?' {
        hash := hash[1..];
      }
      assert hash == Unmarked(row[1]);
      var split := SplitFilepath(path);
      if split.None? {
        return true;
      }
      var (dirpath, name) := split.value;
      ghost var start := CurrentTree();
      var dir := GetDirectory(dirpath);
      ghost var walked := CurrentTree();
      ghost var placed := walked;
      if dir.Some? {
        var entry := Leaf(hash, ToNumber(row[2]), ToNumber(row[3]));
        placed := Place(walked, dir.value, name, entry);
        var node := dirs[dir.value];
        var names := if name in node.children then node.names else node.names + [name];
        dirs := dirs[dir.value := Node(names, node.children[name := entry])];
        assert dirs == placed.dirs;
      }
      ghost var listed := Indexed(hash2paths, hash, path);
      IndexHash(hash, path);
      assert HandleRow(old(Current()), row).value == View(placed, listed);
      return false;
    }

    /** `traverse_tree` from directory `id`, whose path is `path`: store the
      totals of every directory below, list the hashes of those with a
      path and more than one child, and touch nothing outside. */
    method TraverseTree(id: int, path: string)
      requires Valid() && id in dirs
      modifies this
      ensures dirs == old(dirs) && nextId == old(nextId)
      ensures id in totals && totals[id] == Summary(CurrentTree(), id)
      ensures Summarised(totals, CurrentTree(), Reach(CurrentTree(), id))
      ensures SameOutside(totals, old(totals), Reach(CurrentTree(), id))
      ensures hash2paths == IndexAll(old(hash2paths), Indexing(CurrentTree(), id, path))
      decreases nextId - id, 1
    {
      ghost var t := CurrentTree();
      var names := dirs[id].names;
      var size, hash, count := Finite(0), Zero32(), 0;
      for k := 0 to |names|
        invariant dirs == old(dirs) && nextId == old(nextId)
        invariant Totals(size, hash, count) == SummaryOf(t, id, k)
        invariant Summarised(totals, t, ReachOf(t, id, k))
        invariant SameOutside(totals, old(totals), ReachOf(t, id, k))
        invariant hash2paths == IndexAll(old(hash2paths), IndexingOf(t, id, path, k))
      {
        var name := names[k];
        ghost var before := totals;
        var child := VisitChild(id, path, name, t);
        assert ReachOf(t, id, k + 1) == ReachOf(t, id, k) + ChildReach(t, id, name);
        SummarisedUnion(old(totals), before, totals, t, ReachOf(t, id, k), ChildReach(t, id, name));
        IndexAllConcat(old(hash2paths), IndexingOf(t, id, path, k), ChildIndexing(t, id, path, name));
        size := Add(size, child.size);
        hash := Combine(hash, child.hash);
        count := count + child.count;
      }
      ghost var visited := totals;
      StoreTotals(id, path, Totals(size, hash, count), t, old(hash2paths));
      SummarisedOwn(old(totals), visited, t, id);
    }

    /** The end of `traverse_tree`: store the directory's own totals, and
      list its hash when it has a path and more than one child. */
    method StoreTotals(id: int, path: string, total: Totals, ghost t: Tree, ghost start: map<string, seq<string>>)
      requires Valid() && t == CurrentTree() && id in dirs && total == Summary(t, id)
      requires hash2paths == IndexAll(start, IndexingOf(t, id, path, |dirs[id].names|))
      modifies this
      ensures dirs == old(dirs) && nextId == old(nextId)
      ensures totals == old(totals)[id := total]
      ensures hash2paths == IndexAll(start, Indexing(t, id, path))
    {
      var names := dirs[id].names;
      totals := totals[id := total];
      ghost var listed := IndexingOf(t, id, path, |names|);
      ghost var own := if path != "" && |names| > 1 then [(total.hash, path)] else [];
      assert Indexing(t, id, path) == listed + own;
      IndexAllConcat(start, listed, own);
      if path != "" && |names| > 1 {
        assert IndexAll(hash2paths, own) == Indexed(hash2paths, total.hash, path) by {
          assert own[..0] == [];
        }
        IndexHash(total.hash, path);
      }
    }

    /** The body of `traverse_tree`'s loop for one child: a subdirectory is
      traversed (and its totals stored), a file gives its own size and
      hash and a count of one. */
    method VisitChild(id: int, path: string, name: string, ghost t: Tree) returns (child: Totals)
      requires Valid() && t == CurrentTree() && id in dirs && name in dirs[id].children
      modifies this
      ensures dirs == old(dirs) && nextId == old(nextId)
      ensures child == ChildTotals(t, id, name)
      ensures Summarised(totals, t, ChildReach(t, id, name))
      ensures SameOutside(totals, old(totals), ChildReach(t, id, name))
      ensures hash2paths == IndexAll(old(hash2paths), ChildIndexing(t, id, path, name))
      decreases nextId - id, 0
    {
      match dirs[id].children[name] {
        case Sub(c) =>
          TraverseTree(c, ChildPath(path, name));
          child := totals[c];
        case Leaf(h, _, s) =>
          child := Totals(s, h, 1);
      }
    }

  }
}
