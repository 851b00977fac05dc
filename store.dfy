/** The storage backend (path to bytes) and the document store (File and
    Thumbnail collections) that the upload paths mutate. */
module Storage {
  import opened Wrappers
  import opened Decimal
  import opened Records

  /** What the piped source stream delivered to a write stream: all of its
      bytes and a "finish", or some prefix and an "error" from either the
      source or the write stream. */
  datatype Transfer = Delivered(bytes: Bytes) | Broken(partial: Bytes)

  // ---------------------------------------------------------------------
  // Paths as the file system resolves them.
  // ---------------------------------------------------------------------

  /** `path.join(directory, name)` for the directories and names the core
      passes: one '/' between them (none added after a trailing '/'). */
  function JoinPrefix(dir: string): (pre: string)
    ensures pre == dir || pre == dir + "/"
    ensures pre == "" || pre[|pre| - 1] == '/'
    ensures dir != "" && dir[|dir| - 1] != '/' ==> pre == dir + "/"
  {
    if dir == "" || dir[|dir| - 1] == '/' then dir else dir + "/"
  }

  predicate NoDoubleSlash(s: string)
  {
    forall i :: 0 <= i < |s| - 1 ==> !(s[i] == '/' && s[i + 1] == '/')
  }

  /** Runs of '/' collapsed to one: the spellings of a path that name the
      same file get the same form. */
  function Collapse(s: string): (r: string)
    ensures s != [] ==> r != [] && r[0] == s[0] && r[|r| - 1] == s[|s| - 1]
    decreases |s|
  {
    if |s| < 2 then s
    else if s[0] == '/' && s[1] == '/' then Collapse(s[1..])
    else [s[0]] + Collapse(s[1..])
  }

  /** The file a path names: separators collapsed and a trailing '/'
      dropped, except for the root itself. */
  function Resolve(p: string): string
  {
    var c := Collapse(p);
    if |c| > 1 && c[|c| - 1] == '/' then c[..|c| - 1] else c
  }

  /** A collapsed path holds no "//". */
  lemma {:induction false} CollapseForm(s: string)
    ensures NoDoubleSlash(Collapse(s))
    decreases |s|
  {
    if |s| >= 2 {
      CollapseForm(s[1..]);
      if !(s[0] == '/' && s[1] == '/') {
        var rest := Collapse(s[1..]);
        assert forall i :: 1 <= i < |rest| ==> ([s[0]] + rest)[i] == rest[i - 1];
      }
    }
  }

  /** A resolved path holds no "//" and, unless it is the root, does not
      end in '/'. */
  lemma ResolvedForm(p: string)
    ensures NoDoubleSlash(Resolve(p))
    ensures |Resolve(p)| > 1 ==> Resolve(p)[|Resolve(p)| - 1] != '/'
  {
    var c := Collapse(p);
    CollapseForm(p);
    if |c| > 1 && c[|c| - 1] == '/' {
      assert c[|c| - 2] != '/';
    }
  }

  /** Resolving a resolved path changes nothing. */
  lemma ResolveIdempotent(p: string)
    ensures Resolve(Resolve(p)) == Resolve(p)
  {
    ResolvedForm(p);
    CollapseIdle(Resolve(p));
  }

  /** `a` is a directory on the way to `b`. */
  predicate Above(a: string, b: string)
  {
    |a| < |b| && b[..|a|] == a && (b[|a|] == '/' || (a != "" && a[|a| - 1] == '/'))
  }

  /** The resolved stored paths and the storage directory. */
  function Resolved(objects: map<string, Bytes>, dir: string): set<string>
  {
    {Resolve(dir)} + set p | p in objects :: Resolve(p)
  }

  /** Some path of `paths` is `r` or lies below it. */
  predicate Reaches(paths: set<string>, r: string)
  {
    exists b :: b in paths && (b == r || Above(r, b))
  }

  /** `fs.existsSync(q)` over the stored objects: `q` resolves to a stored
      object or a directory holding one, to the storage directory or a
      directory above it, or to the current directory (the empty path,
      which `path.join` turns into "."). */
  predicate Exists(objects: map<string, Bytes>, dir: string, q: string)
  {
    Resolve(q) == "" || Reaches(Resolved(objects, dir), Resolve(q))
  }

  /** The leading part of `s` up to its first '/'. */
  function FirstSegment(s: string): (r: string)
    ensures '/' !in r && |r| <= |s| && r == s[..|r|]
    ensures |r| < |s| ==> s[|r|] == '/'
    decreases |s|
  {
    if s == [] || s[0] == '/' then [] else [s[0]] + FirstSegment(s[1..])
  }

  /** `n` is the first segment of some path of `paths` after the prefix `c`. */
  predicate Listed(paths: set<string>, c: string, n: string)
  {
    exists b :: b in paths && |c| < |b| && b[..|c|] == c && FirstSegment(b[|c|..]) == n
  }

  /** The first segments of the paths of `paths` after the prefix `c`. */
  function Below(paths: set<string>, c: string): (names: set<string>)
    ensures forall n :: n in names <==> Listed(paths, c, n)
  {
    set b | b in paths && |c| < |b| && b[..|c|] == c :: FirstSegment(b[|c|..])
  }

  /** The names the probe can ask about -- the original name, and any name
      without '/' -- for which `fs.existsSync(path.join(dir, n))` holds. */
  function NamesIn(objects: map<string, Bytes>, dir: string, original: string): (names: set<string>)
    ensures forall n :: '/' !in n && n != "" ==>
      (n in names <==> Exists(objects, dir, JoinPrefix(dir) + n))
    ensures "" in names && Exists(objects, dir, JoinPrefix(dir) + "")
    ensures original in names <==> Exists(objects, dir, JoinPrefix(dir) + original)
  {
    var candidates := Below(Resolved(objects, dir), Collapse(JoinPrefix(dir))) + {"", original};
    StorageDirExists(objects, dir);
    assert JoinPrefix(dir) + "" == JoinPrefix(dir);
    BelowExact(objects, dir);
    set n | n in candidates && Exists(objects, dir, JoinPrefix(dir) + n)
  }

  /** Every name without '/' whose joined path exists is listed below the
      storage directory. */
  lemma BelowExact(objects: map<string, Bytes>, dir: string)
    ensures forall n :: '/' !in n && n != "" && Exists(objects, dir, JoinPrefix(dir) + n) ==>
      n in Below(Resolved(objects, dir), Collapse(JoinPrefix(dir)))
  {
    forall n | '/' !in n && n != "" {
      NameExact(objects, dir, n);
    }
  }

  /** For a name without '/', being listed below the storage directory is
      the existence of the joined path. */
  lemma NameExact(objects: map<string, Bytes>, dir: string, n: string)
    requires '/' !in n && n != ""
    ensures Listed(Resolved(objects, dir), Collapse(JoinPrefix(dir)), n)
        <==> Exists(objects, dir, JoinPrefix(dir) + n)
  {
    ResolveJoin(JoinPrefix(dir), n);
    ListedExact(Resolved(objects, dir), Collapse(JoinPrefix(dir)), n);
  }

  /** A name without '/' is listed after the prefix exactly when some path
      is the prefix and the name, or lies below it. */
  lemma ListedExact(paths: set<string>, c: string, n: string)
    requires '/' !in n && n != ""
    ensures Listed(paths, c, n) <==> Reaches(paths, c + n)
  {
    var r := c + n;
    assert r[|r| - 1] != '/' by { assert r[|r| - 1] == n[|n| - 1] && n[|n| - 1] in n; }
    if Listed(paths, c, n) {
      var b :| b in paths && |c| < |b| && b[..|c|] == c && FirstSegment(b[|c|..]) == n;
      var s := b[|c|..];
      assert b[..|r|] == r by {
        assert b[..|r|] == b[..|c|] + s[..|n|];
      }
      if |n| < |s| {
        assert b[|r|] == s[|n|];
        assert Above(r, b);
      } else {
        assert b == b[..|r|];
      }
    }
    if Reaches(paths, r) {
      var b :| b in paths && (b == r || Above(r, b));
      assert b[..|c|] == c by { assert b[..|r|] == r; }
      FirstSegmentIs(b[|c|..], n);
    }
  }

  lemma {:induction false} FirstSegmentIs(s: string, n: string)
    requires '/' !in n && |n| <= |s| && s[..|n|] == n
    requires |n| < |s| ==> s[|n|] == '/'
    ensures FirstSegment(s) == n
    decreases |n|
  {
    if n != [] {
      assert s[0] == n[0] && n[0] in n;
      FirstSegmentIs(s[1..], n[1..]);
    }
  }

  /** The storage directory itself (`path.join(dir, "")`) always exists. */
  lemma StorageDirExists(objects: map<string, Bytes>, dir: string)
    ensures Exists(objects, dir, JoinPrefix(dir))
  {
    if dir != "" && dir[|dir| - 1] != '/' {
      CollapseAppend(dir, "/");
      assert Collapse(dir + "/") == Collapse(dir) + "/";
      assert (Collapse(dir) + "/")[..|Collapse(dir)|] == Collapse(dir);
    }
  }

  /** A path without "//" is its own collapsed form. */
  lemma {:induction false} CollapseIdle(s: string)
    requires NoDoubleSlash(s)
    ensures Collapse(s) == s
    decreases |s|
  {
    if |s| >= 2 {
      assert !(s[0] == '/' && s[1] == '/');
      CollapseIdle(s[1..]);
      assert [s[0]] + s[1..] == s;
    }
  }

  /** Appending text that neither holds "//" nor makes one at the seam
      commutes with collapsing. */
  lemma {:induction false} CollapseAppend(x: string, y: string)
    requires NoDoubleSlash(y)
    requires x != "" && y != "" ==> !(x[|x| - 1] == '/' && y[0] == '/')
    ensures Collapse(x + y) == Collapse(x) + y
    decreases |x|
  {
    if x == "" {
      assert x + y == y;
      CollapseIdle(y);
    } else if y == "" {
      assert x + y == x;
    } else if |x| == 1 {
      assert (x + y)[1..] == y;
      CollapseIdle(y);
    } else {
      assert (x + y)[1..] == x[1..] + y;
      CollapseAppend(x[1..], y);
    }
  }

  /** A name without '/' joined to a directory resolves to the collapsed
      prefix followed by the name. */
  lemma ResolveJoin(pre: string, n: string)
    requires '/' !in n && n != ""
    ensures Resolve(pre + n) == Collapse(pre) + n
  {
    assert NoDoubleSlash(n);
    CollapseAppend(pre, n);
    assert (Collapse(pre) + n)[|Collapse(pre) + n| - 1] == n[|n| - 1];
    assert n[|n| - 1] in n;
  }

  /** After a directory that ends in '/', one more '/' names the same path. */
  lemma {:induction false} CollapseDoubleSlash(x: string, y: string)
    requires x != "" && x[|x| - 1] == '/'
    ensures Collapse(x + "/" + y) == Collapse(x + y)
    decreases |x|
  {
    if |x| == 1 {
      assert (x + "/" + y)[1..] == x + y;
    } else {
      assert (x + "/" + y)[1..] == x[1..] + "/" + y;
      assert (x + y)[1..] == x[1..] + y;
      CollapseDoubleSlash(x[1..], y);
    }
  }

  /** An id issued by the store: the decimal rendering of a counter value
      below `bound`. */
  predicate IssuedBelow(id: Id, bound: nat)
  {
    AllDigits(id) && ParseDecimal(id) < bound
  }

  /** `fileDB.setThumbnail(fileId, thumbnailId)`: the first File with that
      id gets the thumbnail id in its metadata and is returned, its id, name
      and length kept; no such File gives null. */
  function LinkThumbnail(env: Env, files: seq<FileRecord>, fileId: Id, thumbnailId: Id)
    : (r: (seq<FileRecord>, Option<FileRecord>))
    ensures |r.0| == |files|
    ensures r.1.None? <==> FileById(files, fileId).None?
    ensures r.1.None? ==> r.0 == files
    ensures r.1.Some? ==>
      var f := FileById(files, fileId).value;
      r.1.value == f.(metadata := LinkedMetadata(env, f.metadata, thumbnailId))
    ensures r.1.Some? ==>
      exists k :: 0 <= k < |files| && files[k].id == fileId && (forall j :: 0 <= j < k ==> files[j].id != fileId)
        && r.0 == files[k := r.1.value]
    ensures forall i :: 0 <= i < |files| ==> r.0[i].id == files[i].id
    ensures forall i :: 0 <= i < |files| && files[i].id != fileId ==> r.0[i] == files[i]
  {
    match FirstIndex(files, (f: FileRecord) => f.id == fileId)
    case None => (files, None)
    case Some(k) =>
      var f := files[k];
      var linked := f.(metadata := LinkedMetadata(env, f.metadata, thumbnailId));
      (files[k := linked], Some(linked))
  }

  class Store {
    var objects: map<string, Bytes>
    var files: seq<FileRecord>
    var thumbnails: seq<ThumbnailRecord>
    var nextId: nat

    /** Every record carries an id the store issued, so a new id is fresh. */
    ghost predicate Valid()
      reads this
    {
      && (forall i :: 0 <= i < |files| ==> IssuedBelow(files[i].id, nextId))
      && (forall i :: 0 <= i < |thumbnails| ==> IssuedBelow(thumbnails[i].id, nextId))
    }

    constructor ()
      ensures Valid()
      ensures objects == map[] && files == [] && thumbnails == [] && nextId == 0
    {
      objects, files, thumbnails, nextId := map[], [], [], 0;
    }

    /** A new document id (`new File(...)` / `new Thumbnail(...)`). */
    method NewId() returns (id: Id)
      requires Valid()
      modifies this`nextId
      ensures Valid()
      ensures nextId == old(nextId) + 1 && IssuedBelow(id, nextId)
      ensures forall i :: 0 <= i < |files| ==> files[i].id != id
      ensures forall i :: 0 <= i < |thumbnails| ==> thumbnails[i].id != id
    {
      id := NatToString(nextId);
      ParseNatToString(nextId);
      nextId := nextId + 1;
    }

    /** A write stream on `path` fed by a source stream: the file `path`
        resolves to holds whatever arrived; `ok` is true exactly when
        "finish" was signalled. */
    method Write(path: string, transfer: Transfer) returns (ok: bool)
      modifies this`objects
      ensures ok == transfer.Delivered?
      ensures objects == old(objects)[Resolve(path) := if ok then transfer.bytes else transfer.partial]
    {
      ok := transfer.Delivered?;
      objects := objects[Resolve(path) := if ok then transfer.bytes else transfer.partial];
    }

    /** `getFileSize(path)`: the length of the file `path` resolves to. */
    function SizeOf(path: string): (n: nat)
      reads this
      ensures Resolve(path) in objects ==> n == |objects[Resolve(path)]|
      ensures Resolve(path) !in objects ==> n == 0
    {
      if Resolve(path) in objects then |objects[Resolve(path)]| else 0
    }

    method SaveFile(f: FileRecord)
      requires Valid() && IssuedBelow(f.id, nextId)
      modifies this`files
      ensures Valid()
      ensures files == old(files) + [f]
    {
      files := files + [f];
    }

    method SaveThumbnail(t: ThumbnailRecord)
      requires Valid() && IssuedBelow(t.id, nextId)
      modifies this`thumbnails
      ensures Valid()
      ensures thumbnails == old(thumbnails) + [t]
    {
      thumbnails := thumbnails + [t];
    }

    method SetThumbnail(env: Env, fileId: Id, thumbnailId: Id) returns (updated: Option<FileRecord>)
      requires Valid()
      modifies this`files
      ensures Valid()
      ensures (files, updated) == LinkThumbnail(env, old(files), fileId, thumbnailId)
    {
      var linked := LinkThumbnail(env, files, fileId, thumbnailId);
      files, updated := linked.0, linked.1;
    }
  }
}
