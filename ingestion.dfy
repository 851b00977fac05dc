/** Single-file ingestion (`getBusboyData.ts`): write the bytes, measure the
    stored object, then commit the File record. */
module Ingestion {
  import opened Wrappers
  import opened Decimal
  import opened Records
  import opened Storage
  import opened UniqueName

  /** The metadata `handleUpload` builds: owned by the user, under the
      parent (`[parent].toString()` of a one-element array is the element),
      no thumbnail, still processing. */
  function UploadMetadata(user: UserId, parent: string, isVideo: bool, size: int, path: string): (m: Metadata)
    ensures m.owner == user && m.parent == parent && m.parentList == parent
    ensures !m.hasThumbnail && m.thumbnailID == "" && m.processingFile
    ensures m.isVideo == isVideo && m.size == size && m.filePath == Some(path)
  {
    Metadata(
      owner := user, parent := parent, parentList := parent,
      hasThumbnail := false, thumbnailID := "", isVideo := isVideo,
      size := size, filePath := Some(path), s3ID := None, iv := None,
      processingFile := true)
  }

  /** What `handleUpload` leaves behind: the bytes (all of them, or what
      arrived before the failure) at the storage directory concatenated
      with the first free sanitized name; for a finished write, the File
      appended under a fresh id, named by the sanitized name, with the
      length measured on disk and no thumbnail; for a broken one, no
      record. The declared `size` never reaches the record. */
  ghost predicate Uploaded(env: Env, user: UserId, filename: string, parent: string, source: Transfer,
                           objects0: map<string, Bytes>, files0: seq<FileRecord>,
                           objects1: map<string, Bytes>, files1: seq<FileRecord>, r: Result<FileRecord>,
                           name: string)
  {
    var cleanName := env.sanitize(filename);
    var fullPath := env.storageDir + name;
    && (r.Ok? <==> source.Delivered?)
    && (r.Err? ==> r.error == StorageFailure && files1 == files0)
    && (r.Ok? ==> files1 == files0 + [r.value])
    && (r.Ok? ==> forall i :: 0 <= i < |files0| ==> files0[i].id != r.value.id)
    && IsFirstFree(NamesIn(objects0, env.storageDir, cleanName), cleanName, name)
    && objects1 == objects0[Resolve(fullPath) := if r.Ok? then source.bytes else source.partial]
    && (r.Ok? ==>
      && r.value.filename == cleanName
      && r.value.length == |source.bytes|
      && r.value.metadata == UploadMetadata(user, parent, env.isVideo(cleanName), |source.bytes|, fullPath))
  }

  /** `handleUpload`. The bytes are written to the storage directory
      concatenated with the collision-free name (no separator is inserted);
      only when the write finishes is the size re-measured and the record
      saved. */
  method HandleUpload(store: Store, env: Env, user: UserId, filename: string, source: Transfer,
                      parent: string, size: Numeric)
    returns (r: Result<FileRecord>, ghost name: string)
    requires store.Valid()
    modifies store`objects, store`files, store`nextId
    ensures store.Valid()
    ensures Uploaded(env, user, filename, parent, source, old(store.objects), old(store.files),
                     store.objects, store.files, r, name)
  {
    var cleanName := env.sanitize(filename);
    var storageDirectory := env.storageDir;
    var finalFileName := UniqueFileName(NamesIn(store.objects, storageDirectory, cleanName), cleanName);
    var fullPath := storageDirectory + finalFileName;
    name := finalFileName;
    ghost var objects0, files0 := store.objects, store.files;
    r := WriteAndCommit(store, env, user, cleanName, fullPath, source, parent, size);
    UploadedBy(env, user, filename, parent, source, objects0, files0, store.objects, store.files, r, name);
  }

  /** The rest of `handleUpload` once the path is chosen: write, and only
      when the write finishes, measure the stored object and save the
      record with that size. */
  method WriteAndCommit(store: Store, env: Env, user: UserId, cleanName: string, fullPath: string,
                        source: Transfer, parent: string, size: Numeric)
    returns (r: Result<FileRecord>)
    requires store.Valid()
    modifies store`objects, store`files, store`nextId
    ensures store.Valid()
    ensures r.Ok? <==> source.Delivered?
    ensures store.objects == old(store.objects)[Resolve(fullPath) := if r.Ok? then source.bytes else source.partial]
    ensures r.Err? ==> r.error == StorageFailure && store.files == old(store.files)
    ensures r.Ok? ==>
      && store.files == old(store.files) + [r.value]
      && (forall i :: 0 <= i < |old(store.files)| ==> old(store.files)[i].id != r.value.id)
      && r.value.filename == cleanName
      && r.value.length == |source.bytes|
      && r.value.metadata == UploadMetadata(user, parent, env.isVideo(cleanName), |source.bytes|, fullPath)
  {
    // A NaN declared size is held as 0 here; it is overwritten below anyway.
    var declared := match size case Num(n) => n case NaN => 0;
    var metadata := UploadMetadata(user, parent, env.isVideo(cleanName), declared, fullPath);

    var finished := store.Write(fullPath, source);
    if !finished {
      return Err(StorageFailure);
    }

    metadata := metadata.(size := store.SizeOf(fullPath));
    assert metadata == UploadMetadata(user, parent, env.isVideo(cleanName), |source.bytes|, fullPath);

    var id := store.NewId();
    var fileDoc := FileRecord(id, cleanName, metadata.size, metadata);
    store.SaveFile(fileDoc);
    r := Ok(fileDoc);
  }

  /** `Uploaded` with the name the probe settled on given. */
  lemma UploadedBy(env: Env, user: UserId, filename: string, parent: string, source: Transfer,
                   objects0: map<string, Bytes>, files0: seq<FileRecord>,
                   objects1: map<string, Bytes>, files1: seq<FileRecord>, r: Result<FileRecord>, name: string)
    requires var cleanName := env.sanitize(filename);
      && (r.Ok? <==> source.Delivered?)
      && (r.Err? ==> r.error == StorageFailure && files1 == files0)
      && (r.Ok? ==> files1 == files0 + [r.value])
      && (r.Ok? ==> forall i :: 0 <= i < |files0| ==> files0[i].id != r.value.id)
      && IsFirstFree(NamesIn(objects0, env.storageDir, cleanName), cleanName, name)
      && var fullPath := env.storageDir + name;
      && objects1 == objects0[Resolve(fullPath) := if r.Ok? then source.bytes else source.partial]
      && (r.Ok? ==>
        && r.value.filename == cleanName
        && r.value.length == |source.bytes|
        && r.value.metadata == UploadMetadata(user, parent, env.isVideo(cleanName), |source.bytes|, fullPath))
    ensures Uploaded(env, user, filename, parent, source, objects0, files0, objects1, files1, r, name)
  {
  }

  /** A name that sanitizes to nothing names the storage directory itself,
      which always exists, so the probe numbers it. */
  lemma EmptyNameIsNumbered(objects: map<string, Bytes>, dir: string, name: string)
    requires IsFirstFree(NamesIn(objects, dir, ""), "", name)
    ensures name != ""
  {
    FirstFreeIsProbe(NamesIn(objects, dir, ""), "", name);
  }

  /** The probe tests `path.join(dir, name)`, so the name it settles on is
      free there. The folder upload writes `dir + "/" + name`, the same file
      for any non-empty directory; the single upload writes `dir + name`,
      the same file only when the directory ends in '/'. */
  lemma ProbedPathIsFree(objects: map<string, Bytes>, dir: string, original: string, name: string)
    requires IsFirstFree(NamesIn(objects, dir, original), original, name)
    ensures !Exists(objects, dir, JoinPrefix(dir) + name)
    ensures dir != "" ==> !Exists(objects, dir, dir + "/" + name)
    ensures dir != "" && dir[|dir| - 1] == '/' ==> !Exists(objects, dir, dir + name)
  {
    FirstFreeIsProbe(NamesIn(objects, dir, original), original, name);
    if dir != "" && dir[|dir| - 1] == '/' {
      CollapseDoubleSlash(dir, name);
      assert Resolve(dir + "/" + name) == Resolve(dir + name);
    }
  }

  /** Without a trailing '/', a file a single upload wrote is invisible to
      the next probe: after "a.txt" was uploaded to "/data" (and stored as
      "/dataa.txt"), a second upload of "a.txt" picks "a.txt" again and
      replaces the first. */
  lemma WrittenPathNotProbed(dir: string, name: string, bytes: Bytes)
    requires dir != "" && dir[|dir| - 1] != '/'
    requires name != "" && '/' !in name
    ensures var objects := map[Resolve(dir + name) := bytes];
      && Exists(objects, dir, dir + name)
      && name !in NamesIn(objects, dir, name)
      && IsFirstFree(NamesIn(objects, dir, name), name, name)
  {
    var objects := map[Resolve(dir + name) := bytes];
    var c := Collapse(dir);
    ResolveJoin(dir, name);
    ResolveJoin(dir + "/", name);
    CollapseAppend(dir, "/");
    assert Resolve(dir) == c;
    var r := Resolve(dir + "/" + name);
    assert r == c + "/" + name;
    ResolveIdempotent(dir + name);
    assert Resolve(dir + name) in Resolved(objects, dir);
    assert forall b :: b in Resolved(objects, dir) ==> |b| < |r|;
    assert !Exists(objects, dir, JoinPrefix(dir) + name);
    assert name == Probe(name, 0);
  }

  /** What the upload signals for one file part (or for a transport error). */
  datatype Outcome = Finished(file: FileRecord, parent: string) | Failed(error: Error)

  /** The handler result an outcome reports. */
  function Reported(o: Outcome): Result<FileRecord>
  {
    match o
    case Finished(file, _) => Ok(file)
    case Failed(e) => Err(e)
  }

  /** An outcome built from a handler result reports that result. */
  lemma OutcomeReports(env: Env, user: UserId, filename: string, parent: string, source: Transfer,
                       objects0: map<string, Bytes>, files0: seq<FileRecord>,
                       objects1: map<string, Bytes>, files1: seq<FileRecord>, r: Result<FileRecord>,
                       name: string, o: Outcome)
    requires Uploaded(env, user, filename, parent, source, objects0, files0, objects1, files1, r, name)
    requires o == match r case Ok(file) => Finished(file, parent) case Err(e) => Failed(e)
    ensures o.Finished? ==> o.parent == parent
    ensures Uploaded(env, user, filename, parent, source, objects0, files0, objects1, files1, Reported(o), name)
  {
    assert Reported(o) == r;
  }

  /** `processBusboy`: the `parent` and `size` fields seen so far, and every
      outcome emitted; the upload promise settles with the first of them. */
  class SingleUpload {
    const store: Store
    const env: Env
    const user: UserId
    var parent: string
    var size: Numeric
    var outcomes: seq<Outcome>

    constructor (store: Store, env: Env, user: UserId)
      ensures this.store == store && this.user == user
      ensures parent == "/" && size == Num(0) && outcomes == []
    {
      this.store := store;
      this.env := env;
      this.user := user;
      parent := "/";
      size := Num(0);
      outcomes := [];
    }

    /** The "field" handler: `parent` and `size` are taken, others ignored. */
    method OnField(field: string, val: string)
      modifies this`parent, this`size
      ensures parent == if field == "parent" then val else old(parent)
      ensures size == if field == "size" then JsNumber(val) else old(size)
    {
      if field == "parent" { parent := val; }
      if field == "size" { size := JsNumber(val); }
    }

    /** The "file" handler: exactly one outcome per file part, carrying
        what `handleUpload` did to the store; thumbnails are untouched. */
    method OnFile(filename: string, source: Transfer) returns (ghost name: string)
      requires store.Valid()
      modifies this`outcomes, store`objects, store`files, store`nextId
      ensures store.Valid() && store.thumbnails == old(store.thumbnails)
      ensures |outcomes| == |old(outcomes)| + 1 && outcomes[..|old(outcomes)|] == old(outcomes)
      ensures var last := outcomes[|outcomes| - 1];
        && (last.Finished? ==> last.parent == parent)
        && Uploaded(env, user, filename, parent, source, old(store.objects), old(store.files),
                    store.objects, store.files, Reported(last), name)
    {
      var r;
      r, name := HandleUpload(store, env, user, filename, source, parent, size);
      var outcome := match r
        case Ok(fileDoc) => Finished(fileDoc, parent)
        case Err(e) => Failed(e);
      outcomes := outcomes + [outcome];
      OutcomeReports(env, user, filename, parent, source, old(store.objects), old(store.files),
                     store.objects, store.files, r, name, outcomes[|outcomes| - 1]);
    }

    /** A "busboy" or request "error" event. */
    method OnTransportError()
      modifies this`outcomes
      ensures outcomes == old(outcomes) + [Failed(StorageFailure)]
    {
      outcomes := outcomes + [Failed(StorageFailure)];
    }

    /** `uploadFileToStorage`'s promise: settled by the first outcome. */
    function Settlement(): (s: Option<Outcome>)
      reads this
      ensures s.None? <==> outcomes == []
      ensures s.Some? ==> s.value == outcomes[0]
    {
      if outcomes == [] then None else Some(outcomes[0])
    }
  }
}
