/** Batch ("folder") ingestion (`getFolderUploadBusboyData.ts`): per-item
    metadata arrives as "file-data" fields, file parts are matched to it by
    index, and "finish" fires when the committed count equals the announced
    total. */
module FolderUpload {
  import opened Wrappers
  import opened Decimal
  import opened Records
  import opened Storage
  import opened UniqueName
  import opened Thumbnails

  /** A parsed "file-data" entry (`FileDataType`); the stream is not kept. */
  datatype FileData = FileData(
    name: string,
    size: int,
    fileType: string,
    path: string,
    index: string,
    uploadedFileId: Option<Id>)

  /** The payload of a "finish" event: `{ fileDataMap, parent }`. */
  datatype Finish = Finish(fileDataMap: map<string, FileData>, parent: string)

  /** What one file part led to. */
  datatype ItemOutcome = Ignored | Uploaded(file: FileRecord) | UploadFailed

  /** Images at or above this length (15 MiB) get no thumbnail. */
  const ImageThumbnailLimit: int := 15728640

  // ---------------------------------------------------------------------
  // The completion counter.
  // ---------------------------------------------------------------------

  /** `totalFiles`, `processed`, and the values of `processed` at which
      "finish" was emitted. */
  datatype Progress = Progress(totalFiles: Numeric, processed: nat, finishedAt: seq<nat>)

  /** The events that move the counter: a "total-files" field, an item that
      was uploaded and committed, and an item whose upload failed. */
  datatype ProgressEvent = TotalFilesField(total: Numeric) | ItemCommitted | ItemFailed

  const InitialProgress := Progress(Num(0), 0, [])

  /** `totalFiles = Number(val)`, and `processed++` followed by the
      `processed === totalFiles` test; a failed item changes nothing. */
  function Advance(p: Progress, e: ProgressEvent): (q: Progress)
    ensures q.processed == p.processed + (if e.ItemCommitted? then 1 else 0)
    ensures e.TotalFilesField? ==> q.totalFiles == e.total && q.finishedAt == p.finishedAt
    ensures !e.TotalFilesField? ==> q.totalFiles == p.totalFiles
    ensures e.ItemFailed? ==> q == p
    ensures e.ItemCommitted? ==>
      q.finishedAt == p.finishedAt + (if p.totalFiles == Num(q.processed) then [q.processed] else [])
  {
    match e
    case TotalFilesField(t) => p.(totalFiles := t)
    case ItemFailed => p
    case ItemCommitted =>
      var n := p.processed + 1;
      p.(processed := n, finishedAt := p.finishedAt + (if p.totalFiles == Num(n) then [n] else []))
  }

  function Run(p: Progress, trace: seq<ProgressEvent>): Progress
    decreases |trace|
  {
    if trace == [] then p else Run(Advance(p, trace[0]), trace[1..])
  }

  function Committed(trace: seq<ProgressEvent>): (n: nat)
    ensures n <= |trace|
    decreases |trace|
  {
    if trace == [] then 0 else (if trace[0].ItemCommitted? then 1 else 0) + Committed(trace[1..])
  }

  predicate NoTotalField(trace: seq<ProgressEvent>)
  {
    forall i :: 0 <= i < |trace| ==> !trace[i].TotalFilesField?
  }

  /** "finish" fired at processed values that strictly increase, none above
      the current count. */
  predicate FinishesIncreasing(p: Progress)
  {
    && (forall i, j :: 0 <= i < j < |p.finishedAt| ==> p.finishedAt[i] < p.finishedAt[j])
    && (forall i :: 0 <= i < |p.finishedAt| ==> p.finishedAt[i] <= p.processed)
  }

  /** Whatever fields and items arrive, "finish" never fires twice at the
      same count; so for any one value of the total it fires at most once. */
  lemma {:induction false} FinishesStayIncreasing(p: Progress, trace: seq<ProgressEvent>)
    requires FinishesIncreasing(p)
    ensures FinishesIncreasing(Run(p, trace))
    ensures Run(p, trace).processed == p.processed + Committed(trace)
    decreases |trace|
  {
    if trace != [] {
      FinishesStayIncreasing(Advance(p, trace[0]), trace[1..]);
    }
  }

  /** With the total fixed at `t`: "finish" has fired once if the count
      has reached `t`, and never otherwise. */
  predicate FiredOnceAt(p: Progress, t: int)
  {
    p.totalFiles == Num(t) && p.finishedAt == (if 1 <= t <= p.processed then [t] else [])
  }

  lemma {:induction false} FixedTotalFiresOnce(p: Progress, t: int, trace: seq<ProgressEvent>)
    requires FiredOnceAt(p, t) && NoTotalField(trace)
    ensures FiredOnceAt(Run(p, trace), t)
    ensures Run(p, trace).processed == p.processed + Committed(trace)
    decreases |trace|
  {
    if trace != [] {
      assert NoTotalField(trace[1..]) by {
        forall i | 0 <= i < |trace[1..]| ensures !trace[1..][i].TotalFilesField? {
          assert trace[1..][i] == trace[i + 1];
        }
      }
      FixedTotalFiresOnce(Advance(p, trace[0]), t, trace[1..]);
    }
  }

  /** A batch whose "total-files" field comes first finishes exactly once
      if at least `t >= 1` items commit, and never otherwise. */
  lemma BatchFinishesOnce(t: int, trace: seq<ProgressEvent>)
    requires NoTotalField(trace)
    ensures var q := Run(Advance(InitialProgress, TotalFilesField(Num(t))), trace);
      |q.finishedAt| == if 1 <= t <= Committed(trace) then 1 else 0
  {
    FixedTotalFiresOnce(Advance(InitialProgress, TotalFilesField(Num(t))), t, trace);
  }

  lemma {:induction false} FailureLowersCommitted(trace: seq<ProgressEvent>, k: nat)
    requires k < |trace| && trace[k].ItemFailed?
    ensures Committed(trace) < |trace|
    decreases |trace|
  {
    if k > 0 {
      FailureLowersCommitted(trace[1..], k - 1);
    }
  }

  /** A batch of `t` parts one of which fails never finishes: a failed item
      is never counted and nothing else makes up for it. */
  lemma FailedItemStallsBatch(t: int, trace: seq<ProgressEvent>, k: nat)
    requires NoTotalField(trace) && |trace| == t
    requires k < |trace| && trace[k].ItemFailed?
    ensures Run(Advance(InitialProgress, TotalFilesField(Num(t))), trace).finishedAt == []
  {
    FailureLowersCommitted(trace, k);
    FixedTotalFiresOnce(Advance(InitialProgress, TotalFilesField(Num(t))), t, trace);
  }

  /** A total announced once the count has already reached it never
      matches: the test runs only after an increment. */
  lemma LateTotalNeverFires(p: Progress, t: int, trace: seq<ProgressEvent>)
    requires t <= p.processed && NoTotalField(trace)
    ensures Run(Advance(p, TotalFilesField(Num(t))), trace).finishedAt == p.finishedAt
  {
    LateTotalNeverFiresFrom(Advance(p, TotalFilesField(Num(t))), t, trace);
  }

  lemma {:induction false} LateTotalNeverFiresFrom(p: Progress, t: int, trace: seq<ProgressEvent>)
    requires p.totalFiles == Num(t) && t <= p.processed && NoTotalField(trace)
    ensures Run(p, trace).finishedAt == p.finishedAt
    decreases |trace|
  {
    if trace != [] {
      assert NoTotalField(trace[1..]) by {
        forall i | 0 <= i < |trace[1..]| ensures !trace[1..][i].TotalFilesField? {
          assert trace[1..][i] == trace[i + 1];
        }
      }
      LateTotalNeverFiresFrom(Advance(p, trace[0]), t, trace[1..]);
    }
  }

  // ---------------------------------------------------------------------
  // Per-item decisions of handleFinish.
  // ---------------------------------------------------------------------

  /** The committed length: measured on disk when the backend is "fs" and
      a file path is set, the declared size otherwise. */
  function RecordedLength(dbType: string, filePath: Option<string>, measured: nat, declared: int): (n: int)
    ensures dbType == "fs" && Truthy(filePath) ==> n == measured
    ensures dbType != "fs" || !Truthy(filePath) ==> n == declared
  {
    if dbType == "fs" && Truthy(filePath) then measured else declared
  }

  datatype PreviewAction = VideoThumbnail | ImageThumbnail | NoPreview

  /** The attach-preview policy, first match wins: a video when video
      thumbnails are enabled, else an image below the limit, else nothing. */
  function PreviewPolicy(isVideo: bool, videoThumbnailsEnabled: bool, isImage: bool, length: int)
    : (a: PreviewAction)
    ensures a == VideoThumbnail <==> isVideo && videoThumbnailsEnabled
    ensures a == ImageThumbnail <==> !(isVideo && videoThumbnailsEnabled) && isImage && length < ImageThumbnailLimit
    ensures a == NoPreview <==> !(isVideo && videoThumbnailsEnabled) && !(isImage && length < ImageThumbnailLimit)
  {
    if isVideo && videoThumbnailsEnabled then VideoThumbnail
    else if length < ImageThumbnailLimit && isImage then ImageThumbnail
    else NoPreview
  }

  /** The metadata `uploadFile` builds: whatever the "parent" field says, an
      item is filed under "/" with no thumbnail and `processingFile` set. */
  function ItemMetadata(user: UserId, fileSize: int, filePath: string): (m: Metadata)
    ensures m.parent == "/" && m.parentList == "/" && m.owner == user
    ensures !m.hasThumbnail && m.thumbnailID == "" && !m.isVideo && m.processingFile
    ensures m.size == fileSize && m.filePath == Some(filePath)
  {
    Metadata(
      owner := user, parent := "/", parentList := "/",
      hasThumbnail := false, thumbnailID := "", isVideo := false,
      size := fileSize, filePath := Some(filePath), s3ID := None, iv := None,
      processingFile := true)
  }

  /** A record just appended under a fresh id is what a lookup of that id
      finds. */
  lemma {:induction false} FreshRecordIsFound(files: seq<FileRecord>, f: FileRecord)
    requires forall i :: 0 <= i < |files| ==> files[i].id != f.id
    ensures FileById(files + [f], f.id) == Some(f)
  {
    var k := FirstIndex(files + [f], (g: FileRecord) => g.id == f.id);
    assert (files + [f])[|files|].id == f.id;
    assert k == Some(|files|);
  }

  /** Linking a thumbnail to a record just appended under a fresh id
      rewrites that record and nothing else. */
  lemma LinkFreshRecord(env: Env, files: seq<FileRecord>, f: FileRecord, thumbnailId: Id)
    requires forall i :: 0 <= i < |files| ==> files[i].id != f.id
    ensures var linked := f.(metadata := LinkedMetadata(env, f.metadata, thumbnailId));
      LinkThumbnail(env, files + [f], f.id, thumbnailId) == (files + [linked], Some(linked))
  {
    FreshRecordIsFound(files, f);
    var linked := f.(metadata := LinkedMetadata(env, f.metadata, thumbnailId));
    var k := FirstIndex(files + [f], (g: FileRecord) => g.id == f.id);
    assert (files + [f])[|files|].id == f.id;
    assert k == Some(|files|);
    assert (files + [f])[|files| := linked] == files + [linked];
  }

  /** What `uploadFile` leaves behind: the bytes that arrived at the
      directory, "/" and the first free sanitized name; once the write
      finished, the unsanitized name and the metadata for that path. */
  ghost predicate FileStored(env: Env, user: UserId, filename: string, source: Transfer, fileSize: int,
                             objects0: map<string, Bytes>, objects1: map<string, Bytes>,
                             r: Result<(string, Metadata)>, name: string)
  {
    var cleanName := env.sanitize(filename);
    var path := env.storageDir + "/" + name;
    && (r.Ok? <==> source.Delivered?)
    && (r.Err? ==> r.error == StorageFailure)
    && IsFirstFree(NamesIn(objects0, env.storageDir, cleanName), cleanName, name)
    && objects1 == objects0[Resolve(path) := if r.Ok? then source.bytes else source.partial]
    && (r.Ok? ==> r.value == (filename, ItemMetadata(user, fileSize, path)))
  }

  /** `uploadFile`: the storage path is the directory, "/", and the
      collision-free sanitized name; the bytes are written there; on
      "finish" the unsanitized name and the metadata are handed on. */
  method UploadFile(store: Store, env: Env, user: UserId, filename: string, source: Transfer, fileSize: int)
    returns (r: Result<(string, Metadata)>, ghost name: string)
    modifies store`objects
    ensures FileStored(env, user, filename, source, fileSize, old(store.objects), store.objects, r, name)
  {
    var sanitizedName := env.sanitize(filename);
    var storageDirectory := env.storageDir;
    var newName := UniqueFileName(NamesIn(store.objects, storageDirectory, sanitizedName), sanitizedName);
    name := newName;
    var metadata := ItemMetadata(user, fileSize, storageDirectory + "/" + newName);

    var finished := store.Write(metadata.filePath.value, source);
    if !finished {
      r := Err(StorageFailure);
      return;
    }
    r := Ok((filename, metadata));
  }

  /** What `handleFinish` leaves behind, given the size it measured on
      disk: the File committed under a fresh id with the recorded length and
      `isVideo` recomputed from the name; for an image under the limit, an
      alias Thumbnail saved and linked to it; otherwise no Thumbnail. */
  ghost predicate FinishCommitted(env: Env, user: UserId, filename: string, metadata: Metadata, measured: nat,
                                  files0: seq<FileRecord>, thumbnails0: seq<ThumbnailRecord>,
                                  files1: seq<FileRecord>, thumbnails1: seq<ThumbnailRecord>, file: FileRecord)
  {
    var length := RecordedLength(env.dbType, metadata.filePath, measured, metadata.size);
    var current := FileRecord(file.id, filename, length, metadata.(isVideo := env.isVideo(filename)));
    var action := PreviewPolicy(env.isVideo(filename), env.videoThumbnailsEnabled, env.isImage(filename), length);
    && (forall i :: 0 <= i < |files0| ==> files0[i].id != file.id)
    && (action != ImageThumbnail ==>
          file == current && files1 == files0 + [current] && thumbnails1 == thumbnails0)
    && (action == ImageThumbnail ==>
          && |thumbnails1| == |thumbnails0| + 1
          && var t := thumbnails1[|thumbnails1| - 1];
          && thumbnails1 == thumbnails0 + [AliasThumbnail(t.id, current, filename, user)]
          && file == current.(metadata := LinkedMetadata(env, current.metadata, t.id))
          && files1 == files0 + [file])
  }

  /** `handleFinish`: choose the length, commit the record, then apply the
      preview policy. */
  method HandleFinish(store: Store, env: Env, user: UserId, filename: string, metadata: Metadata)
    returns (file: FileRecord)
    requires store.Valid()
    modifies store`nextId, store`files, store`thumbnails
    ensures store.Valid()
    ensures var measured := if metadata.filePath.Some? then old(store.SizeOf(metadata.filePath.value)) else 0;
      FinishCommitted(env, user, filename, metadata, measured,
                      old(store.files), old(store.thumbnails), store.files, store.thumbnails, file)
  {
    var measured := if metadata.filePath.Some? then store.SizeOf(metadata.filePath.value) else 0;
    var length := RecordedLength(env.dbType, metadata.filePath, measured, metadata.size);

    var video := env.isVideo(filename);
    var id := store.NewId();
    var currentFile := FileRecord(id, filename, length, metadata.(isVideo := video));
    ghost var before := store.files;
    store.SaveFile(currentFile);

    var isImage := env.isImage(filename);
    match PreviewPolicy(video, env.videoThumbnailsEnabled, isImage, length)
    case VideoThumbnail =>
      file := CreateVideoThumbnail(currentFile, filename, user);
    case ImageThumbnail =>
      file := CreateThumbnail(store, env, currentFile, filename, user);
      LinkFreshRecord(env, before, currentFile, store.thumbnails[|store.thumbnails| - 1].id);
    case NoPreview =>
      file := currentFile;
  }

  /** What `processQueueItem` leaves behind for one item: its bytes at the
      directory, "/" and the first free sanitized name; for a delivered
      part, the File `handleFinish` commits (measured at the size that
      arrived) under the item's own name; for a broken one, no record. */
  ghost predicate ItemProcessed(env: Env, user: UserId, fileData: FileData, source: Transfer, name: string,
                                objects0: map<string, Bytes>, files0: seq<FileRecord>, thumbnails0: seq<ThumbnailRecord>,
                                objects1: map<string, Bytes>, files1: seq<FileRecord>, thumbnails1: seq<ThumbnailRecord>,
                                r: Result<FileRecord>)
  {
    var cleanName := env.sanitize(fileData.name);
    var path := env.storageDir + "/" + name;
    && (r.Ok? <==> source.Delivered?)
    && (r.Err? ==> r.error == StorageFailure && files1 == files0 && thumbnails1 == thumbnails0)
    && IsFirstFree(NamesIn(objects0, env.storageDir, cleanName), cleanName, name)
    && objects1 == objects0[Resolve(path) := if r.Ok? then source.bytes else source.partial]
    && (r.Ok? ==> FinishCommitted(env, user, fileData.name, ItemMetadata(user, fileData.size, path),
                                  |source.bytes|, files0, thumbnails0, files1, thumbnails1, r.value))
  }

  /** The storage part of `processQueueItem`: `uploadFile`, then, once the
      write finished, `handleFinish`. */
  method ProcessItem(store: Store, env: Env, user: UserId, fileData: FileData, source: Transfer)
    returns (r: Result<FileRecord>, ghost name: string)
    requires store.Valid()
    modifies store`objects, store`files, store`thumbnails, store`nextId
    ensures store.Valid()
    ensures ItemProcessed(env, user, fileData, source, name, old(store.objects), old(store.files), old(store.thumbnails),
                          store.objects, store.files, store.thumbnails, r)
  {
    ghost var objects0, files0, thumbnails0 := store.objects, store.files, store.thumbnails;
    var uploaded;
    uploaded, name := UploadFile(store, env, user, fileData.name, source, fileData.size);
    if uploaded.Err? {
      r := Err(StorageFailure);
      ItemProcessedBy(env, user, fileData, source, name, objects0, files0, thumbnails0,
                      store.objects, store.files, store.thumbnails, uploaded, r);
      return;
    }
    var (filename, metadata) := uploaded.value;
    ghost var objects1 := store.objects;
    var file := FinishItem(store, env, user, filename, metadata, source.bytes);
    r := Ok(file);
    ItemProcessedBy(env, user, fileData, source, name, objects0, files0, thumbnails0,
                    objects1, store.files, store.thumbnails, uploaded, r);
  }

  /** `uploadFile` and `handleFinish` together, as `processQueueItem` runs
      them, leave behind what `ItemProcessed` describes. */
  lemma ItemProcessedBy(env: Env, user: UserId, fileData: FileData, source: Transfer, name: string,
                        objects0: map<string, Bytes>, files0: seq<FileRecord>, thumbnails0: seq<ThumbnailRecord>,
                        objects1: map<string, Bytes>, files1: seq<FileRecord>, thumbnails1: seq<ThumbnailRecord>,
                        uploaded: Result<(string, Metadata)>, r: Result<FileRecord>)
    requires FileStored(env, user, fileData.name, source, fileData.size, objects0, objects1, uploaded, name)
    requires uploaded.Err? ==> r == Err(StorageFailure) && files1 == files0 && thumbnails1 == thumbnails0
    requires uploaded.Ok? ==> r.Ok? && FinishCommitted(env, user, uploaded.value.0, uploaded.value.1, |source.bytes|,
                                                      files0, thumbnails0, files1, thumbnails1, r.value)
    ensures ItemProcessed(env, user, fileData, source, name, objects0, files0, thumbnails0,
                          objects1, files1, thumbnails1, r)
  {
  }

  /** `handleFinish` for an item whose bytes are all at its path: the size
      it measures is the number of bytes that arrived. */
  method FinishItem(store: Store, env: Env, user: UserId, filename: string, metadata: Metadata, ghost bytes: Bytes)
    returns (file: FileRecord)
    requires store.Valid()
    requires metadata.filePath.Some? && Resolve(metadata.filePath.value) in store.objects
    requires store.objects[Resolve(metadata.filePath.value)] == bytes
    modifies store`nextId, store`files, store`thumbnails
    ensures store.Valid()
    ensures FinishCommitted(env, user, filename, metadata, |bytes|,
                            old(store.files), old(store.thumbnails), store.files, store.thumbnails, file)
  {
    file := HandleFinish(store, env, user, filename, metadata);
  }

  /** `processData`: the per-batch state the busboy handlers update. */
  class FolderUpload {
    const store: Store
    const env: Env
    const user: UserId
    var formData: map<string, string>
    var fileDataMap: map<string, FileData>
    var parent: string
    var progress: Progress
    var finishes: seq<Finish>
    var transportErrors: nat

    /** One "finish" payload per recorded firing; firings strictly increase. */
    ghost predicate Valid()
      reads this, store
    {
      store.Valid() && |finishes| == |progress.finishedAt| && FinishesIncreasing(progress)
    }

    constructor (store: Store, env: Env, user: UserId)
      requires store.Valid()
      ensures Valid()
      ensures this.store == store && this.env == env && this.user == user
      ensures formData == map[] && fileDataMap == map[] && parent == ""
      ensures progress == InitialProgress && finishes == [] && transportErrors == 0
    {
      this.store := store;
      this.env := env;
      this.user := user;
      formData := map[];
      fileDataMap := map[];
      parent := "";
      progress := InitialProgress;
      finishes := [];
      transportErrors := 0;
    }

    /** The "field" handler. Every field is recorded in `formData`;
        "file-data" is parsed (`parsed` is the result of `JSON.parse(val)`,
        None when it throws, after `formData` was already updated) and
        stored under its index; "total-files" and "parent" set their
        variables. `ok` is false when the handler throws. */
    method OnField(field: string, val: string, parsed: Option<FileData>) returns (ok: bool)
      requires Valid()
      modifies this`formData, this`fileDataMap, this`progress, this`parent
      ensures Valid()
      ensures ok <==> field != "file-data" || parsed.Some?
      ensures formData == old(formData)[field := val]
      ensures fileDataMap == if field == "file-data" && parsed.Some?
                             then old(fileDataMap)[parsed.value.index := parsed.value]
                             else old(fileDataMap)
      ensures progress == if field == "total-files"
                          then Advance(old(progress), TotalFilesField(JsNumber(val)))
                          else old(progress)
      ensures parent == if field == "parent" then val else old(parent)
    {
      formData := formData[field := val];

      if field == "file-data" {
        if parsed.None? {
          return false;
        }
        var fd := parsed.value;
        fileDataMap := fileDataMap[fd.index := fd];
      }

      if field == "total-files" {
        progress := Advance(progress, TotalFilesField(JsNumber(val)));
      }

      if field == "parent" {
        parent := val;
      }
      ok := true;
    }

    /** The "file" handler followed by `processQueueItem`. A part whose
        index has no "file-data" entry is ignored. Otherwise the item is
        uploaded and committed, its id recorded, and only then counted; a
        failed upload is neither counted nor reported. */
    method OnFile(index: string, source: Transfer) returns (outcome: ItemOutcome, ghost name: string)
      requires Valid()
      modifies this`fileDataMap, this`progress, this`finishes
      modifies store`objects, store`files, store`thumbnails, store`nextId
      ensures Valid()
      ensures index !in old(fileDataMap) ==>
        outcome == Ignored && fileDataMap == old(fileDataMap) && progress == old(progress)
        && finishes == old(finishes) && store.files == old(store.files)
        && store.thumbnails == old(store.thumbnails) && store.objects == old(store.objects)
      ensures index in old(fileDataMap) ==>
        && (outcome.UploadFailed? <==> source.Broken?)
        && ItemProcessed(env, user, old(fileDataMap)[index], source, name,
                         old(store.objects), old(store.files), old(store.thumbnails),
                         store.objects, store.files, store.thumbnails,
                         if outcome.Uploaded? then Ok(outcome.file) else Err(StorageFailure))
      ensures outcome.UploadFailed? ==>
        fileDataMap == old(fileDataMap) && progress == old(progress) && finishes == old(finishes)
      ensures outcome.Uploaded? ==>
        && index in old(fileDataMap)
        && fileDataMap == old(fileDataMap)[index := old(fileDataMap)[index].(uploadedFileId := Some(outcome.file.id))]
        && progress == Advance(old(progress), ItemCommitted)
        && finishes == old(finishes) + (if old(progress).totalFiles == Num(progress.processed)
                                        then [Finish(fileDataMap, parent)] else [])
    {
      if index !in fileDataMap {
        return Ignored, "";
      }
      var fileData := fileDataMap[index];

      var processedItem;
      processedItem, name := ProcessItem(store, env, user, fileData, source);
      if processedItem.Err? {
        outcome := UploadFailed;
        return;
      }
      var file := processedItem.value;
      CountCommitted(index, file.id);
      outcome := Uploaded(file);
    }

    /** The tail of `processQueueItem` once the record is committed: the
        id is written back to the item, the item counted, and "finish"
        fires when the count reaches the declared total. */
    method CountCommitted(index: string, id: Id)
      requires Valid() && index in fileDataMap
      modifies this`fileDataMap, this`progress, this`finishes
      ensures Valid()
      ensures fileDataMap == old(fileDataMap)[index := old(fileDataMap)[index].(uploadedFileId := Some(id))]
      ensures progress == Advance(old(progress), ItemCommitted)
      ensures finishes == old(finishes) + (if old(progress).totalFiles == Num(progress.processed)
                                           then [Finish(fileDataMap, parent)] else [])
    {
      fileDataMap := fileDataMap[index := fileDataMap[index].(uploadedFileId := Some(id))];

      var total := progress.totalFiles;
      progress := Advance(progress, ItemCommitted);
      if total == Num(progress.processed) {
        finishes := finishes + [Finish(fileDataMap, parent)];
      }
    }

    /** A "busboy" or request "error" event. */
    method OnTransportError()
      modifies this`transportErrors
      ensures transportErrors == old(transportErrors) + 1
    {
      transportErrors := transportErrors + 1;
    }
  }
}
