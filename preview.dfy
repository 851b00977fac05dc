/** Preview resolution (`getThumbnailData.ts`): an ordered fallback from a
    stored thumbnail, to the file by id, to the file by thumbnail id, ending
    in the original image, one extracted video frame, or an error. */
module Preview {
  import opened Wrappers
  import opened Records

  /** The ffmpeg settings of the frame extraction. */
  datatype FrameOptions = FrameOptions(
    inputOptions: seq<string>,
    seekInput: int,
    frames: int,
    outputOptions: seq<string>,
    format: string)

  /** No audio, from the start, one frame, scaled to fit 320x320, as an
      image. */
  const FrameSettings := FrameOptions(["-an"], 0, 1, ["-vf scale=320:320:force_original_aspect_ratio=decrease"], "image2")

  /** What is piped to the response. */
  datatype PreviewSource =
    | StoredThumbnail(path: string)
    | OriginalImage(path: string, contentType: string)
    | ExtractedFrame(path: string, contentType: string, options: FrameOptions)

  function ThumbnailMatch(user: UserId, id: Id): ThumbnailRecord -> bool
  {
    (t: ThumbnailRecord) => t.id == id && t.owner == user
  }

  function FileIdMatch(user: UserId, id: Id): FileRecord -> bool
  {
    (f: FileRecord) => f.id == id && f.metadata.owner == user
  }

  function ThumbnailIdMatch(user: UserId, id: Id): FileRecord -> bool
  {
    (f: FileRecord) => f.metadata.thumbnailID == id && f.metadata.owner == user
  }

  /** `thumbnailDB.getThumbnailInfo(userId, id)`: the first of the user's
      thumbnails with that id, or None when the user has none. */
  function ThumbnailFor(thumbnails: seq<ThumbnailRecord>, user: UserId, id: Id): (r: Option<ThumbnailRecord>)
    ensures r.None? <==> forall t :: t in thumbnails ==> !(t.id == id && t.owner == user)
    ensures r.Some? ==>
      exists k :: 0 <= k < |thumbnails| && thumbnails[k] == r.value && r.value.id == id && r.value.owner == user
        && forall j :: 0 <= j < k ==> !(thumbnails[j].id == id && thumbnails[j].owner == user)
  {
    FindOne(thumbnails, ThumbnailMatch(user, id))
  }

  /** `File.findOne({ _id: id, "metadata.owner": user })`, falling back to
      `File.findOne({ "metadata.thumbnailID": id, "metadata.owner": user })`:
      one of the user's files whose id or thumbnail id is `id`, by id
      whenever the user has a file with that id, None when the user has
      neither. */
  function FileFor(files: seq<FileRecord>, user: UserId, id: Id): (r: Option<FileRecord>)
    ensures r.None? <==> forall f :: f in files && f.metadata.owner == user ==> f.id != id && f.metadata.thumbnailID != id
    ensures r.Some? ==>
      r.value in files && r.value.metadata.owner == user && (r.value.id == id || r.value.metadata.thumbnailID == id)
    ensures (exists f :: f in files && f.metadata.owner == user && f.id == id) ==> r.Some? && r.value.id == id
  {
    var byId := FindOne(files, FileIdMatch(user, id));
    if byId.Some? then byId else FindOne(files, ThumbnailIdMatch(user, id))
  }

  predicate OnDisk(path: Option<string>, onDisk: set<string>)
  {
    Truthy(path) && path.value in onDisk
  }

  /** The end of the chain for a file that was found: "File missing on
      disk" unless its path is set and exists; then the original when it is
      an image, one extracted frame when it is a video, and "Unsupported
      file type" otherwise. */
  function ServeFile(f: FileRecord, onDisk: set<string>, env: Env): (r: Result<PreviewSource>)
    ensures r == Err(NotFound("File missing on disk")) <==> !OnDisk(f.metadata.filePath, onDisk)
    ensures (r.Ok? && r.value.OriginalImage?) <==> OnDisk(f.metadata.filePath, onDisk) && env.isImage(f.filename)
    ensures (r.Ok? && r.value.ExtractedFrame?) <==>
      OnDisk(f.metadata.filePath, onDisk) && !env.isImage(f.filename) && env.isVideo(f.filename)
    ensures r == Err(NotFound("Unsupported file type")) <==>
      OnDisk(f.metadata.filePath, onDisk) && !env.isImage(f.filename) && !env.isVideo(f.filename)
    ensures r.Ok? ==>
      !r.value.StoredThumbnail? && Some(r.value.path) == f.metadata.filePath && r.value.contentType == "image/jpeg"
    ensures r.Ok? && r.value.ExtractedFrame? ==> r.value.options == FrameSettings
  {
    var filePath := f.metadata.filePath;
    if !OnDisk(filePath, onDisk) then Err(NotFound("File missing on disk"))
    else if env.isImage(f.filename) then Ok(OriginalImage(filePath.value, "image/jpeg"))
    else if env.isVideo(f.filename) then Ok(ExtractedFrame(filePath.value, "image/jpeg", FrameSettings))
    else Err(NotFound("Unsupported file type"))
  }

  /** The chain after the lookups: a usable thumbnail, else "File not
      found" without a file, else the file served as above. */
  function ServeLookups(thumb: Option<ThumbnailRecord>, file: Option<FileRecord>, onDisk: set<string>, env: Env)
    : (r: Result<PreviewSource>)
    ensures thumb.Some? && OnDisk(thumb.value.path, onDisk) ==> r == Ok(StoredThumbnail(thumb.value.path.value))
    ensures !(thumb.Some? && OnDisk(thumb.value.path, onDisk)) ==>
      r == if file.None? then Err(NotFound("File not found")) else ServeFile(file.value, onDisk, env)
    ensures r.Ok? ==> r.value.path in onDisk && r.value.path != ""
    ensures r.Ok? && !r.value.StoredThumbnail? ==> r.value.contentType == "image/jpeg"
    ensures r.Ok? && r.value.ExtractedFrame? ==> r.value.options == FrameSettings
  {
    if thumb.Some? && OnDisk(thumb.value.path, onDisk) then Ok(StoredThumbnail(thumb.value.path.value))
    else
      match file
      case None => Err(NotFound("File not found"))
      case Some(f) => ServeFile(f, onDisk, env)
  }

  /** `processData`. `user` is None when the request has no user id;
      `onDisk` is the set of paths `fs.existsSync` accepts. The file lookups
      matter only when no usable thumbnail was found. */
  function ResolvePreview(files: seq<FileRecord>, thumbnails: seq<ThumbnailRecord>, onDisk: set<string>,
                          user: Option<UserId>, id: Id, env: Env): (r: Result<PreviewSource>)
    ensures user.None? ==> r == Err(Forbidden("Invalid user"))
    ensures r.Ok? ==> r.value.path in onDisk && r.value.path != ""
    ensures r.Ok? && !r.value.StoredThumbnail? ==> r.value.contentType == "image/jpeg"
    ensures r.Ok? && r.value.ExtractedFrame? ==> r.value.options == FrameSettings
  {
    match user
    case None => Err(Forbidden("Invalid user"))
    case Some(u) => ServeLookups(ThumbnailFor(thumbnails, u, id), FileFor(files, u, id), onDisk, env)
  }

  /** What a served preview rests on, stated over the tables: a thumbnail
      of the user's with that id, or a file of the user's whose id or
      thumbnail id is `id`, of the kind the preview says. */
  ghost predicate Justified(files: seq<FileRecord>, thumbnails: seq<ThumbnailRecord>, user: UserId, id: Id,
                            env: Env, p: PreviewSource)
  {
    match p
    case StoredThumbnail(path) =>
      exists t :: t in thumbnails && t.id == id && t.owner == user && t.path == Some(path)
    case OriginalImage(path, _) =>
      exists f :: f in files && f.metadata.owner == user && (f.id == id || f.metadata.thumbnailID == id)
        && f.metadata.filePath == Some(path) && env.isImage(f.filename)
    case ExtractedFrame(path, _, _) =>
      exists f :: f in files && f.metadata.owner == user && (f.id == id || f.metadata.thumbnailID == id)
        && f.metadata.filePath == Some(path) && !env.isImage(f.filename) && env.isVideo(f.filename)
  }

  /** Every preview served is one of the user's own records, of the right
      kind. */
  lemma PreviewIsJustified(files: seq<FileRecord>, thumbnails: seq<ThumbnailRecord>, onDisk: set<string>,
                           user: UserId, id: Id, env: Env)
    requires ResolvePreview(files, thumbnails, onDisk, Some(user), id, env).Ok?
    ensures Justified(files, thumbnails, user, id, env, ResolvePreview(files, thumbnails, onDisk, Some(user), id, env).value)
  {
    var thumb := ThumbnailFor(thumbnails, user, id);
    if thumb.Some? && OnDisk(thumb.value.path, onDisk) {
      assert thumb.value in thumbnails;
    }
  }

  /** "File not found" exactly when the user has no usable thumbnail with
      that id and no file whose id or thumbnail id is `id`. */
  lemma NotFoundExactly(files: seq<FileRecord>, thumbnails: seq<ThumbnailRecord>, onDisk: set<string>,
                        user: UserId, id: Id, env: Env)
    ensures ResolvePreview(files, thumbnails, onDisk, Some(user), id, env) == Err(NotFound("File not found"))
      <==> && !(ThumbnailFor(thumbnails, user, id).Some? && OnDisk(ThumbnailFor(thumbnails, user, id).value.path, onDisk))
           && (forall f :: f in files && f.metadata.owner == user ==> f.id != id && f.metadata.thumbnailID != id)
  {
    var file := FileFor(files, user, id);
    if file.Some? {
      var r := ServeFile(file.value, onDisk, env);
      assert r != Err(NotFound("File not found"));
    }
  }

  /** A usable thumbnail always wins: when the user's first thumbnail with
      that id has a path on disk, it is what is served, whatever the files
      say. */
  lemma UsableThumbnailServed(files: seq<FileRecord>, thumbnails: seq<ThumbnailRecord>, onDisk: set<string>,
                              user: UserId, id: Id, env: Env, k: nat)
    requires k < |thumbnails| && thumbnails[k].id == id && thumbnails[k].owner == user
    requires forall j :: 0 <= j < k ==> !(thumbnails[j].id == id && thumbnails[j].owner == user)
    requires OnDisk(thumbnails[k].path, onDisk)
    ensures ResolvePreview(files, thumbnails, onDisk, Some(user), id, env)
         == Ok(StoredThumbnail(thumbnails[k].path.value))
  {
    assert thumbnails[k] in thumbnails;
    var t := ThumbnailFor(thumbnails, user, id);
    var i :| 0 <= i < |thumbnails| && thumbnails[i] == t.value && t.value.id == id && t.value.owner == user
        && forall j :: 0 <= j < i ==> !(thumbnails[j].id == id && thumbnails[j].owner == user);
    assert i == k;
  }

  /** Without a usable thumbnail, a file of the user's whose `_id` is `id`
      takes precedence over any file whose thumbnail id is `id`: the first
      such file is served. */
  lemma FileByIdTakesPrecedence(files: seq<FileRecord>, thumbnails: seq<ThumbnailRecord>, onDisk: set<string>,
                                user: UserId, id: Id, env: Env, k: nat)
    requires !(ThumbnailFor(thumbnails, user, id).Some? && OnDisk(ThumbnailFor(thumbnails, user, id).value.path, onDisk))
    requires k < |files| && files[k].id == id && files[k].metadata.owner == user
    requires forall j :: 0 <= j < k ==> !(files[j].id == id && files[j].metadata.owner == user)
    ensures ResolvePreview(files, thumbnails, onDisk, Some(user), id, env) == ServeFile(files[k], onDisk, env)
  {
    assert files[k] in files;
    var byId := FindOne(files, FileIdMatch(user, id));
    var i :| 0 <= i < |files| && files[i] == byId.value && FileIdMatch(user, id)(files[i])
        && forall j :: 0 <= j < i ==> !FileIdMatch(user, id)(files[j]);
    assert !(i < k) && !(k < i);
  }

  /** Without a usable thumbnail and without a file of the user's with
      that `_id`, the user's first file whose thumbnail id is `id` is
      served. */
  lemma ThumbnailIdFallback(files: seq<FileRecord>, thumbnails: seq<ThumbnailRecord>, onDisk: set<string>,
                            user: UserId, id: Id, env: Env, k: nat)
    requires !(ThumbnailFor(thumbnails, user, id).Some? && OnDisk(ThumbnailFor(thumbnails, user, id).value.path, onDisk))
    requires forall f :: f in files && f.metadata.owner == user ==> f.id != id
    requires k < |files| && files[k].metadata.thumbnailID == id && files[k].metadata.owner == user
    requires forall j :: 0 <= j < k ==> !(files[j].metadata.thumbnailID == id && files[j].metadata.owner == user)
    ensures ResolvePreview(files, thumbnails, onDisk, Some(user), id, env) == ServeFile(files[k], onDisk, env)
  {
    assert files[k] in files;
    assert FindOne(files, FileIdMatch(user, id)).None?;
    var byThumb := FindOne(files, ThumbnailIdMatch(user, id));
    var i :| 0 <= i < |files| && files[i] == byThumb.value && ThumbnailIdMatch(user, id)(files[i])
        && forall j :: 0 <= j < i ==> !ThumbnailIdMatch(user, id)(files[j]);
    assert !(i < k) && !(k < i);
  }

  /** Searching the user's own thumbnails with the owner test dropped
      gives the same answer. */
  lemma ScopedThumbnailLookup(thumbnails: seq<ThumbnailRecord>, user: UserId, id: Id)
    ensures ThumbnailFor(thumbnails, user, id)
         == FindOne(Filter(thumbnails, ThumbnailIsOwnedBy(user)), (t: ThumbnailRecord) => t.id == id)
  {
    FindOneConjunction(thumbnails, (t: ThumbnailRecord) => t.id == id, ThumbnailIsOwnedBy(user),
                       ThumbnailMatch(user, id));
  }

  /** Searching the user's own files with the owner test dropped gives the
      same answers, for both lookups. */
  lemma ScopedFileLookup(files: seq<FileRecord>, user: UserId, id: Id)
    ensures FindOne(files, FileIdMatch(user, id))
         == FindOne(Filter(files, IsOwnedBy(user)), (f: FileRecord) => f.id == id)
    ensures FindOne(files, ThumbnailIdMatch(user, id))
         == FindOne(Filter(files, IsOwnedBy(user)), (f: FileRecord) => f.metadata.thumbnailID == id)
  {
    FindOneConjunction(files, (f: FileRecord) => f.id == id, IsOwnedBy(user), FileIdMatch(user, id));
    FindOneConjunction(files, (f: FileRecord) => f.metadata.thumbnailID == id, IsOwnedBy(user),
                       ThumbnailIdMatch(user, id));
  }

  /** Other users' records never affect a preview: tables that agree on
      the user's own records give the same outcome. */
  lemma OthersRecordsIrrelevant(files1: seq<FileRecord>, thumbnails1: seq<ThumbnailRecord>,
                                files2: seq<FileRecord>, thumbnails2: seq<ThumbnailRecord>,
                                onDisk: set<string>, user: UserId, id: Id, env: Env)
    requires Filter(files1, IsOwnedBy(user)) == Filter(files2, IsOwnedBy(user))
    requires Filter(thumbnails1, ThumbnailIsOwnedBy(user)) == Filter(thumbnails2, ThumbnailIsOwnedBy(user))
    ensures ResolvePreview(files1, thumbnails1, onDisk, Some(user), id, env)
         == ResolvePreview(files2, thumbnails2, onDisk, Some(user), id, env)
  {
    ScopedThumbnailLookup(thumbnails1, user, id);
    ScopedThumbnailLookup(thumbnails2, user, id);
    ScopedFileLookup(files1, user, id);
    ScopedFileLookup(files2, user, id);
  }
}
