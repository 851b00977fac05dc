/** Preview attachment at ingestion time: `createImageThumbnail.ts` and
    `createVideoThumbnail.ts`. */
module Thumbnails {
  import opened Wrappers
  import opened Records
  import opened Storage

  /** `createVideoThumbnail`: no thumbnail is produced any more; the file
      comes back as it was, whatever the name and user. */
  function CreateVideoThumbnail(file: FileRecord, filename: string, user: UserId): (r: FileRecord)
    ensures r == file
  {
    file
  }

  /** The result depends on the file alone. */
  lemma VideoThumbnailIgnoresNameAndUser(file: FileRecord, n1: string, n2: string, u1: UserId, u2: UserId)
    ensures CreateVideoThumbnail(file, n1, u1) == CreateVideoThumbnail(file, n2, u2)
    ensures CreateVideoThumbnail(file, n1, u1).metadata.hasThumbnail == file.metadata.hasThumbnail
    ensures CreateVideoThumbnail(file, n1, u1).metadata.thumbnailID == file.metadata.thumbnailID
  {
  }

  /** The alias record `processData` saves: the original's storage
      location and IV under the given name and owner. */
  function AliasThumbnail(id: Id, file: FileRecord, filename: string, user: UserId): (t: ThumbnailRecord)
    ensures t.id == id && t.name == filename && t.owner == user
    ensures t.path == file.metadata.filePath && t.iv == file.metadata.iv && t.s3ID == file.metadata.s3ID
  {
    ThumbnailRecord(id, filename, user, file.metadata.iv, file.metadata.filePath, file.metadata.s3ID)
  }

  /** `processData` of createImageThumbnail: save an alias Thumbnail, then
      link it to the file; a null from `setThumbnail` is "Thumbnail Not Set",
      and the saved Thumbnail stays. */
  method AttachImageThumbnail(store: Store, env: Env, file: FileRecord, filename: string, user: UserId)
    returns (r: Result<FileRecord>)
    requires store.Valid()
    modifies store`nextId, store`thumbnails, store`files
    ensures store.Valid()
    ensures store.objects == old(store.objects)
    ensures |store.thumbnails| == |old(store.thumbnails)| + 1
    ensures var t := store.thumbnails[|store.thumbnails| - 1];
      && store.thumbnails == old(store.thumbnails) + [AliasThumbnail(t.id, file, filename, user)]
      && (forall i :: 0 <= i < |old(store.thumbnails)| ==> old(store.thumbnails)[i].id != t.id)
      && var linked := LinkThumbnail(env, old(store.files), file.id, t.id);
      && store.files == linked.0
      && (r.Ok? <==> linked.1.Some?)
      && (r.Ok? ==> r.value == linked.1.value)
      && (r.Err? ==> r.error == ThumbnailNotSet)
  {
    var thumbnailId := store.NewId();
    var thumbnail := AliasThumbnail(thumbnailId, file, filename, user);
    store.SaveThumbnail(thumbnail);

    var updatedFile := store.SetThumbnail(env, file.id, thumbnailId);
    if updatedFile.None? {
      return Err(ThumbnailNotSet);
    }
    r := Ok(updatedFile.value);
  }

  /** `createThumbnail`: never fails; an error yields the original file. */
  method CreateThumbnail(store: Store, env: Env, file: FileRecord, filename: string, user: UserId)
    returns (result: FileRecord)
    requires store.Valid()
    modifies store`nextId, store`thumbnails, store`files
    ensures store.Valid()
    ensures store.objects == old(store.objects)
    ensures |store.thumbnails| == |old(store.thumbnails)| + 1
    ensures var t := store.thumbnails[|store.thumbnails| - 1];
      && store.thumbnails == old(store.thumbnails) + [AliasThumbnail(t.id, file, filename, user)]
      && var linked := LinkThumbnail(env, old(store.files), file.id, t.id);
      && store.files == linked.0
      && result == if linked.1.Some? then linked.1.value else file
  {
    var r := AttachImageThumbnail(store, env, file, filename, user);
    result := if r.Ok? then r.value else file;
  }
}
