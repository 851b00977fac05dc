/** The records the transfer core reads and writes (the File and Thumbnail
    models), the deployment environment, and the first-match lookups that
    stand for the document store's `findOne`. */
module Records {
  import opened Wrappers

  type Id = string
  type UserId = string

  newtype byte = x: int | 0 <= x < 256
  type Bytes = seq<byte>

  /** FileMetadateInterface: the `metadata` sub-document of a File. */
  datatype Metadata = Metadata(
    owner: UserId,
    parent: string,
    parentList: string,
    hasThumbnail: bool,
    thumbnailID: string,
    isVideo: bool,
    size: int,
    filePath: Option<string>,
    s3ID: Option<string>,
    iv: Option<Bytes>,
    processingFile: bool)

  /** A File document; `uploadDate` is left out. */
  datatype FileRecord = FileRecord(id: Id, filename: string, length: int, metadata: Metadata)

  /** A Thumbnail document. */
  datatype ThumbnailRecord = ThumbnailRecord(
    id: Id,
    name: string,
    owner: UserId,
    iv: Option<Bytes>,
    path: Option<string>,
    s3ID: Option<string>)

  /** Configuration and the helpers whose code is not part of this model:
      `getFSStoragePath()`, `env.dbType`, `env.videoThumbnailsEnabled`,
      the `sanitize-filename` package, the repository's own
      `sanitizeFilename`, `encodeURIComponent`, `imageChecker` and
      `videoChecker`, and the update `fileDB.setThumbnail` applies to a
      File's metadata. */
  datatype Env = Env(
    storageDir: string,
    dbType: string,
    videoThumbnailsEnabled: bool,
    sanitize: string -> string,
    sanitizeFilename: string -> string,
    encodeURIComponent: string -> string,
    isImage: string -> bool,
    isVideo: string -> bool,
    linkMetadata: (Metadata, Id) -> Metadata)

  /** The metadata `fileDB.setThumbnail` leaves on the File it links: the
      thumbnail id is set and the owner kept; every other field, the
      `hasThumbnail` flag included, is whatever the foreign update makes of
      it. */
  function LinkedMetadata(env: Env, m: Metadata, thumbnailId: Id): (r: Metadata)
    ensures r.thumbnailID == thumbnailId && r.owner == m.owner
  {
    env.linkMetadata(m, thumbnailId).(thumbnailID := thumbnailId, owner := m.owner)
  }

  /** JavaScript truthiness of an optional string field. */
  predicate Truthy(s: Option<string>) { s.Some? && s.value != "" }

  /** The position of the first element satisfying `p`: Mongo's `findOne`
      over a collection kept in insertion order. */
  function FirstIndex<T>(s: seq<T>, p: T -> bool): (r: Option<nat>)
    ensures r.Some? ==> r.value < |s| && p(s[r.value])
    ensures r.Some? ==> forall j :: 0 <= j < r.value ==> !p(s[j])
    ensures r.None? ==> forall j :: 0 <= j < |s| ==> !p(s[j])
    decreases |s|
  {
    if s == [] then None
    else if p(s[0]) then Some(0)
    else match FirstIndex(s[1..], p)
      case None => None
      case Some(k) => Some(k + 1)
  }

  /** The first element satisfying `p`, or None when none does. */
  function FindOne<T>(s: seq<T>, p: T -> bool): (r: Option<T>)
    ensures r.None? <==> forall x :: x in s ==> !p(x)
    ensures r.Some? ==> exists k :: 0 <= k < |s| && s[k] == r.value && p(s[k]) && forall j :: 0 <= j < k ==> !p(s[j])
  {
    match FirstIndex(s, p)
    case None => None
    case Some(k) => Some(s[k])
  }

  /** The elements of `s` satisfying `q`, in order. */
  function Filter<T>(s: seq<T>, q: T -> bool): (r: seq<T>)
    ensures |r| <= |s|
    ensures forall x :: x in r ==> x in s && q(x)
    ensures forall i :: 0 <= i < |s| && q(s[i]) ==> s[i] in r
    decreases |s|
  {
    if s == [] then [] else (if q(s[0]) then [s[0]] else []) + Filter(s[1..], q)
  }

  /** Searching for `p && q` is searching the `q`-elements for `p`: a query
      with an extra condition sees only the records meeting it. */
  lemma {:induction false} FindOneConjunction<T>(s: seq<T>, p: T -> bool, q: T -> bool, pq: T -> bool)
    requires forall x :: pq(x) == (p(x) && q(x))
    ensures FindOne(s, pq) == FindOne(Filter(s, q), p)
    decreases |s|
  {
    if s != [] {
      FindOneConjunction(s[1..], p, q, pq);
      var rest := Filter(s[1..], q);
      if q(s[0]) {
        assert Filter(s, q) == [s[0]] + rest;
        if !p(s[0]) {
          assert ([s[0]] + rest)[1..] == rest;
        }
      } else {
        assert Filter(s, q) == rest;
      }
    }
  }

  /** `File.findOne({_id})`: the first File carrying the id. */
  function FileById(files: seq<FileRecord>, id: Id): (r: Option<FileRecord>)
    ensures r.None? <==> forall f :: f in files ==> f.id != id
    ensures r.Some? ==> r.value in files && r.value.id == id
  {
    FindOne(files, (f: FileRecord) => f.id == id)
  }

  function IsOwnedBy(user: UserId): FileRecord -> bool
  {
    (f: FileRecord) => f.metadata.owner == user
  }

  function ThumbnailIsOwnedBy(user: UserId): ThumbnailRecord -> bool
  {
    (t: ThumbnailRecord) => t.owner == user
  }
}
