# driveCloneThing transfer core in Dafny

This project models the backend transfer helpers of driveCloneThing, a self-hosted file drive, and the title of its upload panel:

- **collision-free naming** (`getUniqueFileName`): a linear probe over the names present in the storage directory. It uses Node's POSIX `path.extname`/`path.basename` rules.
- **single-file ingestion** (`getBusboyData.ts`). The bytes are written first. The stored object is measured only after the write finishes, and then the File document is committed. A `processBusboy` object collects the `parent` and `size` fields and one outcome per file part.
- **batch ("folder") ingestion** (`getFolderUploadBusboyData.ts`):
  - a `processData` object whose handlers update `formData`, `fileDataMap`, `parent`, `totalFiles` and `processed`;
  - per item, `uploadFile`, then `handleFinish` with its length choice and its preview policy;
  - the rule that emits "finish" when `processed === totalFiles`.
- **thumbnail attachment** (`createImageThumbnail.ts`, `createVideoThumbnail.ts`). For an image, an alias Thumbnail record is saved and then linked with `setThumbnail`; `createThumbnail` never rejects. For a video, the file comes back unchanged.
- **downloads** (`getFileData.ts`):
  - the process-wide `activeStreams` registry of range streams, keyed by file id;
  - `getFileAndRemoveActiveStream`;
  - the range and non-range setup, with the non-range headers. `Content-Disposition` has the shape of the `disposition-parm` forms of section 4.1 of RFC 6266, and `filename*` the shape of an ext-value of section 3.2 of RFC 8187; it conforms only for some names (see "## Left out").
- **previews** (`getThumbnailData.ts`): an ordered fallback. It tries the user's stored thumbnail, then the user's file by id, then the user's file by thumbnail id. It ends in the original image, one extracted video frame, or an error.
- **upload panel title** (`Uploader.tsx`, `uploadTitle`).

How the model represents the system:
- **Storage** is a map from path to bytes.
- **The File and Thumbnail collections** are sequences in insertion order. `findOne` is the first match (`Records.FirstIndex`).
- **Ids** are the decimal renderings of a counter (`Storage.Store`). `Store.Valid` keeps every stored id below the counter, so every new id is fresh.
- **Stream results.** A piped stream is either `Delivered` or `Broken`. The event-emitter signalling becomes `Result` values.
- **Foreign helpers** are fields of `Records.Env`. They are `sanitize-filename`, the repository's `sanitizeFilename`, `encodeURIComponent`, `imageChecker`, `videoChecker`, `getFSStoragePath`, `env.dbType`, `env.videoThumbnailsEnabled`, and the metadata update of `FileDB.setThumbnail`.
- **`getFileSize`** is the length of the stored object.
- **Chosen names.** `Ingestion.HandleUpload`, `Ingestion.SingleUpload.OnFile`, `FolderUpload.UploadFile`, `FolderUpload.ProcessItem` and `FolderUpload.FolderUpload.OnFile` also return the name the probe chose, as a ghost out-parameter that their contracts refer to.
- **Paths** are keyed by the file they name (`Storage.Resolve`): runs of '/' collapse to one and a trailing '/' is dropped, so "/data//a.txt" and "/data/a.txt" are one file.
- **`fs.existsSync`** is `Storage.Exists`: the resolved path is a stored object, a directory holding one, the storage directory or a directory above it, or the empty path (the current directory). The probe asks it about `path.join(dir, name)` (`Storage.NamesIn`). The preview takes a set of paths instead.

The model follows the code as written. In particular:
- single uploads write to `storageDirectory + name` with no separator, while the probe tests `path.join(storageDirectory, name)`. When the directory ends in '/', both upload paths write where the probe looked (`Ingestion.ProbedPathIsFree`). Without the trailing '/', the folder path still does for any non-empty directory, but a single upload does not: `Ingestion.WrittenPathNotProbed` shows a second upload overwriting the first;
- a name that sanitizes to "" joins to the storage directory itself, which exists, so the probe numbers it (`Ingestion.EmptyNameIsNumbered`);
- the folder path stores the unsanitized name as `filename`, and files every item under "/" whatever the `parent` field says;
- a range request served from the registry skips the owner check (`Download.CachedRangeSkipsOwnerCheck`);
- a failed batch item is never counted, so the batch never finishes (`FolderUpload.FailedItemStallsBatch`);
- `processingFile` is set and never cleared.

## Model

| member | source | states |
|---|---|---|
| NodePath.Component | backend/utils/getUniqueFileName.ts:5-6 | the component `extname`/`basename` work on holds no '/' and is the whole name when the name has none |
| NodePath.LastDot | backend/utils/getUniqueFileName.ts:5 | the index found holds a '.' and no later character is one; None means the component holds no '.' |
| NodePath.Extname | backend/utils/getUniqueFileName.ts:5 | `path.extname`: holds no '/', is empty or shorter than the last component, and a non-empty extension starts with its only '.' |
| NodePath.Stem | backend/utils/getUniqueFileName.ts:6 | `path.basename(p, ext)`: holds no '/', and the extension completes it to the last component |
| UniqueName.UniqueFileName | backend/utils/getUniqueFileName.ts:4-18 | the name returned is not in the directory; it is the original when the original is free; it is the first free name in probe order, reached within at most \|existing\| collisions |
| UniqueName.FirstFreeUnique | backend/utils/getUniqueFileName.ts:11-15 | the first free name is unique, so the same directory state and name always give the same result |
| UniqueName.ProbesDistinct | backend/utils/getUniqueFileName.ts:8-14 | the original and all `name(k)ext` candidates are pairwise distinct, so every collision consumes a different existing name |
| UniqueName.CandidateInjective | backend/utils/getUniqueFileName.ts:13 | different counters give different candidates |
| UniqueName.OriginalIsNoCandidate | backend/utils/getUniqueFileName.ts:8-13 | no candidate equals the original name |
| UniqueName.Candidate | backend/utils/getUniqueFileName.ts:13 | `${name}(${counter})${ext}` is a single path component, longer than stem and extension together by more than the two parentheses, starting with the stem and ending with the extension |
| UniqueName.Probe | backend/utils/getUniqueFileName.ts:8-14 | the i-th name tested is the original exactly for i = 0 |
| UniqueName.FirstFreeIsProbe | backend/utils/getUniqueFileName.ts:11-17 | the name the probe settles on is free, and is the original or holds no '/' |
| UniqueName.CandidateKeepsExtension | backend/utils/getUniqueFileName.ts:5-13 | every candidate has the original's extension (last component other than "..") |
| UniqueName.DotDotGainsExtension | backend/utils/getUniqueFileName.ts:5-13 | for "..", the extension is "" but the first candidate "..(0)" has extension ".(0)" |
| UniqueName.ProbedCount | backend/utils/getUniqueFileName.ts:11-15 | after n probes, n distinct names have been tested, which bounds the loop by the directory size |
| Decimal.NatToString | backend/utils/getUniqueFileName.ts:13 | the counter is rendered as non-empty decimal digits with no leading zero |
| Decimal.ParseNatToString | backend/utils/getUniqueFileName.ts:13 | reading the rendered counter back gives the counter |
| Decimal.NatToStringInjective | backend/utils/getUniqueFileName.ts:13 | distinct counters render differently |
| Decimal.JsNumber | backend/services/chunk-service/utils/getBusboyData.ts:97 | `+val` of a digit string is its decimal value |
| Decimal.IntToString | backend/services/chunk-service/utils/getFileData.ts:123 | `size.toString()`: at least one character, decimal digits for a non-negative size, a '-' and digits otherwise |
| Decimal.IntToStringRoundTrip | backend/services/chunk-service/utils/getFileData.ts:123 | `size.toString()` read back with `Number` is the size |
| Records.FirstIndex | backend/services/chunk-service/utils/getThumbnailData.ts:48-51 | `findOne` yields the first matching record and none before it; None means nothing matches |
| Records.FindOne | backend/services/chunk-service/utils/getThumbnailData.ts:48-58 | `findOne` gives None exactly when nothing matches; otherwise a matching element with no match before it |
| Records.Filter | backend/services/chunk-service/utils/getThumbnailData.ts:48-58 | a filtered table holds only elements of the table that meet the condition, and every element that meets it |
| Records.FindOneConjunction | backend/services/chunk-service/utils/getThumbnailData.ts:48-58 | a query with an extra condition finds what the plain query finds among the records meeting that condition |
| Records.FileById | backend/services/chunk-service/utils/createImageThumbnail.ts:39-46 | the File with that id that `setThumbnail` finds: None exactly when no File has the id; otherwise a stored File with the id |
| Records.LinkedMetadata | backend/services/chunk-service/utils/createImageThumbnail.ts:38-41 | the metadata `setThumbnail` leaves on the File it links carries the thumbnail id and the File's owner; its other fields are the foreign update's |
| Storage.JoinPrefix | backend/utils/getUniqueFileName.ts:11 | `path.join(dir, name)` puts exactly one '/' between a non-empty directory without a trailing '/' and the name, and none after a trailing '/' |
| Storage.Resolve | backend/utils/getUniqueFileName.ts:11 | the file a path names: runs of '/' collapsed to one and a trailing '/' dropped except for the root (its form is stated by `Storage.ResolvedForm`) |
| Storage.Exists | backend/utils/getUniqueFileName.ts:11 | `fs.existsSync`: the resolved path is a stored object, a directory above one, the storage directory or a directory above it, or the empty path |
| Storage.CollapseForm | backend/utils/getUniqueFileName.ts:11 | a collapsed path holds no "//" |
| Storage.ResolvedForm | backend/utils/getUniqueFileName.ts:11 | a resolved path holds no "//" and, unless it is the root, ends in no '/' |
| Storage.ResolveIdempotent | backend/utils/getUniqueFileName.ts:11 | resolving a resolved path changes nothing, so every spelling of a path reaches one key |
| Storage.CollapseAppend | backend/services/chunk-service/utils/getFolderUploadBusboyData.ts:112 | appending text without "//" that makes none at the seam commutes with collapsing |
| Storage.CollapseDoubleSlash | backend/services/chunk-service/utils/getFolderUploadBusboyData.ts:112 | after a directory ending in '/', the extra "/" the folder path inserts names the same file |
| Storage.ListedExact | backend/utils/getUniqueFileName.ts:11 | a name without '/' is listed after a prefix exactly when the prefix and the name is a stored path or a directory above one |
| Storage.StorageDirExists | backend/utils/getUniqueFileName.ts:11 | `path.join(dir, "")`, the storage directory itself, always exists |
| Storage.NamesIn | backend/utils/getUniqueFileName.ts:11 | a name without '/' counts as existing exactly when `fs.existsSync(path.join(dir, name))` holds of the resolved stored paths; the original name is judged the same way; the empty name always exists |
| Storage.LinkThumbnail | backend/services/chunk-service/utils/createImageThumbnail.ts:39-46 | the collection keeps its length and ids. With no File carrying the id, the result is null and nothing changes. Otherwise the first File with the id is replaced by its copy whose metadata is `LinkedMetadata` of its own and the thumbnail id (id, name and length kept), which is returned, and every other File is unchanged |
| Storage.Store.constructor | backend/services/chunk-service/utils/getBusboyData.ts:71-78 | an empty storage and empty collections |
| Storage.Store.NewId | backend/services/chunk-service/utils/getBusboyData.ts:71-76 | a new document id differs from every stored File and Thumbnail id |
| Storage.Store.Write | backend/services/chunk-service/utils/getBusboyData.ts:23-37 | "finish" exactly for a delivered stream; the file the path resolves to then holds what arrived, and nothing else in storage changes |
| Storage.Store.SizeOf | backend/services/chunk-service/utils/getBusboyData.ts:69 | the measured size is the length of the object the path resolves to, 0 when there is none |
| Storage.Store.SaveFile | backend/services/chunk-service/utils/getBusboyData.ts:78 | the File is appended and ids stay issued |
| Storage.Store.SaveThumbnail | backend/services/chunk-service/utils/createImageThumbnail.ts:37 | the Thumbnail is appended and ids stay issued |
| Storage.Store.SetThumbnail | backend/services/chunk-service/utils/createImageThumbnail.ts:39-42 | the collection and the result are those of `LinkThumbnail` |
| Ingestion.HandleUpload | backend/services/chunk-service/utils/getBusboyData.ts:39-82 | `Uploaded`: the bytes go to the storage directory concatenated with the first free sanitized name, and that is the only storage change. A File exists exactly when the write finished, and it is appended under a fresh id. Its filename is the sanitized name; length and size are the measured size, not the declared one; it has no thumbnail, `processingFile` is true, `isVideo` comes from the sanitized name, and `parentList` is the parent |
| Ingestion.WriteAndCommit | backend/services/chunk-service/utils/getBusboyData.ts:51-81 | write to the chosen path, then, only when the write finished, measure the stored object and append the File under a fresh id with the measured size; a broken write leaves the partial bytes and no record |
| Ingestion.UploadMetadata | backend/services/chunk-service/utils/getBusboyData.ts:53-63 | the metadata names the user as owner and the parent as parent and parentList, has no thumbnail, sets `processingFile`, takes `isVideo` from the sanitized name, and records the storage path and the declared size |
| Ingestion.ProbedPathIsFree | backend/services/chunk-service/utils/getBusboyData.ts:49-51 | the chosen name is free at `path.join(dir, name)`; for a non-empty directory also at `dir + "/" + name` (the folder path), and when the directory ends in '/' also at `dir + name` (the single path) |
| Ingestion.WrittenPathNotProbed | backend/services/chunk-service/utils/getBusboyData.ts:49-51 | for a directory without a trailing '/', a file the single upload stored at `dir + name` does not make `name` exist for the probe, so a second upload of `name` chooses it again and replaces the first |
| Ingestion.EmptyNameIsNumbered | backend/utils/getUniqueFileName.ts:8-15 | a sanitized name "" joins to the existing storage directory, so the probe never settles on "" |
| Ingestion.SingleUpload.constructor | backend/services/chunk-service/utils/getBusboyData.ts:92-93 | `parent` starts as "/" and `size` as 0 |
| Ingestion.SingleUpload.OnField | backend/services/chunk-service/utils/getBusboyData.ts:95-98 | a `parent` field replaces the parent, a `size` field replaces the size with its numeric value, other fields change nothing |
| Ingestion.SingleUpload.OnFile | backend/services/chunk-service/utils/getBusboyData.ts:100-117 | each file part adds exactly one outcome, and the store changes as `Uploaded` states for the current parent: a finish carrying the saved File and the current parent exactly when the write finished, an error and no new File otherwise; thumbnails are untouched |
| Ingestion.SingleUpload.OnTransportError | backend/services/chunk-service/utils/getBusboyData.ts:119-120 | a busboy or request error adds an error outcome |
| Ingestion.SingleUpload.Settlement | backend/services/chunk-service/utils/getBusboyData.ts:127-138 | the upload promise settles with the first outcome, and stays pending while there is none |
| Thumbnails.CreateVideoThumbnail | backend/services/chunk-service/utils/createVideoThumbnail.ts:8-14 | the file is returned unchanged |
| Thumbnails.VideoThumbnailIgnoresNameAndUser | backend/services/chunk-service/utils/createVideoThumbnail.ts:8-14 | the result depends on the file alone, not on the name or the user; the file's thumbnail flag and id are kept |
| Thumbnails.AliasThumbnail | backend/services/chunk-service/utils/createImageThumbnail.ts:29-35 | the Thumbnail is named after the file name, owned by the user, and copies the file's IV, path and s3ID |
| Thumbnails.AttachImageThumbnail | backend/services/chunk-service/utils/createImageThumbnail.ts:18-55 | the alias Thumbnail is saved under a fresh id, then linked. The result is the linked File, whose metadata carries the new Thumbnail's id, or "Thumbnail Not Set" when `setThumbnail` finds none; in that case the saved Thumbnail stays. Storage is untouched |
| Thumbnails.CreateThumbnail | backend/services/chunk-service/utils/createImageThumbnail.ts:57-74 | never fails; it yields the linked File, or the original file when linking failed |
| FolderUpload.Advance | backend/services/chunk-service/utils/getFolderUploadBusboyData.ts:152-169 | a "total-files" field sets the total. A committed item increments the count and fires "finish" exactly when the new count equals the total. A failed item changes nothing |
| FolderUpload.Committed | backend/services/chunk-service/utils/getFolderUploadBusboyData.ts:152 | at most one increment per item event |
| FolderUpload.FinishesStayIncreasing | backend/services/chunk-service/utils/getFolderUploadBusboyData.ts:152-156 | over any sequence of events, the counts at which "finish" fired strictly increase and never exceed the count, so no count fires twice; the count grows by the number of committed items |
| FolderUpload.FixedTotalFiresOnce | backend/services/chunk-service/utils/getFolderUploadBusboyData.ts:152-156 | with the total fixed at t, "finish" has fired once (at t) if the count reached t >= 1, and never otherwise |
| FolderUpload.BatchFinishesOnce | backend/services/chunk-service/utils/getFolderUploadBusboyData.ts:152-169 | a batch whose total arrives first finishes exactly once if at least t >= 1 items commit, and never otherwise |
| FolderUpload.FailureLowersCommitted | backend/services/chunk-service/utils/getFolderUploadBusboyData.ts:141-152 | a failed item leaves fewer commits than items |
| FolderUpload.FailedItemStallsBatch | backend/services/chunk-service/utils/getFolderUploadBusboyData.ts:137-157 | a batch of t parts in which one fails never emits "finish" |
| FolderUpload.LateTotalNeverFires | backend/services/chunk-service/utils/getFolderUploadBusboyData.ts:152-169 | a total that the count has already reached or passed never fires, since the test runs only after an increment |
| FolderUpload.RecordedLength | backend/services/chunk-service/utils/getFolderUploadBusboyData.ts:55-60 | the measured size on the "fs" backend when a file path is set, the declared size otherwise |
| FolderUpload.PreviewPolicy | backend/services/chunk-service/utils/getFolderUploadBusboyData.ts:76-85 | first match wins: a video thumbnail exactly for a video with video thumbnails enabled; otherwise an image thumbnail exactly for an image under 15728640 bytes; otherwise none |
| FolderUpload.ItemMetadata | backend/services/chunk-service/utils/getFolderUploadBusboyData.ts:98-112 | every item is filed under "/" with parentList "/", has no thumbnail, is not a video, has `processingFile` set, keeps the declared size and records its path |
| FolderUpload.FreshRecordIsFound | backend/services/chunk-service/utils/getFolderUploadBusboyData.ts:74-82 | a File just saved under a fresh id is what `setThumbnail` finds for that id |
| FolderUpload.LinkFreshRecord | backend/services/chunk-service/utils/getFolderUploadBusboyData.ts:74-82 | linking a thumbnail to the File just saved under a fresh id replaces that File's metadata by `LinkedMetadata` (the thumbnail id set, the owner kept) and leaves every earlier File as it was |
| FolderUpload.UploadFile | backend/services/chunk-service/utils/getFolderUploadBusboyData.ts:88-135 | `FileStored`: the bytes (or what arrived before the error) go to directory + "/" + the first free sanitized name, and nothing else in storage changes. It resolves exactly when the write finished, with the unsanitized name and the item metadata for that path |
| FolderUpload.HandleFinish | backend/services/chunk-service/utils/getFolderUploadBusboyData.ts:49-86 | `FinishCommitted`: the File is appended under a fresh id with the length `RecordedLength` chooses from the measured size and `isVideo` from the name. For an image under the limit, an alias Thumbnail is appended and the File returned and stored is the committed one with `LinkedMetadata` for that Thumbnail's id, so the "Thumbnail Not Set" path cannot occur here. Otherwise the committed File is returned as is and thumbnails are unchanged |
| FolderUpload.FinishItem | backend/services/chunk-service/utils/getFolderUploadBusboyData.ts:148 | `handleFinish` on an item whose bytes are stored at its path measures the number of bytes that arrived |
| FolderUpload.ProcessItem | backend/services/chunk-service/utils/getFolderUploadBusboyData.ts:137-148 | `ItemProcessed`: the bytes are stored at directory + "/" + the first free sanitized name. Exactly when the part was delivered, `handleFinish` commits the File under the item's unsanitized name, measured at the size that arrived, with its preview policy applied; otherwise files and thumbnails are unchanged |
| FolderUpload.FolderUpload.constructor | backend/services/chunk-service/utils/getFolderUploadBusboyData.ts:42-47 | empty maps, parent "", total 0, count 0, no finish |
| FolderUpload.FolderUpload.OnField | backend/services/chunk-service/utils/getFolderUploadBusboyData.ts:159-174 | every field lands in `formData`; "file-data" is stored under its index (a later entry replaces an earlier one) and throws when unparsable; "total-files" and "parent" set their variables |
| FolderUpload.FolderUpload.OnFile | backend/services/chunk-service/utils/getFolderUploadBusboyData.ts:176-184 | a part with no "file-data" entry changes nothing, in storage or in the collections. Otherwise storage and collections change as `ItemProcessed` states for the entry. A failed upload is neither counted nor reported. A committed one records `uploadedFileId`, increments the count, and emits `{ fileDataMap, parent }` exactly when the count reaches the total |
| FolderUpload.FolderUpload.CountCommitted | backend/services/chunk-service/utils/getFolderUploadBusboyData.ts:150-156 | the committed File id is written back to its entry, the count is advanced, and "finish" is emitted exactly when the new count equals the total |
| FolderUpload.FolderUpload.OnTransportError | backend/services/chunk-service/utils/getFolderUploadBusboyData.ts:186-187 | a busboy or request error is signalled |
| Download.DbLookup | backend/services/chunk-service/utils/getFileData.ts:33-41 | a missing file is "File not found", another owner's file is "Not owner of file", and the file is returned exactly when the requester owns it |
| Download.DbLookupIsOwned | backend/services/chunk-service/utils/getFileData.ts:34-41 | a file from the database path is a stored record with the requested id, owned by the requester |
| Download.ResolveFile | backend/services/chunk-service/utils/getFileData.ts:27-55 | a range request with a registered entry gets its cached file; every other request takes the database path |
| Download.NonRangeIgnoresRegistry | backend/services/chunk-service/utils/getFileData.ts:32-41 | a non-range request resolves the same whatever the registry holds |
| Download.CachedRangeSkipsOwnerCheck | backend/services/chunk-service/utils/getFileData.ts:42-53 | another user's range request for a registered id gets the cached file, where the database path would refuse it or find nothing |
| Download.ResolvedIsOwnedOrCached | backend/services/chunk-service/utils/getFileData.ts:27-55 | a resolved file is either the registered snapshot on a range request, or the requester's own file with that id |
| Download.DownloadHeaders | backend/services/chunk-service/utils/getFileData.ts:115-123 | Content-Type `binary/octet-stream`; the attachment disposition of the sanitized name and its encoding; a Content-Length that is `metadata.size.toString()` and reads back as `metadata.size` |
| Download.Disposition | backend/services/chunk-service/utils/getFileData.ts:119-122 | the header value is the fixed head, the sanitized name, the fixed middle and the encoded name, in that order and nothing else |
| Download.QuoteAt | backend/services/chunk-service/utils/getFileData.ts:121 | the index of the first '"' |
| Download.ReadDisposition | backend/services/chunk-service/utils/getFileData.ts:119-122 | a filename read from the header contains no '"' |
| Download.DispositionRoundTrip | backend/services/chunk-service/utils/getFileData.ts:119-122 | a sanitized name without '"' and its encoding are read back from the header as sent |
| Download.QuoteBreaksDisposition | backend/services/chunk-service/utils/getFileData.ts:119-122 | a name holding a '"' is never read back from the header as sent; with `DispositionRoundTrip`, the name survives exactly when it holds no '"' |
| Download.RequestFor | backend/services/chunk-service/utils/getFileData.ts:83-98 | the read targets the file's path and s3 key; a range reads exactly `[fixedStart, fixedEnd]`, anything else the whole object |
| Download.ActiveStreams.constructor | backend/services/chunk-service/utils/getFileData.ts:18-25 | the registry starts empty |
| Download.ActiveStreams.GetFileAndRemoveActiveStream | backend/services/chunk-service/utils/getFileData.ts:27-55 | the result is `ResolveFile`'s. Only a range request with an entry changes the registry: the entry is deleted and its read stream destroyed. Registered streams stay live and distinct |
| Download.ActiveStreams.OpenReadStream | backend/services/chunk-service/utils/getFileData.ts:88-109 | a read stream with a new identity is opened, and a range request registers it under the id, replacing only that key; registered streams stay live and distinct |
| Download.ActiveStreams.Serve | backend/services/chunk-service/utils/getFileData.ts:57-141 | a refused lookup opens no stream and leaves the registry alone. Otherwise a new read stream is opened for the request, and a range request re-registers the id with it, replacing only that key. Non-range downloads carry the three headers and range ones none. A stream or response error fails the download but keeps the entry |
| Preview.ThumbnailFor | backend/services/chunk-service/utils/getThumbnailData.ts:33-36 | None exactly when the user has no thumbnail with that id; otherwise the first of the user's thumbnails with that id |
| Preview.FileFor | backend/services/chunk-service/utils/getThumbnailData.ts:48-59 | None exactly when the user has no file whose id or thumbnail id is the id; a file found is the user's and has the id or the thumbnail id; by id whenever the user has a file with that id |
| Preview.OnDisk | backend/services/chunk-service/utils/getThumbnailData.ts:65-67 | `x && fs.existsSync(x)`: the path is set, non-empty and on disk |
| Preview.ServeFile | backend/services/chunk-service/utils/getThumbnailData.ts:65-104 | "File missing on disk" exactly when the path is unset, empty or not on disk; otherwise the original exactly for an image, one frame exactly for a video that is not an image, "Unsupported file type" exactly for neither; a served file is its own path as `image/jpeg` |
| Preview.ServeLookups | backend/services/chunk-service/utils/getThumbnailData.ts:38-104 | a usable thumbnail is served; otherwise "File not found" without a file, else `ServeFile` of the file; whatever is served is a non-empty path on disk |
| Preview.ResolvePreview | backend/services/chunk-service/utils/getThumbnailData.ts:17-111 | no user is "Invalid user" before any lookup; whatever is served is a non-empty path on disk; images and frames are served as `image/jpeg`; a frame is one frame from the start, without audio, scaled to fit 320x320 |
| Preview.UsableThumbnailServed | backend/services/chunk-service/utils/getThumbnailData.ts:33-43 | when the user's first thumbnail with that id is on disk, it is served whatever the files say |
| Preview.FileByIdTakesPrecedence | backend/services/chunk-service/utils/getThumbnailData.ts:48-59 | without a usable thumbnail, the user's first file with that `_id` is served (by `ServeFile`), whatever other files carry the id as thumbnail id |
| Preview.ThumbnailIdFallback | backend/services/chunk-service/utils/getThumbnailData.ts:53-59 | without a usable thumbnail and with no file of the user's with that `_id`, the user's first file whose thumbnail id is the id is served |
| Preview.PreviewIsJustified | backend/services/chunk-service/utils/getThumbnailData.ts:33-102 | a served preview is the user's thumbnail with that id, or the user's file whose id or thumbnail id is the id: its original when the name is an image, a frame when it is a video and not an image |
| Preview.NotFoundExactly | backend/services/chunk-service/utils/getThumbnailData.ts:38-63 | "File not found" exactly when the user has no usable thumbnail with that id and no file whose id or thumbnail id is the id |
| Preview.ScopedThumbnailLookup | backend/services/chunk-service/utils/getThumbnailData.ts:33-36 | the thumbnail lookup searches only the requester's thumbnails |
| Preview.ScopedFileLookup | backend/services/chunk-service/utils/getThumbnailData.ts:48-58 | both file lookups search only the requester's files |
| Preview.OthersRecordsIrrelevant | backend/services/chunk-service/utils/getThumbnailData.ts:33-58 | tables that agree on the requester's records give the same preview outcome |
| UploaderTitle.CountsPartition | src/components/Uploader/Uploader.tsx:19-22 | completed and in-progress counts add up to the number of uploads |
| UploaderTitle.Plural | src/components/Uploader/Uploader.tsx:25-29 | "s" exactly for a count above one |
| UploaderTitle.UploadTitle | src/components/Uploader/Uploader.tsx:18-31 | starts with "Uploading " while any upload is in progress and with "Uploaded " otherwise; ends in " files" exactly when the count shown is above one, in " file" otherwise |
| UploaderTitle.DigitRun | src/components/Uploader/Uploader.tsx:25-29 | the leading digits of a title's number end at the first non-digit |
| UploaderTitle.TitleRoundTrip | src/components/Uploader/Uploader.tsx:18-31 | the title reads back, with a noun that must agree with its number, as "Uploading" with the in-progress count while any upload is in progress, and as "Uploaded" with the completed count otherwise |
| UploaderTitle.EmptyListTitle | src/components/Uploader/Uploader.tsx:19-29 | an empty list gives "Uploaded 0 file" |

## Left out

- Busboy and request piping, `.pipe`, and the EventEmitter/Promise wiring are event I/O. Each operation returns an explicit result instead, and each event handler is a method.
- The bytes a stream carries are a parameter of each operation (`Delivered` or `Broken`). Stream destruction is recorded as a set of destroyed handles.
- ffmpeg runs as an external process. The preview returns the frame-extraction settings, not the frame.
- `Date`/`uploadDate` timestamps are left out.
- `console.log` is left out.
- The React rendering, minimise toggle, `dispatch` and `cancelAllFileUploads` of the uploader are UI.
- The code of `sanitize-filename`, `sanitizeFilename`, `encodeURIComponent`, `imageChecker`, `videoChecker`, `getFSStoragePath` and `createGenericParams` is not part of this model. They are uninterpreted fields of `Env`, or a plain record of their arguments.
- The code of `FileDB.getFileInfo`, `FileDB.setThumbnail` and `ThumbnailDB.getThumbnailInfo` is not part of this model:
  - `getFileInfo` is a lookup by id, and the owner check is the caller's;
  - `setThumbnail` rewrites the metadata of the first File with the id. The model fixes only that `thumbnailID` becomes the Thumbnail's id and that the owner, id, name and length are kept. What it does to the other metadata fields, `hasThumbnail` in particular, is the uninterpreted `Env` field `linkMetadata`, so the model states nothing about them after linking;
  - `getThumbnailInfo` finds the user's Thumbnail by id.
- Mongo's rejection of malformed ids (CastError) is left out.
- The s3 and other non-"fs" storage actions are left out: every write and read goes to the one storage map.
- Concurrency is left out: interleaved range requests (the check-then-delete race on `activeStreams`) and batch items whose uploads overlap. Every operation runs to completion before the next event.
- The relative order of "finish" and "error" events of a batch is not kept: the model counts transport errors separately.
- `Decimal.JsNumber`: models `Number(s)`/`+s` only on the empty string and optionally negated decimal digit strings. Whitespace, '+', fractions, exponents, hex and "Infinity" are NaN here.
- `Ingestion.HandleUpload`: a NaN declared size is kept as 0 in the metadata it builds. The value is overwritten by the measured size before anything is saved, so no output shows it.
- `FolderUpload.FolderUpload.OnField`: the result of `JSON.parse` is an input (None when it throws). An entry without the fields of a `FileDataType`, and `fileDataMap` keys that clash with `Object.prototype`, are not modelled.
- `UniqueName.CandidateKeepsExtension`: does not hold for a last component "..", whose candidates gain the extension ".(k)" (`UniqueName.DotDotGainsExtension`).
- Path resolution covers repeated and trailing '/' only. The "." and ".." segments inside the directory or the name are not resolved, and symbolic links are not modelled.
- Conformance of `Content-Disposition` to RFC 6266 and RFC 8187 is not claimed. `encodeURIComponent` leaves `( ) ' *` unescaped, and none of these is an attr-char of section 3.2 of RFC 8187, so every renamed "a(0).txt" gives an invalid ext-value. A '"' in the name ends the quoted filename early (`Download.QuoteBreaksDisposition`).
- `storageActions.createWriteStream` is modelled as one write of the part's bytes at `metadata.filePath`. The source pipes the part both into a `PassThrough` handed to it and into the write stream it returns (getFolderUploadBusboyData.ts:115-125); the code behind it is not part of this model.
- The model's `Records.byte` values and storage paths are the only file system: permissions, disk-full errors and partial writes other than a `Broken` stream are not modelled.
