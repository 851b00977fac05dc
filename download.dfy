/** Downloads (`getFileData.ts`): the process-wide registry of active range
    streams, the file resolution in front of it, and the response headers. */
module Download {
  import opened Wrappers
  import opened Decimal
  import opened Records

  /** The identity of a read stream opened by the storage actions. */
  datatype Handle = Handle(serial: nat)

  /** The `range` argument of a download. */
  datatype ByteRange = ByteRange(start: int, end: int, fixedStart: int, fixedEnd: int, skip: int, chunksize: int)

  /** `createGenericParams({ filePath, Key })`. */
  datatype ReadParams = ReadParams(filePath: Option<string>, key: Option<string>)

  /** What is asked of the storage actions: the whole object, or the
      inclusive byte span `[from, to]`. */
  datatype ReadRequest = Whole(params: ReadParams) | Ranged(params: ReadParams, from: int, to: int)

  /** A registry entry: the read stream and the file it was opened for. The
      `decipherStream` the entry type declares is never stored. */
  datatype ActiveStream = ActiveStream(readStream: Handle, file: FileRecord)

  datatype Header = Header(name: string, value: string)

  /** A download that was set up and piped to the response. */
  datatype Served = Served(request: ReadRequest, stream: Handle, headers: seq<Header>, file: FileRecord)

  /** The database path of `getFileAndRemoveActiveStream`: not found, then
      not the owner. */
  function DbLookup(files: seq<FileRecord>, fileID: Id, userID: UserId): (r: Result<FileRecord>)
    ensures FileById(files, fileID).None? ==> r == Err(NotFound("File not found"))
    ensures FileById(files, fileID).Some? && FileById(files, fileID).value.metadata.owner != userID ==>
      r == Err(NotAuthorized("Not owner of file"))
    ensures r.Ok? <==> FileById(files, fileID).Some? && FileById(files, fileID).value.metadata.owner == userID
    ensures r.Ok? ==> r.value == FileById(files, fileID).value
  {
    match FileById(files, fileID)
    case None => Err(NotFound("File not found"))
    case Some(file) =>
      if file.metadata.owner != userID then Err(NotAuthorized("Not owner of file")) else Ok(file)
  }

  /** A file served from the database path is the requester's own. */
  lemma DbLookupIsOwned(files: seq<FileRecord>, fileID: Id, userID: UserId)
    requires DbLookup(files, fileID, userID).Ok?
    ensures DbLookup(files, fileID, userID).value.metadata.owner == userID
    ensures DbLookup(files, fileID, userID).value.id == fileID
    ensures DbLookup(files, fileID, userID).value in files
  {
    var k := FirstIndex(files, (f: FileRecord) => f.id == fileID);
    assert files[k.value] in files;
  }

  /** Which file a request resolves to: a range request with a cached
      entry takes the cached snapshot, every other request the database. */
  function ResolveFile(entries: map<Id, ActiveStream>, files: seq<FileRecord>, fileID: Id, userID: UserId,
                       isVideoStream: bool): (r: Result<FileRecord>)
    ensures !isVideoStream || fileID !in entries ==> r == DbLookup(files, fileID, userID)
    ensures isVideoStream && fileID in entries ==> r == Ok(entries[fileID].file)
  {
    if fileID !in entries || !isVideoStream then DbLookup(files, fileID, userID)
    else Ok(entries[fileID].file)
  }

  /** A non-range request does not depend on the registry. */
  lemma NonRangeIgnoresRegistry(e1: map<Id, ActiveStream>, e2: map<Id, ActiveStream>,
                                files: seq<FileRecord>, fileID: Id, userID: UserId)
    ensures ResolveFile(e1, files, fileID, userID, false) == ResolveFile(e2, files, fileID, userID, false)
  {
  }

  /** The registry is keyed by file id alone: once one user's range request
      registered a file, a range request by anyone for that id gets the
      cached snapshot, whoever owns it and whatever the database holds. */
  lemma CachedRangeSkipsOwnerCheck(owner: UserId, other: UserId, f: FileRecord)
    requires f.metadata.owner == owner && owner != other
    ensures var entries := map[f.id := ActiveStream(Handle(0), f)];
      && DbLookup([f], f.id, other) == Err(NotAuthorized("Not owner of file"))
      && DbLookup([], f.id, other) == Err(NotFound("File not found"))
      && ResolveFile(entries, [f], f.id, other, true) == Ok(f)
      && ResolveFile(entries, [], f.id, other, true) == Ok(f)
  {
    assert FirstIndex([f], (g: FileRecord) => g.id == f.id) == Some(0);
  }

  /** Only a range request whose file was registered skips the database;
      any result that did not come from the registry is owned. */
  lemma ResolvedIsOwnedOrCached(entries: map<Id, ActiveStream>, files: seq<FileRecord>, fileID: Id,
                                userID: UserId, isVideoStream: bool)
    requires ResolveFile(entries, files, fileID, userID, isVideoStream).Ok?
    ensures var f := ResolveFile(entries, files, fileID, userID, isVideoStream).value;
      (isVideoStream && fileID in entries && f == entries[fileID].file) ||
      (f.metadata.owner == userID && f.id == fileID)
  {
    if !isVideoStream || fileID !in entries {
      DbLookupIsOwned(files, fileID, userID);
    }
  }

  // ---------------------------------------------------------------------
  // Response headers.
  // ---------------------------------------------------------------------

  const DispositionHead: string := "attachment; filename=\""
  const DispositionMiddle: string := "\"; filename*=UTF-8''"

  /** `attachment; filename="<s>"; filename*=UTF-8''<enc>`. It has the
      shape of the `disposition-parm` forms of section 4.1 of RFC 6266, the
      second an `ext-value` of section 3.2 of RFC 8187; it conforms only
      when `s` holds no '"' and `enc` only characters the latter allows. */
  function Disposition(s: string, enc: string): (v: string)
    ensures |v| == |DispositionHead| + |s| + |DispositionMiddle| + |enc|
    ensures v[..|DispositionHead|] == DispositionHead
    ensures v[|DispositionHead|..|DispositionHead| + |s|] == s
    ensures v[|DispositionHead| + |s|..|v| - |enc|] == DispositionMiddle
    ensures v[|v| - |enc|..] == enc
  {
    DispositionHead + s + DispositionMiddle + enc
  }

  /** The headers of a non-range download. */
  function DownloadHeaders(env: Env, file: FileRecord): (h: seq<Header>)
    ensures |h| == 3
    ensures h[0] == Header("Content-Type", "binary/octet-stream")
    ensures h[1].name == "Content-Disposition" && h[2].name == "Content-Length"
    ensures var s := env.sanitizeFilename(file.filename);
      h[1].value == Disposition(s, env.encodeURIComponent(s))
    ensures h[2].value == IntToString(file.metadata.size)
    ensures JsNumber(h[2].value) == Num(file.metadata.size)
  {
    var sanitized := env.sanitizeFilename(file.filename);
    var encoded := env.encodeURIComponent(sanitized);
    IntToStringRoundTrip(file.metadata.size);
    [ Header("Content-Type", "binary/octet-stream"),
      Header("Content-Disposition", Disposition(sanitized, encoded)),
      Header("Content-Length", IntToString(file.metadata.size)) ]
  }

  /** The index of the first '"' in `s`. */
  function QuoteAt(s: string): (r: Option<nat>)
    ensures r.Some? ==> r.value < |s| && s[r.value] == '"'
    ensures r.Some? ==> forall j :: 0 <= j < r.value ==> s[j] != '"'
    ensures r.None? ==> forall j :: 0 <= j < |s| ==> s[j] != '"'
    decreases |s|
  {
    if s == [] then None
    else if s[0] == '"' then Some(0)
    else match QuoteAt(s[1..])
      case None => None
      case Some(k) => Some(k + 1)
  }

  /** A recipient's reading of the disposition value: the quoted `filename`
      runs to the first '"', and the `filename*` value is what follows. */
  function ReadDisposition(v: string): (r: Option<(string, string)>)
    ensures r.Some? ==> forall j :: 0 <= j < |r.value.0| ==> r.value.0[j] != '"'
  {
    if |v| < |DispositionHead| || v[..|DispositionHead|] != DispositionHead then None
    else
      var rest := v[|DispositionHead|..];
      match QuoteAt(rest)
      case None => None
      case Some(q) =>
        var tail := rest[q..];
        if |tail| < |DispositionMiddle| || tail[..|DispositionMiddle|] != DispositionMiddle then None
        else Some((rest[..q], tail[|DispositionMiddle|..]))
  }

  /** A sanitized name without '"' is read back as sent, together with
      its encoded form. */
  lemma {:induction false} DispositionRoundTrip(s: string, enc: string)
    requires '"' !in s
    ensures ReadDisposition(Disposition(s, enc)) == Some((s, enc))
  {
    var v := Disposition(s, enc);
    assert v[..|DispositionHead|] == DispositionHead;
    var rest := v[|DispositionHead|..];
    assert rest == s + DispositionMiddle + enc;
    QuoteAtPrefix(s, DispositionMiddle + enc);
    assert rest[|s|..] == DispositionMiddle + enc;
    assert rest[..|s|] == s;
  }

  lemma QuoteAtPrefix(s: string, t: string)
    requires '"' !in s && t != [] && t[0] == '"'
    ensures QuoteAt(s + t) == Some(|s|)
  {
    assert (s + t)[|s|] == '"';
    assert forall j :: 0 <= j < |s| ==> (s + t)[j] == s[j];
  }

  /** A '"' left in by the sanitizer ends the quoted filename early, so
      the name is never read back as sent: with `DispositionRoundTrip`,
      the header carries a name faithfully exactly when it holds no '"'. */
  lemma QuoteBreaksDisposition(s: string, enc: string)
    requires '"' in s
    ensures ReadDisposition(Disposition(s, enc)) != Some((s, enc))
  {
    var j :| 0 <= j < |s| && s[j] == '"';
  }

  // ---------------------------------------------------------------------
  // The registry.
  // ---------------------------------------------------------------------

  /** The read request for a resolved file: the whole object, or exactly
      `[fixedStart, fixedEnd]`. */
  function RequestFor(file: FileRecord, range: Option<ByteRange>): (q: ReadRequest)
    ensures q.params == ReadParams(file.metadata.filePath, file.metadata.s3ID)
    ensures q.Ranged? <==> range.Some?
    ensures q.Ranged? ==> q.from == range.value.fixedStart && q.to == range.value.fixedEnd
  {
    var params := ReadParams(file.metadata.filePath, file.metadata.s3ID);
    match range
    case None => Whole(params)
    case Some(r) => Ranged(params, r.fixedStart, r.fixedEnd)
  }

  /** `activeStreams`, with the read streams destroyed so far and a count
      of the read streams opened (which gives each a new identity). */
  class ActiveStreams {
    var entries: map<Id, ActiveStream>
    var destroyed: set<Handle>
    var streamsOpened: nat

    /** Every registered stream was opened and is still live, and no two
        ids share a stream. */
    ghost predicate Valid()
      reads this
    {
      && (forall id :: id in entries ==> entries[id].readStream.serial < streamsOpened)
      && (forall id :: id in entries ==> entries[id].readStream !in destroyed)
      && (forall a, b :: a in entries && b in entries && a != b ==> entries[a].readStream != entries[b].readStream)
      && (forall h :: h in destroyed ==> h.serial < streamsOpened)
    }

    constructor ()
      ensures Valid()
      ensures entries == map[] && destroyed == {} && streamsOpened == 0
    {
      entries, destroyed, streamsOpened := map[], {}, 0;
    }

    /** `getFileAndRemoveActiveStream`. A cached entry on a range request is
        deleted and its read stream destroyed; destroying the missing
        decipher stream throws, which is caught and only logged. */
    method GetFileAndRemoveActiveStream(files: seq<FileRecord>, fileID: Id, userID: UserId,
                                        isVideoStream: bool)
      returns (r: Result<FileRecord>)
      requires Valid()
      modifies this`entries, this`destroyed
      ensures Valid()
      ensures r == ResolveFile(old(entries), files, fileID, userID, isVideoStream)
      ensures fileID !in old(entries) || !isVideoStream ==>
        entries == old(entries) && destroyed == old(destroyed)
      ensures fileID in old(entries) && isVideoStream ==>
        entries == old(entries) - {fileID} && destroyed == old(destroyed) + {old(entries)[fileID].readStream}
    {
      if fileID !in entries || !isVideoStream {
        r := DbLookup(files, fileID, userID);
        return;
      }
      var cached := entries[fileID];
      entries := entries - {fileID};
      destroyed := destroyed + {cached.readStream};
      r := Ok(cached.file);
    }

    /** Open a read stream with a new identity and, for a range request,
        register it under the file's id in place of any earlier entry. */
    method OpenReadStream(fileID: Id, file: FileRecord, register: bool) returns (stream: Handle)
      requires Valid()
      modifies this`entries, this`streamsOpened
      ensures Valid()
      ensures stream == Handle(old(streamsOpened)) && stream !in destroyed
      ensures streamsOpened == old(streamsOpened) + 1
      ensures entries == if register then old(entries)[fileID := ActiveStream(stream, file)] else old(entries)
    {
      stream := Handle(streamsOpened);
      streamsOpened := streamsOpened + 1;
      if register {
        entries := entries[fileID := ActiveStream(stream, file)];
      }
    }

    /** `proccessData`: resolve the file, open a read stream (ranged or
        whole), register it for a range request, set the download headers
        for a non-range one, and pipe. `delivered` is false when the read
        stream or the response reports an error; the entry stays. */
    method Serve(files: seq<FileRecord>, env: Env, fileID: Id, userID: UserId, range: Option<ByteRange>,
                 delivered: bool)
      returns (r: Result<Served>)
      requires Valid()
      modifies this
      ensures Valid()
      ensures var resolved := ResolveFile(old(entries), files, fileID, userID, range.Some?);
        && (resolved.Err? ==>
              r == Err(resolved.error) && entries == old(entries) && destroyed == old(destroyed)
              && streamsOpened == old(streamsOpened))
        && (resolved.Ok? ==>
              var file, stream := resolved.value, Handle(old(streamsOpened));
              && streamsOpened == old(streamsOpened) + 1
              && entries == (if range.Some? then old(entries)[fileID := ActiveStream(stream, file)] else old(entries))
              && destroyed == (if range.Some? && fileID in old(entries)
                               then old(destroyed) + {old(entries)[fileID].readStream}
                               else old(destroyed))
              && (r.Ok? <==> delivered)
              && (r.Err? ==> r.error == StorageFailure)
              && (r.Ok? ==> r.value == Served(RequestFor(file, range), stream,
                                              if range.None? then DownloadHeaders(env, file) else [], file)))
    {
      var currentFile := GetFileAndRemoveActiveStream(files, fileID, userID, range.Some?);
      if currentFile.Err? {
        return Err(currentFile.error);
      }
      var file := currentFile.value;

      var request := RequestFor(file, range);
      var readStream := OpenReadStream(fileID, file, range.Some?);

      var headers: seq<Header> := [];
      if range.None? {
        headers := DownloadHeaders(env, file);
      }

      if !delivered {
        return Err(StorageFailure);
      }
      r := Ok(Served(request, readStream, headers, file));
    }
  }
}
