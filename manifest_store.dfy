/**
 * Reading /zip/hermit.json: open it, seek to the end to learn its size,
 * rewind, read it whole into a heap buffer, close it, parse the buffer,
 * free the buffer. Both loaders do exactly this; every call into the C
 * library is an answer carried by a ManifestFile value, and the parser
 * (json.h) is represented by the tree it returns.
 */
module ManifestStore {
  import opened Wrappers
  import opened Json
  import opened Alloc

  const ManifestPath: string := "/zip/hermit.json"

  /** What the C library answers for one attempt to read the manifest. */
  datatype ManifestFile = ManifestFile(
    opens: bool,              // fopen succeeds
    seeks: bool,              // fseek to the end succeeds
    size: int,                // what ftell reports
    mallocOk: bool,           // malloc(size) returns a buffer
    readsWhole: bool,         // the file still holds `size` bytes when fread asks for them
    parsed: Option<Value>)    // what json_parse makes of the bytes, None for a parse error

  datatype ReadError = OpenFailed | SeekFailed | TellFailed | BufferAllocFailed | ReadFailed | ParseFailed

  /** fread(buf, size, 1, f) returns 1 only for a whole, non-empty item. */
  predicate FreadSucceeds(f: ManifestFile)
  {
    f.size > 0 && f.readsWhole
  }

  /** The read reaches the parser. */
  predicate ReachesParser(f: ManifestFile)
  {
    f.opens && f.seeks && f.size >= 0 && f.mallocOk && FreadSucceeds(f)
  }

  /**
   * The read sequence. On success the parsed tree is returned and is the
   * one allocation still outstanding; the file is closed and the byte
   * buffer freed on every path.
   */
  method ReadManifest(f: ManifestFile) returns (r: Result<Value, ReadError>, log: seq<MemEvent>)
    ensures !f.opens ==> r == Failure(OpenFailed) && log == []
    ensures f.opens && !f.seeks ==> r == Failure(SeekFailed) && log == [FileOpened, FileClosed]
    ensures f.opens && f.seeks && f.size < 0 ==> r == Failure(TellFailed) && log == [FileOpened, FileClosed]
    ensures f.opens && f.seeks && f.size >= 0 && !f.mallocOk
            ==> r == Failure(BufferAllocFailed) && log == [FileOpened, FileClosed]
    ensures f.opens && f.seeks && f.size >= 0 && f.mallocOk && !FreadSucceeds(f)
            ==> r == Failure(ReadFailed) && log == [FileOpened, Allocated(JsonBytes), FileClosed, Freed(JsonBytes)]
    ensures ReachesParser(f) && f.parsed.None?
            ==> r == Failure(ParseFailed) && log == [FileOpened, Allocated(JsonBytes), FileClosed, Freed(JsonBytes)]
    ensures ReachesParser(f) && f.parsed.Some?
            ==> r == Success(f.parsed.value)
                && log == [FileOpened, Allocated(JsonBytes), FileClosed, Allocated(JsonTree), Freed(JsonBytes)]
    ensures r.Success? <==> ReachesParser(f) && f.parsed.Some?
    ensures Count(log, FileOpened) == Count(log, FileClosed) == (if f.opens then 1 else 0)
    ensures Count(log, Allocated(JsonBytes)) == Count(log, Freed(JsonBytes))
    ensures NoDoubleFree(log, JsonBytes)
    ensures Count(log, Allocated(JsonTree)) == (if r.Success? then 1 else 0)
    ensures Count(log, Freed(JsonTree)) == 0 && NoDoubleFree(log, JsonTree)
  {
    // The json_bytes scope: the buffer pointer starts out NULL.
    log := [];
    var bytes: Option<Block> := None;
    // The json_file scope.
    if !f.opens {
      return Failure(OpenFailed), log;
    }
    log := log + [FileOpened];
    if !f.seeks {
      log := CleanupFree(CleanupClose(log, true), bytes);
      CountsOf(log);
      return Failure(SeekFailed), log;
    }
    var size := f.size;
    if size < 0 {
      log := CleanupFree(CleanupClose(log, true), bytes);
      CountsOf(log);
      return Failure(TellFailed), log;
    }
    if !f.mallocOk {
      log := CleanupFree(CleanupClose(log, true), bytes);
      CountsOf(log);
      return Failure(BufferAllocFailed), log;
    }
    bytes := Some(JsonBytes);
    log := log + [Allocated(JsonBytes)];
    var freadStatus := if FreadSucceeds(f) then 1 else 0;
    if freadStatus != 1 {
      log := CleanupFree(CleanupClose(log, true), bytes);
      CountsOf(log);
      return Failure(ReadFailed), log;
    }
    log := CleanupClose(log, true);
    // json_parse, still inside the json_bytes scope.
    var tree := f.parsed;
    if tree.Some? {
      log := log + [Allocated(JsonTree)];
    }
    log := CleanupFree(log, bytes);
    if tree.None? {
      r := Failure(ParseFailed);
    } else {
      r := Success(tree.value);
    }
    CountsOf(log);
  }

  /** The counts the read sequence's logs have. */
  lemma CountsOf(log: seq<MemEvent>)
    requires || log == []
             || log == [FileOpened, FileClosed]
             || log == [FileOpened, Allocated(JsonBytes), FileClosed, Freed(JsonBytes)]
             || log == [FileOpened, Allocated(JsonBytes), FileClosed, Allocated(JsonTree), Freed(JsonBytes)]
    ensures Count(log, FileOpened) == Count(log, FileClosed) == (if log == [] then 0 else 1)
    ensures Count(log, Allocated(JsonBytes)) == Count(log, Freed(JsonBytes))
    ensures NoDoubleFree(log, JsonBytes)
    ensures Count(log, Allocated(JsonTree)) == (if |log| == 5 then 1 else 0)
    ensures Count(log, Freed(JsonTree)) == 0 && NoDoubleFree(log, JsonTree)
  {
    if log == [FileOpened, FileClosed] {
      ClosedCounts();
    } else if |log| == 4 {
      UnparsedCounts();
    } else if |log| == 5 {
      ParsedCounts();
    }
  }

  const OpenedLog: seq<MemEvent> := [FileOpened]
  const BufferedLog: seq<MemEvent> := [FileOpened, Allocated(JsonBytes)]
  const ReadLog: seq<MemEvent> := [FileOpened, Allocated(JsonBytes), FileClosed]

  /** The file was opened and closed, nothing allocated. */
  lemma ClosedCounts()
    ensures var log := [FileOpened, FileClosed];
            && Count(log, FileOpened) == Count(log, FileClosed) == 1
            && Count(log, Allocated(JsonBytes)) == Count(log, Freed(JsonBytes)) == 0
            && Count(log, Allocated(JsonTree)) == Count(log, Freed(JsonTree)) == 0
            && NoDoubleFree(log, JsonBytes) && NoDoubleFree(log, JsonTree)
  {
    Extend([], FileOpened);
    assert [] + [FileOpened] == OpenedLog;
    Extend(OpenedLog, FileClosed);
    assert OpenedLog + [FileClosed] == [FileOpened, FileClosed];
  }

  /** The buffer was read and closed; every event up to here is counted. */
  lemma ReadCounts()
    ensures && Count(ReadLog, FileOpened) == Count(ReadLog, FileClosed) == 1
            && Count(ReadLog, Allocated(JsonBytes)) == 1 && Count(ReadLog, Freed(JsonBytes)) == 0
            && Count(ReadLog, Allocated(JsonTree)) == Count(ReadLog, Freed(JsonTree)) == 0
            && NoDoubleFree(ReadLog, JsonBytes) && NoDoubleFree(ReadLog, JsonTree)
  {
    Extend([], FileOpened);
    assert [] + [FileOpened] == OpenedLog;
    Extend(OpenedLog, Allocated(JsonBytes));
    assert OpenedLog + [Allocated(JsonBytes)] == BufferedLog;
    Extend(BufferedLog, FileClosed);
    assert BufferedLog + [FileClosed] == ReadLog;
  }

  /** Parsing failed: the buffer is freed after the file is closed. */
  lemma UnparsedCounts()
    ensures var log := [FileOpened, Allocated(JsonBytes), FileClosed, Freed(JsonBytes)];
            && Count(log, FileOpened) == Count(log, FileClosed) == 1
            && Count(log, Allocated(JsonBytes)) == Count(log, Freed(JsonBytes)) == 1
            && Count(log, Allocated(JsonTree)) == Count(log, Freed(JsonTree)) == 0
            && NoDoubleFree(log, JsonBytes) && NoDoubleFree(log, JsonTree)
  {
    ReadCounts();
    Extend(ReadLog, Freed(JsonBytes));
    assert ReadLog + [Freed(JsonBytes)] == [FileOpened, Allocated(JsonBytes), FileClosed, Freed(JsonBytes)];
  }

  /** Parsing succeeded: the tree is live and the buffer is freed. */
  lemma ParsedCounts()
    ensures var log := [FileOpened, Allocated(JsonBytes), FileClosed, Allocated(JsonTree), Freed(JsonBytes)];
            && Count(log, FileOpened) == Count(log, FileClosed) == 1
            && Count(log, Allocated(JsonBytes)) == Count(log, Freed(JsonBytes)) == 1
            && Count(log, Allocated(JsonTree)) == 1 && Count(log, Freed(JsonTree)) == 0
            && NoDoubleFree(log, JsonBytes) && NoDoubleFree(log, JsonTree)
  {
    ReadCounts();
    var tree := ReadLog + [Allocated(JsonTree)];
    Extend(ReadLog, Allocated(JsonTree));
    Extend(tree, Freed(JsonBytes));
    assert tree + [Freed(JsonBytes)]
           == [FileOpened, Allocated(JsonBytes), FileClosed, Allocated(JsonTree), Freed(JsonBytes)];
  }

  /** One more event: the counts move by one for that event only, and a matched free keeps both blocks free of double frees. */
  lemma Extend(log: seq<MemEvent>, x: MemEvent)
    requires NoDoubleFree(log, JsonBytes) && NoDoubleFree(log, JsonTree)
    requires x == Freed(JsonBytes) ==> Count(log, Freed(JsonBytes)) < Count(log, Allocated(JsonBytes))
    requires x == Freed(JsonTree) ==> Count(log, Freed(JsonTree)) < Count(log, Allocated(JsonTree))
    ensures NoDoubleFree(log + [x], JsonBytes) && NoDoubleFree(log + [x], JsonTree)
    ensures forall e :: Count(log + [x], e) == Count(log, e) + (if x == e then 1 else 0)
  {
    NoDoubleFreeSnoc(log, JsonBytes, x);
    NoDoubleFreeSnoc(log, JsonTree, x);
    assert (log + [x])[..|log|] == log;
  }
}
