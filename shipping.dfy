/** One tick of `webSenderThread`: drain the buffer into a gzip stream,
    attempt one upload, spool the stream on failure, optionally archive it.
    The compressor, the server's response, the file writes and the clock are
    inputs of the tick. */
module Shipping {
  import opened Reports
  import opened Framing
  import Uploading
  import Logging

  /** What the gzip stream holds when the compression block ends: the whole
      stream, or whatever had been written when it raised. */
  datatype Compression = Done(bytes: Payload) | Failed(bytes: Payload)

  /** Everything one tick depends on besides the reporter's state and the
      WRITE_GPSDATA_FILE flag. */
  datatype FlushInputs = FlushInputs(
    compress: string -> Compression,  // gzip over the framed text
    response: Uploading.Response,     // the answer to the one upload attempt
    spoolWriteOk: bool,               // writing into FAILED_UPLOAD_DIR succeeds
    spoolStamp: string,               // the clock when that file is named
    archiveWriteOk: bool,             // writing into GPSDATA_DIR succeeds
    archiveStamp: string)             // the clock when that file is named

  function Log(s: ReporterState, level: string, event: Event): ReporterState
  {
    s.(log := s.log + [LogEntry(level, event)])
  }

  /** The stream a non-empty tick uploads. */
  function Gzipped(s: ReporterState, env: FlushInputs): Compression
    requires s.buffer != []
  {
    env.compress(Frame(s.buffer))
  }

  /** One tick of `webSenderThread`, step by step as the source runs it. */
  function Flush(s: ReporterState, writeGpsdataFile: bool, env: FlushInputs): (r: ReporterState)
    ensures s.log <= r.log && s.sent <= r.sent
    ensures |r.sent| == |s.sent| + (if s.buffer == [] then 0 else 1)
    ensures r.buffer == [] || r.buffer == s.buffer
    ensures r.spool.Keys <= s.spool.Keys + {DataFileName(env.spoolStamp)}
    ensures r.archive.Keys <= s.archive.Keys + {DataFileName(env.archiveStamp)}
  {
    if s.buffer == [] then Log(s, "WARNING", NoData)
    else
      var gz := Gzipped(s, env);
      var compressed := if gz.Done? then s.(buffer := []) else Log(s, "EXCEPTION", CompressFailed);
      var attempted := Log(compressed, "INFO", Uploading).(sent := s.sent + [gz.bytes]);
      var spooled :=
        if Uploading.Accepted(env.response) then attempted
        else
          var failed := Log(attempted, "EXCEPTION", UploadFailed);
          if env.spoolWriteOk then failed.(spool := s.spool[DataFileName(env.spoolStamp) := gz.bytes])
          else Log(failed, "CRITICAL", DataLost);
      if !writeGpsdataFile then spooled
      else if env.archiveWriteOk then spooled.(archive := s.archive[DataFileName(env.archiveStamp) := gz.bytes])
      else Log(spooled, "EXCEPTION", ArchiveFailed)
  }

  /** An empty buffer: exactly one WARNING, no upload attempt, and the
      buffer, spool and archive untouched. */
  lemma FlushEmptyBuffer(s: ReporterState, writeGpsdataFile: bool, env: FlushInputs)
    requires s.buffer == []
    ensures Flush(s, writeGpsdataFile, env) == s.(log := s.log + [LogEntry("WARNING", NoData)])
    ensures CountLevel(Flush(s, writeGpsdataFile, env).log, "WARNING") == CountLevel(s.log, "WARNING") + 1
  {
    CountLevelConcat(s.log, [LogEntry("WARNING", NoData)], "WARNING");
  }

  /** When compression succeeds the buffer is emptied, the one payload sent
      is the compressor's output on the framed buffer, and that framed text
      splits back into exactly the buffered records, in order. */
  lemma FlushDrainsBufferInOrder(s: ReporterState, writeGpsdataFile: bool, env: FlushInputs)
    requires s.buffer != [] && Gzipped(s, env).Done?
    requires forall k :: 0 <= k < |s.buffer| ==> LineFree(s.buffer[k])
    ensures Flush(s, writeGpsdataFile, env).buffer == []
    ensures Flush(s, writeGpsdataFile, env).sent == s.sent + [env.compress(Frame(s.buffer)).bytes]
    ensures Deframe(Frame(s.buffer)) == s.buffer
  {
    DeframeFrame(s.buffer);
  }

  /** When compression fails the tick goes on: the buffer is kept, one
      EXCEPTION is logged for it, and whatever the stream holds is still
      uploaded. */
  lemma FlushCompressionFailure(s: ReporterState, writeGpsdataFile: bool, env: FlushInputs)
    requires s.buffer != [] && Gzipped(s, env).Failed?
    ensures Flush(s, writeGpsdataFile, env).buffer == s.buffer
    ensures Flush(s, writeGpsdataFile, env).sent == s.sent + [Gzipped(s, env).bytes]
    ensures LogEntry("EXCEPTION", CompressFailed) in Flush(s, writeGpsdataFile, env).log[|s.log|..]
  {
    var r := Flush(s, writeGpsdataFile, env);
    assert r.log[|s.log|] == LogEntry("EXCEPTION", CompressFailed);
  }

  /** After a failed upload the spool gains `gpsdata_<stamp>.gzip` holding
      the payload, replacing any entry of that name; after a successful one
      the spool is unchanged. */
  lemma FlushSpoolsFailedUpload(s: ReporterState, writeGpsdataFile: bool, env: FlushInputs)
    requires s.buffer != []
    ensures Uploading.Accepted(env.response) ==> Flush(s, writeGpsdataFile, env).spool == s.spool
    ensures !Uploading.Accepted(env.response) && env.spoolWriteOk ==>
              Flush(s, writeGpsdataFile, env).spool == s.spool[DataFileName(env.spoolStamp) := Gzipped(s, env).bytes]
  {
  }

  /** The entries a non-empty tick logs, in order: a compression failure,
      then the upload notice, then a failed upload and, if its spool write
      fails too, the data-loss notice, then a failed archive write. */
  lemma FlushLog(s: ReporterState, writeGpsdataFile: bool, env: FlushInputs)
    requires s.buffer != []
    ensures var before := if Gzipped(s, env).Done? then [] else [LogEntry("EXCEPTION", CompressFailed)];
            var failing := if Uploading.Accepted(env.response) then []
                           else if env.spoolWriteOk then [LogEntry("EXCEPTION", UploadFailed)]
                           else [LogEntry("EXCEPTION", UploadFailed), LogEntry("CRITICAL", DataLost)];
            var after := if writeGpsdataFile && !env.archiveWriteOk then [LogEntry("EXCEPTION", ArchiveFailed)] else [];
            Flush(s, writeGpsdataFile, env).log == s.log + before + [LogEntry("INFO", Uploading)] + failing + after
  {
  }

  /** A failed upload is always logged as an EXCEPTION, after the upload
      notice, whatever happens to the spool write. */
  lemma FlushUploadFailureLogged(s: ReporterState, writeGpsdataFile: bool, env: FlushInputs)
    requires s.buffer != [] && !Uploading.Accepted(env.response)
    ensures LogEntry("INFO", Uploading) in Flush(s, writeGpsdataFile, env).log[|s.log|..]
    ensures LogEntry("EXCEPTION", UploadFailed) in Flush(s, writeGpsdataFile, env).log[|s.log|..]
  {
    FlushLog(s, writeGpsdataFile, env);
    var r := Flush(s, writeGpsdataFile, env);
    var k := |s.log| + (if Gzipped(s, env).Done? then 0 else 1);
    assert r.log[k] == LogEntry("INFO", Uploading) && r.log[k + 1] == LogEntry("EXCEPTION", UploadFailed);
    assert r.log[k] == r.log[|s.log|..][k - |s.log|];
    assert r.log[k + 1] == r.log[|s.log|..][k + 1 - |s.log|];
  }

  /** A failed upload whose spool write fails too: the spool is unchanged,
      exactly one CRITICAL entry is logged, and the one upload attempt is
      all the payload ever gets. */
  lemma FlushSpoolWriteFailure(s: ReporterState, writeGpsdataFile: bool, env: FlushInputs)
    requires s.buffer != [] && !Uploading.Accepted(env.response) && !env.spoolWriteOk
    ensures Flush(s, writeGpsdataFile, env).spool == s.spool
    ensures |Flush(s, writeGpsdataFile, env).sent| == |s.sent| + 1
    ensures CountLevel(Flush(s, writeGpsdataFile, env).log, "CRITICAL") == CountLevel(s.log, "CRITICAL") + 1
    ensures LogEntry("CRITICAL", DataLost) in Flush(s, writeGpsdataFile, env).log[|s.log|..]
  {
    FlushLog(s, writeGpsdataFile, env);
    var r := Flush(s, writeGpsdataFile, env);
    var before := if Gzipped(s, env).Done? then [] else [LogEntry("EXCEPTION", CompressFailed)];
    var after := if writeGpsdataFile && !env.archiveWriteOk then [LogEntry("EXCEPTION", ArchiveFailed)] else [];
    var quiet := before + [LogEntry("INFO", Uploading), LogEntry("EXCEPTION", UploadFailed)];
    var added := quiet + [LogEntry("CRITICAL", DataLost)] + after;
    assert r.log == s.log + before + [LogEntry("INFO", Uploading)]
                    + [LogEntry("EXCEPTION", UploadFailed), LogEntry("CRITICAL", DataLost)] + after;
    assert r.log == s.log + added;
    CountLevelNone(quiet, "CRITICAL");
    CountLevelNone(after, "CRITICAL");
    CountLevelConcat(quiet + [LogEntry("CRITICAL", DataLost)], after, "CRITICAL");
    CountLevelConcat(quiet, [LogEntry("CRITICAL", DataLost)], "CRITICAL");
    CountLevelConcat(s.log, added, "CRITICAL");
    assert r.log[|s.log|..] == added;
  }

  /** With WRITE_GPSDATA_FILE set and the write succeeding, the archive
      gains the payload whatever the upload outcome. If that write fails,
      the archive is unchanged and one EXCEPTION is logged. Without the
      flag the archive is unchanged. */
  lemma FlushArchives(s: ReporterState, writeGpsdataFile: bool, env: FlushInputs)
    requires s.buffer != []
    ensures writeGpsdataFile && env.archiveWriteOk ==>
              Flush(s, writeGpsdataFile, env).archive == s.archive[DataFileName(env.archiveStamp) := Gzipped(s, env).bytes]
    ensures writeGpsdataFile && !env.archiveWriteOk ==>
              && Flush(s, writeGpsdataFile, env).archive == s.archive
              && LogEntry("EXCEPTION", ArchiveFailed) in Flush(s, writeGpsdataFile, env).log[|s.log|..]
    ensures !writeGpsdataFile ==> Flush(s, writeGpsdataFile, env).archive == s.archive
  {
    if writeGpsdataFile && !env.archiveWriteOk {
      FlushLog(s, writeGpsdataFile, env);
      var r := Flush(s, writeGpsdataFile, env);
      assert r.log[|r.log| - 1] == LogEntry("EXCEPTION", ArchiveFailed);
      assert r.log[|r.log| - 1] == r.log[|s.log|..][|r.log| - 1 - |s.log|];
    }
  }

  /** Records appended to an empty buffer and flushed with a successful
      compression are shipped as one batch holding exactly those records in
      append order. */
  lemma AppendThenFlushShipsInOrder(s: ReporterState, records: seq<string>, writeGpsdataFile: bool, env: FlushInputs)
    requires s.buffer == [] && records != []
    requires forall k :: 0 <= k < |records| ==> LineFree(records[k])
    requires env.compress(Frame(records)).Done?
    ensures Flush(IngestAll(s, records), writeGpsdataFile, env).buffer == []
    ensures Flush(IngestAll(s, records), writeGpsdataFile, env).sent == s.sent + [env.compress(Frame(records)).bytes]
    ensures Deframe(Frame(records)) == records
  {
    IngestAllAppends(s, records);
    assert IngestAll(s, records).buffer == records;
    FlushDrainsBufferInOrder(IngestAll(s, records), writeGpsdataFile, env);
  }

  /** Two failed uploads whose files are named in the same second: the second
      file overwrites the first, so the spool gains no entry and the first
      payload is gone from it. */
  lemma SameSecondFailuresOverwrite(s: ReporterState, more: seq<string>, writeGpsdataFile: bool,
                                    env1: FlushInputs, env2: FlushInputs)
    requires s.buffer != [] && more != []
    requires !Uploading.Accepted(env1.response) && env1.spoolWriteOk
    requires !Uploading.Accepted(env2.response) && env2.spoolWriteOk
    requires env1.spoolStamp == env2.spoolStamp
    ensures var r1 := Flush(s, writeGpsdataFile, env1);
            var r2 := Flush(IngestAll(r1, more), writeGpsdataFile, env2);
            && r2.spool.Keys == r1.spool.Keys
            && DataFileName(env2.spoolStamp) in r2.spool && |r2.sent| > 0
            && r2.spool[DataFileName(env2.spoolStamp)] == r2.sent[|r2.sent| - 1]
  {
    var r1 := Flush(s, writeGpsdataFile, env1);
    IngestAllAppends(r1, more);
    var t := IngestAll(r1, more);
    assert t.buffer != [] && t.spool == r1.spool;
  }

  /** Finding, as written: the only CRITICAL entry of a tick is the notice
      that a payload is lost, and `handleLog` drops it, so the operator is
      never told. */
  lemma DataLossNoticeDropped(s: ReporterState, writeGpsdataFile: bool, env: FlushInputs)
    requires s.buffer != [] && !Uploading.Accepted(env.response) && !env.spoolWriteOk
    ensures exists e :: e in Flush(s, writeGpsdataFile, env).log[|s.log|..] && e.event == DataLost
    ensures forall e :: e in Flush(s, writeGpsdataFile, env).log[|s.log|..] && e.event == DataLost ==>
              Logging.HandleLog(e.level) == Logging.Drop
  {
    FlushSpoolWriteFailure(s, writeGpsdataFile, env);
    var r := Flush(s, writeGpsdataFile, env);
    forall e | e in r.log[|s.log|..] && e.event == DataLost
      ensures e.level == "CRITICAL"
    {
      FlushDataLostLevel(s, writeGpsdataFile, env, e);
    }
  }

  /** Every data-loss entry a tick logs carries the CRITICAL tag. */
  lemma FlushDataLostLevel(s: ReporterState, writeGpsdataFile: bool, env: FlushInputs, e: LogEntry)
    requires s.buffer != []
    requires e in Flush(s, writeGpsdataFile, env).log[|s.log|..] && e.event == DataLost
    ensures e.level == "CRITICAL"
  {
    FlushLog(s, writeGpsdataFile, env);
  }

  /** Corrected: under the intended routing the data-loss notice is logged as
      critical and passes any threshold `Logger.setup` can set. */
  lemma DataLossNoticeIntendedRoute(s: ReporterState, writeGpsdataFile: bool, env: FlushInputs,
                                    setting: Logging.LevelSetting)
    requires s.buffer != [] && !Uploading.Accepted(env.response) && !env.spoolWriteOk
    requires setting.SetLevel?
    ensures forall e :: e in Flush(s, writeGpsdataFile, env).log[|s.log|..] && e.event == DataLost ==>
              && Logging.HandleLogIntended(e.level) == Logging.Emit(Logging.Critical)
              && Logging.Value(Logging.Critical) >= Logging.EffectiveLevel(setting, 0)
  {
    forall e | e in Flush(s, writeGpsdataFile, env).log[|s.log|..] && e.event == DataLost
      ensures e.level == "CRITICAL"
    {
      FlushDataLostLevel(s, writeGpsdataFile, env, e);
    }
  }
}
