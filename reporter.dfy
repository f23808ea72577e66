/** The `ReportHandler` process as an object: its record buffer, the two
    data directories it writes, its log queue and the payloads it has handed
    to the uploader. The run loop, the upload tick and the replay tick are
    methods, each proved to move the state as `Ingest`, `Flush` and `Sweep`
    say. Each timer firing is one call; the timers and the lock are not
    modelled. */
module Reporter {
  import opened Reports
  import opened Framing
  import opened Shipping
  import opened Replay
  import Uploading

  /** `setup` warns that certificate verification is off when the base
      UPLOAD_URL starts with "https", compared case-sensitively, and
      SSL_VERIFY is false. */
  predicate SetupWarnsInsecure(uploadUrl: string, sslVerify: bool)
  {
    Uploading.Prefix(uploadUrl, 5) == "https" && !sslVerify
  }

  /** The warning and the upload disagree on the scheme: with an upper-case
      "HTTPS" URL, SSL_VERIFY false and credentials in place, every upload
      skips server verification and `setup` never warns about it. */
  lemma UnverifiedUploadWithoutWarning(rest: string, api: string, clientName: string,
                                       cert: string, key: string)
    requires cert != "" && key != ""
    ensures !SetupWarnsInsecure("HTTPS" + rest, false)
    ensures !Uploading.VerifiesServer(Uploading.ChooseTransmission(
              Uploading.UploadUrl("HTTPS" + rest, api, clientName), cert, key, true, true, false))
  {
    var url := Uploading.UploadUrl("HTTPS" + rest, api, clientName);
    assert url == "HTTPS" + (rest + api + clientName);
    Uploading.SchemeCaseIgnored(rest + api + clientName, cert, key, false);
    assert Uploading.Prefix("HTTPS" + rest, 5)[0] == 'H';
  }

  class ReportHandler {
    const writeGpsdataFile: bool          // REPORTER.WRITE_GPSDATA_FILE
    var gpsDataBuffer: seq<string>
    var failedUploads: map<string, Payload>  // the files of FAILED_UPLOAD_DIR
    var gpsData: map<string, Payload>        // the files of GPSDATA_DIR
    var logQueue: seq<LogEntry>
    var uploads: seq<Payload>                // every payload passed to `upload`, in order

    /** The object's state as a value. */
    function State(): ReporterState
      reads this
    {
      ReporterState(gpsDataBuffer, failedUploads, gpsData, logQueue, uploads)
    }

    /** A reporter starts with an empty buffer and whatever the two
        directories already hold. */
    constructor (writeGpsdataFile: bool, failedUploads: map<string, Payload>, gpsData: map<string, Payload>)
      ensures this.writeGpsdataFile == writeGpsdataFile
      ensures State() == ReporterState([], failedUploads, gpsData, [], [])
    {
      this.writeGpsdataFile := writeGpsdataFile;
      gpsDataBuffer := [];
      this.failedUploads := failedUploads;
      this.gpsData := gpsData;
      logQueue := [];
      uploads := [];
    }

    /** `log`: put one (level, message) tuple on the log queue. */
    method Log(level: string, event: Event)
      modifies this
      ensures State() == old(State()).(log := old(logQueue) + [LogEntry(level, event)])
    {
      logQueue := logQueue + [LogEntry(level, event)];
    }

    /** One turn of the run loop: a record taken from the report queue is
        appended to the buffer, and nothing else changes. */
    method Receive(record: string)
      modifies this
      ensures State() == Ingest(old(State()), record)
      ensures gpsDataBuffer == old(gpsDataBuffer) + [record]
    {
      gpsDataBuffer := gpsDataBuffer + [record];
    }

    /** One firing of `webSenderThread`. */
    method WebSenderTick(env: FlushInputs)
      modifies this
      ensures State() == Flush(old(State()), writeGpsdataFile, env)
    {
      if |gpsDataBuffer| == 0 {
        Log("WARNING", NoData);
        return;
      }
      // Compress the buffer under the lock; the buffer is reset only when
      // the whole block completes.
      var text := WriteFramed(gpsDataBuffer);
      var gzipped := env.compress(text);
      if gzipped.Done? {
        gpsDataBuffer := [];
      } else {
        Log("EXCEPTION", CompressFailed);
      }
      // Upload whatever the stream holds.
      Log("INFO", Uploading);
      uploads := uploads + [gzipped.bytes];
      if !Uploading.Accepted(env.response) {
        Log("EXCEPTION", UploadFailed);
        if env.spoolWriteOk {
          failedUploads := failedUploads[DataFileName(env.spoolStamp) := gzipped.bytes];
        } else {
          Log("CRITICAL", DataLost);
        }
      }
      // Keep a local copy when enabled, whatever the upload outcome.
      if writeGpsdataFile {
        if env.archiveWriteOk {
          gpsData := gpsData[DataFileName(env.archiveStamp) := gzipped.bytes];
        } else {
          Log("EXCEPTION", ArchiveFailed);
        }
      }
    }

    /** One firing of `reuploaderThread` over the listing `order` that the
        directory glob returned. */
    method ReuploaderTick(order: seq<string>, outcome: string -> EntryOutcome)
      requires IsListing(order, failedUploads)
      modifies this
      ensures State() == Sweep(old(State()), order, outcome)
    {
      var i := 0;
      while i < |order|
        invariant 0 <= i <= |order|
        invariant Distinct(order[i..]) && forall n :: n in order[i..] ==> n in failedUploads
        invariant Sweep(old(State()), order, outcome) == Sweep(State(), order[i..], outcome)
      {
        var name := order[i];
        assert order[i..][0] == name && order[i..][1..] == order[i + 1..];
        match outcome(name) {
          case ReadFails =>
            Log("EXCEPTION", ReplayAborted);
            return;
          case Replayed(response, removeOk) =>
            var data := failedUploads[name];
            uploads := uploads + [data];
            if !Uploading.Accepted(response) {
              Log("INFO", ReplayFailed);
              return;  // the source breaks out of the loop; nothing follows it
            }
            if !removeOk {
              Log("EXCEPTION", ReplayAborted);
              return;
            }
            DistinctTail(order[i..]);
            failedUploads := failedUploads - {name};
        }
        i := i + 1;
      }
    }
  }
}
