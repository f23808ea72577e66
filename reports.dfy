/** The state of the `ReportHandler` process as values: the in-memory record
    buffer, the failed-upload directory (the spool), the GPS data directory
    (the archive), the messages put on the log queue and the payloads handed
    to the uploader, in order. */
module Reports {

  newtype byte = b: int | 0 <= b < 256

  /** A gzip stream, the unit that is uploaded, spooled and archived. */
  type Payload = seq<byte>

  /** Which message a log entry carries (the free-text exception details are
      not modelled). */
  datatype Event =
    | NoData          // "No GPS data to send!"
    | CompressFailed  // "Failed to compress GPS data!"
    | Uploading       // "Uploading GPS data to server..."
    | UploadFailed    // "Error while uploading data to server!"
    | DataLost        // "... Your GPS data is lost!"
    | ArchiveFailed   // "Failed to write GPS data to disk!"
    | ReplayFailed    // "Failed to upload temporary GPS data!"
    | ReplayAborted   // "Failed to read temporary GPS data!"

  /** One (level, message) tuple put on the log queue. */
  datatype LogEntry = LogEntry(level: string, event: Event)

  datatype ReporterState = ReporterState(
    buffer: seq<string>,
    spool: map<string, Payload>,
    archive: map<string, Payload>,
    log: seq<LogEntry>,
    sent: seq<Payload>)

  /** The file name both directories use: `gpsdata_<stamp>.gzip`, where
      `stamp` is the UTC time formatted as %Y%m%d-%H%M%S. */
  function DataFileName(stamp: string): (name: string)
    ensures |name| == |stamp| + 13
    ensures name[..8] == "gpsdata_" && name[|name| - 5..] == ".gzip"
  {
    "gpsdata_" + stamp + ".gzip"
  }

  /** The number of entries of `log` at the given level. */
  function CountLevel(log: seq<LogEntry>, level: string): (n: nat)
    ensures n <= |log|
  {
    if log == [] then 0
    else (if log[0].level == level then 1 else 0) + CountLevel(log[1..], level)
  }

  lemma {:induction false} CountLevelConcat(a: seq<LogEntry>, b: seq<LogEntry>, level: string)
    ensures CountLevel(a + b, level) == CountLevel(a, level) + CountLevel(b, level)
  {
    if a == [] {
      assert a + b == b;
    } else {
      assert (a + b)[1..] == a[1..] + b;
      CountLevelConcat(a[1..], b, level);
    }
  }

  /** A log none of whose entries is at `level` counts zero of them. */
  lemma {:induction false} CountLevelNone(log: seq<LogEntry>, level: string)
    requires forall k :: 0 <= k < |log| ==> log[k].level != level
    ensures CountLevel(log, level) == 0
  {
    if log != [] {
      CountLevelNone(log[1..], level);
    }
  }

  /** The ingestion loop's step: a record received from the report queue is
      appended to the buffer. */
  function Ingest(s: ReporterState, record: string): ReporterState
  {
    s.(buffer := s.buffer + [record])
  }

  /** Several records received in turn. */
  function IngestAll(s: ReporterState, records: seq<string>): ReporterState
    decreases |records|
  {
    if records == [] then s else IngestAll(Ingest(s, records[0]), records[1..])
  }

  /** Records received in turn end up at the tail of the buffer in arrival
      order, and nothing else changes. */
  lemma {:induction false} IngestAllAppends(s: ReporterState, records: seq<string>)
    ensures IngestAll(s, records) == s.(buffer := s.buffer + records)
    decreases |records|
  {
    if records != [] {
      IngestAllAppends(Ingest(s, records[0]), records[1..]);
      assert s.buffer + [records[0]] + records[1..] == s.buffer + records;
    }
  }
}
