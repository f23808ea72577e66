# GPS tracker client: the report handler's batching and retry state machine

This project models, in Dafny, the reliable shipping path of the GPS tracker
client (`gpsTracker.py`). The `ReportHandler` process buffers the JSON records
the GPS poller produces. A timer (`webSenderThread`) drains the buffer into a
gzip stream, tries one upload, and writes the stream into the failed-upload
directory (the spool) if the upload fails. It can also keep a copy in the GPS
data directory (the archive). A second timer (`reuploaderThread`) replays the
spooled files, removes each one the server accepts, and stops at the first
one that is not delivered. Beside the state machine the project models four
pure decisions:

- how `Logger.handleLog` routes a queued message;
- which level `Logger.setup` gives the logger;
- whether `UploadGPSData.upload` sends a client certificate, and which
  responses count as success;
- whether `GPSTracker.run` starts, bootstraps or gives up.

Layout, one module per file:

- `logging.dfy` (`Logging`): `handleLog` routing and `setup` level selection.
- `uploading.dfy` (`Uploading`): the certificate branch, server verification
  and the status-200 rule of `upload`.
- `framing.dfy` (`Framing`): the text written into the gzip stream (each record
  followed by `"\r\n"`), the loop that writes it, and its inverse `Deframe`.
- `reports.dfy` (`Reports`): the handler's state as a value (buffer, spool,
  archive, log queue, uploads so far), the file-name scheme, and ingestion.
- `shipping.dfy` (`Shipping`): one upload tick as the function `Flush`, and
  what it guarantees.
- `replay.dfy` (`Replay`): one replay sweep as the function `Sweep`, and what it
  guarantees.
- `reporter.dfy` (`Reporter`): the class `ReportHandler`, whose methods update
  its fields step by step as the source does. Each is proved to move the state
  exactly as `Ingest`, `Flush` or `Sweep` say.
- `tracker.dfy` (`Tracker`): the startup decision of `GPSTracker.run`.

Inputs that come from outside the process are parameters:

- gzip is a function from the framed text to `Done(bytes)` or `Failed(partial bytes)`;
- the server's answer is a `Response` (`Status(code)` or `TransportError`);
- each file write either succeeds or fails;
- the clock is the formatted timestamp string;
- the glob result is any listing of the matching spool names, in any order;
- whether a certificate or key file exists is a boolean.

Three behaviours of the code that a reader might not expect, and which the
model follows:

- A compression failure does not end the tick. The code logs it and still
  uploads whatever the stream holds. It spools and archives that too. The
  buffer is kept, because it is reset only when the compression block
  completes.
- Two spool files named in the same second collide. The later write replaces
  the earlier one, because the files are opened with `'wb'` and the name has
  one-second resolution.
- The sweep walks the spool in the order the glob returns. Nothing sorts it.

## Model

| member | source | states |
|---|---|---|
| `Logging.HandleLog` | gpsTracker.py:92-102 | DEBUG, INFO and WARNING are emitted under their own name; EXCEPTION is emitted as critical; every other tag, CRITICAL included, produces no output |
| `Logging.CriticalTagDropped` | gpsTracker.py:95-102 | of the tags the tracker uses, CRITICAL is dropped and all others are emitted |
| `Logging.HandleLogIntended` | gpsTracker.py:95-102 | corrected routing: every tag the tracker uses is emitted, and it agrees with `handleLog` wherever that emits |
| `Logging.IntendedDiffersOnlyOnCritical` | gpsTracker.py:95-102 | the corrected routing differs from the written one on exactly the CRITICAL tag |
| `Logging.SetupLevel` | gpsTracker.py:67-76 | LOGLEVEL "DEBUG" sets debug; "INFO", "" or no LOGLEVEL set info; any other value leaves the level unset |
| `Logging.CommandLineDebugIffVerbose` | gpsTracker.py:350-353 | with the command-line logger settings, DEBUG messages reach syslog if and only if verbose is set; INFO, WARNING and EXCEPTION always do |
| `Logging.ExceptionReachesCriticalDoesNot` | gpsTracker.py:70-102 | whatever level setup sets, EXCEPTION messages pass it and CRITICAL ones never appear |
| `Uploading.ChooseTransmission` | gpsTracker.py:215-227 | a client certificate is sent if and only if the lowercased first five URL characters are "https", both paths are non-empty and both files exist; then it sends exactly the configured pair with SSL_VERIFY |
| `Uploading.IsHttpsIffSchemeLetters` | gpsTracker.py:215 | the scheme test holds if and only if the URL has at least five characters whose ASCII lowercase spells "https" |
| `Uploading.SchemeCaseIgnored` | gpsTracker.py:215 | "HTTPS…" and "https…" URLs send the certificate, "http:…" never does |
| `Uploading.SslVerifyOnlyWithClientCert` | gpsTracker.py:215-227 | server verification is off if and only if SSL_VERIFY is false and the certificate branch is taken |
| `Uploading.Upload` | gpsTracker.py:212-232 | an upload succeeds if and only if the response is status 200, in either branch; the branch is the certificate rule above |
| `Uploading.NonOkStatusFails` | gpsTracker.py:229-230 | any non-200 status or transport error is a failure, with or without the certificate |
| `Uploading.SchemeTestedOnComposedUrl` | gpsTracker.py:207-215 | the scheme test runs on the composed URL, so a base "http" followed by an API path starting with "s" counts as https |
| `Framing.FrameAppend` | gpsTracker.py:153-154 | writing one more record extends the text by that record and "\r\n" |
| `Framing.WriteFramed` | gpsTracker.py:152-154 | the loop writes exactly the framed text of the buffer: each record followed by "\r\n", in order |
| `Framing.DeframeFrame` | gpsTracker.py:151-154 | splitting the framed text of CR/LF-free records gives back exactly those records in order |
| `Reports.DataFileName` | gpsTracker.py:168 | file names are "gpsdata_" + timestamp + ".gzip" |
| `Reports.IngestAllAppends` | gpsTracker.py:135-138 | records received in turn are appended at the buffer's tail in arrival order; nothing else changes |
| `Shipping.Flush` | gpsTracker.py:140-181 | a tick only extends the log; it uploads exactly one payload if the buffer is non-empty and none otherwise; it leaves the buffer empty or unchanged; it adds at most the one spool name and the one archive name |
| `Shipping.FlushEmptyBuffer` | gpsTracker.py:144-147 | an empty buffer yields exactly one WARNING entry and changes nothing else (no upload; buffer, spool and archive unchanged) |
| `Shipping.FlushDrainsBufferInOrder` | gpsTracker.py:149-157 | after a successful compression the buffer is empty; the one upload is the compressor's output on the framed buffer, and that text splits back into the buffer |
| `Shipping.FlushCompressionFailure` | gpsTracker.py:149-166 | after a failed compression the buffer is kept, an EXCEPTION is logged, and the stream's contents are still uploaded |
| `Shipping.FlushSpoolsFailedUpload` | gpsTracker.py:161-170 | a failed upload stores the payload as gpsdata_<stamp>.gzip, replacing a same-named entry; a successful upload leaves the spool unchanged |
| `Shipping.FlushLog` | gpsTracker.py:149-181 | a non-empty tick logs, in order: an EXCEPTION if compression failed, the INFO upload notice, an EXCEPTION if the upload failed followed by the CRITICAL data-loss notice if the spool write also failed, and an EXCEPTION if the archive write failed; nothing else |
| `Shipping.FlushUploadFailureLogged` | gpsTracker.py:162-166 | a failed upload is always logged as an EXCEPTION, after the INFO upload notice, whatever happens to the spool write |
| `Shipping.FlushSpoolWriteFailure` | gpsTracker.py:165-172 | if the spool write fails too, the spool is unchanged, exactly one CRITICAL entry is logged, and the payload had exactly one upload attempt |
| `Shipping.FlushArchives` | gpsTracker.py:175-181 | with WRITE_GPSDATA_FILE set and the write succeeding, the archive gains the payload whatever the upload outcome; if that write fails, the archive is unchanged and an EXCEPTION is logged; without the flag the archive is unchanged |
| `Shipping.AppendThenFlushShipsInOrder` | gpsTracker.py:135-157 | records appended to an empty buffer and flushed are uploaded as one payload compressed from exactly those records, in append order |
| `Shipping.SameSecondFailuresOverwrite` | gpsTracker.py:168-170 | two failed uploads named in the same second leave one spool entry, holding the later payload |
| `Shipping.DataLossNoticeDropped` | gpsTracker.py:171-172 | a tick that loses its payload logs the data-loss notice, and `handleLog` drops it |
| `Shipping.DataLossNoticeIntendedRoute` | gpsTracker.py:171-172 | with the corrected routing the data-loss notice is emitted as critical and passes any level setup sets |
| `Replay.DataFileNamesAreListed` | gpsTracker.py:187 | every file name the shipper writes matches the sweep's `*.gzip` pattern |
| `Replay.Sweep` | gpsTracker.py:185-199 | a sweep leaves the buffer and archive alone, never adds a spool entry, and makes at most one upload per listed entry |
| `Replay.DeliveredPrefix` | gpsTracker.py:187-197 | k is the number of leading listed entries that are uploaded and removed; entry k, if any, is not |
| `Replay.SweepSpool` | gpsTracker.py:187-197 | the spool after a sweep is the spool without the first k listed entries |
| `Replay.SweepSent` | gpsTracker.py:187-197 | a sweep uploads the first k payloads in listing order, then entry k if it was read, and nothing after it |
| `Replay.SweepLog` | gpsTracker.py:193-199 | a sweep that stops early logs one entry (INFO for a rejected upload, EXCEPTION for a read or remove error); a full sweep logs nothing |
| `Replay.SweepRemovesDeliveredPrefix` | gpsTracker.py:186-199 | combines the three above into one description of the sweep |
| `Replay.SweepFirstFailureRemovesNone` | gpsTracker.py:190-195 | if the first listed entry is not delivered, nothing is removed and at most one upload is tried |
| `Replay.SweepStopsAtFirstFailure` | gpsTracker.py:187-197 | when entry k stops the sweep, exactly the first k are gone, the rest keep their payloads and still form a listing in the same relative order, and no upload follows entry k |
| `Replay.SweepAllDelivered` | gpsTracker.py:187-197 | if every entry is delivered, each payload is uploaded once in listing order, nothing is logged, only non-matching files remain, and a spool of shipper files ends empty |
| `Reporter.UnverifiedUploadWithoutWarning` | gpsTracker.py:115-116 | with an upper-case "HTTPS" URL and SSL_VERIFY false, uploads skip server verification and setup gives no warning |
| `Reporter.ReportHandler.constructor` | gpsTracker.py:105-111 | a new handler has an empty buffer, an empty log and no uploads, and sees the directories as they are |
| `Reporter.ReportHandler.Log` | gpsTracker.py:122-123 | logging appends one (level, message) entry to the queue and changes nothing else |
| `Reporter.ReportHandler.Receive` | gpsTracker.py:135-138 | a received record is appended at the buffer's tail; nothing else changes |
| `Reporter.ReportHandler.WebSenderTick` | gpsTracker.py:140-181 | the in-place tick leaves the handler in exactly the state `Flush` gives |
| `Reporter.ReportHandler.ReuploaderTick` | gpsTracker.py:185-199 | the loop with its early exits leaves the handler in exactly the state `Sweep` gives |
| `Tracker.StartupDecision` | gpsTracker.py:303-308 | the tracker starts if and only if the credentials are present. Without them it bootstraps if and only if the BOOTSTRAP code and e-mail keys are present and non-empty. The lookup fails (KeyError) if and only if the section is missing, its code key is missing, or the code is non-empty and the e-mail key is missing |
| `Tracker.StartedTrackerUsesItsCertificate` | gpsTracker.py:303-310 | a tracker that starts with its credentials sends them on every https upload and never otherwise |
| `Tracker.TerminatesOnIncompleteBootstrapData` | gpsTracker.py:304-308 | the tracker gives up if and only if the credentials are missing, the code key is present, and either the code is empty (the e-mail key is then never read) or the e-mail is present and empty |
| `Tracker.CommandLineConfigCannotBootstrap` | gpsTracker.py:303-304 | with the command-line configuration (no BOOTSTRAP section), missing credentials end in the failed lookup |

## Findings

| source | as written | input that shows it | evidently intended | confidence | as-written member | corrected member |
|---|---|---|---|---|---|---|
| gpsTracker.py:95-102 | `handleLog` has no branch for the level tag 'CRITICAL', so the notice at line 172 that a payload is lost is never logged | a failed upload whose spool write also fails: the tick queues ('CRITICAL', "...Your GPS data is lost!") and `handleLog` makes no call for it | CRITICAL tuples are logged as critical, like EXCEPTION | high; not executed | `Shipping.DataLossNoticeDropped` | `Logging.HandleLogIntended` |

The lemma `Shipping.DataLossNoticeIntendedRoute` proves the corrected routing
delivers the notice. The CRITICAL notice at line 307 is lost either way: the
logger process is not yet started when `run` returns there.

## Left out

- `GPSPoller`: gpsd library I/O and JSON encoding of its objects. A record is
  an opaque string. The only property assumed of it is that it holds no raw
  CR or LF, which `Framing.DeframeFrame` requires.
- The `Logger` process loop and the syslog handler. Only the routing decision
  and the level choice are modelled. The library's effective-level lookup for
  an unset level is a parameter.
- Concurrency: the multiprocessing queues, the buffer lock, and the
  self-rescheduling timers (lines 119-120, 142, 201). Each timer firing is one
  sequential method call. The race between the emptiness check (line 144) and
  the drain (line 151) is not modelled.
- `requests.post`/`put`, TLS settings and `disable_warnings`. The network
  reply is a `Response` input.
- gzip and `cStringIO` internals. Compression is a function parameter that
  yields the stream, or the partial stream when it raises.
- `datetime.utcnow().strftime`. The two timestamps of a tick are inputs. They
  can differ, because the code reads the clock twice.
- A spool or archive write that fails part-way, leaving a truncated file. A
  write either succeeds or leaves the directory unchanged.
- A failure to construct `UploadGPSData` (a missing configuration key), and
  the lookup of `config['UPLOADER']['SSL_VERIFY']` in the certificate branch
  (line 227). The configuration the command line builds (lines 337-353) has
  no SSL_VERIFY key, so there every certificate-branch upload raises KeyError.
  The model counts each of these as a transport failure after the payload was
  handed over, and `Uploading.ChooseTransmission` still takes SSL_VERIFY as a
  boolean input.
- The spool and archive are separate directories. Configuring them to the same
  directory, which would make the sweep replay archived copies, is not
  modelled.
- The `bootstrap` retry loop, its JSON parsing and its certificate and key
  writes (network and file I/O). Only the decision at lines 303-308 is
  modelled.
- argparse and configuration loading (lines 316-353), apart from the LOGGER
  level the command line sets.
- The logger-name lookup and the syslog handler setup in `Logger.setup`
  (lines 69 and 78-80) are I/O plumbing and are not modelled.
