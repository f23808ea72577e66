/** The diagnostic side of the tracker's Logger process: how a queued
    (level, source, message) tuple is turned into a call on the Python
    logger, and which threshold `setup` gives that logger. The syslog
    handler and the queue loop themselves are I/O and are not modelled. */
module Logging {

  /** The logging calls `handleLog` can make, one per severity. */
  datatype Severity = Debug | Info | Warning | Critical

  /** The numeric values the Python logging library gives these severities. */
  function Value(s: Severity): nat
  {
    match s
    case Debug => 10
    case Info => 20
    case Warning => 30
    case Critical => 50
  }

  /** The library's own name of each severity. */
  function Name(s: Severity): string
  {
    match s
    case Debug => "DEBUG"
    case Info => "INFO"
    case Warning => "WARNING"
    case Critical => "CRITICAL"
  }

  /** What `handleLog` does with one queued message: hand it to the logger
      at some severity, or do nothing at all. */
  datatype Route = Emit(severity: Severity) | Drop

  /** The level tags the tracker's processes put on the log queue. */
  const CoreTags: set<string> := {"DEBUG", "INFO", "WARNING", "EXCEPTION", "CRITICAL"}

  /** `Logger.handleLog` as written: DEBUG, INFO and WARNING keep their
      severity, EXCEPTION is raised to critical, and every other tag falls
      through the if-chain without output. */
  function HandleLog(level: string): (r: Route)
    ensures r.Emit? <==> level in {"DEBUG", "INFO", "WARNING", "EXCEPTION"}
    ensures r.Emit? && level != "EXCEPTION" ==> Name(r.severity) == level
    ensures level == "EXCEPTION" ==> r == Emit(Critical)
  {
    if level == "DEBUG" then Emit(Debug)
    else if level == "INFO" then Emit(Info)
    else if level == "WARNING" then Emit(Warning)
    else if level == "EXCEPTION" then Emit(Critical)
    else Drop
  }

  /** Of the tags the tracker uses, exactly CRITICAL is silently dropped. */
  lemma CriticalTagDropped()
    ensures HandleLog("CRITICAL") == Drop
    ensures forall t :: t in CoreTags && t != "CRITICAL" ==> HandleLog(t).Emit?
  {
  }

  /** The routing the tracker evidently intends: the same as `HandleLog`,
      and a CRITICAL tag is logged as critical too. */
  function HandleLogIntended(level: string): (r: Route)
    ensures level in CoreTags ==> r.Emit?
    ensures HandleLog(level).Emit? ==> r == HandleLog(level)
    ensures r.Emit? && level != "EXCEPTION" ==> Name(r.severity) == level
  {
    if level == "CRITICAL" then Emit(Critical) else HandleLog(level)
  }

  /** Only CRITICAL changes between the two routings, and nothing that was
      logged before is dropped by the correction. */
  lemma IntendedDiffersOnlyOnCritical(level: string)
    ensures HandleLogIntended(level) != HandleLog(level) <==> level == "CRITICAL"
  {
  }

  /** The threshold `Logger.setup` gives the logger: a level, or none, in
      which case the logger keeps the library's NOTSET and defers to its
      ancestors. */
  datatype LevelSetting = SetLevel(threshold: Severity) | Unset

  /** `Logger.setup`: LOGLEVEL "DEBUG" selects debug; "INFO", the empty
      string or a missing LOGLEVEL select info; any other value leaves the
      level unset. `logger` is the LOGGER section of the configuration. */
  function SetupLevel(logger: map<string, string>): (r: LevelSetting)
    ensures r == SetLevel(Debug) <==> "LOGLEVEL" in logger && logger["LOGLEVEL"] == "DEBUG"
    ensures r == SetLevel(Info) <==> "LOGLEVEL" !in logger || logger["LOGLEVEL"] in {"INFO", ""}
    ensures r.SetLevel? ==> r.threshold in {Debug, Info}
  {
    if "LOGLEVEL" in logger then
      if logger["LOGLEVEL"] == "DEBUG" then SetLevel(Debug)
      else if logger["LOGLEVEL"] == "INFO" || logger["LOGLEVEL"] == "" then SetLevel(Info)
      else Unset
    else SetLevel(Info)
  }

  /** The level a message must reach to be passed on: the one `setup` set,
      or the `inherited` effective level of the logger's ancestors. */
  function EffectiveLevel(setting: LevelSetting, inherited: nat): nat
  {
    match setting
    case SetLevel(t) => Value(t)
    case Unset => inherited
  }

  /** A queued message with tag `level` reaches the syslog handler. */
  predicate ReachesSyslog(level: string, setting: LevelSetting, inherited: nat)
  {
    HandleLog(level).Emit? && Value(HandleLog(level).severity) >= EffectiveLevel(setting, inherited)
  }

  /** The LOGGER section the command line builds when no config file is
      given: INFO, or DEBUG with the verbose flag. */
  function CommandLineLogger(verbose: bool): map<string, string>
  {
    map["NAME" := "GPSTrackerLogger", "LOGLEVEL" := if verbose then "DEBUG" else "INFO"]
  }

  /** From the command line, debug messages reach syslog exactly when the
      verbose flag is given, and INFO, WARNING and EXCEPTION messages always do. */
  lemma CommandLineDebugIffVerbose(verbose: bool, inherited: nat)
    ensures ReachesSyslog("DEBUG", SetupLevel(CommandLineLogger(verbose)), inherited) <==> verbose
    ensures forall t :: t in {"INFO", "WARNING", "EXCEPTION"} ==>
              ReachesSyslog(t, SetupLevel(CommandLineLogger(verbose)), inherited)
  {
    var logger := CommandLineLogger(verbose);
    assert "LOGLEVEL" in logger;
    assert logger["LOGLEVEL"] == if verbose then "DEBUG" else "INFO";
  }

  /** Whatever level `setup` sets, an EXCEPTION message reaches syslog and a
      CRITICAL one never does. */
  lemma ExceptionReachesCriticalDoesNot(logger: map<string, string>, inherited: nat)
    requires SetupLevel(logger).SetLevel?
    ensures ReachesSyslog("EXCEPTION", SetupLevel(logger), inherited)
    ensures !ReachesSyslog("CRITICAL", SetupLevel(logger), inherited)
  {
  }
}
