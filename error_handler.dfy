/**
 * The plugin's error handler: PHP error numbers are mapped to one of six
 * named log levels, and a message is logged when its level ranks at least
 * as high as the configured threshold. Writing the log (error_log, the
 * daily log file) is represented by appending the record to `logged`.
 */
module ErrorHandler {
  import opened Wrappers
  import opened PhpValues

  const LevelNames: seq<string> := ["debug", "info", "notice", "warning", "error", "critical"]

  /** `self::LOG_LEVELS[$name]`: the rank of a named level. */
  function Rank(name: string): (r: Option<int>)
    ensures r.Some? <==> name in LevelNames
    ensures r.Some? ==> 0 <= r.value <= 5 && LevelNames[r.value] == name
  {
    if name == "debug" then Some(0)
    else if name == "info" then Some(1)
    else if name == "notice" then Some(2)
    else if name == "warning" then Some(3)
    else if name == "error" then Some(4)
    else if name == "critical" then Some(5)
    else None
  }

  // PHP's error-number constants.
  const E_ERROR: int := 1
  const E_WARNING: int := 2
  const E_PARSE: int := 4
  const E_NOTICE: int := 8
  const E_CORE_ERROR: int := 16
  const E_CORE_WARNING: int := 32
  const E_COMPILE_ERROR: int := 64
  const E_COMPILE_WARNING: int := 128
  const E_USER_ERROR: int := 256
  const E_USER_WARNING: int := 512
  const E_USER_NOTICE: int := 1024
  const E_STRICT: int := 2048
  const E_DEPRECATED: int := 8192
  const E_USER_DEPRECATED: int := 16384

  /** get_log_level_from_errorno; E_STRICT is still defined in PHP 8. */
  function LevelOfErrno(errno: int): (level: string)
    ensures level in LevelNames
  {
    if errno == E_ERROR || errno == E_PARSE || errno == E_CORE_ERROR || errno == E_COMPILE_ERROR || errno == E_USER_ERROR then "error"
    else if errno == E_WARNING || errno == E_CORE_WARNING || errno == E_COMPILE_WARNING || errno == E_USER_WARNING then "warning"
    else if errno == E_NOTICE || errno == E_USER_NOTICE then "notice"
    else if errno == E_DEPRECATED || errno == E_USER_DEPRECATED || errno == E_STRICT then "info"
    else "debug"
  }

  /** The set of error numbers the switch names. */
  predicate KnownErrno(errno: int)
  {
    errno in {E_ERROR, E_WARNING, E_PARSE, E_NOTICE, E_CORE_ERROR, E_CORE_WARNING, E_COMPILE_ERROR,
              E_COMPILE_WARNING, E_USER_ERROR, E_USER_WARNING, E_USER_NOTICE, E_STRICT, E_DEPRECATED, E_USER_DEPRECATED}
  }

  /** should_log with threshold `current`: an unknown threshold ranks 2, an unknown level 0. */
  predicate ShouldLog(current: string, level: string)
  {
    Rank(level).GetOr(0) >= Rank(current).GetOr(2)
  }

  /** The log_level the settings ask for, if it names a level. */
  function LoadedLevel(settings: Value, current: string): (r: string)
    ensures r == current || r in LevelNames
  {
    if settings.VArr? && IsSetKey(settings.entries, KStr("general")) then
      var g := Lookup(settings.entries, KStr("general")).value;
      if g.VArr? && IsSetKey(g.entries, KStr("log_level")) then
        var l := Lookup(g.entries, KStr("log_level")).value;
        if l.VStr? && Rank(l.s).Some? then l.s else current
      else current
    else current
  }

  datatype ErrorRecord = ErrorRecord(kind: string, level: string, message: string, file: string, line: int, time: int)

  class Handler {
    var logLevel: string
    var logged: seq<ErrorRecord>

    /** The threshold always names one of the six levels. */
    predicate Valid()
      reads this
    {
      logLevel in LevelNames
    }

    /** The constructor's init: the default "notice", then load_log_level. */
    constructor(settings: Value)
      ensures Valid() && logged == []
      ensures logLevel == LoadedLevel(settings, "notice")
    {
      logLevel := LoadedLevel(settings, "notice");
      logged := [];
    }

    method ShouldLogNow(level: string) returns (yes: bool)
      ensures yes == ShouldLog(logLevel, level)
    {
      var current := Rank(logLevel).GetOr(2);
      var message := Rank(level).GetOr(0);
      yes := message >= current;
    }

    /** error_handler: logs the error when its level passes; always answers false. */
    method HandleError(errno: int, errstr: string, errfile: string, errline: int, now: int) returns (handled: bool)
      requires Valid()
      modifies this
      ensures Valid() && !handled && logLevel == old(logLevel)
      ensures ShouldLog(logLevel, LevelOfErrno(errno)) ==>
        logged == old(logged) + [ErrorRecord("error", LevelOfErrno(errno), errstr, errfile, errline, now)]
      ensures !ShouldLog(logLevel, LevelOfErrno(errno)) ==> logged == old(logged)
    {
      var level := LevelOfErrno(errno);
      var yes := ShouldLogNow(level);
      if yes {
        logged := logged + [ErrorRecord("error", level, errstr, errfile, errline, now)];
      }
      return false;
    }

    /** exception_handler: always logged at "error", whatever the threshold. */
    method HandleException(message: string, file: string, line: int, now: int)
      requires Valid()
      modifies this
      ensures Valid() && logLevel == old(logLevel)
      ensures logged == old(logged) + [ErrorRecord("exception", "error", message, file, line, now)]
    {
      logged := logged + [ErrorRecord("exception", "error", message, file, line, now)];
    }

    /** log_message: always logged; an empty file or a zero line is taken from the caller's frame. */
    method LogMessage(message: string, level: string, file: string, line: int, caller: Option<(string, int)>, now: int)
      requires Valid()
      modifies this
      ensures Valid() && logLevel == old(logLevel)
      ensures |logged| == |old(logged)| + 1 && logged[..|old(logged)|] == old(logged)
      ensures !EmptyString(file) && line != 0 ==> logged[|old(logged)|] == ErrorRecord("message", level, message, file, line, now)
      ensures (EmptyString(file) || line == 0) && caller.Some? ==>
        logged[|old(logged)|] == ErrorRecord("message", level, message, caller.value.0, caller.value.1, now)
    {
      var f := file;
      var l := line;
      if EmptyString(file) || line == 0 {
        if caller.Some? {
          f := caller.value.0;
          l := caller.value.1;
        }
      }
      logged := logged + [ErrorRecord("message", level, message, f, l, now)];
    }

    /** shutdown_function: the last error, if any, goes through error_handler. */
    method Shutdown(last: Option<(int, string, string, int)>, now: int)
      requires Valid()
      modifies this
      ensures Valid() && logLevel == old(logLevel)
      ensures last.None? ==> logged == old(logged)
      ensures last.Some? && ShouldLog(logLevel, LevelOfErrno(last.value.0)) ==>
        logged == old(logged) + [ErrorRecord("error", LevelOfErrno(last.value.0), last.value.1, last.value.2, last.value.3, now)]
      ensures last.Some? && !ShouldLog(logLevel, LevelOfErrno(last.value.0)) ==> logged == old(logged)
    {
      if last.Some? {
        var _ := HandleError(last.value.0, last.value.1, last.value.2, last.value.3, now);
      }
    }

    /** set_log_level ignores a name that is not a level. */
    method SetLogLevel(level: string)
      requires Valid()
      modifies this
      ensures Valid() && logged == old(logged)
      ensures level in LevelNames ==> logLevel == level
      ensures level !in LevelNames ==> logLevel == old(logLevel)
    {
      if Rank(level).Some? {
        logLevel := level;
      }
    }

    method GetLogLevel() returns (level: string)
      requires Valid()
      ensures level == logLevel && level in LevelNames
    {
      level := logLevel;
    }
  }

  /** should_log against a valid threshold is the rank comparison. */
  lemma ShouldLogRanks(current: string, level: string)
    requires current in LevelNames
    ensures ShouldLog(current, level) <==> Rank(level).GetOr(0) >= Rank(current).value
  {
  }

  /** "critical" passes every threshold, known or not. */
  lemma CriticalAlwaysLogged(current: string)
    ensures ShouldLog(current, "critical")
  {
    assert Rank("critical") == Some(5);
  }

  /** "debug", and any unknown level, passes only the "debug" threshold. */
  lemma DebugOnlyAtDebug(current: string, level: string)
    requires level == "debug" || level !in LevelNames
    ensures ShouldLog(current, level) <==> current == "debug"
  {
    assert Rank("debug") == Some(0);
  }

  /** The errno map names a level for every number, and "debug" for any it does not list. */
  lemma ErrnoDefault(errno: int)
    ensures !KnownErrno(errno) ==> LevelOfErrno(errno) == "debug"
    ensures KnownErrno(errno) ==> LevelOfErrno(errno) != "debug"
  {
  }

  /** Raising the threshold never lets more through. */
  lemma ShouldLogMonotone(lower: string, higher: string, level: string)
    requires lower in LevelNames && higher in LevelNames
    requires Rank(lower).value <= Rank(higher).value
    ensures ShouldLog(higher, level) ==> ShouldLog(lower, level)
  {
  }
}
