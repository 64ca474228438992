/**
 * The per-request performance monitor: a request is sampled with the
 * configured probability, its page is recorded in a shortened form, and
 * at shutdown one record is appended to the `wpca_performance_log`
 * option, which is capped at 1000 entries and then cleared of entries
 * older than the retention period. The random roll, the clock, memory
 * readings and the request URI are parameters; the load time, a float,
 * is passed in as an opaque value.
 */
module Performance {
  import opened Wrappers
  import opened PhpValues
  import opened PhpStrings

  const MaxEntries: nat := 1000
  const DayInSeconds: int := 86400

  /** The sampling rate: `max(1, min(100, intval(...)))` of the option, 100 when it is not set. */
  function SamplingRate(options: seq<Entry>): (r: int)
    ensures 1 <= r <= 100
    ensures !IsSetKey(options, KStr("performance_monitoring_sampling_rate")) ==> r == 100
    ensures IsSetKey(options, KStr("performance_monitoring_sampling_rate")) ==>
      var n := IntVal(Lookup(options, KStr("performance_monitoring_sampling_rate")).value);
      (1 <= n <= 100 ==> r == n) && (n < 1 ==> r == 1) && (n > 100 ==> r == 100)
  {
    if IsSetKey(options, KStr("performance_monitoring_sampling_rate")) then
      var n := IntVal(Lookup(options, KStr("performance_monitoring_sampling_rate")).value);
      if n < 1 then 1 else if n > 100 then 100 else n
    else 100
  }

  /** The sanitised URI with its query cut to 100 characters. */
  function ShortUri(uri: string): (r: string)
    ensures '?' !in uri ==> r == uri
    ensures '?' in uri ==> r == SplitOnce(uri, '?').0 + "?" + Take(SplitOnce(uri, '?').1, 100)
  {
    if '?' in uri then
      var (path, query) := SplitOnce(uri, '?');
      path + "?" + Take(query, 100)
    else uri
  }

  /** The page recorded for a sampled request: "Unknown" without a URI, otherwise cut to 255 characters. */
  function Page(uri: Option<string>, sanitizeText: string -> string): (r: string)
    ensures uri.None? ==> r == "Unknown"
    ensures uri.Some? ==> |r| <= 255 && IsPrefix(r, ShortUri(sanitizeText(uri.value)))
  {
    if uri.None? then "Unknown" else Take(ShortUri(sanitizeText(uri.value)), 255)
  }

  /** A short URI without a query is recorded as it is. */
  lemma PageShortPath(uri: string, sanitizeText: string -> string)
    requires '?' !in sanitizeText(uri) && |sanitizeText(uri)| <= 255
    ensures Page(Some(uri), sanitizeText) == sanitizeText(uri)
  {
  }

  /** The path is kept whole when it is short; of the query at most the first 100 characters survive. */
  lemma PageQueryCut(uri: string, sanitizeText: string -> string)
    requires '?' in sanitizeText(uri)
    requires |SplitOnce(sanitizeText(uri), '?').0| <= 154
    ensures var (path, query) := SplitOnce(sanitizeText(uri), '?');
      Page(Some(uri), sanitizeText) == path + "?" + Take(query, 100)
  {
  }

  /** The retention period: `max(1, min(365, intval(...)))` of the option, which defaults to 7. */
  function RetentionDays(option: Option<Value>): (r: int)
    ensures 1 <= r <= 365
    ensures option.None? ==> r == 7
    ensures option.Some? && 1 <= IntVal(option.value) <= 365 ==> r == IntVal(option.value)
  {
    var n := if option.Some? then IntVal(option.value) else 7;
    if n < 1 then 1 else if n > 365 then 365 else n
  }

  /** The most recent `MaxEntries` records: `array_slice($log, -1000)` when the log is longer. */
  function Capped(log: seq<Value>): (r: seq<Value>)
    ensures |r| <= MaxEntries
    ensures |log| <= MaxEntries ==> r == log
    ensures |log| > MaxEntries ==> |r| == MaxEntries
    ensures IsSuffixOf(r, log)
  {
    if |log| > MaxEntries then log[|log| - MaxEntries..] else log
  }

  predicate IsSuffixOf(a: seq<Value>, b: seq<Value>) { |a| <= |b| && b[|b| - |a|..] == a }

  /** A log entry is kept when it is an array with a timestamp later than the cutoff. */
  predicate Keep(e: Value, cutoff: int)
  {
    e.VArr? && IsSetKey(e.entries, KStr("timestamp")) && IntVal(Lookup(e.entries, KStr("timestamp")).value) > cutoff
  }

  /** The entries kept by the cleanup loop, in order. */
  function Kept(log: seq<Value>, cutoff: int): (r: seq<Value>)
    ensures |r| <= |log|
    decreases |log|
  {
    if |log| == 0 then []
    else
      var rest := Kept(log[..|log| - 1], cutoff);
      if Keep(log[|log| - 1], cutoff) then rest + [log[|log| - 1]] else rest
  }

  /** The values of the stored log when it is an array, otherwise none. */
  function LogValues(stored: Value): seq<Value>
  {
    if stored.VArr? then Values(stored.entries) else []
  }

  /** What the request has recorded: nothing, or the start memory and the page. */
  datatype Stats = NotSampled | Sampled(startMemory: int, page: string)

  /** The memory figure saved: the peak minus the start, never below 0. */
  function MemoryUsage(peak: int, start: int): (r: int)
    ensures r >= 0
    ensures peak >= start ==> r == peak - start
  {
    if peak - start < 0 then 0 else peak - start
  }

  /** The record save_performance_data appends. */
  function Record(s: Stats, sanitizeText: string -> string, loadTime: Value, peakMemory: int, queryCount: int,
                  now: int, userId: int): Value
    requires s.Sampled?
  {
    VArr([ Entry(KStr("page"), VStr(sanitizeText(s.page))),
           Entry(KStr("load_time"), loadTime),
           Entry(KStr("memory_usage"), VInt(MemoryUsage(peakMemory, s.startMemory))),
           Entry(KStr("query_count"), VInt(queryCount)),
           Entry(KStr("timestamp"), VInt(now)),
           Entry(KStr("user_id"), VInt(userId)) ])
  }

  /** The cleanup loop over the log. */
  method FilterLog(log: seq<Value>, cutoff: int) returns (kept: seq<Value>)
    ensures kept == Kept(log, cutoff)
  {
    kept := [];
    var i := 0;
    while i < |log|
      invariant 0 <= i <= |log|
      invariant kept == Kept(log[..i], cutoff)
    {
      assert log[..i + 1][..i] == log[..i];
      if Keep(log[i], cutoff) {
        kept := kept + [log[i]];
      }
      i := i + 1;
    }
    assert log[..i] == log;
  }

  class Monitor {
    /** The plugin options read when the monitor is created. */
    const options: seq<Entry>
    const sanitizeText: string -> string
    var stats: Stats
    var queryCount: int
    /** The wpca_performance_log option. */
    var performanceLog: Value
    /** The wpca_monitoring_data_retention option, if it exists. */
    var retention: Option<Value>
    /** The lists written to wpca_performance_log, oldest first. */
    var updates: seq<seq<Value>>

    constructor(options: seq<Entry>, sanitizeText: string -> string, performanceLog: Value, retention: Option<Value>)
      ensures this.options == options && this.sanitizeText == sanitizeText
      ensures stats == NotSampled && queryCount == 0 && updates == []
      ensures this.performanceLog == performanceLog && this.retention == retention
    {
      this.options := options;
      this.sanitizeText := sanitizeText;
      stats := NotSampled;
      queryCount := 0;
      this.performanceLog := performanceLog;
      this.retention := retention;
      updates := [];
    }

    /** init_performance_monitoring with the roll of `rand(1, 100)`. */
    method InitPerformanceMonitoring(roll: int, memory: int, uri: Option<string>)
      modifies this
      ensures performanceLog == old(performanceLog) && retention == old(retention) && updates == old(updates)
      ensures roll <= SamplingRate(options) ==> stats == Sampled(memory, Page(uri, sanitizeText)) && queryCount == 0
      ensures roll > SamplingRate(options) ==> stats == NotSampled && queryCount == old(queryCount)
    {
      stats := NotSampled;
      var rate := SamplingRate(options);
      if roll <= rate {
        var page := Page(uri, sanitizeText);
        stats := Sampled(memory, page);
        queryCount := 0;
      }
    }

    /** save_performance_data, which ends with cleanup_old_performance_data. */
    method SavePerformanceData(now: int, userId: int, peakMemory: int, loadTime: Value)
      modifies this
      ensures stats == old(stats) && queryCount == old(queryCount) && retention == old(retention)
      ensures old(stats).NotSampled? ==> performanceLog == old(performanceLog) && updates == old(updates)
      ensures old(stats).Sampled? ==>
        var capped := SavedLog(old(performanceLog), Record(old(stats), sanitizeText, loadTime, peakMemory, queryCount, now, userId));
        updates == old(updates) + [capped] + CleanupWrites(capped, Cutoff(now, retention))
        && performanceLog == Cleaned(VArr(ListOf(capped)), Cutoff(now, retention))
    {
      if stats.NotSampled? {
        return;
      }
      var data := Record(stats, sanitizeText, loadTime, peakMemory, queryCount, now, userId);
      var log := SavedLog(performanceLog, data);
      performanceLog := VArr(ListOf(log));
      updates := updates + [log];
      LogValuesList(log);
      CleanupOldPerformanceData(now);
    }

    /** cleanup_old_performance_data: the log is written back only when an entry was dropped. */
    method CleanupOldPerformanceData(now: int)
      modifies this
      ensures stats == old(stats) && queryCount == old(queryCount) && retention == old(retention)
      ensures updates == old(updates) + CleanupWrites(LogValues(old(performanceLog)), Cutoff(now, retention))
      ensures performanceLog == Cleaned(old(performanceLog), Cutoff(now, retention))
    {
      var days := RetentionDays(retention);
      var cutoff := now - days * DayInSeconds;
      var log := LogValues(performanceLog);
      var kept := FilterLog(log, cutoff);
      if |kept| != |log| {
        performanceLog := VArr(ListOf(kept));
        updates := updates + [kept];
      }
    }
  }

  /** The oldest timestamp the cleanup drops: now minus the retention period. */
  function Cutoff(now: int, retention: Option<Value>): (c: int)
    ensures now - 365 * DayInSeconds <= c <= now - DayInSeconds
  {
    now - RetentionDays(retention) * DayInSeconds
  }

  /** The log save writes: the stored entries plus the new record, capped. */
  function SavedLog(stored: Value, record: Value): (r: seq<Value>)
    ensures |r| <= MaxEntries && |r| > 0 && r[|r| - 1] == record
  {
    Capped(LogValues(stored) + [record])
  }

  /** The write the cleanup makes: the kept entries, only when some were dropped. */
  function CleanupWrites(log: seq<Value>, cutoff: int): (w: seq<seq<Value>>)
    ensures |w| <= 1
  {
    if |Kept(log, cutoff)| != |log| then [Kept(log, cutoff)] else []
  }

  /** The stored log after the cleanup. */
  function Cleaned(stored: Value, cutoff: int): Value
  {
    var log := LogValues(stored);
    if |Kept(log, cutoff)| != |log| then VArr(ListOf(Kept(log, cutoff))) else stored
  }

  /** The cleanup writes iff some entry is too old (or no array with a timestamp); what it keeps is the recent ones. */
  lemma CleanupWritesIff(stored: Value, cutoff: int)
    ensures CleanupWrites(LogValues(stored), cutoff) != [] <==>
      exists i :: 0 <= i < |LogValues(stored)| && !Keep(LogValues(stored)[i], cutoff)
    ensures CleanupWrites(LogValues(stored), cutoff) == [] ==> Cleaned(stored, cutoff) == stored
    ensures forall e :: e in LogValues(Cleaned(stored, cutoff)) <==> e in LogValues(stored) && Keep(e, cutoff)
  {
    var log := LogValues(stored);
    KeptAll(log, cutoff);
    forall e ensures e in LogValues(Cleaned(stored, cutoff)) <==> e in log && Keep(e, cutoff) {
      KeptMembers(log, cutoff, e);
      LogValuesList(Kept(log, cutoff));
      if |Kept(log, cutoff)| == |log| {
        assert Kept(log, cutoff) == log;
      }
    }
  }

  /** The values of a written list are the list. */
  lemma LogValuesList(log: seq<Value>)
    ensures LogValues(VArr(ListOf(log))) == log
  {
    assert Values(ListOf(log)) == log;
  }

  /** An entry is kept iff it was in the log and is recent enough. */
  lemma {:induction false} KeptMembers(log: seq<Value>, cutoff: int, e: Value)
    ensures e in Kept(log, cutoff) <==> e in log && Keep(e, cutoff)
    decreases |log|
  {
    if |log| > 0 {
      var init := log[..|log| - 1];
      KeptMembers(init, cutoff, e);
      assert log == init + [log[|log| - 1]];
    }
  }

  /** Nothing is dropped iff every entry is recent enough; then the log is unchanged. */
  lemma {:induction false} KeptAll(log: seq<Value>, cutoff: int)
    ensures |Kept(log, cutoff)| == |log| <==> forall i :: 0 <= i < |log| ==> Keep(log[i], cutoff)
    ensures |Kept(log, cutoff)| == |log| ==> Kept(log, cutoff) == log
    decreases |log|
  {
    if |log| > 0 {
      var init := log[..|log| - 1];
      KeptAll(init, cutoff);
      assert forall i :: 0 <= i < |init| ==> init[i] == log[i];
    }
  }

  /** Cleaning twice with the same cutoff is cleaning once. */
  lemma KeptIdempotent(log: seq<Value>, cutoff: int)
    ensures Kept(Kept(log, cutoff), cutoff) == Kept(log, cutoff)
  {
    var k := Kept(log, cutoff);
    forall i | 0 <= i < |k| ensures Keep(k[i], cutoff) {
      KeptMembers(log, cutoff, k[i]);
    }
    KeptAll(k, cutoff);
  }

  /** A recent last entry survives the cleanup and stays last. */
  lemma KeptLast(log: seq<Value>, cutoff: int)
    requires |log| > 0 && Keep(log[|log| - 1], cutoff)
    ensures var kept := Kept(log, cutoff); |kept| > 0 && kept[|kept| - 1] == log[|log| - 1]
  {
  }

  /** The saved record carries the save's timestamp. */
  lemma RecordTimestamp(s: Stats, sanitizeText: string -> string, loadTime: Value, peakMemory: int,
                        queryCount: int, now: int, userId: int)
    requires s.Sampled?
    ensures var r := Record(s, sanitizeText, loadTime, peakMemory, queryCount, now, userId);
      r.VArr? && Lookup(r.entries, KStr("timestamp")) == Some(VInt(now))
  {
    var r := Record(s, sanitizeText, loadTime, peakMemory, queryCount, now, userId);
    assert r.entries[4] == Entry(KStr("timestamp"), VInt(now));
    assert IndexOfKey(r.entries, KStr("timestamp")) == 4;
  }

  /** After save and its cleanup, the stored log holds at most 1000 entries and ends with the new record. */
  lemma SaveKeepsNewest(stored: Value, r: Value, now: int, retention: Option<Value>)
    requires r.VArr? && Lookup(r.entries, KStr("timestamp")) == Some(VInt(now))
    ensures var after := LogValues(Cleaned(VArr(ListOf(SavedLog(stored, r))), Cutoff(now, retention)));
      0 < |after| <= MaxEntries && after[|after| - 1] == r
  {
    var capped := SavedLog(stored, r);
    var c := Cutoff(now, retention);
    LogValuesList(capped);
    assert Keep(r, c);
    KeptLast(capped, c);
    var kept := Kept(capped, c);
    if |kept| != |capped| {
      assert Cleaned(VArr(ListOf(capped)), c) == VArr(ListOf(kept));
      LogValuesList(kept);
    }
  }
}
