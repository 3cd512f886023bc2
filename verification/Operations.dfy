/** Execution history and metrics: a bounded store of records, its pages, and running aggregates. */
module Operations {
  import opened Clock
  import opened Option

  const MAX_RECORDS := 1000

  datatype ExecutionRecord = ExecutionRecord(agentName: string, success: bool, startedAt: int, finishedAt: int,
                                             durationSeconds: real, error: string)

  // ---------------------------------------------------------------- the store

  function Tail<T>(s: seq<T>, n: nat): seq<T> {
    if |s| <= n then s else s[|s| - n..]
  }

  function Appended(store: seq<ExecutionRecord>, r: ExecutionRecord): seq<ExecutionRecord> {
    var longer := store + [r];
    if |longer| > MAX_RECORDS then longer[|longer| - MAX_RECORDS..] else longer
  }

  function Stored(log: seq<ExecutionRecord>): seq<ExecutionRecord> {
    if log == [] then [] else Appended(Stored(log[..|log| - 1]), log[|log| - 1])
  }

  lemma AppendToTail(log: seq<ExecutionRecord>, r: ExecutionRecord)
    ensures Appended(Tail(log, MAX_RECORDS), r) == Tail(log + [r], MAX_RECORDS)
  {
  }

  /** Trimming one record at a time keeps exactly the last thousand of everything ever recorded. */
  lemma {:induction false} StoreIsTail(log: seq<ExecutionRecord>)
    ensures Stored(log) == Tail(log, MAX_RECORDS) == if |log| <= 1000 then log else log[|log| - 1000..]
  {
    if log != [] {
      StoreIsTail(log[..|log| - 1]);
      AppendToTail(log[..|log| - 1], log[|log| - 1]);
      assert log == log[..|log| - 1] + [log[|log| - 1]];
    }
  }

  // ---------------------------------------------------------------- pages

  datatype Filter = Filter(agentName: string, successOnly: Option<bool>, startTime: Option<int>, endTime: Option<int>)

  predicate Matches(f: Filter, r: ExecutionRecord) {
    && (f.agentName != "" ==> r.agentName == f.agentName)
    && (f.successOnly.Some? ==> r.success == f.successOnly.value)
    && (f.startTime.Some? ==> r.startedAt >= f.startTime.value)
    && (f.endTime.Some? ==> r.finishedAt <= f.endTime.value)
  }

  /** The matching records, newest first. */
  function NewestFirst(records: seq<ExecutionRecord>, f: Filter): seq<ExecutionRecord> {
    if records == [] then []
    else
      var r, older := records[|records| - 1], NewestFirst(records[..|records| - 1], f);
      if Matches(f, r) then [r] + older else older
  }

  function Page(filtered: seq<ExecutionRecord>, limit: nat, offset: nat): seq<ExecutionRecord> {
    if offset > |filtered| then []
    else if offset + limit > |filtered| then filtered[offset..] else filtered[offset..offset + limit]
  }

  /** A page holds what lies at its offset, as much as there is and no more than the limit. */
  lemma PageIsCut(filtered: seq<ExecutionRecord>, limit: nat, offset: nat)
    ensures var page := Page(filtered, limit, offset);
            && |page| == (if offset >= |filtered| then 0
                          else if |filtered| - offset < limit then |filtered| - offset else limit)
            && forall k :: 0 <= k < |page| ==> page[k] == filtered[offset + k]
  {
  }

  /** The first `k` pages one after the other. */
  function Pages(filtered: seq<ExecutionRecord>, limit: nat, k: nat): seq<ExecutionRecord> {
    if k == 0 then [] else Pages(filtered, limit, k - 1) + Page(filtered, limit, (k - 1) * limit)
  }

  lemma {:induction false} PagesArePrefix(filtered: seq<ExecutionRecord>, limit: nat, k: nat)
    ensures Pages(filtered, limit, k) == if k * limit <= |filtered| then filtered[..k * limit] else filtered
  {
    if k > 0 {
      PagesArePrefix(filtered, limit, k - 1);
      assert k * limit == (k - 1) * limit + limit;
    }
  }

  /** Turning pages until nothing is left shows every matching record once, newest first. */
  lemma PagesAreComplete(filtered: seq<ExecutionRecord>, limit: nat, k: nat)
    requires k * limit >= |filtered|
    ensures Pages(filtered, limit, k) == filtered
  {
    PagesArePrefix(filtered, limit, k);
  }

  /** Where the records of the filtered history come from: all the places of matching records, and
      only those, from the last to the first.  */
  lemma {:induction false} NewestComesFirst(records: seq<ExecutionRecord>, f: Filter) returns (at: seq<nat>)
    ensures |at| == |NewestFirst(records, f)|
    ensures forall k :: 0 <= k < |at| ==> at[k] < |records| && records[at[k]] == NewestFirst(records, f)[k]
    ensures forall k, l :: 0 <= k < l < |at| ==> at[k] > at[l]
    ensures forall i: nat :: i in at <==>
                               && i < |records|
                               && (f.agentName == "" || records[i].agentName == f.agentName)
                               && (f.successOnly.None? || records[i].success == f.successOnly.value)
                               && (f.startTime.None? || records[i].startedAt >= f.startTime.value)
                               && (f.endTime.None? || records[i].finishedAt <= f.endTime.value)
  {
    at := [];
    if records != [] {
      var last := |records| - 1;
      at := NewestComesFirst(records[..last], f);
      if Matches(f, records[last]) {
        at := [last] + at;
      }
    }
  }

  /** Filtering loses no match, invents none and repeats none. */
  lemma {:induction false} NewestFirstIsFaithful(records: seq<ExecutionRecord>, f: Filter)
    ensures forall r :: multiset(NewestFirst(records, f))[r] == if Matches(f, r) then multiset(records)[r] else 0
  {
    if records != [] {
      var before := records[..|records| - 1];
      NewestFirstIsFaithful(before, f);
      assert records == before + [records[|records| - 1]];
    }
  }

  // ---------------------------------------------------------------- aggregates

  function Of(records: seq<ExecutionRecord>, name: string): seq<ExecutionRecord> {
    if records == [] then []
    else
      var r, before := records[|records| - 1], Of(records[..|records| - 1], name);
      if r.agentName == name then before + [r] else before
  }

  function Failures(records: seq<ExecutionRecord>): nat {
    if records == [] then 0
    else Failures(records[..|records| - 1]) + if records[|records| - 1].success then 0 else 1
  }

  function Durations(records: seq<ExecutionRecord>): real {
    if records == [] then 0.0 else Durations(records[..|records| - 1]) + records[|records| - 1].durationSeconds
  }

  lemma Snoc(records: seq<ExecutionRecord>, r: ExecutionRecord)
    ensures Failures(records + [r]) == Failures(records) + if r.success then 0 else 1
    ensures Durations(records + [r]) == Durations(records) + r.durationSeconds
  {
    assert (records + [r])[..|records|] == records;
  }

  /** `lastRunAt` stays as it was when a run finished in the very second of the epoch. */
  datatype Summary = Summary(total: nat, successful: nat, failed: nat, average: real, lastDuration: real,
                             lastRunAt: int)

  /** The incremental mean of `n` values, from that of the first `n - 1` and the last. */
  function NextMean(average: real, n: nat, d: real): real
    requires n >= 1
  {
    if n == 1 then d else (average * (n as real - 1.0) + d) / n as real
  }

  function Counted(s: Summary, r: ExecutionRecord): Summary {
    var n := s.total + 1;
    Summary(n, s.successful + (if r.success then 1 else 0), s.failed + (if r.success then 0 else 1),
            NextMean(s.average, n, r.durationSeconds),
            r.durationSeconds,
            if UnixSeconds(r.finishedAt) != 0 then UnixSeconds(r.finishedAt) else s.lastRunAt)
  }

  const NO_SUMMARY := Summary(0, 0, 0, 0.0, 0.0, 0)

  function Aggregate(records: seq<ExecutionRecord>): map<string, Summary> {
    if records == [] then map[]
    else
      var r, agg := records[|records| - 1], Aggregate(records[..|records| - 1]);
      agg[r.agentName := Counted(if r.agentName in agg then agg[r.agentName] else NO_SUMMARY, r)]
  }

  lemma MeanStep(average: real, n: nat, sum: real, d: real)
    requires n >= 1 ==> average == sum / n as real
    requires n == 0 ==> sum == 0.0
    ensures NextMean(average, n + 1, d) == (sum + d) / (n + 1) as real
  {
    if n >= 1 {
      assert (n + 1) as real - 1.0 == n as real;
      assert average * n as real == sum;
    }
  }

  /** The counters are exact counts, for every agent. */
  lemma {:induction false} CountsAreExact(records: seq<ExecutionRecord>, name: string)
    ensures var own, agg := Of(records, name), Aggregate(records);
            && (name in agg <==> own != [])
            && (name in agg ==>
                  && agg[name].total == |own| && agg[name].failed == Failures(own)
                  && agg[name].successful + agg[name].failed == |own|
                  && agg[name].lastDuration == own[|own| - 1].durationSeconds)
  {
    if records != [] {
      var before, r := records[..|records| - 1], records[|records| - 1];
      CountsAreExact(before, name);
      Snoc(Of(before, name), r);
    }
  }

  /** The finish of the last record, unless it fell in the very second of the epoch; if so the one before. */
  function LastFinish(own: seq<ExecutionRecord>): int {
    if own == [] then 0
    else if UnixSeconds(own[|own| - 1].finishedAt) != 0 then UnixSeconds(own[|own| - 1].finishedAt)
    else LastFinish(own[..|own| - 1])
  }

  lemma {:induction false} LastRunIsExact(records: seq<ExecutionRecord>, name: string)
    requires name in Aggregate(records)
    ensures Aggregate(records)[name].lastRunAt == LastFinish(Of(records, name))
  {
    var before, r := records[..|records| - 1], records[|records| - 1];
    CountsAreExact(before, name);
    if name in Aggregate(before) {
      LastRunIsExact(before, name);
    }
    if r.agentName == name {
      assert Of(records, name)[..|Of(before, name)|] == Of(before, name);
    }
  }

  /** The running mean is the exact mean, for every agent. */
  lemma {:induction false} MeanIsExact(records: seq<ExecutionRecord>, name: string)
    requires name in Aggregate(records)
    ensures |Of(records, name)| > 0
    ensures Aggregate(records)[name].average == Durations(Of(records, name)) / |Of(records, name)| as real
  {
    var before, r := records[..|records| - 1], records[|records| - 1];
    var own, agg := Of(before, name), Aggregate(before);
    CountsAreExact(before, name);
    CountsAreExact(records, name);
    if name in agg {
      MeanIsExact(before, name);
    }
    if r.agentName == name {
      Snoc(own, r);
      MeanStep(if name in agg then agg[name].average else 0.0, |own|, Durations(own), r.durationSeconds);
    }
  }

  /** The sum of the totals of the listed agents. */
  function Total(agg: map<string, Summary>, names: seq<string>): nat {
    if names == [] then 0 else (if names[0] in agg then agg[names[0]].total else 0) + Total(agg, names[1..])
  }

  ghost predicate Unique(names: seq<string>) {
    forall i, j :: 0 <= i < j < |names| ==> names[i] != names[j]
  }

  lemma {:induction false} TotalUpdate(agg: map<string, Summary>, names: seq<string>, name: string, s: Summary)
    requires Unique(names) && s.total == 1 + if name in agg then agg[name].total else 0
    ensures Total(agg[name := s], names) == Total(agg, names) + if name in names then 1 else 0
  {
    if names != [] {
      TotalUpdate(agg, names[1..], name, s);
      assert name in names <==> name == names[0] || name in names[1..];
    }
  }

  lemma {:induction false} NothingToTotal(names: seq<string>)
    ensures Total(map[], names) == 0
  {
    if names != [] {
      NothingToTotal(names[1..]);
    }
  }

  /** The agents' totals add up to the number of records kept, in whatever order they are listed. */
  lemma {:induction false} TotalsAddUp(records: seq<ExecutionRecord>, names: seq<string>)
    requires Unique(names) && forall n :: n in Aggregate(records) ==> n in names
    ensures Total(Aggregate(records), names) == |records|
  {
    if records == [] {
      NothingToTotal(names);
    } else {
      var agg, r := Aggregate(records[..|records| - 1]), records[|records| - 1];
      assert forall n :: n in agg ==> n in Aggregate(records);
      TotalsAddUp(records[..|records| - 1], names);
      TotalUpdate(agg, names, r.agentName, Counted(if r.agentName in agg then agg[r.agentName] else NO_SUMMARY, r));
    }
  }

  // ---------------------------------------------------------------- metrics

  datatype AgentMetrics = AgentMetrics(total: nat, successful: nat, failed: nat, totalDuration: real,
                                       lastDuration: real) {
    function SuccessRate(): real {
      if total == 0 then 1.0 else successful as real / total as real
    }

    function AvgDurationSeconds(): real {
      if total == 0 then 0.0 else totalDuration / total as real
    }
  }

  const NO_METRICS := AgentMetrics(0, 0, 0, 0.0, 0.0)

  type Metrics = map<string, AgentMetrics>

  function MetricsOf(metrics: Metrics, name: string): AgentMetrics {
    if name in metrics then metrics[name] else NO_METRICS
  }

  function Measured(metrics: Metrics, name: string, success: bool, duration: real): Metrics {
    var am := MetricsOf(metrics, name);
    metrics[name := AgentMetrics(am.total + 1, am.successful + (if success then 1 else 0),
                                 am.failed + (if success then 0 else 1), am.totalDuration + duration, duration)]
  }

  function Collected(log: seq<ExecutionRecord>): Metrics {
    if log == [] then map[]
    else
      var r := log[|log| - 1];
      Measured(Collected(log[..|log| - 1]), r.agentName, r.success, r.durationSeconds)
  }

  /** The collector's counters are those of the full log. */
  lemma {:induction false} MetricsAreExact(log: seq<ExecutionRecord>, name: string)
    ensures var am, own := MetricsOf(Collected(log), name), Of(log, name);
            && am.total == |own| && am.failed == Failures(own) && am.successful + am.failed == am.total
            && am.totalDuration == Durations(own)
  {
    if log != [] {
      MetricsAreExact(log[..|log| - 1], name);
      Snoc(Of(log[..|log| - 1], name), log[|log| - 1]);
    }
  }

  lemma {:induction false} LastDurationIsExact(log: seq<ExecutionRecord>, name: string)
    requires Of(log, name) != []
    ensures MetricsOf(Collected(log), name).lastDuration == Of(log, name)[|Of(log, name)| - 1].durationSeconds
  {
    if log[|log| - 1].agentName != name {
      LastDurationIsExact(log[..|log| - 1], name);
    }
  }

  /** The success rate is the share of successes in the agent's whole log. */
  lemma SuccessRateIsExact(log: seq<ExecutionRecord>, name: string)
    ensures var own, rate := Of(log, name), MetricsOf(Collected(log), name).SuccessRate();
            && 0.0 <= rate <= 1.0
            && (own != [] ==> rate == (|own| - Failures(own)) as real / |own| as real)
            && (rate == 1.0 <==> Failures(own) == 0)
  {
    MetricsAreExact(log, name);
    var am := MetricsOf(Collected(log), name);
    if am.total > 0 {
      Share(am.successful, am.total);
    }
  }

  lemma Share(part: nat, whole: nat)
    requires part <= whole && whole > 0
    ensures 0.0 <= part as real / whole as real <= 1.0
    ensures part as real / whole as real == 1.0 <==> part == whole
  {
  }

  /** While nothing has been trimmed, history and metrics report the same mean for every agent. */
  lemma MeansAgree(log: seq<ExecutionRecord>, name: string)
    requires |log| <= MAX_RECORDS && name in Aggregate(Stored(log))
    ensures Aggregate(Stored(log))[name].average == MetricsOf(Collected(log), name).AvgDurationSeconds()
  {
    StoreIsTail(log);
    MeanIsExact(log, name);
    MetricsAreExact(log, name);
  }

  // ---------------------------------------------------------------- the objects

  class Manager {
    var records: seq<ExecutionRecord>

    constructor ()
      ensures records == []
    {
      records := [];
    }

    method Record(r: ExecutionRecord)
      modifies this
      ensures records == Appended(old(records), r)
    {
      records := records + [r];
      if |records| > MAX_RECORDS {
        records := records[|records| - MAX_RECORDS..];
      }
    }

    /** Go panics on a negative offset or limit; the total counts every match. */
    method GetHistory(f: Filter, limit: nat, offset: nat) returns (page: seq<ExecutionRecord>, total: nat)
      ensures page == Page(NewestFirst(records, f), limit, offset)
      ensures total == |NewestFirst(records, f)|
    {
      var filtered := [];
      var i := |records| - 1;
      assert records[..i + 1] == records;
      while i >= 0
        invariant -1 <= i < |records|
        invariant filtered + NewestFirst(records[..i + 1], f) == NewestFirst(records, f)
      {
        var r := records[i];
        assert records[..i + 1][..i] == records[..i];
        if f.agentName != "" && r.agentName != f.agentName {
        } else if f.successOnly.Some? && r.success != f.successOnly.value {
        } else if f.startTime.Some? && r.startedAt < f.startTime.value {
        } else if f.endTime.Some? && r.finishedAt > f.endTime.value {
        } else {
          filtered := filtered + [r];
        }
        i := i - 1;
      }
      assert filtered == NewestFirst(records, f);
      total := |filtered|;
      if offset > total {
        return [], total;
      }
      var end := offset + limit;
      if end > total {
        end := total;
      }
      page := filtered[offset..end];
    }

    method AddToMean(average: real, total: nat, d: real) returns (mean: real)
      requires total >= 1
      ensures mean == NextMean(average, total, d)
    {
      var n := total as real;
      if total == 1 {
        mean := d;
      } else {
        mean := (average * (n - 1.0) + d) / n;
      }
    }

    method GetSummary() returns (agg: map<string, Summary>)
      ensures agg == Aggregate(records)
    {
      hide NextMean;
      agg := map[];
      for i := 0 to |records|
        invariant agg == Aggregate(records[..i])
      {
        var r := records[i];
        assert records[..i + 1][..i] == records[..i];
        var s := NO_SUMMARY;
        if r.agentName in agg {
          s := agg[r.agentName];
        }
        s := s.(total := s.total + 1);
        if r.success {
          s := s.(successful := s.successful + 1);
        } else {
          s := s.(failed := s.failed + 1);
        }
        s := s.(lastDuration := r.durationSeconds);
        if UnixSeconds(r.finishedAt) != 0 {
          s := s.(lastRunAt := UnixSeconds(r.finishedAt));
        }
        var mean := AddToMean(s.average, s.total, r.durationSeconds);
        s := s.(average := mean);
        assert s == Counted(if r.agentName in agg then agg[r.agentName] else NO_SUMMARY, r);
        agg := agg[r.agentName := s];
      }
      assert records[..|records|] == records;
    }
  }

  class MetricsCollector {
    var agentMetrics: Metrics

    constructor ()
      ensures agentMetrics == map[]
    {
      agentMetrics := map[];
    }

    method RecordExecution(name: string, success: bool, duration: real)
      modifies this
      ensures agentMetrics == Measured(old(agentMetrics), name, success, duration)
    {
      if name !in agentMetrics {
        agentMetrics := agentMetrics[name := NO_METRICS];
      }
      var am := agentMetrics[name];
      am := am.(total := am.total + 1, totalDuration := am.totalDuration + duration, lastDuration := duration);
      if success {
        am := am.(successful := am.successful + 1);
      } else {
        am := am.(failed := am.failed + 1);
      }
      agentMetrics := agentMetrics[name := am];
    }
  }
}
