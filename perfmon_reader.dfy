/**
 The Perfmon reader as the object it is: `PerfmonFile` holds the settings,
 the default tags and the UTC offset in minutes (`minOffset`), which
 `ProcessPerfMonLog` sets from the first line of every file it reads. Each
 method is proved to compute what the functions of PerfmonFiles and
 PerfmonRun say.
 */
module PerfmonReader {
  import opened Common
  import opened Runtime
  import opened OrderedDict
  import opened Points
  import opened Failures
  import opened PerfmonFiles
  import opened PerfmonRun
  import GenericFiles
  import GenericReader

  /**
   The `Select` of `ParsePerfMonFileHeader` over the counter cells: each cell
   is sanitized and split on `\`, and its parts 2, 3 and 4 name the counter.
   */
  method ParseCounters(s: PerfmonSettings, cells: seq<string>) returns (r: Result<seq<PerfmonCounter>>)
    ensures r == CountersFrom(s, cells, 0, [])
  {
    var perfCounters: seq<PerfmonCounter> := [];
    var column := 1;
    var i := 0;
    ghost var full := CountersFrom(s, cells, 0, []);
    while i < |cells|
      invariant 0 <= i <= |cells| && |perfCounters| == i && column == i + 1
      invariant CountersFrom(s, cells, i, perfCounters) == full
    {
      CountersStep(s, cells, i, perfCounters);
      var p := CounterPath(s, cells[i]);
      if |p| < 5 {
        return Throw(IndexOutOfRangeException, IndexOutOfRangeMessage);
      }
      var rw := s.replaceReservedWith;
      perfCounters := perfCounters + [PerfmonCounter(column, TrimChar(p[2], rw), TrimChar(p[3], rw), TrimChar(p[4], rw))];
      column := column + 1;
      i := i + 1;
    }
    return Ok(perfCounters);
  }

  /** The MultiMeasurement loop over one host's counters: a field per counter whose cell holds a number. */
  method ReadFields(e: Engine, cells: seq<string>, members: seq<PerfmonCounter>, start: Point) returns (r: Result<Point>)
    ensures r == FieldsFrom(e, cells, members, 0, start)
  {
    var point := start;
    var k := 0;
    ghost var full := FieldsFrom(e, cells, members, 0, start);
    while k < |members|
      invariant 0 <= k <= |members|
      invariant FieldsFrom(e, cells, members, k, point) == full
    {
      var value := Reading(e, cells, members[k].columnIndex);
      if value.Fail? {
        return Fail(value.error);
      }
      if value.value.Some? {
        point := point.(fields := Put(point.fields, members[k].counterName, NumberField(value.value.value)));
      }
      k := k + 1;
    }
    return Ok(point);
  }

  /** The MultiMeasurement branch for one host group: one point, kept only when it has a field. */
  method MultiMeasurementPoint(lc: LineContext, cells: seq<string>, time: int, obj: string, host: Group) returns (r: Result<Option<Point>>)
    ensures r == MultiPoint(lc, cells, time, obj, host)
  {
    var tags := Add(lc.defaultTags, "Host", host.key);
    if tags.Fail? {
      return Fail(tags.error);
    }
    var point := ReadFields(lc.e, cells, host.members, BasePoint(lc, obj, time).(tags := tags.value));
    if point.Fail? {
      return Fail(point.error);
    }
    if |point.value.fields| > 0 {
      return Ok(Some(point.value));
    }
    return Ok(None);
  }

  /** The single-measurement branch for one host group: one point per counter whose cell holds a number. */
  method SingleMeasurementPoints(lc: LineContext, cells: seq<string>, time: int, host: Group, acc: seq<Point>) returns (r: Result<seq<Point>>)
    requires !lc.s.multiMeasurements
    ensures r == SingleFrom(lc, cells, time, host.key, host.members, 0, acc)
  {
    ghost var full := SingleFrom(lc, cells, time, host.key, host.members, 0, acc);
    var points := acc;
    var k := 0;
    while k < |host.members|
      invariant 0 <= k <= |host.members|
      invariant SingleFrom(lc, cells, time, host.key, host.members, k, points) == full
    {
      var value := Reading(lc.e, cells, host.members[k].columnIndex);
      if value.Fail? {
        return Fail(value.error);
      }
      if value.value.Some? {
        var point := SinglePoint(lc, time, host.key, host.members[k], value.value.value);
        if point.Fail? {
          return Fail(point.error);
        }
        points := points + [point.value];
      }
      k := k + 1;
    }
    return Ok(points);
  }

  /** The body of the loop over the host groups: the points of one host, in the configured mode, appended to `acc`. */
  method HostGroupPoints(lc: LineContext, cells: seq<string>, time: int, obj: string, host: Group, acc: seq<Point>) returns (r: Result<seq<Point>>)
    ensures r == HostPoints(lc, cells, time, obj, host, acc)
  {
    if lc.s.multiMeasurements {
      var point := MultiMeasurementPoint(lc, cells, time, obj, host);
      if point.Fail? {
        return Fail(point.error);
      }
      if point.value.Some? {
        return Ok(acc + [point.value.value]);
      }
      return Ok(acc);
    }
    r := SingleMeasurementPoints(lc, cells, time, host, acc);
  }

  class PerfmonFile {
    const settings: PerfmonSettings
    const engine: Engine
    const defaultTags: Entries<string, string>
    /** The UTC offset in minutes of the last file whose first line gave one. */
    var minOffset: int

    constructor (settings: PerfmonSettings, engine: Engine, defaultTags: Entries<string, string>)
      ensures this.settings == settings && this.engine == engine && this.defaultTags == defaultTags && minOffset == 0
    {
      this.settings := settings;
      this.engine := engine;
      this.defaultTags := defaultTags;
      minOffset := 0;
    }

    /**
     `ParsePerfMonFileHeader`: no counters for a blank line, otherwise one per
     counter cell, numbered from 1.
     */
    method ParsePerfMonFileHeader(headerLine: NString, quoted: bool) returns (r: Result<seq<PerfmonCounter>>)
      ensures r == PerfmonHeader(settings, engine, headerLine, quoted)
    {
      if IsNullOrWhiteSpace(headerLine) {
        return Ok([]);
      }
      r := ParseCounters(settings, CounterCells(settings, engine, headerLine.value, quoted));
    }

    /**
     `ProcessPerfmonLogLine`: the row's time, moved by `minOffset`, and the
     points of every host group of every object group, or the exception the
     row raises. `retention` is the run's retention policy.
     */
    method ProcessPerfmonLogLine(line: string, groups: seq<Group>, retention: Option<string>) returns (r: Result<seq<Point>>)
      ensures r == PerfmonLine(LineContext(settings, engine, defaultTags, retention), minOffset, groups, line)
    {
      var lc := LineContext(settings, engine, defaultTags, retention);
      var cells := LineCells(lc, line);
      var time := SampleTime(lc, minOffset, cells);
      if time.Fail? {
        return Fail(time.error);
      }
      ghost var full := ObjectsFrom(lc, cells, time.value, groups, 0, []);
      var points: seq<Point> := [];
      var i := 0;
      while i < |groups|
        invariant 0 <= i <= |groups|
        invariant ObjectsFrom(lc, cells, time.value, groups, i, points) == full
      {
        var obj := groups[i].key;
        var hosts := GroupBy(groups[i].members, HostOf);
        ghost var start := points;
        var j := 0;
        ghost var hostFull := HostsFrom(lc, cells, time.value, obj, hosts, 0, start);
        while j < |hosts|
          invariant 0 <= j <= |hosts|
          invariant HostsFrom(lc, cells, time.value, obj, hosts, j, points) == hostFull
          invariant ObjectsFrom(lc, cells, time.value, groups, i, start) == full
        {
          var next := HostGroupPoints(lc, cells, time.value, obj, hosts[j], points);
          if next.Fail? {
            return Fail(next.error);
          }
          points := next.value;
          j := j + 1;
        }
        i := i + 1;
      }
      return Ok(points);
    }

    /** What one run of this reader reads and never changes, once the counters are grouped. */
    ghost function RunContext(groups: seq<Group>, retention: Option<string>, store: Store): PerfContext
      reads this
    {
      PerfContext(LineContext(settings, engine, defaultTags, retention), minOffset, groups, store.respond)
    }

    /** The catch block of the loop: the line counts as failed and the failure is recorded in the tracker of its type. */
    method Catch(ghost st: PerfState, e: Error, linesProcessed: int, failedLines: int, failureReasons: map<string, FailureTracker>)
      returns (nowFailed: int, reasons: map<string, FailureTracker>)
      requires st.lines == linesProcessed && st.failedLines == failedLines
      requires Tracks(failureReasons, st.events) && Distinct(failureReasons)
      modifies failureReasons.Values
      ensures nowFailed == OnFailure(st, e).failedLines
      ensures Tracks(reasons, OnFailure(st, e).events) && Distinct(reasons)
      ensures forall t :: t in reasons ==> (t in failureReasons && reasons[t] == failureReasons[t]) || fresh(reasons[t])
    {
      nowFailed := failedLines + 1;
      reasons := Record(failureReasons, st.events, FailureEvent(e.kind, e.message, linesProcessed));
    }

    /**
     Posting a full batch inside the loop: a post returning true resets the
     failed-post count; one returning false, or throwing
     ServiceUnavailableException, requeues the unsaved points and breaks the
     loop on the fifth in a row; any other exception is `caught` for the
     catch block, with the batch as the store left it.
     */
    method PostFullBatch(ghost c: PerfContext, ghost st: PerfState, store: Store, processed0: int, points0: seq<Point>,
                         retryQueue0: seq<Point>, failedReqCount0: int, ghost dropped0: nat)
      returns (processed: int, points: seq<Point>, retryQueue: seq<Point>, failedReqCount: int, ghost dropped: nat, flow: PerfFlow, caught: Option<Error>)
      requires c.respond == store.respond
      requires st.processed == processed0 && st.pending == points0 && st.retry == retryQueue0 && st.failedReq == failedReqCount0
      requires st.posts == |store.posts| && st.dropped == dropped0
      modifies store
      ensures var now := st.(processed := processed, pending := points, retry := retryQueue, failedReq := failedReqCount, posts := |store.posts|, dropped := dropped);
        if caught.None? then PostBatch(c, st) == (now, flow)
        else PostBatch(c, st) == (OnFailure(now, caught.value), Proceed) && flow == Proceed
      ensures old(store.posts) <= store.posts
    {
      processed, points, retryQueue, failedReqCount, dropped := processed0, points0, retryQueue0, failedReqCount0, dropped0;
      flow, caught := Proceed, None;
      var reply, after := store.PostPoints(points);
      if reply.Returned? && reply.ok {
        failedReqCount := 0;
        processed := processed + SavedCount(after);
        dropped := dropped + |Unsaved(after)|;
        points := [];
      } else if reply.Returned? || reply.error.kind == ServiceUnavailableException {
        retryQueue := retryQueue + Unsaved(after);
        processed := processed + SavedCount(after);
        failedReqCount := failedReqCount + 1;
        if failedReqCount > 4 {
          points := after;
          flow := Refused;
        } else {
          points := [];
        }
      } else {
        points := after;
        caught := Some(reply.error);
      }
    }

    /**
     One line of the loop, up to its catch block, once `ProcessPerfmonLogLine`
     gave `linePoints`: the line is counted and its points are queued; a full
     batch is posted. A failure of either is returned as `caught`, with the
     state it left.
     */
    method QueueLine(ghost c: PerfContext, ghost before: PerfState, linePoints: Result<seq<Point>>, store: Store,
                     linesProcessed0: int, failedLines0: int, found0: int, processed0: int, points0: seq<Point>,
                     retryQueue0: seq<Point>, failedReqCount0: int, ghost dropped0: nat)
      returns (linesProcessed: int, failedLines: int, found: int, processed: int, points: seq<Point>,
               retryQueue: seq<Point>, failedReqCount: int, ghost dropped: nat, flow: PerfFlow, caught: Option<Error>)
      requires c.respond == store.respond && c.lc.s == settings
      requires before == PerfState(linesProcessed0, failedLines0, found0, processed0, before.failedPoints, points0, retryQueue0,
                                   failedReqCount0, |store.posts|, before.events, dropped0)
      modifies store
      ensures var reached := PerfState(linesProcessed, failedLines, found, processed, before.failedPoints, points, retryQueue,
                                       failedReqCount, |store.posts|, before.events, dropped);
        var step := Step(c, before, linePoints);
        if caught.None? then step == (reached, flow) else step == (OnFailure(reached, caught.value), Proceed) && flow == Proceed
      ensures old(store.posts) <= store.posts
    {
      linesProcessed, failedLines, found, processed, points := linesProcessed0, failedLines0, found0, processed0, points0;
      retryQueue, failedReqCount, dropped := retryQueue0, failedReqCount0, dropped0;
      flow, caught := Proceed, None;
      if linePoints.Fail? {
        caught := Some(linePoints.error);
        return;
      }
      linesProcessed := linesProcessed + 1;
      if |linePoints.value| == 0 {
        failedLines := failedLines + 1;
        return;
      }
      found := found + |linePoints.value|;
      points := points + linePoints.value;
      ghost var queued := PerfState(linesProcessed, failedLines, found, processed, before.failedPoints, points, retryQueue,
                                    failedReqCount, |store.posts|, before.events, dropped);
      if |points| >= settings.pointsInSingleBatch {
        assert Step(c, before, linePoints) == PostBatch(c, queued);
        processed, points, retryQueue, failedReqCount, dropped, flow, caught := PostFullBatch(c, queued, store, processed, points, retryQueue, failedReqCount, dropped);
      } else {
        assert Step(c, before, linePoints) == (queued, Proceed);
      }
    }

    /** One pass of the loop body: the line as `QueueLine` handles it, then the catch block when it threw. */
    method HandleLine(ghost c: PerfContext, ghost before: PerfState, linePoints: Result<seq<Point>>, store: Store,
                      linesProcessed0: int, failedLines0: int, found0: int, processed0: int, points0: seq<Point>,
                      retryQueue0: seq<Point>, failedReqCount0: int, failureReasons0: map<string, FailureTracker>,
                      ghost events0: seq<FailureEvent>, ghost dropped0: nat)
      returns (linesProcessed: int, failedLines: int, found: int, processed: int, points: seq<Point>, retryQueue: seq<Point>,
               failedReqCount: int, failureReasons: map<string, FailureTracker>, ghost events: seq<FailureEvent>, ghost dropped: nat, flow: PerfFlow)
      requires c.respond == store.respond && c.lc.s == settings
      requires before == PerfState(linesProcessed0, failedLines0, found0, processed0, 0, points0, retryQueue0,
                                   failedReqCount0, |store.posts|, events0, dropped0)
      requires Tracks(failureReasons0, events0) && Distinct(failureReasons0)
      modifies store, failureReasons0.Values
      ensures (PerfState(linesProcessed, failedLines, found, processed, 0, points, retryQueue, failedReqCount, |store.posts|, events, dropped), flow)
        == Step(c, before, linePoints)
      ensures Tracks(failureReasons, events) && Distinct(failureReasons)
      ensures forall t :: t in failureReasons ==> (t in failureReasons0 && failureReasons[t] == failureReasons0[t]) || fresh(failureReasons[t])
      ensures old(store.posts) <= store.posts
    {
      failureReasons, events := failureReasons0, events0;
      var caught;
      linesProcessed, failedLines, found, processed, points, retryQueue, failedReqCount, dropped, flow, caught :=
        QueueLine(c, before, linePoints, store, linesProcessed0, failedLines0, found0, processed0, points0, retryQueue0, failedReqCount0, dropped0);
      if caught.Some? {
        ghost var reached := PerfState(linesProcessed, failedLines, found, processed, 0, points, retryQueue, failedReqCount, |store.posts|, events, dropped);
        failedLines, failureReasons := Catch(reached, caught.value, linesProcessed, failedLines, failureReasons);
        events := OnFailure(reached, caught.value).events;
      }
    }

    /**
     The `foreach` over the lines after the first: each line is turned into
     points, full batches are posted, failures are caught and recorded in one
     tracker per exception type. Returns the loop's variables when it ends or
     breaks.
     */
    method StreamLines(data: seq<string>, groups: seq<Group>, store: Store, retention: Option<string>)
      returns (linesProcessed: int, failedLines: int, found: int, processed: int, points: seq<Point>, retryQueue: seq<Point>,
               failedReqCount: int, failureReasons: map<string, FailureTracker>, ghost events: seq<FailureEvent>, ghost dropped: nat, flow: PerfFlow)
      modifies store
      ensures (PerfState(linesProcessed, failedLines, found, processed, 0, points, retryQueue, failedReqCount, |store.posts|, events, dropped), flow)
        == StreamFrom(RunContext(groups, retention, store), data, 0, Begin(|old(store.posts)|))
      ensures Tracks(failureReasons, events) && Distinct(failureReasons)
      ensures forall t :: t in failureReasons ==> fresh(failureReasons[t])
      ensures old(store.posts) <= store.posts
    {
      ghost var c := RunContext(groups, retention, store);
      linesProcessed, failedLines, found, processed := 0, 0, 0, 0;
      points, retryQueue := [], [];
      failedReqCount := 0;
      failureReasons := map[];
      events, dropped := [], 0;
      ghost var full := StreamFrom(c, data, 0, Begin(|store.posts|));
      flow := Proceed;
      var i := 0;
      while i < |data| && flow == Proceed
        invariant 0 <= i <= |data|
        invariant var st := PerfState(linesProcessed, failedLines, found, processed, 0, points, retryQueue, failedReqCount, |store.posts|, events, dropped);
          && (flow == Proceed ==> StreamFrom(c, data, i, st) == full)
          && (flow != Proceed ==> (st, flow) == full)
        invariant Tracks(failureReasons, events) && Distinct(failureReasons)
        invariant forall t :: t in failureReasons ==> fresh(failureReasons[t])
        invariant c == RunContext(groups, retention, store)
        invariant old(store.posts) <= store.posts
      {
        ghost var before := PerfState(linesProcessed, failedLines, found, processed, 0, points, retryQueue, failedReqCount, |store.posts|, events, dropped);
        var linePoints := ProcessPerfmonLogLine(data[i], groups, retention);
        ghost var next := Step(c, before, linePoints);
        StreamStep(c, data, i, before);
        linesProcessed, failedLines, found, processed, points, retryQueue, failedReqCount, failureReasons, events, dropped, flow :=
          HandleLine(c, before, linePoints, store, linesProcessed, failedLines, found, processed, points, retryQueue, failedReqCount,
                     failureReasons, events, dropped);
        i := i + 1;
      }
    }

    /**
     What `ProcessPerfMonLog` does after the loop: it gives up on a full
     retry queue or repeated failed posts, posts the leftover batch, retries
     the queue once and chooses the exit code.
     */
    method FinishLines(store: Store, groups: seq<Group>, retention: Option<string>, linesProcessed: int, failedLines: int, found: int,
                       processed: int, points: seq<Point>, retryQueue: seq<Point>, failedReqCount: int,
                       ghost events: seq<FailureEvent>, ghost dropped: nat)
      returns (status: ProcessStatus)
      modifies store
      ensures var o := Finish(RunContext(groups, retention, store),
        PerfState(linesProcessed, failedLines, found, processed, 0, points, retryQueue, failedReqCount, |old(store.posts)|, events, dropped));
        status == o.status && |store.posts| == o.state.posts && old(store.posts) <= store.posts
    {
      ghost var c := RunContext(groups, retention, store);
      ghost var st := PerfState(linesProcessed, failedLines, found, processed, 0, points, retryQueue, failedReqCount, |store.posts|, events, dropped);
      var batch := settings.pointsInSingleBatch;
      var failedPoints := 0;
      var processed, points, retryQueue, failedReqCount := processed, points, retryQueue, failedReqCount;
      if |retryQueue| >= batch * 3 || failedReqCount > 3 {
        return ProcessStatus(UnknownError, failedPoints, found, processed);
      }
      var threw;
      processed, points, retryQueue, failedReqCount, threw := PostLeftoverBatch(c, st, store, processed, points, retryQueue, failedReqCount);
      if threw {
        return ProcessStatus(UnknownError, failedPoints, found, processed);
      }
      ghost var left := PerfState(linesProcessed, failedLines, found, processed, failedPoints, points, retryQueue, failedReqCount, |store.posts|, events, dropped);
      failedPoints, processed, retryQueue, failedReqCount, threw := RetryOnce(c, left, store, failedPoints, processed, retryQueue, failedReqCount);
      if threw {
        return ProcessStatus(UnknownError, failedPoints, found, processed);
      }
      if failedLines > 0 || |retryQueue| > 0 {
        var code := if failedLines == linesProcessed || found == |retryQueue| then UnableToProcess else ProcessedWithErrors;
        status := ProcessStatus(code, failedPoints, found, processed);
      } else {
        status := ProcessStatus(Success, failedPoints, found, processed);
      }
    }

    /** The post of the last, partial batch after the loop; `threw` when the store threw. */
    method PostLeftoverBatch(ghost c: PerfContext, ghost st: PerfState, store: Store, processed0: int, points0: seq<Point>,
                             retryQueue0: seq<Point>, failedReqCount0: int)
      returns (processed: int, points: seq<Point>, retryQueue: seq<Point>, failedReqCount: int, threw: bool)
      requires c.respond == store.respond
      requires st.processed == processed0 && st.pending == points0 && st.retry == retryQueue0 && st.failedReq == failedReqCount0
      requires st.posts == |store.posts|
      modifies store
      ensures PostLeftover(c, st)
        == Stage(st.(processed := processed, pending := points, retry := retryQueue, failedReq := failedReqCount, posts := |store.posts|), threw)
      ensures old(store.posts) <= store.posts
    {
      processed, points, retryQueue, failedReqCount, threw := processed0, points0, retryQueue0, failedReqCount0, false;
      if |points| > 0 {
        var reply, after := store.PostPoints(points);
        points := after;
        if reply.Raised? {
          return processed, points, retryQueue, failedReqCount, true;
        }
        if reply.ok {
          processed := processed + |after|;
          points := [];
        } else {
          failedReqCount := failedReqCount + 1;
          retryQueue := retryQueue + Unsaved(after);
          processed := processed + SavedCount(after);
        }
      }
    }

    /** The one retry of the queue after the loop; `threw` when the run ends there. */
    method RetryOnce(ghost c: PerfContext, ghost st: PerfState, store: Store, failedPoints0: int, processed0: int, retryQueue0: seq<Point>,
                     failedReqCount0: int)
      returns (failedPoints: int, processed: int, retryQueue: seq<Point>, failedReqCount: int, threw: bool)
      requires c.respond == store.respond && c.lc.s == settings
      requires st.failedPoints == failedPoints0 && st.processed == processed0 && st.retry == retryQueue0 && st.failedReq == failedReqCount0
      requires st.posts == |store.posts|
      modifies store
      ensures PostRetry(c, st)
        == Stage(st.(failedPoints := failedPoints, processed := processed, retry := retryQueue, failedReq := failedReqCount, posts := |store.posts|), threw)
      ensures old(store.posts) <= store.posts
    {
      var batch := settings.pointsInSingleBatch;
      failedPoints, processed, retryQueue, failedReqCount, threw := failedPoints0, processed0, retryQueue0, failedReqCount0, false;
      if |retryQueue| > 0 {
        var reply, after := store.PostPoints(retryQueue);
        retryQueue := after;
        if reply.Raised? {
          return failedPoints, processed, retryQueue, failedReqCount, true;
        } else if reply.ok {
          processed := processed + |after|;
          retryQueue := [];
        } else if |after| >= batch * 3 {
          return failedPoints, processed, retryQueue, failedReqCount, true;
        } else {
          failedReqCount := failedReqCount + 1;
          if failedReqCount > 4 {
            return failedPoints, processed, retryQueue, failedReqCount, true;
          }
          failedPoints := failedPoints + |after|;
        }
      }
    }

    /**
     The part of `ProcessPerfMonLog` from the `foreach` over the lines after
     the first to the exit code; the failure trackers are kept for the report.
     */
    method TransferLines(lines: seq<string>, groups: seq<Group>, store: Store, retention: Option<string>) returns (status: ProcessStatus)
      modifies store
      ensures var o := Transfer(RunContext(groups, retention, store), lines, |old(store.posts)|);
        status == o.status && |store.posts| == o.state.posts && old(store.posts) <= store.posts
    {
      var data := Skip(lines, 1);
      var linesProcessed, failedLines, found, processed, points, retryQueue, failedReqCount, failureReasons, events, dropped, flow :=
        StreamLines(data, groups, store, retention);
      status := FinishLines(store, groups, retention, linesProcessed, failedLines, found, processed, points, retryQueue, failedReqCount, events, dropped);
    }

    /**
     `ProcessPerfMonLog`: the first line must name the PDH-CSV format and
     gives the offset, the header gives the counters, which are filtered and
     grouped, then the lines are transferred; an exception before the lines
     ends the run with UnknownError. `db` is the database structure the store
     reports and `retention` the outcome of the retention policy lookup.
     */
    method ProcessPerfMonLog(lines: seq<string>, store: Store, db: Database, retention: Result<Option<string>>) returns (status: ProcessStatus)
      modifies this`minOffset, store
      ensures var o := Run(settings, engine, defaultTags, old(minOffset), lines, db, retention, store.respond, |old(store.posts)|);
        status == o.status && |store.posts| == o.state.posts && old(store.posts) <= store.posts
      ensures minOffset == NextOffset(lines, old(minOffset))
    {
      var ok := ReadFileFormat(FirstOrNull(lines));
      if !ok {
        return ProcessStatus(UnknownError, 0, 0, 0);
      }
      var groups := ReadGroups(lines, db);
      if groups.Fail? {
        return ProcessStatus(UnknownError, 0, 0, 0);
      }
      if retention.Fail? {
        return ProcessStatus(UnknownError, 0, 0, 0);
      }
      status := TransferLines(lines, groups.value, store, retention.value);
    }

    /**
     The first-line check of `ProcessPerfMonLog`: the first cell must name the
     PDH-CSV format, and its run in parentheses, when there is one, gives the
     UTC offset; `ok` is false where the program throws.
     */
    method ReadFileFormat(firstLine: NString) returns (ok: bool)
      modifies this`minOffset
      ensures ok <==> ReadFormat(firstLine, old(minOffset)).Ok?
      ensures minOffset == if ok then ReadFormat(firstLine, old(minOffset)).value else old(minOffset)
    {
      var firstCol := FirstCell(firstLine);
      if firstCol.Fail? || !Contains(firstCol.value, PdhCsv) {
        return false;
      }
      var x := Runs(firstCol.value);
      if |x| > 0 {
        if |x| < 4 {
          return false;
        }
        var parsed := ParseRun(x[3]);
        if parsed.Fail? {
          return false;
        }
        minOffset := parsed.value;
      }
      return true;
    }

    /** The counters of `ProcessPerfMonLog`: the header's counters, filtered as configured, grouped by object. */
    method ReadGroups(lines: seq<string>, db: Database) returns (r: Result<seq<Group>>)
      ensures r == Counters(settings, engine, lines, db)
    {
      var header := ParsePerfMonFileHeader(FirstOrNull(lines), true);
      if header.Fail? {
        return Fail(header.error);
      }
      if settings.filter.NoFilter? {
        return Ok(GroupBy(header.value, ObjectOf));
      }
      var filterColumns := ParsePerfMonFileHeader(Some(GenericFiles.ListTypeName), false);
      if filterColumns.Fail? {
        return Fail(filterColumns.error);
      }
      return Ok(GroupBy(FilterPerfmonLogColumns(settings, header.value, filterColumns.value, db), ObjectOf));
    }
  }

  /** `new PerfmonFile()`: the default tags are parsed, which may throw; the offset starts at zero. */
  method NewPerfmonFile(settings: PerfmonSettings, engine: Engine, tags: seq<string>) returns (r: Result<PerfmonFile>)
    ensures r.Fail? <==> GenericFiles.DefaultTags(tags).Fail?
    ensures r.Ok? ==> fresh(r.value) && r.value.defaultTags == GenericFiles.DefaultTags(tags).value
    ensures r.Ok? ==> r.value.settings == settings && r.value.engine == engine && r.value.minOffset == 0
  {
    var parsed := GenericReader.ParseDefaultTags(tags);
    if parsed.Fail? {
      return Fail(parsed.error);
    }
    var file := new PerfmonFile(settings, engine, parsed.value);
    return Ok(file);
  }
}
