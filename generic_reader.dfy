/**
 The generic reader as the object it is: `GenericFile` holds the settings,
 the default tags, the column layout (which `GetFileLayout` extends), the
 number of rows to sample (which `ValidateData` adjusts) and the bound
 columns, and its methods change them as the source does. Each method is
 proved to compute what the functions of GenericFiles and GenericRun say.
 */
module GenericReader {
  import opened Common
  import opened Runtime
  import opened OrderedDict
  import opened Columns
  import opened Points
  import opened Failures
  import opened GenericFiles
  import opened GenericRun

  /** The constructor's loop over the configured default tags. */
  method ParseDefaultTags(tags: seq<string>) returns (r: Result<Entries<string, string>>)
    ensures r == DefaultTags(tags)
  {
    var added: Entries<string, string> := [];
    var i := 0;
    while i < |tags|
      invariant 0 <= i <= |tags|
      invariant DefaultTagsFrom(tags, i, added) == DefaultTags(tags)
    {
      var pieces := SplitOnChar(tags[i], '=');
      if |pieces| < 2 {
        return Throw(IndexOutOfRangeException, IndexOutOfRangeMessage);
      }
      var next := Add(added, pieces[0], pieces[1]);
      if next.Fail? {
        return Fail(next.error);
      }
      added := next.value;
      i := i + 1;
    }
    return Ok(added);
  }

  /** The first loop of `ProcessGenericLine` and `ValidateData`: the cells of a row keyed by column. */
  method GatherCells(chain: ColumnChain, headers: seq<GenericColumn>, cells: seq<string>) returns (r: Result<Entries<GenericColumn, string>>)
    ensures r == GatherFrom(chain, headers, cells, 0, [])
  {
    var data: Entries<GenericColumn, string> := [];
    var i := 0;
    ghost var full := GatherFrom(chain, headers, cells, 0, []);
    while i < |headers|
      invariant 0 <= i <= |headers|
      invariant GatherFrom(chain, headers, cells, i, data) == full
    {
      var content := CellAt(cells, headers[i].columnIndex);
      if content.Fail? {
        return Fail(content.error);
      }
      if chain.hasAutoGenColumns(headers[i]) {
        var kvs := chain.splitData(headers[i], content.value);
        if kvs.Fail? {
          return Fail(kvs.error);
        }
        data := Merge(data, kvs.value);
      } else {
        var next := Add(data, headers[i], content.value);
        if next.Fail? {
          return Fail(next.error);
        }
        data := next.value;
      }
      i := i + 1;
    }
    return Ok(data);
  }

  class GenericFile {
    const settings: GenericSettings
    const engine: Engine
    const chain: ColumnChain
    const defaultTags: Entries<string, string>
    /** `settings.GenericFile.ColumnLayout` */
    var columnLayout: seq<ColumnConfig>
    /** `settings.GenericFile.ValidateRows` */
    var validateRows: int
    /** `ColumnHeaders` */
    var columnHeaders: seq<GenericColumn>

    constructor (settings: GenericSettings, engine: Engine, chain: ColumnChain, defaultTags: Entries<string, string>,
                 columnLayout: seq<ColumnConfig>, validateRows: int)
      ensures this.settings == settings && this.engine == engine && this.chain == chain && this.defaultTags == defaultTags
      ensures this.columnLayout == columnLayout && this.validateRows == validateRows && columnHeaders == []
    {
      this.settings := settings;
      this.engine := engine;
      this.chain := chain;
      this.defaultTags := defaultTags;
      this.columnLayout := columnLayout;
      this.validateRows := validateRows;
      columnHeaders := [];
    }

    /**
     `GetFileLayout`: binds the columns as `Layout` says and, when the file
     has a header and no layout is configured, extends the layout.
     */
    method GetFileLayout(lines: seq<string>) returns (status: Result<ExitCode>)
      modifies this`columnHeaders, this`columnLayout
      ensures var o := Layout(settings, engine, old(columnLayout), lines);
        status == o.status && columnHeaders == o.headers && columnLayout == o.layout
    {
      columnHeaders := [];
      if settings.headerMissing && |columnLayout| == 0 {
        return Ok(InvalidArgument);
      } else if !settings.headerMissing {
        var parsed := ParseGenericColumns(settings, engine, HeaderLine(settings, lines));
        if parsed.Fail? {
          return Fail(parsed.error);
        }
        if |columnLayout| > 0 {
          status := BindColumns(parsed.value);
          return;
        }
        AdoptColumns(parsed.value);
      } else {
        BindHeaderless();
      }
      return Ok(Success);
    }

    /** The header-with-layout loop of `GetFileLayout`: each header column is bound to its configured entry. */
    method BindColumns(columns: seq<GenericColumn>) returns (status: Result<ExitCode>)
      requires columnHeaders == []
      modifies this`columnHeaders
      ensures var o := BindFrom(columnLayout, columns, 0, []);
        status == o.status && columnHeaders == o.headers
    {
      var i := 0;
      ghost var full := BindFrom(columnLayout, columns, 0, []);
      while i < |columns|
        invariant 0 <= i <= |columns|
        invariant BindFrom(columnLayout, columns, i, columnHeaders) == full
      {
        var c := columns[i];
        if !(0 <= c.columnIndex < |columnLayout|) {
          return Throw(ArgumentOutOfRangeException, "index");
        }
        var config := columnLayout[c.columnIndex];
        if Mismatch(config, c) {
          return Ok(InvalidArgument);
        }
        if !config.skip {
          columnHeaders := columnHeaders + [Bind(config, c)];
        }
        i := i + 1;
      }
      return Ok(Success);
    }

    /** The header-without-layout loop of `GetFileLayout`: each header column gets a configuration of its own, appended to the layout. */
    method AdoptColumns(columns: seq<GenericColumn>)
      requires columnHeaders == []
      modifies this`columnHeaders, this`columnLayout
      ensures var o := AdoptFrom(columns, 0, [], old(columnLayout));
        columnHeaders == o.headers && columnLayout == o.layout
    {
      var i := 0;
      ghost var full := AdoptFrom(columns, 0, [], columnLayout);
      while i < |columns|
        invariant 0 <= i <= |columns|
        invariant AdoptFrom(columns, i, columnHeaders, columnLayout) == full
      {
        var config := Adopted(columns[i]);
        columnLayout := columnLayout + [config];
        columnHeaders := columnHeaders + [columns[i].(config := Some(config))];
        i := i + 1;
      }
    }

    /** The headerless loop of `GetFileLayout`: every entry of the layout that is not skipped becomes a column. */
    method BindHeaderless()
      requires columnHeaders == []
      modifies this`columnHeaders
      ensures columnHeaders == HeaderlessFrom(columnLayout, 0, []).headers
    {
      var index := 0;
      ghost var full := HeaderlessFrom(columnLayout, 0, []);
      while index < |columnLayout|
        invariant 0 <= index <= |columnLayout|
        invariant HeaderlessFrom(columnLayout, index, columnHeaders) == full
      {
        if !columnLayout[index].skip {
          columnHeaders := columnHeaders + [BindAt(columnLayout, index)];
        }
        index := index + 1;
      }
    }

    /** `ProcessGenericLine`: the point of one row, or the exception the row raises. */
    method ProcessGenericLine(line: string, headers: seq<GenericColumn>) returns (r: Result<Point>)
      ensures r == GenericLine(settings, engine, chain, defaultTags, headers, line)
    {
      var cells := engine.split(settings.columnSplitter, line);
      var timeCell := CellAt(cells, settings.timeColumn - 1);
      if timeCell.Fail? {
        return Fail(timeCell.error);
      }
      var gathered := GatherCells(chain, headers, cells);
      if gathered.Fail? {
        return Fail(gathered.error);
      }
      var mapped := MapRow(gathered.value);
      if mapped.Fail? {
        return Fail(mapped.error);
      }
      var point := mapped.value;
      if |point.fields| == 0 {
        return Throw(InvalidDataException, NoValuesMessage);
      }
      return Ok(point);
    }

    /** The loop of `ProcessGenericLine` that fills the point from the row's transformed cells. */
    method MapRow(data: Entries<GenericColumn, string>) returns (r: Result<Point>)
      ensures r == MapFrom(settings, engine, chain, data, 0, NewPoint(settings, defaultTags))
    {
      var point := NewPoint(settings, defaultTags);
      var j := 0;
      while j < |data|
        invariant 0 <= j <= |data|
        invariant MapFrom(settings, engine, chain, data, j, point) == MapFrom(settings, engine, chain, data, 0, NewPoint(settings, defaultTags))
      {
        var key := data[j].0;
        var content := TransformedValue(chain, key, data[j].1);
        if content.Fail? {
          return Fail(content.error);
        }
        if !IsNullOrWhiteSpace(content.value) {
          if key.columnIndex == settings.timeColumn - 1 {
            var t := ParseTimestamp(settings, engine, content.value);
            if t.Fail? {
              return Fail(t.error);
            }
            point := point.(utcTimestamp := Some(t.value));
          } else {
            var stored := StoreValue(settings, engine, key, content.value.value, point);
            if stored.Fail? {
              return Fail(stored.error);
            }
            point := stored.value;
          }
        }
        j := j + 1;
      }
      return Ok(point);
    }

    /** The inner loop of `ValidateData` over the values of one row. */
    method CheckRow(data: Entries<GenericColumn, string>) returns (r: Result<()>)
      modifies this`columnHeaders
      ensures var o := CheckFrom(settings, engine, chain, data, 0, old(columnHeaders));
        r == o.0 && columnHeaders == o.1
    {
      var j := 0;
      ghost var full := CheckFrom(settings, engine, chain, data, 0, columnHeaders);
      while j < |data|
        invariant 0 <= j <= |data|
        invariant CheckFrom(settings, engine, chain, data, j, columnHeaders) == full
      {
        var key := data[j].0;
        var content := TransformedValue(chain, key, data[j].1);
        if content.Fail? && content.error.kind == InvalidDataException {
          j := j + 1;
          continue;
        }
        if content.Fail? {
          return Fail(content.error);
        }
        if key.columnIndex == settings.timeColumn - 1 {
          var t := ParseTimestamp(settings, engine, content.value);
          if t.Fail? {
            return Fail(t.error);
          }
        }
        if IsNullOrWhiteSpace(content.value) {
          j := j + 1;
          continue;
        }
        if key.columnType == Unknown {
          if key.config.None? {
            return Throw(NullReferenceException, NullReferenceMessage);
          }
          columnHeaders := Learn(columnHeaders, key, InferType(engine, content.value.value));
        } else {
          var checked := CheckValue(engine, key, content.value.value);
          if checked.Fail? {
            return Fail(checked.error);
          }
        }
        j := j + 1;
      }
      return Ok(());
    }

    /**
     `ValidateData`: samples the first `ValidateRows` data lines (at least
     one) to learn the type of every Unknown column and check the others.
     */
    method ValidateData(lines: seq<string>) returns (r: Result<bool>)
      modifies this`columnHeaders, this`validateRows
      ensures var o := Validate(settings, engine, chain, old(columnHeaders), old(validateRows), lines);
        r == o.result && columnHeaders == o.headers && validateRows == o.validateRows
    {
      if validateRows == 0 {
        validateRows := 1;
      }
      r := SampleLines(Skip(lines, settings.headerRow + settings.skipRows));
    }

    /** The loop of `ValidateData` over the data lines, with `validateRows` already at least one. */
    method SampleLines(data: seq<string>) returns (r: Result<bool>)
      modifies this`columnHeaders
      ensures (r, columnHeaders) == ValidateFrom(settings, engine, chain, data, 0, 0, validateRows, old(columnHeaders))
    {
      ghost var full := ValidateFrom(settings, engine, chain, data, 0, 0, validateRows, columnHeaders);
      var lineNo := 0;
      var i := 0;
      while i < |data|
        invariant 0 <= i <= |data|
        invariant ValidateFrom(settings, engine, chain, data, i, lineNo, validateRows, columnHeaders) == full
      {
        ValidateStep(settings, engine, chain, data, i, lineNo, validateRows, columnHeaders);
        if !IsDataLine(settings, data[i]) {
          i := i + 1;
          continue;
        }
        var cells := engine.split(settings.columnSplitter, data[i]);
        var gathered := GatherCells(chain, columnHeaders, cells);
        if gathered.Fail? {
          return Fail(gathered.error);
        }
        var checked := CheckRow(gathered.value);
        if checked.Fail? {
          return Fail(checked.error);
        }
        lineNo := lineNo + 1;
        if lineNo == validateRows {
          return Ok(!AnyUnknown(columnHeaders));
        }
        i := i + 1;
      }
      return Ok(!AnyUnknown(columnHeaders));
    }

    /** What one run of this reader reads and never changes, once the columns are bound. */
    ghost function RunContext(retention: Option<string>, store: Store): Context
      reads this
    {
      Context(settings, engine, chain, defaultTags, columnHeaders, retention, store.respond)
    }

    /**
     The catch block of the loop: the failure is counted, a partial write
     moves the batch to the retry queue, the failure is recorded in the
     tracker of its type, and `stop` says whether too many lines failed.
     */
    method Catch(ghost c: Context, ghost st: RunState, e: Error, found: int, failed: int, processed: int, points: seq<Point>,
                 retryQueue: seq<Point>, failureReasons: map<string, FailureTracker>)
      returns (nowFailed: int, nowProcessed: int, nowPoints: seq<Point>, nowRetry: seq<Point>, reasons: map<string, FailureTracker>, stop: bool)
      requires c.s == settings
      requires st.found == found && st.failed == failed && st.processed == processed && st.pending == points && st.retry == retryQueue
      requires Tracks(failureReasons, st.events) && Distinct(failureReasons)
      modifies failureReasons.Values
      ensures var r := OnFailure(c, st, e);
        && r.0 == st.(failed := nowFailed, processed := nowProcessed, pending := nowPoints, retry := nowRetry, events := r.0.events)
        && (r.1 == TooManyFailures <==> stop) && (r.1 == Continue <==> !stop)
      ensures Tracks(reasons, OnFailure(c, st, e).0.events) && Distinct(reasons)
      ensures forall t :: t in reasons ==> (t in failureReasons && reasons[t] == failureReasons[t]) || fresh(reasons[t])
    {
      nowFailed := failed + 1;
      nowProcessed, nowPoints, nowRetry := processed, points, retryQueue;
      if e.kind == InfluxDBException("Partial Write") {
        nowRetry := retryQueue + Unsaved(points);
        nowProcessed := processed + SavedCount(points);
        nowPoints := [];
      }
      var ev := FailureEvent(e.kind, e.message, found + settings.headerRow + settings.skipRows + 1);
      ghost var r := OnFailure(c, st, e);
      assert r.0.events == st.events + [ev];
      assert r.0 == st.(failed := nowFailed, processed := nowProcessed, pending := nowPoints, retry := nowRetry, events := r.0.events);
      reasons := Record(failureReasons, st.events, ev);
      stop := !settings.ignoreErrors && nowFailed > settings.pointsInSingleBatch * 3;
    }

    /**
     Posting a full batch inside the loop: a post returning true resets the
     failed-post count; one returning false, or throwing
     ServiceUnavailableException, requeues the unsaved points and breaks the
     loop after more than three in a row; any other exception is `caught`
     for the catch block, with the batch as the store left it.
     */
    method PostFullBatch(ghost c: Context, ghost st: RunState, store: Store, processed0: int, points0: seq<Point>,
                         retryQueue0: seq<Point>, failedReqCount0: int, ghost dropped0: nat)
      returns (processed: int, points: seq<Point>, retryQueue: seq<Point>, failedReqCount: int, ghost dropped: nat, flow: Flow, caught: Option<Error>)
      requires c.respond == store.respond
      requires st.processed == processed0 && st.pending == points0 && st.retry == retryQueue0 && st.failedReq == failedReqCount0
      requires st.posts == |store.posts| && st.dropped == dropped0
      modifies store
      ensures var now := st.(processed := processed, pending := points, retry := retryQueue, failedReq := failedReqCount, posts := |store.posts|, dropped := dropped);
        if caught.None? then PostBatch(c, st) == (now, flow) && flow != TooManyFailures
        else PostBatch(c, st) == OnFailure(c, now, caught.value) && flow == Continue
      ensures old(store.posts) <= store.posts
    {
      processed, points, retryQueue, failedReqCount, dropped := processed0, points0, retryQueue0, failedReqCount0, dropped0;
      flow, caught := Continue, None;
      var reply, after := store.PostPoints(points);
      if reply.Returned? && reply.ok {
        failedReqCount := 0;
        processed := processed + SavedCount(after);
        dropped := dropped + |Unsaved(after)|;
        points := [];
      } else if reply.Returned? || reply.error.kind == ServiceUnavailableException {
        retryQueue := retryQueue + Unsaved(after);
        processed := processed + SavedCount(after);
        failedReqCount := failedReqCount + 1;
        if failedReqCount > 3 {
          points := after;
          flow := StoreRefuses;
        } else {
          points := [];
        }
      } else {
        points := after;
        caught := Some(reply.error);
      }
    }

    /**
     One data line of the loop, up to its catch block, given the point
     `ProcessGenericLine` made of it: the line is counted, the point is queued
     and a full batch is posted. A failed point or post is returned as
     `caught`, with the state it left.
     */
    method QueueLine(ghost c: Context, ghost before: RunState, point: Result<Point>, store: Store, retention: Option<string>,
                     found0: int, processed0: int, points0: seq<Point>, retryQueue0: seq<Point>, failedReqCount0: int,
                     ghost created0: nat, ghost dropped0: nat)
      returns (found: int, processed: int, points: seq<Point>, retryQueue: seq<Point>, failedReqCount: int,
               ghost created: nat, ghost dropped: nat, flow: Flow, caught: Option<Error>)
      requires c == RunContext(retention, store)
      requires before == RunState(found0, before.failed, processed0, points0, retryQueue0, failedReqCount0, |store.posts|, before.events, created0, dropped0)
      modifies store
      ensures var reached := RunState(found, before.failed, processed, points, retryQueue, failedReqCount, |store.posts|, before.events, created, dropped);
        if caught.None? then Step(c, before, point) == (reached, flow)
        else Step(c, before, point) == OnFailure(c, reached, caught.value)
      ensures old(store.posts) <= store.posts
    {
      found, processed, points, retryQueue, failedReqCount, created, dropped := found0, processed0, points0, retryQueue0, failedReqCount0, created0, dropped0;
      flow, caught := Continue, None;
      found := found + 1;
      ghost var counted := before.(found := found);
      if point.Fail? {
        assert Step(c, before, point) == OnFailure(c, counted, point.error);
        caught := Some(point.error);
        return;
      }
      points := points + [point.value.(retention := retention)];
      created := created + 1;
      ghost var queued := RunState(found, before.failed, processed, points, retryQueue, failedReqCount, |store.posts|, before.events, created, dropped);
      assert queued == counted.(pending := counted.pending + [point.value.(retention := c.retention)], created := counted.created + 1);
      if |points| >= settings.pointsInSingleBatch {
        assert Step(c, before, point) == PostBatch(c, queued);
        processed, points, retryQueue, failedReqCount, dropped, flow, caught := PostFullBatch(c, queued, store, processed, points, retryQueue, failedReqCount, dropped);
      } else {
        assert Step(c, before, point) == (queued, Continue);
      }
    }

    /** One pass of the loop body on a data line whose point is `point`: the line as `QueueLine` handles it, then the catch block when it threw. */
    method HandleLine(ghost c: Context, ghost before: RunState, point: Result<Point>, store: Store, retention: Option<string>,
                      found0: int, failed0: int, processed0: int, points0: seq<Point>, retryQueue0: seq<Point>, failedReqCount0: int,
                      failureReasons0: map<string, FailureTracker>, ghost events0: seq<FailureEvent>, ghost created0: nat, ghost dropped0: nat)
      returns (found: int, failed: int, processed: int, points: seq<Point>, retryQueue: seq<Point>, failedReqCount: int,
               failureReasons: map<string, FailureTracker>, ghost events: seq<FailureEvent>, ghost created: nat, ghost dropped: nat, flow: Flow)
      requires c == RunContext(retention, store)
      requires before == RunState(found0, failed0, processed0, points0, retryQueue0, failedReqCount0, |store.posts|, events0, created0, dropped0)
      requires Tracks(failureReasons0, events0) && Distinct(failureReasons0)
      modifies store, failureReasons0.Values
      ensures (RunState(found, failed, processed, points, retryQueue, failedReqCount, |store.posts|, events, created, dropped), flow)
        == Step(c, before, point)
      ensures Tracks(failureReasons, events) && Distinct(failureReasons)
      ensures forall t :: t in failureReasons ==> (t in failureReasons0 && failureReasons[t] == failureReasons0[t]) || fresh(failureReasons[t])
      ensures old(store.posts) <= store.posts
    {
      failed, failureReasons, events := failed0, failureReasons0, events0;
      var caught;
      found, processed, points, retryQueue, failedReqCount, created, dropped, flow, caught :=
        QueueLine(c, before, point, store, retention, found0, processed0, points0, retryQueue0, failedReqCount0, created0, dropped0);
      if caught.Some? {
        ghost var reached := RunState(found, failed, processed, points, retryQueue, failedReqCount, |store.posts|, events, created, dropped);
        var stop;
        failed, processed, points, retryQueue, failureReasons, stop := Catch(c, reached, caught.value, found, failed, processed, points, retryQueue, failureReasons);
        events := OnFailure(c, reached, caught.value).0.events;
        flow := if stop then TooManyFailures else Continue;
      }
    }

    /**
     The `foreach` over the data lines of `ProcessGenericFile`: each line is
     counted and turned into a point, full batches are posted, failures are
     caught and recorded in one tracker per exception type. Returns the loop's
     variables when it ends or breaks.
     */
    method StreamLines(data: seq<string>, store: Store, retention: Option<string>)
      returns (found: int, failed: int, processed: int, points: seq<Point>, retryQueue: seq<Point>, failedReqCount: int,
               failureReasons: map<string, FailureTracker>, ghost events: seq<FailureEvent>, ghost created: nat, ghost dropped: nat, flow: Flow)
      modifies store
      ensures (RunState(found, failed, processed, points, retryQueue, failedReqCount, |store.posts|, events, created, dropped), flow)
        == StreamFrom(RunContext(retention, store), data, 0, Start(|old(store.posts)|))
      ensures Tracks(failureReasons, events) && Distinct(failureReasons)
      ensures forall t :: t in failureReasons ==> fresh(failureReasons[t])
      ensures old(store.posts) <= store.posts
    {
      ghost var c := RunContext(retention, store);
      ghost var made := seq(|data|, k requires 0 <= k < |data| => LinePoint(c, data[k]));
      ghost var posts0 := |store.posts|;
      found, failed, processed, points, retryQueue, failedReqCount, failureReasons, events, created, dropped, flow :=
        StreamMade(c, data, made, store, retention);
      StreamParsedAgrees(c, data, made, 0, Start(posts0));
    }

    /** The loop of `StreamLines`, proved against `StreamParsed` with the points `made` of the lines. */
    method StreamMade(ghost c: Context, data: seq<string>, ghost made: seq<Result<Point>>, store: Store, retention: Option<string>)
      returns (found: int, failed: int, processed: int, points: seq<Point>, retryQueue: seq<Point>, failedReqCount: int,
               failureReasons: map<string, FailureTracker>, ghost events: seq<FailureEvent>, ghost created: nat, ghost dropped: nat, flow: Flow)
      requires c == RunContext(retention, store) && |made| == |data|
      requires forall k {:trigger LinePoint(c, data[k])} :: 0 <= k < |data| ==> made[k] == LinePoint(c, data[k])
      modifies store
      ensures (RunState(found, failed, processed, points, retryQueue, failedReqCount, |store.posts|, events, created, dropped), flow)
        == StreamParsed(c, data, made, 0, Start(|old(store.posts)|))
      ensures Tracks(failureReasons, events) && Distinct(failureReasons)
      ensures forall t :: t in failureReasons ==> fresh(failureReasons[t])
      ensures old(store.posts) <= store.posts
    {
      found, failed, processed := 0, 0, 0;
      failedReqCount := 0;
      points, retryQueue := [], [];
      failureReasons := map[];
      events, created, dropped := [], 0, 0;
      ghost var full := StreamParsed(c, data, made, 0, Start(|store.posts|));
      flow := Continue;
      var i := 0;
      while i < |data| && flow == Continue
        invariant 0 <= i <= |data|
        invariant var st := RunState(found, failed, processed, points, retryQueue, failedReqCount, |store.posts|, events, created, dropped);
          && (flow == Continue ==> StreamParsed(c, data, made, i, st) == full)
          && (flow != Continue ==> (st, flow) == full)
        invariant Tracks(failureReasons, events) && Distinct(failureReasons)
        invariant forall t :: t in failureReasons ==> fresh(failureReasons[t])
        invariant c == RunContext(retention, store)
        invariant old(store.posts) <= store.posts
      {
        ghost var before := RunState(found, failed, processed, points, retryQueue, failedReqCount, |store.posts|, events, created, dropped);
        if !IsDataLine(settings, data[i]) {
          i := i + 1;
          continue;
        }
        var point := ProcessGenericLine(data[i], columnHeaders);
        assert point == LinePoint(c, data[i]);
        found, failed, processed, points, retryQueue, failedReqCount, failureReasons, events, created, dropped, flow :=
          HandleLine(c, before, point, store, retention, found, failed, processed, points, retryQueue, failedReqCount,
                     failureReasons, events, created, dropped);
        i := i + 1;
      }
    }

    /**
     What `ProcessGenericFile` does after the loop: it gives up on a full
     retry queue or repeated failed posts, posts the leftover batch, retries
     the queue once and chooses the exit code.
     */
    method FinishLines(store: Store, retention: Option<string>, found: int, failed: int, processed: int, points: seq<Point>,
                       retryQueue: seq<Point>, failedReqCount: int, ghost events: seq<FailureEvent>, ghost created: nat, ghost dropped: nat)
      returns (status: ProcessStatus)
      modifies store
      ensures var o := Finish(RunContext(retention, store),
        RunState(found, failed, processed, points, retryQueue, failedReqCount, |old(store.posts)|, events, created, dropped));
        status == o.status && |store.posts| == o.state.posts && old(store.posts) <= store.posts
    {
      ghost var c := RunContext(retention, store);
      ghost var st := RunState(found, failed, processed, points, retryQueue, failedReqCount, |store.posts|, events, created, dropped);
      var batch := settings.pointsInSingleBatch;
      var failed, processed, points, retryQueue, failedReqCount := failed, processed, points, retryQueue, failedReqCount;
      if |retryQueue| >= batch * 3 || failedReqCount > 3 {
        return ProcessStatus(UnableToProcess, failed, found, processed);
      }
      var threw;
      processed, points, retryQueue, failedReqCount, threw := PostLeftoverBatch(c, st, store, processed, points, retryQueue, failedReqCount);
      if threw {
        return ProcessStatus(UnableToProcess, failed, found, processed);
      }
      ghost var left := RunState(found, failed, processed, points, retryQueue, failedReqCount, |store.posts|, events, created, dropped);
      failed, processed, retryQueue, failedReqCount, threw := RetryOnce(c, left, store, failed, processed, retryQueue, failedReqCount);
      if threw {
        return ProcessStatus(UnableToProcess, failed, found, processed);
      }
      if failed > 0 {
        status := ProcessStatus(if failed == found then UnableToProcess else ProcessedWithErrors, failed, found, processed);
      } else {
        status := ProcessStatus(Success, failed, found, processed);
      }
    }

    /** The post of the last, partial batch after the loop; `threw` when the store threw. */
    method PostLeftoverBatch(ghost c: Context, ghost st: RunState, store: Store, processed0: int, points0: seq<Point>,
                             retryQueue0: seq<Point>, failedReqCount0: int)
      returns (processed: int, points: seq<Point>, retryQueue: seq<Point>, failedReqCount: int, threw: bool)
      requires c.respond == store.respond
      requires st.processed == processed0 && st.pending == points0 && st.retry == retryQueue0 && st.failedReq == failedReqCount0
      requires st.posts == |store.posts|
      modifies store
      ensures PostLeftover(c, st)
        == Stage(st.(processed := processed, pending := points, retry := retryQueue, failedReq := failedReqCount, posts := |store.posts|), threw)
      ensures old(store.posts) <= store.posts
    {
      processed, points, retryQueue, failedReqCount, threw := processed0, points0, retryQueue0, failedReqCount0, false;
      if |points| > 0 {
        var reply, after := store.PostPoints(points);
        points := after;
        if reply.Raised? {
          return processed, points, retryQueue, failedReqCount, true;
        }
        if reply.ok {
          processed := processed + |after|;
          points := [];
        } else {
          failedReqCount := failedReqCount + 1;
          retryQueue := retryQueue + Unsaved(after);
          processed := processed + SavedCount(after);
        }
      }
    }

    /** The one retry of the queue after the loop; `threw` when the run ends there. */
    method RetryOnce(ghost c: Context, ghost st: RunState, store: Store, failed0: int, processed0: int, retryQueue0: seq<Point>,
                     failedReqCount0: int)
      returns (failed: int, processed: int, retryQueue: seq<Point>, failedReqCount: int, threw: bool)
      requires c.respond == store.respond && c.s == settings
      requires st.failed == failed0 && st.processed == processed0 && st.retry == retryQueue0 && st.failedReq == failedReqCount0
      requires st.posts == |store.posts|
      modifies store
      ensures PostRetry(c, st)
        == Stage(st.(failed := failed, processed := processed, retry := retryQueue, failedReq := failedReqCount, posts := |store.posts|), threw)
      ensures old(store.posts) <= store.posts
    {
      var batch := settings.pointsInSingleBatch;
      failed, processed, retryQueue, failedReqCount, threw := failed0, processed0, retryQueue0, failedReqCount0, false;
      if |retryQueue| > 0 {
        var reply, after := store.PostPoints(retryQueue);
        retryQueue := after;
        if reply.Raised? {
          threw := !reply.error.kind.InfluxDBException?;
        } else if reply.ok {
          processed := processed + |after|;
          retryQueue := [];
        } else {
          failed := failed + |after|;
          if |after| >= batch * 3 {
            return failed, processed, retryQueue, failedReqCount, true;
          }
          failedReqCount := failedReqCount + 1;
          threw := failedReqCount > 4;
        }
      }
    }

    /**
     The part of `ProcessGenericFile` from the `foreach` over the data lines to
     the exit code; the failure trackers are kept for the report.
     */
    method TransferLines(lines: seq<string>, store: Store, retention: Option<string>) returns (status: ProcessStatus)
      modifies store
      ensures var o := Transfer(RunContext(retention, store), lines, |old(store.posts)|);
        status == o.status && |store.posts| == o.state.posts && old(store.posts) <= store.posts
    {
      ghost var c := RunContext(retention, store);
      ghost var posts0 := |store.posts|;
      var data := Skip(lines, settings.headerRow + settings.skipRows);
      var found, failed, processed, points, retryQueue, failedReqCount, failureReasons, events, created, dropped, flow := StreamLines(data, store, retention);
      ghost var st := RunState(found, failed, processed, points, retryQueue, failedReqCount, |store.posts|, events, created, dropped);
      assert st == StreamFrom(c, DataLines(settings, lines), 0, Start(posts0)).0;
      status := FinishLines(store, retention, found, failed, processed, points, retryQueue, failedReqCount, events, created, dropped);
      assert Transfer(c, lines, posts0) == Finish(c, st);
    }

    /**
     `ProcessGenericFile`: reads the layout, filters and samples the columns,
     then transfers the lines. `db` is the database structure the store
     reports and `retention` the outcome of the retention policy lookup.
     */
    method ProcessGenericFile(lines: seq<string>, store: Store, db: Database, retention: Result<Option<string>>) returns (status: ProcessStatus)
      modifies this`columnHeaders, this`columnLayout, this`validateRows, store
      ensures var o := Run(settings, engine, chain, defaultTags, old(columnLayout), old(validateRows), lines, db, retention, store.respond, |old(store.posts)|);
        status == o.status && |store.posts| == o.state.posts && old(store.posts) <= store.posts
      ensures var p := Prepare(settings, engine, chain, old(columnLayout), old(validateRows), lines, db, retention);
        columnLayout == p.layout && columnHeaders == p.headers && validateRows == p.validateRows
    {
      var stop := PrepareColumns(lines, db, retention);
      if stop.Some? {
        return stop.value;
      }
      status := TransferLines(lines, store, retention.value);
    }

    /**
     The part of `ProcessGenericFile` before the lines: the layout, the
     filter and the sampled rows; `stop` is the status it returns early with.
     */
    method PrepareColumns(lines: seq<string>, db: Database, retention: Result<Option<string>>) returns (stop: Option<ProcessStatus>)
      modifies this`columnHeaders, this`columnLayout, this`validateRows
      ensures var p := Prepare(settings, engine, chain, old(columnLayout), old(validateRows), lines, db, retention);
        stop == p.stop && columnLayout == p.layout && columnHeaders == p.headers && validateRows == p.validateRows
    {
      var r := GetFileLayout(lines);
      if r.Fail? {
        return Some(ProcessStatus(UnableToProcess, 0, 0, 0));
      }
      if r.value != Success {
        return Some(ProcessStatus(r.value, 0, 0, 0));
      }
      if settings.filter != NoFilter {
        var filterColumns: seq<GenericColumn> := [];
        if settings.filter == ColumnsFilter {
          var parsed := GenericFilterColumnsAsWritten(settings, engine, columnLayout);
          if parsed.Fail? {
            return Some(ProcessStatus(UnableToProcess, 0, 0, 0));
          }
          filterColumns := parsed.value;
        }
        columnHeaders := FilterGenericColumns(settings, columnHeaders, filterColumns, db);
      }
      var validity := ValidateData(lines);
      if validity.Fail? || retention.Fail? {
        return Some(ProcessStatus(UnableToProcess, 0, 0, 0));
      }
      return None;
    }
  }

  /** `new GenericFile()`: the default tags are parsed, which may throw. */
  method NewGenericFile(settings: GenericSettings, engine: Engine, chain: ColumnChain, tags: seq<string>,
                        columnLayout: seq<ColumnConfig>, validateRows: int) returns (r: Result<GenericFile>)
    ensures r.Fail? <==> DefaultTags(tags).Fail?
    ensures r.Ok? ==> fresh(r.value) && r.value.defaultTags == DefaultTags(tags).value
    ensures r.Ok? ==> r.value.settings == settings && r.value.engine == engine && r.value.chain == chain
    ensures r.Ok? ==> r.value.columnLayout == columnLayout && r.value.validateRows == validateRows && r.value.columnHeaders == []
  {
    var parsed := ParseDefaultTags(tags);
    if parsed.Fail? {
      return Fail(parsed.error);
    }
    var file := new GenericFile(settings, engine, chain, parsed.value, columnLayout, validateRows);
    return Ok(file);
  }
}
