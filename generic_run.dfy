/**
 The transfer part of `GenericFile.ProcessGenericFile`, as functions over a
 state: every data line after the header and the skipped rows is turned into
 a point and queued; a full batch is posted; failed points go to a retry
 queue; failures are counted and recorded with their line numbers; the run
 stops early on too many failed lines or too many refused posts. After the
 lines, what is left is posted, the retry queue is posted once, and the exit
 code is chosen from the counters.

 The class in module GenericReader runs the same steps imperatively and is
 proved equal to `Transfer`.
 */
module GenericRun {
  import opened Common
  import opened Runtime
  import opened OrderedDict
  import opened Columns
  import opened Points
  import opened Failures
  import opened GenericFiles

  /** What one run reads and never changes. */
  datatype Context = Context(
    s: GenericSettings,
    e: Engine,
    chain: ColumnChain,
    defaultTags: Entries<string, string>,
    headers: seq<GenericColumn>,
    /** The retention policy set on every point, if one was configured. */
    retention: Option<string>,
    respond: (nat, seq<Point>) -> StoreReply)

  /**
   The loop's variables: the counters of the ProcessStatus, the current batch,
   the retry queue, the count of consecutive failed posts, the number of
   posts so far and the failures caught. `created` counts the points created
   and `dropped` the points a successful post left unsaved, which no counter
   includes.
   */
  datatype RunState = RunState(
    found: int,
    failed: int,
    processed: int,
    pending: seq<Point>,
    retry: seq<Point>,
    failedReq: int,
    posts: nat,
    events: seq<FailureEvent>,
    created: nat,
    dropped: nat)

  /** Whether the loop goes on, or breaks and why. */
  datatype Flow = Continue | TooManyFailures | StoreRefuses

  /** The state before the first line, after `posts` earlier posts to the store. */
  function Start(posts: nat): RunState {
    RunState(0, 0, 0, [], [], 0, posts, [], 0, 0)
  }

  /** The line number recorded for a failure: the data line's count plus the rows before the data. */
  function LineNumber(s: GenericSettings, found: int): int {
    found + s.headerRow + s.skipRows + 1
  }

  /** The unsaved points of `batch` join the retry queue and its saved ones count as processed. */
  function Requeue(st: RunState, batch: seq<Point>): RunState {
    st.(retry := st.retry + Unsaved(batch), processed := st.processed + SavedCount(batch))
  }

  /**
   The catch block: the failure is counted; a partial write moves the batch
   to the retry queue; the failure is recorded with the current line; too
   many failures, unless errors are ignored, break the loop.
   */
  function OnFailure(c: Context, st: RunState, err: Error): (RunState, Flow) {
    var counted := st.(failed := st.failed + 1);
    var moved := if err.kind == InfluxDBException("Partial Write") then Requeue(counted, counted.pending).(pending := []) else counted;
    var recorded := moved.(events := moved.events + [FailureEvent(err.kind, err.message, LineNumber(c.s, moved.found))]);
    if !c.s.ignoreErrors && recorded.failed > c.s.pointsInSingleBatch * 3 then (recorded, TooManyFailures)
    else (recorded, Continue)
  }

  /**
   Posting a full batch: a post that returns true resets the count of failed
   posts; one that returns false or throws ServiceUnavailableException moves
   the unsaved points to the retry queue and breaks the loop after more than
   three in a row; any other exception goes to the catch block with the
   batch as the store left it.
   */
  function PostBatch(c: Context, st: RunState): (r: (RunState, Flow))
    ensures r.0.posts == st.posts + 1
    ensures r.0.found == st.found && r.0.created == st.created && r.0.failed >= st.failed
    ensures r.1 == StoreRefuses ==> r.0.failedReq > 3
    ensures c.respond(st.posts, st.pending).Returned? && c.respond(st.posts, st.pending).ok ==>
      r.1 == Continue && r.0.failedReq == 0 && r.0.pending == []
    ensures c.respond(st.posts, st.pending).Returned? && !c.respond(st.posts, st.pending).ok ==>
      r.0.failedReq == st.failedReq + 1 && (r.1 == Continue ==> r.0.pending == [])
  {
    var reply := c.respond(st.posts, st.pending);
    var after := MarkSaved(st.pending, reply.savedAt);
    var posted := st.(posts := st.posts + 1);
    if reply.Returned? && reply.ok then
      (posted.(failedReq := 0, processed := posted.processed + SavedCount(after), dropped := posted.dropped + |Unsaved(after)|, pending := []), Continue)
    else if reply.Returned? || reply.error.kind == ServiceUnavailableException then
      var refused := Requeue(posted, after).(failedReq := posted.failedReq + 1);
      if refused.failedReq > 3 then (refused.(pending := after), StoreRefuses)
      else (refused.(pending := []), Continue)
    else OnFailure(c, posted.(pending := after), reply.error)
  }

  /** The point `ProcessGenericLine` makes of `line` with the run's columns. */
  function LinePoint(c: Context, line: string): Result<Point> {
    GenericLine(c.s, c.e, c.chain, c.defaultTags, c.headers, line)
  }

  /** One data line, whose point is `point`: it is counted, the point is queued, and a full batch is posted. */
  function Step(c: Context, st: RunState, point: Result<Point>): (r: (RunState, Flow))
    ensures r.0.posts == st.posts || r.0.posts == st.posts + 1
    ensures r.0.failed >= st.failed
    ensures point.Fail? ==> r.0.failed == st.failed + 1 && r.0.posts == st.posts && r.0.created == st.created
    ensures point.Ok? ==> r.0.created == st.created + 1
    ensures r.1 == StoreRefuses ==> r.0.failedReq > 3
  {
    var counted := st.(found := st.found + 1);
    if point.Fail? then OnFailure(c, counted, point.error)
    else
      var queued := counted.(pending := counted.pending + [point.value.(retention := c.retention)], created := counted.created + 1);
      if |queued.pending| >= c.s.pointsInSingleBatch then PostBatch(c, queued) else (queued, Continue)
  }

  /** The loop over the data from line `i`; blank and comment lines are skipped. */
  function StreamFrom(c: Context, data: seq<string>, i: nat, st: RunState): (r: (RunState, Flow))
    requires i <= |data|
    ensures st.posts <= r.0.posts && st.found <= r.0.found && st.failed <= r.0.failed
    ensures r.0.posts <= st.posts + (|data| - i)
    decreases |data| - i
  {
    if i == |data| then (st, Continue)
    else if !IsDataLine(c.s, data[i]) then StreamFrom(c, data, i + 1, st)
    else
      var next := Step(c, st, LinePoint(c, data[i]));
      if next.1 != Continue then next else StreamFrom(c, data, i + 1, next.0)
  }

  /** One unfolding of the loop: a line that is not data is passed over; a data line is handled, and the loop goes on unless it stopped. */
  lemma StreamStep(c: Context, data: seq<string>, i: nat, st: RunState)
    requires i < |data|
    ensures !IsDataLine(c.s, data[i]) ==> StreamFrom(c, data, i, st) == StreamFrom(c, data, i + 1, st)
    ensures IsDataLine(c.s, data[i]) ==> var next := Step(c, st, LinePoint(c, data[i]));
      StreamFrom(c, data, i, st) == if next.1 != Continue then next else StreamFrom(c, data, i + 1, next.0)
  {
  }

  /**
   `StreamFrom` with each line's point made beforehand: `points[k]` is the
   point of `data[k]`. Making a point changes nothing, so this is the same loop.
   */
  function StreamParsed(c: Context, data: seq<string>, points: seq<Result<Point>>, i: nat, st: RunState): (RunState, Flow)
    requires i <= |data| == |points|
    decreases |data| - i
  {
    if i == |data| then (st, Continue)
    else if !IsDataLine(c.s, data[i]) then StreamParsed(c, data, points, i + 1, st)
    else
      var next := Step(c, st, points[i]);
      if next.1 != Continue then next else StreamParsed(c, data, points, i + 1, next.0)
  }

  lemma {:induction false} StreamParsedAgrees(c: Context, data: seq<string>, points: seq<Result<Point>>, i: nat, st: RunState)
    requires i <= |data| == |points|
    requires forall k :: i <= k < |data| ==> points[k] == LinePoint(c, data[k])
    ensures StreamParsed(c, data, points, i, st) == StreamFrom(c, data, i, st)
    decreases |data| - i
  {
    if i < |data| {
      if !IsDataLine(c.s, data[i]) {
        StreamParsedAgrees(c, data, points, i + 1, st);
      } else {
        var next := Step(c, st, points[i]);
        if next.1 == Continue {
          StreamParsedAgrees(c, data, points, i + 1, next.0);
        }
      }
    }
  }

  /** The status of a run that ended in an exception: UnableToProcess with the counters so far. */
  function Aborted(st: RunState): ProcessStatus {
    ProcessStatus(UnableToProcess, st.failed, st.found, st.processed)
  }

  /** The status of a run that reached its end. */
  function Completed(st: RunState): (r: ProcessStatus)
    ensures r.exitCode == Success <==> st.failed <= 0
    ensures r.exitCode == UnableToProcess <==> st.failed > 0 && st.failed == st.found
    ensures r.exitCode == ProcessedWithErrors <==> st.failed > 0 && st.failed != st.found
    ensures r.pointsFailed == st.failed && r.pointsFound == st.found && r.pointsProcessed == st.processed
  {
    var code := if st.failed > 0 then (if st.failed == st.found then UnableToProcess else ProcessedWithErrors) else Success;
    ProcessStatus(code, st.failed, st.found, st.processed)
  }

  /** A stage after the loop: the state, and whether it threw. */
  datatype Stage = Stage(state: RunState, threw: bool)

  /**
   The points left in the last, partial batch: all of them count as processed
   when the post returns true; when it returns false the unsaved ones join
   the retry queue; an exception ends the run.
   */
  function PostLeftover(c: Context, st: RunState): (r: Stage)
    ensures |st.pending| == 0 ==> r == Stage(st, false)
    ensures |st.pending| > 0 ==> r.state.posts == st.posts + 1
    ensures r.threw <==> |st.pending| > 0 && c.respond(st.posts, st.pending).Raised?
    ensures |st.pending| > 0 && c.respond(st.posts, st.pending).Returned? && c.respond(st.posts, st.pending).ok ==>
      r.state.processed == st.processed + |st.pending| && r.state.pending == []
  {
    if |st.pending| == 0 then Stage(st, false)
    else
      var reply := c.respond(st.posts, st.pending);
      var after := MarkSaved(st.pending, reply.savedAt);
      var posted := st.(posts := st.posts + 1, pending := after);
      if reply.Raised? then Stage(posted, true)
      else if reply.ok then Stage(posted.(processed := posted.processed + |after|, pending := []), false)
      else Stage(Requeue(posted, after).(failedReq := posted.failedReq + 1), false)
  }

  /**
   The one retry of the queue: all of it counts as processed when the post
   returns true; when it returns false all of it counts as failed, and a
   queue of three batches or more, or a fifth failed post, ends the run. An
   InfluxDBException is swallowed and any other exception ends the run.
   */
  function PostRetry(c: Context, st: RunState): (r: Stage)
    ensures |st.retry| == 0 ==> r == Stage(st, false)
    ensures |st.retry| > 0 ==> r.state.posts == st.posts + 1
    ensures r.threw ==> |st.retry| > 0
    ensures |st.retry| > 0 && c.respond(st.posts, st.retry).Returned? && c.respond(st.posts, st.retry).ok ==>
      !r.threw && r.state.processed == st.processed + |st.retry| && r.state.retry == []
    ensures |st.retry| > 0 && c.respond(st.posts, st.retry).Returned? && !c.respond(st.posts, st.retry).ok ==>
      r.state.failed == st.failed + |st.retry| && (r.threw <==> |st.retry| >= c.s.pointsInSingleBatch * 3 || st.failedReq + 1 > 4)
  {
    if |st.retry| == 0 then Stage(st, false)
    else
      var reply := c.respond(st.posts, st.retry);
      var after := MarkSaved(st.retry, reply.savedAt);
      var posted := st.(posts := st.posts + 1, retry := after);
      if reply.Raised? then Stage(posted, !reply.error.kind.InfluxDBException?)
      else if reply.ok then Stage(posted.(processed := posted.processed + |after|, retry := []), false)
      else
        var failed := posted.(failed := posted.failed + |after|);
        if |after| >= c.s.pointsInSingleBatch * 3 then Stage(failed, true)
        else Stage(failed.(failedReq := failed.failedReq + 1), failed.failedReq + 1 > 4)
  }

  /** What a run returns and the state it ends in. */
  datatype Outcome = Outcome(status: ProcessStatus, state: RunState)

  /**
   After the loop: a full retry queue or repeated failed posts end the run;
   otherwise the leftover batch and then the retry queue are posted.
   */
  function Finish(c: Context, st: RunState): (r: Outcome)
    ensures r.status.pointsFound == r.state.found && r.status.pointsFailed == r.state.failed && r.status.pointsProcessed == r.state.processed
    ensures |st.retry| >= c.s.pointsInSingleBatch * 3 || st.failedReq > 3 ==> r.status.exitCode == UnableToProcess && r.state == st
    ensures st.posts <= r.state.posts <= st.posts + 2
    ensures r.state.found == st.found && r.state.failed >= st.failed
    ensures r.status.exitCode == Success ==> r.state.failed <= 0
  {
    if |st.retry| >= c.s.pointsInSingleBatch * 3 || st.failedReq > 3 then Outcome(Aborted(st), st)
    else
      var left := PostLeftover(c, st);
      if left.threw then Outcome(Aborted(left.state), left.state)
      else
        var retried := PostRetry(c, left.state);
        if retried.threw then Outcome(Aborted(retried.state), retried.state)
        else Outcome(Completed(retried.state), retried.state)
  }

  /** The data lines: the file after the header row and the skipped rows. */
  function DataLines(s: GenericSettings, lines: seq<string>): seq<string> {
    Skip(lines, s.headerRow + s.skipRows)
  }

  /** The loop and what follows it, after `posts` earlier posts. */
  function Transfer(c: Context, lines: seq<string>, posts: nat): (r: Outcome)
    ensures r.status.pointsFound == r.state.found && r.status.pointsFailed == r.state.failed && r.status.pointsProcessed == r.state.processed
    ensures posts <= r.state.posts
    ensures r.status.pointsFound >= 0 && r.status.pointsFailed >= 0
    ensures r.status.exitCode == Success ==> r.status.pointsFailed == 0
  {
    Finish(c, StreamFrom(c, DataLines(c.s, lines), 0, Start(posts)).0)
  }

  /**
   The file as `ProcessGenericFile` leaves it before its first data line: the
   layout, the bound columns, the sampled row count, and the status of a run
   that ends there (a rejected layout or an exception).
   */
  datatype Prepared = Prepared(stop: Option<ProcessStatus>, layout: seq<ColumnConfig>, headers: seq<GenericColumn>, validateRows: int)

  /**
   What `ProcessGenericFile` does before the lines: the layout is read (a
   rejection is returned as is, an exception ends the run); under a filter
   the columns are filtered, the Columns filter with its list as written;
   the data is sampled for types; the retention policy is resolved.
   `configured` is the layout of the configuration, `db` the database
   structure the store reports and `retention` the policy lookup, which may
   throw.
   */
  function Prepare(s: GenericSettings, e: Engine, chain: ColumnChain, configured: seq<ColumnConfig>, validateRows: int,
                   lines: seq<string>, db: Database, retention: Result<Option<string>>): (r: Prepared)
    ensures r.layout == Layout(s, e, configured, lines).layout
    ensures r.stop.None? ==> retention.Ok? && Layout(s, e, configured, lines).status == Ok(Success)
    ensures Layout(s, e, configured, lines).status.Ok? && Layout(s, e, configured, lines).status.value != Success ==>
      r == Prepared(Some(ProcessStatus(Layout(s, e, configured, lines).status.value, 0, 0, 0)), r.layout, Layout(s, e, configured, lines).headers, validateRows)
    ensures r.stop.Some? ==> r.stop.value.pointsFound == 0 && r.stop.value.pointsFailed == 0 && r.stop.value.pointsProcessed == 0
    ensures r.stop.Some? ==> r.stop.value.exitCode != Success
  {
    var layout := Layout(s, e, configured, lines);
    if layout.status.Fail? then Prepared(Some(Aborted(Start(0))), layout.layout, layout.headers, validateRows)
    else if layout.status.value != Success then Prepared(Some(ProcessStatus(layout.status.value, 0, 0, 0)), layout.layout, layout.headers, validateRows)
    else
      var filterColumns := if s.filter.ColumnsFilter? then GenericFilterColumnsAsWritten(s, e, layout.layout) else Ok([]);
      if filterColumns.Fail? then Prepared(Some(Aborted(Start(0))), layout.layout, layout.headers, validateRows)
      else
        var headers := if s.filter.NoFilter? then layout.headers else FilterGenericColumns(s, layout.headers, filterColumns.value, db);
        var sampled := Validate(s, e, chain, headers, validateRows, lines);
        var stop := if sampled.result.Fail? || retention.Fail? then Some(Aborted(Start(0))) else None;
        Prepared(stop, layout.layout, sampled.headers, sampled.validateRows)
  }

  /** `ProcessGenericFile` to its end: what it returns and the state it ends in, after `posts` earlier posts. */
  function Run(s: GenericSettings, e: Engine, chain: ColumnChain, defaultTags: Entries<string, string>,
               configured: seq<ColumnConfig>, validateRows: int, lines: seq<string>, db: Database,
               retention: Result<Option<string>>, respond: (nat, seq<Point>) -> StoreReply, posts: nat): (r: Outcome)
    ensures r.status.pointsFound == r.state.found && r.status.pointsFailed == r.state.failed && r.status.pointsProcessed == r.state.processed
    ensures posts <= r.state.posts
    ensures Prepare(s, e, chain, configured, validateRows, lines, db, retention).stop.Some? ==>
      r.status == Prepare(s, e, chain, configured, validateRows, lines, db, retention).stop.value && r.state.posts == posts
  {
    var p := Prepare(s, e, chain, configured, validateRows, lines, db, retention);
    if p.stop.Some? then Outcome(p.stop.value, Start(posts))
    else
      var c := Context(s, e, chain, defaultTags, p.headers, retention.value, respond);
      Transfer(c, lines, posts)
  }

  /** The status `ProcessGenericFile` returns. */
  function Process(s: GenericSettings, e: Engine, chain: ColumnChain, defaultTags: Entries<string, string>,
                   configured: seq<ColumnConfig>, validateRows: int, lines: seq<string>, db: Database,
                   retention: Result<Option<string>>, respond: (nat, seq<Point>) -> StoreReply, posts: nat): (r: ProcessStatus)
    ensures r.pointsFound >= 0 && r.pointsFailed >= 0
    ensures r.exitCode == Success ==> r.pointsFailed == 0
  {
    Run(s, e, chain, defaultTags, configured, validateRows, lines, db, retention, respond, posts).status
  }

  /** A rejected layout ends the run with no point read, and an exception before the lines with UnableToProcess. */
  lemma ProcessBeforeLines(s: GenericSettings, e: Engine, chain: ColumnChain, defaultTags: Entries<string, string>,
                           configured: seq<ColumnConfig>, validateRows: int, lines: seq<string>, db: Database,
                           retention: Result<Option<string>>, respond: (nat, seq<Point>) -> StoreReply, posts: nat)
    ensures Layout(s, e, configured, lines).status == Ok(InvalidArgument) ==>
      Process(s, e, chain, defaultTags, configured, validateRows, lines, db, retention, respond, posts) == ProcessStatus(InvalidArgument, 0, 0, 0)
    ensures retention.Fail? ==>
      var r := Process(s, e, chain, defaultTags, configured, validateRows, lines, db, retention, respond, posts);
      (r.exitCode == UnableToProcess || r.exitCode == InvalidArgument) && r.pointsFound == 0
    ensures s.headerMissing && |configured| == 0 ==>
      Process(s, e, chain, defaultTags, configured, validateRows, lines, db, retention, respond, posts).exitCode == InvalidArgument
  {
    LayoutExitCodes(s, e, configured, lines);
  }

  /**
   As written, a Columns filter on a file with a header leaves no column to
   read, so every data line is rejected and no point is posted.
   */
  lemma ColumnsFilterRejectsEveryLine(s: GenericSettings, e: Engine, chain: ColumnChain, defaultTags: Entries<string, string>,
                                      configured: seq<ColumnConfig>, validateRows: int, lines: seq<string>, db: Database,
                                      retention: Result<Option<string>>, line: string)
    requires !s.headerMissing && s.filter.ColumnsFilter?
    requires HeaderLine(s, lines).Some? && |e.split(s.columnSplitter, HeaderLine(s, lines).value)| > 0
    requires Layout(s, e, configured, lines).status == Ok(Success)
    ensures Prepare(s, e, chain, configured, validateRows, lines, db, retention).headers == []
    ensures GenericLine(s, e, chain, defaultTags, [], line).Fail?
  {
    GenericColumnsFilterDropsAll(s, e, configured, lines, db);
    ValidateKeepsTypes(s, e, chain, [], validateRows, lines);
    var cells := e.split(s.columnSplitter, line);
    assert GatherFrom(chain, [], cells, 0, []) == Ok([]);
    assert MapFrom(s, e, chain, [], 0, NewPoint(s, defaultTags)) == Ok(NewPoint(s, defaultTags));
  }

  // ---------------------------------------------------------------------------
  // Properties of the loop

  /**
   Between posts, every created point is in exactly one place: counted as
   processed, in the retry queue, in the current batch, or dropped unsaved by
   a successful post; and the retry queue holds only unsaved points.
   */
  predicate Conserved(st: RunState) {
    && st.processed + |st.retry| + |st.pending| + st.dropped == st.created
    && forall p :: p in st.retry ==> !p.saved
  }

  lemma RequeueConserves(st: RunState, batch: seq<Point>)
    requires forall p :: p in st.retry ==> !p.saved
    ensures Requeue(st, batch).processed + |Requeue(st, batch).retry| == st.processed + |st.retry| + |batch|
    ensures forall p :: p in Requeue(st, batch).retry ==> !p.saved
  {
    SavedSplit(batch);
  }

  lemma OnFailureConserves(c: Context, st: RunState, err: Error)
    requires Conserved(st)
    ensures Conserved(OnFailure(c, st, err).0)
  {
    RequeueConserves(st.(failed := st.failed + 1), st.pending);
  }

  lemma PostBatchConserves(c: Context, st: RunState)
    requires Conserved(st)
    ensures PostBatch(c, st).1 != StoreRefuses ==> Conserved(PostBatch(c, st).0)
  {
    var reply := c.respond(st.posts, st.pending);
    var after := MarkSaved(st.pending, reply.savedAt);
    var posted := st.(posts := st.posts + 1);
    SavedSplit(after);
    if reply.Returned? && reply.ok {
    } else if reply.Returned? || reply.error.kind == ServiceUnavailableException {
      RequeueConserves(posted, after);
    } else {
      OnFailureConserves(c, posted.(pending := after), reply.error);
    }
  }

  lemma StepConserves(c: Context, st: RunState, point: Result<Point>)
    requires Conserved(st)
    ensures Step(c, st, point).1 != StoreRefuses ==> Conserved(Step(c, st, point).0)
  {
    if point.Fail? {
      FailedStepConserves(c, st, point);
    } else {
      QueuedStepConserves(c, st, point);
    }
  }

  /** A line that failed keeps every point accounted for. */
  lemma FailedStepConserves(c: Context, st: RunState, point: Result<Point>)
    requires Conserved(st) && point.Fail?
    ensures Step(c, st, point).1 != StoreRefuses ==> Conserved(Step(c, st, point).0)
  {
    var counted := st.(found := st.found + 1);
    assert Step(c, st, point) == OnFailure(c, counted, point.error);
    OnFailureConserves(c, counted, point.error);
  }

  /** A line that made a point keeps every point accounted for, whether or not the batch is posted. */
  lemma QueuedStepConserves(c: Context, st: RunState, point: Result<Point>)
    requires Conserved(st) && point.Ok?
    ensures Step(c, st, point).1 != StoreRefuses ==> Conserved(Step(c, st, point).0)
  {
    var counted := st.(found := st.found + 1);
    var queued := counted.(pending := counted.pending + [point.value.(retention := c.retention)], created := counted.created + 1);
    QueueConserves(counted, point.value.(retention := c.retention));
    if |queued.pending| >= c.s.pointsInSingleBatch {
      assert Step(c, st, point) == PostBatch(c, queued);
      PostBatchConserves(c, queued);
    } else {
      assert Step(c, st, point) == (queued, Continue);
    }
  }

  /** Queuing a created point keeps every point accounted for. */
  lemma QueueConserves(st: RunState, p: Point)
    requires Conserved(st)
    ensures Conserved(st.(pending := st.pending + [p], created := st.created + 1))
  {
  }

  /** Every created point is accounted for at the end of the loop, unless refused posts broke it. */
  lemma {:induction false} StreamConserves(c: Context, data: seq<string>, i: nat, st: RunState)
    requires i <= |data| && Conserved(st)
    ensures StreamFrom(c, data, i, st).1 != StoreRefuses ==> Conserved(StreamFrom(c, data, i, st).0)
    decreases |data| - i
  {
    if i < |data| {
      if !IsDataLine(c.s, data[i]) {
        StreamConserves(c, data, i + 1, st);
      } else {
        StepConserves(c, st, LinePoint(c, data[i]));
        var next := Step(c, st, LinePoint(c, data[i]));
        if next.1 == Continue {
          StreamConserves(c, data, i + 1, next.0);
        }
      }
    }
  }

  /** The loop breaks on refused posts only after more than three in a row. */
  lemma {:induction false} StreamRefusal(c: Context, data: seq<string>, i: nat, st: RunState)
    requires i <= |data|
    ensures StreamFrom(c, data, i, st).1 == StoreRefuses ==> StreamFrom(c, data, i, st).0.failedReq > 3
    decreases |data| - i
  {
    if i < |data| {
      if !IsDataLine(c.s, data[i]) {
        StreamRefusal(c, data, i + 1, st);
      } else if Step(c, st, LinePoint(c, data[i])).1 == Continue {
        StreamRefusal(c, data, i + 1, Step(c, st, LinePoint(c, data[i])).0);
      }
    }
  }

  /** A run whose loop broke on refused posts ends UnableToProcess. */
  lemma StoreRefusalAborts(c: Context, lines: seq<string>, posts: nat)
    requires StreamFrom(c, DataLines(c.s, lines), 0, Start(posts)).1 == StoreRefuses
    ensures Transfer(c, lines, posts).status.exitCode == UnableToProcess
  {
    StreamRefusal(c, DataLines(c.s, lines), 0, Start(posts));
  }

  function Max(a: int, b: int): int {
    if a >= b then a else b
  }

  /**
   Unless errors are ignored, the loop never counts more than three batches'
   worth of failures plus the one that stops it; when errors are ignored it
   never stops for failures.
   */
  lemma {:induction false} FailureBound(c: Context, data: seq<string>, i: nat, st: RunState)
    requires i <= |data|
    requires !c.s.ignoreErrors ==> st.failed <= Max(c.s.pointsInSingleBatch * 3, 0)
    ensures var r := StreamFrom(c, data, i, st);
      && (c.s.ignoreErrors ==> r.1 != TooManyFailures)
      && (!c.s.ignoreErrors ==> r.0.failed <= Max(c.s.pointsInSingleBatch * 3, 0) + (if r.1 == TooManyFailures then 1 else 0))
    decreases |data| - i
  {
    if i < |data| {
      StreamStep(c, data, i, st);
      if !IsDataLine(c.s, data[i]) {
        FailureBound(c, data, i + 1, st);
      } else {
        var next := Step(c, st, LinePoint(c, data[i]));
        StepFailureBound(c, st, LinePoint(c, data[i]));
        if next.1 == Continue {
          FailureBound(c, data, i + 1, next.0);
        }
      }
    }
  }

  /** One data line keeps the failure bound, and only a stop for too many failures may pass it by one. */
  lemma StepFailureBound(c: Context, st: RunState, point: Result<Point>)
    requires !c.s.ignoreErrors ==> st.failed <= Max(c.s.pointsInSingleBatch * 3, 0)
    ensures var r := Step(c, st, point);
      && (c.s.ignoreErrors ==> r.1 != TooManyFailures)
      && (!c.s.ignoreErrors ==> r.0.failed <= Max(c.s.pointsInSingleBatch * 3, 0) + (if r.1 == TooManyFailures then 1 else 0))
  {
  }

  /** The failures' line numbers increase strictly and none is past the current line. */
  predicate LinesIncrease(s: GenericSettings, st: RunState) {
    && (forall j, k :: 0 <= j < k < |st.events| ==> st.events[j].line < st.events[k].line)
    && (forall j :: 0 <= j < |st.events| ==> st.events[j].line <= LineNumber(s, st.found))
  }

  /** The catch block records exactly one failure, at the current line, and counts it. */
  lemma OnFailureRecords(c: Context, st: RunState, err: Error)
    ensures var r := OnFailure(c, st, err).0;
      && r.events == st.events + [FailureEvent(err.kind, err.message, LineNumber(c.s, st.found))]
      && r.failed == st.failed + 1 && r.found == st.found && r.created == st.created
  {
  }

  /** One data line records at most one failure, with its own line number, and counts each failure it records. */
  lemma StepRecords(c: Context, st: RunState, point: Result<Point>)
    ensures var r := Step(c, st, point).0;
      && r.found == st.found + 1
      && (r.events == st.events ||
          (|r.events| == |st.events| + 1 && r.events[..|st.events|] == st.events && r.events[|st.events|].line == LineNumber(c.s, r.found)))
      && r.failed - st.failed == |r.events| - |st.events|
      && (r.created == st.created + 1 || (r.created == st.created && |r.events| == |st.events| + 1))
  {
    var counted := st.(found := st.found + 1);
    if point.Fail? {
      OnFailureRecords(c, counted, point.error);
    } else {
      var queued := counted.(pending := counted.pending + [point.value.(retention := c.retention)], created := counted.created + 1);
      if |queued.pending| >= c.s.pointsInSingleBatch {
        var reply := c.respond(queued.posts, queued.pending);
        var after := MarkSaved(queued.pending, reply.savedAt);
        var posted := queued.(posts := queued.posts + 1);
        if !(reply.Returned? && reply.ok) && !(reply.Returned? || reply.error.kind == ServiceUnavailableException) {
          OnFailureRecords(c, posted.(pending := after), reply.error);
        }
      }
    }
  }

  /**
   Each data line records at most one failure, with its own line number, so
   the recorded lines increase strictly; each failure recorded is one failure
   counted, and a line that was counted but made no point is among them.
   */
  lemma {:induction false} StreamFailures(c: Context, data: seq<string>, i: nat, st: RunState)
    requires i <= |data| && LinesIncrease(c.s, st)
    requires st.created <= st.found <= st.created + |st.events|
    ensures var r := StreamFrom(c, data, i, st).0;
      && LinesIncrease(c.s, r)
      && r.failed - st.failed == |r.events| - |st.events|
      && |st.events| <= |r.events| && r.events[..|st.events|] == st.events
      && r.created <= r.found <= r.created + |r.events|
    decreases |data| - i
  {
    if i < |data| {
      StreamStep(c, data, i, st);
      if !IsDataLine(c.s, data[i]) {
        StreamFailures(c, data, i + 1, st);
      } else {
        var next := Step(c, st, LinePoint(c, data[i]));
        StepRecords(c, st, LinePoint(c, data[i]));
        StepKeepsIncreasing(c.s, st, next.0);
        if next.1 == Continue {
          StreamFailures(c, data, i + 1, next.0);
          var r := StreamFrom(c, data, i + 1, next.0).0;
          assert r.events[..|next.0.events|][..|st.events|] == r.events[..|st.events|];
        }
      }
    }
  }

  /** `StreamFailures` for one data line: a state `r` reached as `StepRecords` says keeps the records increasing and the counts in step. */
  lemma StepKeepsIncreasing(s: GenericSettings, st: RunState, r: RunState)
    requires LinesIncrease(s, st)
    requires st.created <= st.found <= st.created + |st.events|
    requires r.found == st.found + 1
    requires r.events == st.events ||
      (|r.events| == |st.events| + 1 && r.events[..|st.events|] == st.events && r.events[|st.events|].line == LineNumber(s, r.found))
    requires r.failed - st.failed == |r.events| - |st.events|
    requires r.created == st.created + 1 || (r.created == st.created && |r.events| == |st.events| + 1)
    ensures LinesIncrease(s, r)
    ensures |st.events| <= |r.events| && r.events[..|st.events|] == st.events
    ensures r.created <= r.found <= r.created + |r.events|
  {
    if r.events != st.events {
      forall j | 0 <= j < |st.events| ensures r.events[j] == st.events[j] {
        assert r.events[..|st.events|][j] == r.events[j];
      }
    }
  }

  /** The number of data lines, neither blank nor comment, among `data[i..]`. */
  function DataLinesFrom(s: GenericSettings, data: seq<string>, i: nat): nat
    requires i <= |data|
    decreases |data| - i
  {
    if i == |data| then 0 else (if IsDataLine(s, data[i]) then 1 else 0) + DataLinesFrom(s, data, i + 1)
  }

  /** A loop that runs to the end has counted every data line once, and only data lines. */
  lemma {:induction false} FoundCountsDataLines(c: Context, data: seq<string>, i: nat, st: RunState)
    requires i <= |data|
    ensures var r := StreamFrom(c, data, i, st);
      && r.0.found <= st.found + DataLinesFrom(c.s, data, i)
      && (r.1 == Continue ==> r.0.found == st.found + DataLinesFrom(c.s, data, i))
    decreases |data| - i
  {
    if i < |data| {
      if !IsDataLine(c.s, data[i]) {
        FoundCountsDataLines(c, data, i + 1, st);
      } else if Step(c, st, LinePoint(c, data[i])).1 == Continue {
        FoundCountsDataLines(c, data, i + 1, Step(c, st, LinePoint(c, data[i])).0);
      }
    }
  }

  /** The stages after the loop only add to the failure count and record no failure. */
  lemma FinishKeepsEvents(c: Context, st: RunState)
    ensures Finish(c, st).state.failed >= st.failed
    ensures Finish(c, st).state.events == st.events
    ensures Finish(c, st).state.found == st.found && Finish(c, st).state.created == st.created
  {
    if !(|st.retry| >= c.s.pointsInSingleBatch * 3 || st.failedReq > 3) {
      var left := PostLeftover(c, st);
      LeftoverKeepsEvents(c, st);
      if !left.threw {
        RetryKeepsEvents(c, left.state);
      }
    }
  }

  /** Posting the leftover batch changes no failure count and no record. */
  lemma LeftoverKeepsEvents(c: Context, st: RunState)
    ensures var r := PostLeftover(c, st).state;
      r.failed == st.failed && r.events == st.events && r.found == st.found && r.created == st.created
  {
    if |st.pending| > 0 {
      var reply := c.respond(st.posts, st.pending);
      var after := MarkSaved(st.pending, reply.savedAt);
      var posted := st.(posts := st.posts + 1, pending := after);
      if !reply.Raised? && !reply.ok {
        assert PostLeftover(c, st).state == Requeue(posted, after).(failedReq := posted.failedReq + 1);
      }
    }
  }

  /** Retrying the queue only adds to the failure count and records nothing. */
  lemma RetryKeepsEvents(c: Context, st: RunState)
    ensures var r := PostRetry(c, st).state;
      r.failed >= st.failed && r.events == st.events && r.found == st.found && r.created == st.created
  {
  }

  /**
   A run that ends in Success failed on no line and posted no retry that
   returned false: every data line it found became a point.
   */
  lemma TransferSuccess(c: Context, lines: seq<string>, posts: nat)
    requires Transfer(c, lines, posts).status.exitCode == Success
    ensures Transfer(c, lines, posts).status.pointsFailed == 0
    ensures Transfer(c, lines, posts).state.created == Transfer(c, lines, posts).status.pointsFound
    ensures Transfer(c, lines, posts).state.events == []
  {
    var data := DataLines(c.s, lines);
    var st := StreamFrom(c, data, 0, Start(posts)).0;
    StreamFailures(c, data, 0, Start(posts));
    FinishKeepsEvents(c, st);
  }
}
