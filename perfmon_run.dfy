/**
 `PerfmonFile.ProcessPerfMonLog` as functions over a state: the first line is
 checked and gives the offset and the counters; the counters are filtered and
 grouped by performance object; every line after the first is turned into
 points, which are queued, and a full batch is posted; failed points go to a
 retry queue; failed lines are counted and recorded; the run stops early after
 too many refused posts. After the lines, what is left is posted, the retry
 queue is posted once, and the exit code is chosen from the counters.

 The class in module PerfmonReader runs the same steps imperatively and is
 proved equal to `Process`.
 */
module PerfmonRun {
  import opened Common
  import opened Runtime
  import opened OrderedDict
  import opened Points
  import opened Failures
  import opened PerfmonFiles

  /** What the line loop reads and never changes. */
  datatype PerfContext = PerfContext(
    lc: LineContext,
    /** The UTC offset in minutes read from the first line. */
    offset: int,
    /** The counters, grouped by performance object. */
    groups: seq<Group>,
    respond: (nat, seq<Point>) -> StoreReply)

  /**
   The loop's variables: `lines` and `failedLines` (linesProcessed and
   failedLines), the counters of the ProcessStatus, the current batch, the
   retry queue, the count of consecutive failed posts, the number of posts so
   far and the failures caught. `dropped` counts the points a successful post
   left unsaved, which no counter includes.
   */
  datatype PerfState = PerfState(
    lines: int,
    failedLines: int,
    found: int,
    processed: int,
    failedPoints: int,
    pending: seq<Point>,
    retry: seq<Point>,
    failedReq: int,
    posts: nat,
    events: seq<FailureEvent>,
    dropped: nat)

  /** Whether the loop goes on, or breaks because the store refuses the points. */
  datatype PerfFlow = Proceed | Refused

  /** The state before the first line, after `posts` earlier posts to the store. */
  function Begin(posts: nat): PerfState {
    PerfState(0, 0, 0, 0, 0, [], [], 0, posts, [], 0)
  }

  /** The unsaved points of `batch` join the retry queue and its saved ones count as processed. */
  function Requeue(st: PerfState, batch: seq<Point>): PerfState {
    st.(retry := st.retry + Unsaved(batch), processed := st.processed + SavedCount(batch))
  }

  /** The catch block of a line: the line counts as failed and the failure is recorded at the count of lines processed. */
  function OnFailure(st: PerfState, err: Error): PerfState {
    st.(failedLines := st.failedLines + 1, events := st.events + [FailureEvent(err.kind, err.message, st.lines)])
  }

  /**
   Posting a full batch: a post that returns true resets the count of failed
   posts; one that returns false or throws ServiceUnavailableException moves
   the unsaved points to the retry queue and breaks the loop on the fifth in
   a row; any other exception goes to the line's catch block, the batch
   staying as the store left it.
   */
  function PostBatch(c: PerfContext, st: PerfState): (r: (PerfState, PerfFlow))
    ensures r.0.posts == st.posts + 1
    ensures r.0.lines == st.lines && r.0.found == st.found && r.0.failedPoints == st.failedPoints
    ensures c.respond(st.posts, st.pending).Returned? && c.respond(st.posts, st.pending).ok ==>
      r.1 == Proceed && r.0.failedReq == 0 && r.0.pending == []
    ensures c.respond(st.posts, st.pending).Returned? && !c.respond(st.posts, st.pending).ok ==>
      r.0.failedReq == st.failedReq + 1 && (r.1 == Proceed ==> r.0.pending == [])
    ensures c.respond(st.posts, st.pending).Raised? && c.respond(st.posts, st.pending).error.kind != ServiceUnavailableException ==>
      r.1 == Proceed && r.0.failedLines == st.failedLines + 1
  {
    var reply := c.respond(st.posts, st.pending);
    var after := MarkSaved(st.pending, reply.savedAt);
    var posted := st.(posts := st.posts + 1);
    if reply.Returned? && reply.ok then
      (posted.(failedReq := 0, processed := posted.processed + SavedCount(after), dropped := posted.dropped + |Unsaved(after)|, pending := []), Proceed)
    else if reply.Returned? || reply.error.kind == ServiceUnavailableException then
      var refused := Requeue(posted, after).(failedReq := posted.failedReq + 1);
      if refused.failedReq > 4 then (refused.(pending := after), Refused)
      else (refused.(pending := []), Proceed)
    else (OnFailure(posted.(pending := after), reply.error), Proceed)
  }

  /**
   One line, whose processing gave `points`: a line that throws is a failed
   line and is not counted as processed; a line without points is processed
   and failed; otherwise its points are found and queued, and a full batch is
   posted.
   */
  function Step(c: PerfContext, st: PerfState, points: Result<seq<Point>>): (r: (PerfState, PerfFlow))
    ensures points.Fail? ==> r.1 == Proceed && r.0.failedLines == st.failedLines + 1 && r.0.lines == st.lines && r.0.found == st.found
    ensures points.Ok? ==> r.0.lines == st.lines + 1 && r.0.found == st.found + |points.value|
    ensures points.Ok? && |points.value| == 0 ==> r.1 == Proceed && r.0.failedLines == st.failedLines + 1
    ensures r.0.posts == st.posts || r.0.posts == st.posts + 1
    ensures r.0.failedPoints == st.failedPoints
  {
    if points.Fail? then (OnFailure(st, points.error), Proceed)
    else
      var counted := st.(lines := st.lines + 1);
      if |points.value| == 0 then (counted.(failedLines := counted.failedLines + 1), Proceed)
      else
        var queued := counted.(found := counted.found + |points.value|, pending := counted.pending + points.value);
        if |queued.pending| >= c.lc.s.pointsInSingleBatch then PostBatch(c, queued) else (queued, Proceed)
  }

  /** The loop over the lines from `i`; no line is skipped. */
  function StreamFrom(c: PerfContext, data: seq<string>, i: nat, st: PerfState): (r: (PerfState, PerfFlow))
    requires i <= |data|
    ensures st.lines <= r.0.lines <= st.lines + (|data| - i)
    ensures st.found <= r.0.found && st.posts <= r.0.posts && r.0.failedPoints == st.failedPoints
    decreases |data| - i
  {
    if i == |data| then (st, Proceed)
    else
      var next := Step(c, st, PerfmonLine(c.lc, c.offset, c.groups, data[i]));
      if next.1 == Refused then next else StreamFrom(c, data, i + 1, next.0)
  }

  /** One unfolding of the loop: the line at `i` is handled, and the loop goes on unless the store refused. */
  lemma StreamStep(c: PerfContext, data: seq<string>, i: nat, st: PerfState)
    requires i < |data|
    ensures var next := Step(c, st, PerfmonLine(c.lc, c.offset, c.groups, data[i]));
      StreamFrom(c, data, i, st) == if next.1 == Refused then next else StreamFrom(c, data, i + 1, next.0)
  {
  }

  /** The status of a run that ended in an exception: UnknownError with the counters so far. */
  function Aborted(st: PerfState): ProcessStatus {
    ProcessStatus(UnknownError, st.failedPoints, st.found, st.processed)
  }

  /**
   The status of a run that reached its end: Success when no line failed and
   no point waits for a retry; otherwise UnableToProcess when every processed
   line failed or every point found waits for a retry, ProcessedWithErrors
   if not.
   */
  function Completed(st: PerfState): (r: ProcessStatus)
    ensures r.exitCode == Success <==> st.failedLines <= 0 && |st.retry| == 0
    ensures r.exitCode == UnableToProcess <==>
      (st.failedLines > 0 || |st.retry| > 0) && (st.failedLines == st.lines || st.found == |st.retry|)
    ensures r.exitCode == ProcessedWithErrors <==>
      (st.failedLines > 0 || |st.retry| > 0) && st.failedLines != st.lines && st.found != |st.retry|
    ensures r.pointsFailed == st.failedPoints && r.pointsFound == st.found && r.pointsProcessed == st.processed
  {
    var code :=
      if st.failedLines > 0 || |st.retry| > 0 then
        (if st.failedLines == st.lines || st.found == |st.retry| then UnableToProcess else ProcessedWithErrors)
      else Success;
    ProcessStatus(code, st.failedPoints, st.found, st.processed)
  }

  /** A stage after the loop: the state, and whether it threw. */
  datatype Stage = Stage(state: PerfState, threw: bool)

  /**
   The points left in the last, partial batch: all of them count as processed
   when the post returns true; when it returns false the unsaved ones join
   the retry queue; an exception ends the run.
   */
  function PostLeftover(c: PerfContext, st: PerfState): (r: Stage)
    ensures |st.pending| == 0 ==> r == Stage(st, false)
    ensures |st.pending| > 0 ==> r.state.posts == st.posts + 1
    ensures r.threw <==> |st.pending| > 0 && c.respond(st.posts, st.pending).Raised?
    ensures |st.pending| > 0 && c.respond(st.posts, st.pending).Returned? && c.respond(st.posts, st.pending).ok ==>
      r.state.processed == st.processed + |st.pending| && r.state.pending == []
    ensures r.state.found == st.found && r.state.failedPoints == st.failedPoints && r.state.failedLines == st.failedLines
  {
    if |st.pending| == 0 then Stage(st, false)
    else
      var reply := c.respond(st.posts, st.pending);
      var after := MarkSaved(st.pending, reply.savedAt);
      var posted := st.(posts := st.posts + 1, pending := after);
      if reply.Raised? then Stage(posted, true)
      else if reply.ok then Stage(posted.(processed := posted.processed + |after|, pending := []), false)
      else Stage(Requeue(posted, after).(failedReq := posted.failedReq + 1), false)
  }

  /**
   The one retry of the queue: all of it counts as processed when the post
   returns true; when it returns false, a queue of three batches or more, or
   a fifth failed post, ends the run, and otherwise all of it counts as
   failed. Any exception ends the run.
   */
  function PostRetry(c: PerfContext, st: PerfState): (r: Stage)
    ensures |st.retry| == 0 ==> r == Stage(st, false)
    ensures |st.retry| > 0 ==> r.state.posts == st.posts + 1
    ensures r.threw ==> |st.retry| > 0
    ensures |st.retry| > 0 && c.respond(st.posts, st.retry).Returned? && c.respond(st.posts, st.retry).ok ==>
      !r.threw && r.state.processed == st.processed + |st.retry| && r.state.retry == []
    ensures |st.retry| > 0 && c.respond(st.posts, st.retry).Returned? && !c.respond(st.posts, st.retry).ok ==>
      (r.threw <==> |st.retry| >= c.lc.s.pointsInSingleBatch * 3 || st.failedReq + 1 > 4)
      && (!r.threw ==> r.state.failedPoints == st.failedPoints + |st.retry|)
    ensures !r.threw && r.state.retry != [] ==> r.state.failedPoints == st.failedPoints + |st.retry|
  {
    if |st.retry| == 0 then Stage(st, false)
    else
      var reply := c.respond(st.posts, st.retry);
      var after := MarkSaved(st.retry, reply.savedAt);
      var posted := st.(posts := st.posts + 1, retry := after);
      if reply.Raised? then Stage(posted, true)
      else if reply.ok then Stage(posted.(processed := posted.processed + |after|, retry := []), false)
      else if |after| >= c.lc.s.pointsInSingleBatch * 3 then Stage(posted, true)
      else
        var counted := posted.(failedReq := posted.failedReq + 1);
        if counted.failedReq > 4 then Stage(counted, true)
        else Stage(counted.(failedPoints := counted.failedPoints + |after|), false)
  }

  /** What a run returns and the state it ends in. */
  datatype PerfOutcome = PerfOutcome(status: ProcessStatus, state: PerfState)

  /**
   After the loop: a full retry queue or repeated failed posts end the run;
   otherwise the leftover batch and then the retry queue are posted.
   */
  function Finish(c: PerfContext, st: PerfState): (r: PerfOutcome)
    ensures r.status.pointsFound == r.state.found && r.status.pointsFailed == r.state.failedPoints && r.status.pointsProcessed == r.state.processed
    ensures |st.retry| >= c.lc.s.pointsInSingleBatch * 3 || st.failedReq > 3 ==> r.status.exitCode == UnknownError && r.state == st
    ensures st.posts <= r.state.posts <= st.posts + 2
    ensures r.state.found == st.found
    ensures r.status.exitCode == Success ==> r.state.failedPoints == st.failedPoints && r.state.failedLines <= 0
  {
    if |st.retry| >= c.lc.s.pointsInSingleBatch * 3 || st.failedReq > 3 then PerfOutcome(Aborted(st), st)
    else
      var left := PostLeftover(c, st);
      if left.threw then PerfOutcome(Aborted(left.state), left.state)
      else
        var retried := PostRetry(c, left.state);
        if retried.threw then PerfOutcome(Aborted(retried.state), retried.state)
        else PerfOutcome(Completed(retried.state), retried.state)
  }

  /** The loop over every line after the first, and what follows it, after `posts` earlier posts. */
  function Transfer(c: PerfContext, lines: seq<string>, posts: nat): (r: PerfOutcome)
    ensures r.status.pointsFound == r.state.found && r.status.pointsFailed == r.state.failedPoints && r.status.pointsProcessed == r.state.processed
    ensures posts <= r.state.posts && r.status.pointsFound >= 0
    ensures r.status.exitCode == Success ==> r.status.pointsFailed == 0
  {
    Finish(c, StreamFrom(c, Skip(lines, 1), 0, Begin(posts)).0)
  }

  /**
   The counters the lines are read with: those of the header, and when a
   filter is configured, those the filter keeps, with the filter counters
   parsed from the `-columns` list's `ToString()` as written; grouped by
   performance object.
   */
  function Counters(s: PerfmonSettings, e: Engine, lines: seq<string>, db: Database): (r: Result<seq<Group>>)
    ensures PerfmonHeader(s, e, FirstOrNull(lines), true).Fail? ==> r == Fail(PerfmonHeader(s, e, FirstOrNull(lines), true).error)
    ensures r.Ok? ==> PerfmonHeader(s, e, FirstOrNull(lines), true).Ok?
    ensures r.Ok? ==> forall i, m :: 0 <= i < |r.value| && m in r.value[i].members ==> m in PerfmonHeader(s, e, FirstOrNull(lines), true).value
    ensures s.filter.NoFilter? && PerfmonHeader(s, e, FirstOrNull(lines), true).Ok? ==>
      r.Ok? && forall m :: m in PerfmonHeader(s, e, FirstOrNull(lines), true).value ==>
        exists i :: 0 <= i < |r.value| && m in r.value[i].members
  {
    var header :- PerfmonHeader(s, e, FirstOrNull(lines), true);
    if s.filter.NoFilter? then Ok(GroupBy(header, ObjectOf))
    else
      var filterColumns :- PerfmonFilterColumnsAsWritten(s, e);
      Ok(GroupBy(FilterPerfmonLogColumns(s, header, filterColumns, db), ObjectOf))
  }

  /**
   As written, a Columns filter leaves no counter to read (when the splitter
   leaves the type name whole), so every line after the first gives no
   point.
   */
  lemma ColumnsFilterReadsNothing(s: PerfmonSettings, e: Engine, lines: seq<string>, db: Database, lc: LineContext, offset: int, line: string)
    requires s.filter.ColumnsFilter?
    requires e.split(s.columnSplitter, GenericFiles.ListTypeName) == [GenericFiles.ListTypeName]
    ensures Counters(s, e, lines, db).Ok? ==> Counters(s, e, lines, db).value == []
    ensures PerfmonLine(lc, offset, [], line).Ok? ==> PerfmonLine(lc, offset, [], line).value == []
  {
    var header := PerfmonHeader(s, e, FirstOrNull(lines), true);
    if header.Ok? {
      PerfmonColumnsFilterDropsAll(s, e, header.value, db);
      assert FilterPerfmonLogColumns(s, header.value, [], db) == [];
    }
  }

  /** The offset the reader keeps after a run: the one the first line gives, or the one it had when that fails. */
  function NextOffset(lines: seq<string>, previous: int): (r: int)
    ensures r == previous || ReadFormat(FirstOrNull(lines), previous) == Ok(r)
    ensures |lines| == 0 ==> r == previous
  {
    var offset := ReadFormat(FirstOrNull(lines), previous);
    if offset.Ok? then offset.value else previous
  }

  /**
   `ProcessPerfMonLog` to its end: the first line is checked and read, the
   counters are parsed, filtered and grouped, the retention policy is
   resolved, then the lines are transferred; an exception before the lines
   ends the run with UnknownError and no point counted. `previous` is the
   offset the reader had, `db` the database structure the store reports and
   `retention` the outcome of the retention policy lookup. What the run
   returns and the state it ends in, after `posts` earlier posts.
   */
  function Run(s: PerfmonSettings, e: Engine, defaultTags: Entries<string, string>, previous: int, lines: seq<string>, db: Database,
               retention: Result<Option<string>>, respond: (nat, seq<Point>) -> StoreReply, posts: nat): (r: PerfOutcome)
    ensures r.status.pointsFound == r.state.found && r.status.pointsFailed == r.state.failedPoints && r.status.pointsProcessed == r.state.processed
    ensures posts <= r.state.posts
    ensures ReadFormat(FirstOrNull(lines), previous).Fail? || Counters(s, e, lines, db).Fail? || retention.Fail? ==>
      r == PerfOutcome(ProcessStatus(UnknownError, 0, 0, 0), Begin(posts))
  {
    var offset := ReadFormat(FirstOrNull(lines), previous);
    var groups := Counters(s, e, lines, db);
    if offset.Fail? || groups.Fail? || retention.Fail? then PerfOutcome(Aborted(Begin(posts)), Begin(posts))
    else Transfer(PerfContext(LineContext(s, e, defaultTags, retention.value), offset.value, groups.value, respond), lines, posts)
  }

  /** The status `ProcessPerfMonLog` returns. */
  function Process(s: PerfmonSettings, e: Engine, defaultTags: Entries<string, string>, previous: int, lines: seq<string>, db: Database,
                   retention: Result<Option<string>>, respond: (nat, seq<Point>) -> StoreReply, posts: nat): (r: ProcessStatus)
    ensures r.pointsFound >= 0
    ensures r.exitCode == Success ==> r.pointsFailed == 0
  {
    Run(s, e, defaultTags, previous, lines, db, retention, respond, posts).status
  }

  /**
   A file whose first line is missing, has no comma, or does not name the
   PDH-CSV format is refused before any line is read: UnknownError, nothing
   found, and the offset is kept.
   */
  lemma ProcessRefusesOtherFiles(s: PerfmonSettings, e: Engine, defaultTags: Entries<string, string>, previous: int, lines: seq<string>, db: Database,
                                 retention: Result<Option<string>>, respond: (nat, seq<Point>) -> StoreReply, posts: nat)
    requires |lines| == 0 || ',' !in lines[0] || !Contains(FirstCell(Some(lines[0])).value, PdhCsv)
    ensures Process(s, e, defaultTags, previous, lines, db, retention, respond, posts) == ProcessStatus(UnknownError, 0, 0, 0)
    ensures NextOffset(lines, previous) == previous
  {
  }

  // ---------------------------------------------------------------------------
  // Properties of the loop

  /**
   Between posts, every point found is in exactly one place: counted as
   processed, in the retry queue, in the current batch, or dropped unsaved by
   a successful post; and the retry queue holds only unsaved points.
   */
  predicate Conserved(st: PerfState) {
    && st.processed + |st.retry| + |st.pending| + st.dropped == st.found
    && forall p :: p in st.retry ==> !p.saved
  }

  lemma RequeueConserves(st: PerfState, batch: seq<Point>)
    requires forall p :: p in st.retry ==> !p.saved
    ensures Requeue(st, batch).processed + |Requeue(st, batch).retry| == st.processed + |st.retry| + |batch|
    ensures forall p :: p in Requeue(st, batch).retry ==> !p.saved
  {
    SavedSplit(batch);
  }

  lemma PostBatchConserves(c: PerfContext, st: PerfState)
    requires Conserved(st)
    ensures PostBatch(c, st).1 == Proceed ==> Conserved(PostBatch(c, st).0)
  {
    var reply := c.respond(st.posts, st.pending);
    var after := MarkSaved(st.pending, reply.savedAt);
    var posted := st.(posts := st.posts + 1);
    SavedSplit(after);
    if reply.Returned? && reply.ok {
    } else if reply.Returned? || reply.error.kind == ServiceUnavailableException {
      RequeueConserves(posted, after);
    }
  }

  lemma StepConserves(c: PerfContext, st: PerfState, points: Result<seq<Point>>)
    requires Conserved(st)
    ensures Step(c, st, points).1 == Proceed ==> Conserved(Step(c, st, points).0)
  {
    var counted := st.(lines := st.lines + 1);
    if points.Fail? {
      assert Step(c, st, points) == (OnFailure(st, points.error), Proceed);
    } else if |points.value| == 0 {
      assert Step(c, st, points) == (counted.(failedLines := counted.failedLines + 1), Proceed);
    } else {
      var queued := counted.(found := counted.found + |points.value|, pending := counted.pending + points.value);
      assert Conserved(queued);
      if |queued.pending| >= c.lc.s.pointsInSingleBatch {
        assert Step(c, st, points) == PostBatch(c, queued);
        PostBatchConserves(c, queued);
      } else {
        assert Step(c, st, points) == (queued, Proceed);
      }
    }
  }

  /** Every point found is accounted for at the end of the loop, unless refused posts broke it. */
  lemma {:induction false} StreamConserves(c: PerfContext, data: seq<string>, i: nat, st: PerfState)
    requires i <= |data| && Conserved(st)
    ensures StreamFrom(c, data, i, st).1 == Proceed ==> Conserved(StreamFrom(c, data, i, st).0)
    decreases |data| - i
  {
    if i < |data| {
      StepConserves(c, st, PerfmonLine(c.lc, c.offset, c.groups, data[i]));
      var next := Step(c, st, PerfmonLine(c.lc, c.offset, c.groups, data[i]));
      if next.1 == Proceed {
        StreamConserves(c, data, i + 1, next.0);
      }
    }
  }

  /** The loop breaks on refused posts only after more than four in a row. */
  lemma {:induction false} StreamRefusal(c: PerfContext, data: seq<string>, i: nat, st: PerfState)
    requires i <= |data|
    ensures StreamFrom(c, data, i, st).1 == Refused ==> StreamFrom(c, data, i, st).0.failedReq > 4
    decreases |data| - i
  {
    if i < |data| {
      var next := Step(c, st, PerfmonLine(c.lc, c.offset, c.groups, data[i]));
      if next.1 == Proceed {
        StreamRefusal(c, data, i + 1, next.0);
      } else {
        StepRefusal(c, st, PerfmonLine(c.lc, c.offset, c.groups, data[i]));
      }
    }
  }

  /** A line breaks the loop only through a post refused for the fifth time in a row. */
  lemma StepRefusal(c: PerfContext, st: PerfState, points: Result<seq<Point>>)
    ensures Step(c, st, points).1 == Refused ==> Step(c, st, points).0.failedReq > 4
  {
    var counted := st.(lines := st.lines + 1);
    if points.Fail? {
      assert Step(c, st, points) == (OnFailure(st, points.error), Proceed);
    } else if |points.value| == 0 {
      assert Step(c, st, points) == (counted.(failedLines := counted.failedLines + 1), Proceed);
    } else {
      var queued := counted.(found := counted.found + |points.value|, pending := counted.pending + points.value);
      if |queued.pending| >= c.lc.s.pointsInSingleBatch {
        assert Step(c, st, points) == PostBatch(c, queued);
      } else {
        assert Step(c, st, points) == (queued, Proceed);
      }
    }
  }

  /** A run whose loop broke on refused posts ends with UnknownError. */
  lemma StoreRefusalAborts(c: PerfContext, lines: seq<string>, posts: nat)
    requires StreamFrom(c, Skip(lines, 1), 0, Begin(posts)).1 == Refused
    ensures Transfer(c, lines, posts).status.exitCode == UnknownError
  {
    StreamRefusal(c, Skip(lines, 1), 0, Begin(posts));
  }

  /**
   The failures' line numbers never decrease and none is past the count of
   lines processed; every failure recorded is a failed line.
   */
  predicate Recorded(st: PerfState) {
    && (forall j, k :: 0 <= j < k < |st.events| ==> st.events[j].line <= st.events[k].line)
    && (forall j :: 0 <= j < |st.events| ==> st.events[j].line <= st.lines)
    && |st.events| <= st.failedLines
  }

  /**
   One line is processed, or recorded as a failure, or both; it adds at most
   one failed line and one record, and a record only with a failed line.
   */
  lemma StepRecords(c: PerfContext, st: PerfState, points: Result<seq<Point>>)
    requires Recorded(st)
    ensures var r := Step(c, st, points).0;
      && Recorded(r)
      && st.lines <= r.lines <= st.lines + 1
      && (r.events == st.events || r.events == st.events + [r.events[|st.events|]])
      && r.lines + |r.events| > st.lines + |st.events|
      && r.failedLines - st.failedLines <= 1
      && r.found >= st.found && r.failedPoints == st.failedPoints
  {
    var counted := st.(lines := st.lines + 1);
    if points.Fail? {
      assert Step(c, st, points) == (OnFailure(st, points.error), Proceed);
    } else if |points.value| == 0 {
      assert Step(c, st, points) == (counted.(failedLines := counted.failedLines + 1), Proceed);
    } else {
      var queued := counted.(found := counted.found + |points.value|, pending := counted.pending + points.value);
      if |queued.pending| >= c.lc.s.pointsInSingleBatch {
        assert Step(c, st, points) == PostBatch(c, queued);
        PostBatchRecords(c, queued);
      } else {
        assert Step(c, st, points) == (queued, Proceed);
      }
    }
  }

  /** A post records at most one failure, at the current count of lines. */
  lemma PostBatchRecords(c: PerfContext, st: PerfState)
    requires Recorded(st)
    ensures var r := PostBatch(c, st).0;
      && Recorded(r) && r.lines == st.lines && r.found == st.found && r.failedPoints == st.failedPoints
      && (r.events == st.events || (r.events == st.events + [r.events[|st.events|]] && r.failedLines == st.failedLines + 1))
      && (r.events == st.events ==> r.failedLines == st.failedLines)
  {
  }

  /**
   Over the loop the failure records keep their order and their line numbers
   never decrease; a loop that reaches the end has accounted for every line,
   each processed or recorded as a failure.
   */
  lemma StreamRecords(c: PerfContext, data: seq<string>, i: nat, st: PerfState)
    requires i <= |data| && Recorded(st)
    ensures var r := StreamFrom(c, data, i, st);
      && Recorded(r.0)
      && |st.events| <= |r.0.events| && r.0.events[..|st.events|] == st.events
      && st.lines <= r.0.lines <= st.lines + (|data| - i)
      && (r.1 == Proceed ==> r.0.lines + |r.0.events| >= st.lines + |st.events| + (|data| - i))
      && r.0.found >= st.found && r.0.failedPoints == st.failedPoints
  {
    StreamKeepsRecords(c, data, i, st);
    StreamCountsLines(c, data, i, st);
  }

  /** The loop keeps the records it started with, in order, and keeps them ordered by line. */
  lemma {:induction false} StreamKeepsRecords(c: PerfContext, data: seq<string>, i: nat, st: PerfState)
    requires i <= |data| && Recorded(st)
    ensures var r := StreamFrom(c, data, i, st).0;
      && Recorded(r) && |st.events| <= |r.events| && r.events[..|st.events|] == st.events
      && r.found >= st.found && r.failedPoints == st.failedPoints
    decreases |data| - i
  {
    if i < |data| {
      var points := PerfmonLine(c.lc, c.offset, c.groups, data[i]);
      var next := Step(c, st, points);
      StepRecords(c, st, points);
      if next.1 == Proceed {
        StreamKeepsRecords(c, data, i + 1, next.0);
        PrefixOfPrefix(st.events, next.0.events, StreamFrom(c, data, i + 1, next.0).0.events);
      }
    }
  }

  /** One line is counted at most once, and is counted or recorded. */
  lemma StepLines(c: PerfContext, st: PerfState, points: Result<seq<Point>>)
    ensures var r := Step(c, st, points).0;
      && st.lines <= r.lines <= st.lines + 1
      && r.lines + |r.events| > st.lines + |st.events|
  {
    if points.Ok? && |points.value| > 0 {
      var counted := st.(lines := st.lines + 1);
      var queued := counted.(found := counted.found + |points.value|, pending := counted.pending + points.value);
      if |queued.pending| >= c.lc.s.pointsInSingleBatch {
        assert Step(c, st, points) == PostBatch(c, queued);
        assert PostBatch(c, queued).0.lines == queued.lines;
        assert |PostBatch(c, queued).0.events| >= |queued.events|;
      }
    }
  }

  /** A prefix of a prefix is a prefix. */
  lemma PrefixOfPrefix<T>(a: seq<T>, b: seq<T>, c: seq<T>)
    requires |a| <= |b| <= |c| && b[..|a|] == a && c[..|b|] == b
    ensures c[..|a|] == a
  {
    assert c[..|b|][..|a|] == c[..|a|];
  }

  /** The loop counts each line at most once, and a loop that runs to the end processes or records every line. */
  lemma {:induction false} StreamCountsLines(c: PerfContext, data: seq<string>, i: nat, st: PerfState)
    requires i <= |data|
    ensures var r := StreamFrom(c, data, i, st);
      && st.lines <= r.0.lines <= st.lines + (|data| - i)
      && (r.1 == Proceed ==> r.0.lines + |r.0.events| >= st.lines + |st.events| + (|data| - i))
    decreases |data| - i
  {
    if i < |data| {
      var points := PerfmonLine(c.lc, c.offset, c.groups, data[i]);
      var next := Step(c, st, points);
      StepLines(c, st, points);
      if next.1 == Proceed {
        StreamCountsLines(c, data, i + 1, next.0);
      }
    }
  }

  /** The stages after the loop record no failure and count no line. */
  lemma FinishKeepsLines(c: PerfContext, st: PerfState)
    ensures Finish(c, st).state.events == st.events
    ensures Finish(c, st).state.lines == st.lines && Finish(c, st).state.failedLines == st.failedLines
    ensures Finish(c, st).state.found == st.found
  {
  }

  /**
   A run that ends in Success failed on no line, recorded no failure and left
   no point failed: every line after the first was processed.
   */
  lemma TransferSuccess(c: PerfContext, lines: seq<string>, posts: nat)
    requires Transfer(c, lines, posts).status.exitCode == Success
    ensures Transfer(c, lines, posts).state.failedLines == 0
    ensures Transfer(c, lines, posts).state.events == []
    ensures Transfer(c, lines, posts).status.pointsFailed == 0
    ensures Transfer(c, lines, posts).state.lines == |Skip(lines, 1)|
  {
    var data := Skip(lines, 1);
    var streamed := StreamFrom(c, data, 0, Begin(posts));
    StreamRecords(c, data, 0, Begin(posts));
    FinishKeepsLines(c, streamed.0);
    if streamed.1 == Refused {
      StreamRefusal(c, data, 0, Begin(posts));
    }
    FailedPointsNeedRetry(c, streamed.0);
  }

  /** Points are counted as failed only by a retry that returned false, which leaves the retry queue full. */
  lemma FailedPointsNeedRetry(c: PerfContext, st: PerfState)
    requires st.failedPoints == 0
    ensures var r := Finish(c, st);
      r.status.exitCode != UnknownError ==> (r.state.failedPoints == 0 || |r.state.retry| > 0)
  {
  }
}
