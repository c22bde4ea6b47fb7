/**
 FailureTracker.cs and the way both readers fill a `Dictionary<Type,
 FailureTracker>`: one tracker per exception type, holding the message of the
 first failure of that type and, in order, the line number of every failure of
 that type.
 */
module Failures {
  import opened Common

  /** One caught failure: its exception and the line number the reader records for it. */
  datatype FailureEvent = FailureEvent(kind: ExceptionKind, message: string, line: int)

  class FailureTracker {
    var exceptionType: string
    var message: string
    var lineNumbers: seq<int>

    /** `Count`: the number of recorded line numbers. */
    function Count(): nat
      reads this
    {
      |lineNumbers|
    }

    /** `new FailureTracker() { ExceptionType = exceptionType, Message = message }` */
    constructor (exceptionType: string, message: string)
      ensures this.exceptionType == exceptionType && this.message == message
      ensures lineNumbers == [] && Count() == 0
    {
      this.exceptionType := exceptionType;
      this.message := message;
      lineNumbers := [];
    }

    /** `LineNumbers.Add(line)`: the list has a private setter and is only appended to. */
    method AddLine(line: int)
      modifies this`lineNumbers
      ensures lineNumbers == old(lineNumbers) + [line]
      ensures Count() == old(Count()) + 1
    {
      lineNumbers := lineNumbers + [line];
    }
  }

  /** The exception types that occur among `events`. */
  function Types(events: seq<FailureEvent>): set<string> {
    set i | 0 <= i < |events| :: events[i].kind.TypeName()
  }

  /** The line numbers of the failures of type `t`, in order. */
  function LinesOf(events: seq<FailureEvent>, t: string): (r: seq<int>)
    ensures |r| <= |events|
  {
    if |events| == 0 then []
    else (if events[0].kind.TypeName() == t then [events[0].line] else []) + LinesOf(events[1..], t)
  }

  /** The message of the first failure of type `t`. */
  function FirstMessage(events: seq<FailureEvent>, t: string): string {
    if |events| == 0 then ""
    else if events[0].kind.TypeName() == t then events[0].message
    else FirstMessage(events[1..], t)
  }

  /**
   One more failure appends its line to the lines of its own type and leaves
   every other type alone; the message of a type is the first failure's,
   later failures of that type do not replace it.
   */
  lemma AppendFailure(events: seq<FailureEvent>, ev: FailureEvent, t: string)
    ensures LinesOf(events + [ev], t) == LinesOf(events, t) + (if ev.kind.TypeName() == t then [ev.line] else [])
    ensures FirstMessage(events + [ev], t) ==
      if t in Types(events) then FirstMessage(events, t)
      else if ev.kind.TypeName() == t then ev.message
      else ""
    ensures Types(events + [ev]) == Types(events) + {ev.kind.TypeName()}
  {
    LinesOfAppend(events, ev, t);
    FirstMessageAppend(events, ev, t);
    TypesAppend(events, ev);
  }

  lemma {:induction false} LinesOfAppend(events: seq<FailureEvent>, ev: FailureEvent, t: string)
    ensures LinesOf(events + [ev], t) == LinesOf(events, t) + (if ev.kind.TypeName() == t then [ev.line] else [])
  {
    if |events| > 0 {
      assert (events + [ev])[1..] == events[1..] + [ev];
      LinesOfAppend(events[1..], ev, t);
    } else {
      assert events + [ev] == [ev];
    }
  }

  lemma {:induction false} FirstMessageAppend(events: seq<FailureEvent>, ev: FailureEvent, t: string)
    ensures FirstMessage(events + [ev], t) ==
      if t in Types(events) then FirstMessage(events, t)
      else if ev.kind.TypeName() == t then ev.message
      else ""
  {
    if |events| > 0 {
      assert (events + [ev])[1..] == events[1..] + [ev];
      FirstMessageAppend(events[1..], ev, t);
      TypesCons(events);
    } else {
      assert Types(events) == {};
      assert events + [ev] == [ev];
    }
  }

  /** The types of a non-empty sequence: its first element's and those of the rest. */
  lemma TypesCons(events: seq<FailureEvent>)
    requires |events| > 0
    ensures Types(events) == {events[0].kind.TypeName()} + Types(events[1..])
  {
    forall x | x in Types(events) ensures x in {events[0].kind.TypeName()} + Types(events[1..]) {
      var i :| 0 <= i < |events| && events[i].kind.TypeName() == x;
      if i > 0 {
        assert events[1..][i - 1] == events[i];
      }
    }
    forall x | x in Types(events[1..]) ensures x in Types(events) {
      var i :| 0 <= i < |events[1..]| && events[1..][i].kind.TypeName() == x;
      assert events[i + 1] == events[1..][i];
    }
  }

  lemma TypesAppend(events: seq<FailureEvent>, ev: FailureEvent)
    ensures Types(events + [ev]) == Types(events) + {ev.kind.TypeName()}
  {
    forall x | x in Types(events + [ev]) ensures x in Types(events) + {ev.kind.TypeName()} {
      var i :| 0 <= i < |events + [ev]| && (events + [ev])[i].kind.TypeName() == x;
      if i < |events| {
        assert (events + [ev])[i] == events[i];
      }
    }
    forall x | x in Types(events) ensures x in Types(events + [ev]) {
      var i :| 0 <= i < |events| && events[i].kind.TypeName() == x;
      assert (events + [ev])[i] == events[i];
    }
    assert (events + [ev])[|events|] == ev;
  }

  /** A type without failures has no line numbers. */
  lemma {:induction false} LinesOfAbsent(events: seq<FailureEvent>, t: string)
    requires t !in Types(events)
    ensures LinesOf(events, t) == []
  {
    if |events| > 0 {
      assert events[0].kind.TypeName() in Types(events);
      assert Types(events[1..]) <= Types(events) by {
        forall x | x in Types(events[1..]) ensures x in Types(events) {
          var i :| 0 <= i < |events[1..]| && events[1..][i].kind.TypeName() == x;
          assert events[i + 1] == events[1..][i];
        }
      }
      LinesOfAbsent(events[1..], t);
    }
  }

  /** No two exception types share a tracker. */
  predicate Distinct(reasons: map<string, FailureTracker>) {
    forall t, u :: t in reasons && u in reasons && t != u ==> reasons[t] != reasons[u]
  }

  /** The trackers record exactly the failures in `events`, one tracker per type. */
  predicate Tracks(reasons: map<string, FailureTracker>, events: seq<FailureEvent>)
    reads reasons.Values
  {
    && reasons.Keys == Types(events)
    && forall t :: t in reasons ==>
         && reasons[t].exceptionType == t
         && reasons[t].message == FirstMessage(events, t)
         && reasons[t].lineNumbers == LinesOf(events, t)
  }

  /**
   The catch block of both readers: a tracker is created, with the failure's
   type and message, for the first failure of a type; then the line number is
   appended to that type's tracker.
   */
  method Record(reasons: map<string, FailureTracker>, ghost events: seq<FailureEvent>, ev: FailureEvent)
    returns (r: map<string, FailureTracker>)
    requires Tracks(reasons, events) && Distinct(reasons)
    modifies reasons.Values
    ensures Tracks(r, events + [ev]) && Distinct(r)
    ensures r.Keys == reasons.Keys + {ev.kind.TypeName()}
    ensures forall t :: t in r ==> (t in reasons && r[t] == reasons[t]) || fresh(r[t])
  {
    var t := ev.kind.TypeName();
    r := reasons;
    if t !in r {
      var tracker := new FailureTracker(t, ev.message);
      r := r[t := tracker];
    }
    assert forall u :: u in r && u != t ==> u in reasons && r[u] == reasons[u] && r[u] != r[t];
    r[t].AddLine(ev.line);
    forall u | u in r
      ensures r[u].exceptionType == u && r[u].message == FirstMessage(events + [ev], u)
      ensures r[u].lineNumbers == LinesOf(events + [ev], u)
    {
      AppendFailure(events, ev, u);
      if u !in reasons {
        LinesOfAbsent(events, u);
      }
    }
    AppendFailure(events, ev, t);
  }
}
