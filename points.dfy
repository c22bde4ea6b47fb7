/**
 The data points both readers build and the store they post them to. The
 InfluxDB client is not part of this model: the store answers each post
 through a `respond` function of the call number and the batch, which says
 whether the post returned true or false or threw, and which points of the
 batch it marked `Saved`. The structure of the database, used by the filters,
 is a value.
 */
module Points {
  import opened Common
  import opened Runtime
  import opened OrderedDict

  /** A field value of an InfluxDatapoint: a number, a string or a boolean. */
  datatype FieldValue = NumberField(number: Double) | TextField(text: string) | FlagField(flag: bool)

  /** An InfluxDatapoint; `utcTimestamp` is `None` until the reader sets it. */
  datatype Point = Point(
    measurement: string,
    precision: TimePrecision,
    utcTimestamp: Option<int>,
    tags: Entries<string, string>,
    fields: Entries<string, FieldValue>,
    retention: Option<string>,
    saved: bool)

  /** `points.Count(p => p.Saved)` */
  function SavedCount(ps: seq<Point>): nat {
    if |ps| == 0 then 0 else (if ps[0].saved then 1 else 0) + SavedCount(ps[1..])
  }

  /** `points.Where(p => p.Saved != true)` */
  function Unsaved(ps: seq<Point>): (r: seq<Point>)
    ensures forall p :: p in r ==> p in ps && !p.saved
    ensures forall p :: p in ps && !p.saved ==> p in r
  {
    if |ps| == 0 then [] else (if ps[0].saved then [] else [ps[0]]) + Unsaved(ps[1..])
  }

  /** Every point of a batch is either saved or left for the retry queue. */
  lemma {:induction false} SavedSplit(ps: seq<Point>)
    ensures SavedCount(ps) + |Unsaved(ps)| == |ps|
  {
    if |ps| > 0 {
      SavedSplit(ps[1..]);
    }
  }

  /** How the store answered one post, and the positions in the batch it marked `Saved`. */
  datatype StoreReply =
    | Returned(ok: bool, savedAt: set<nat>)
    | Raised(error: Error, savedAt: set<nat>)

  /** The batch after the store set `Saved` on the points at `at`; a saved point stays saved. */
  function MarkSaved(batch: seq<Point>, at: set<nat>): (r: seq<Point>)
    ensures |r| == |batch|
    ensures forall i :: 0 <= i < |batch| ==> r[i] == batch[i].(saved := batch[i].saved || i in at)
  {
    seq(|batch|, i requires 0 <= i < |batch| => batch[i].(saved := batch[i].saved || i in at))
  }

  /** The InfluxDB server as the readers see it. */
  class Store {
    /** The answer to post number `n` of `batch`. */
    const respond: (nat, seq<Point>) -> StoreReply
    /** Every batch posted so far, in order. */
    var posts: seq<seq<Point>>

    constructor (respond: (nat, seq<Point>) -> StoreReply)
      ensures this.respond == respond && posts == []
    {
      this.respond := respond;
      posts := [];
    }

    /**
     `PostPointsAsync(database, batch)`: records the post, answers it, and
     returns the batch with the `Saved` flags the store set, which it sets
     whether the post returns or throws.
     */
    method PostPoints(batch: seq<Point>) returns (reply: StoreReply, after: seq<Point>)
      modifies this
      ensures posts == old(posts) + [batch]
      ensures reply == respond(|old(posts)|, batch)
      ensures after == MarkSaved(batch, reply.savedAt)
    {
      reply := respond(|posts|, batch);
      after := MarkSaved(batch, reply.savedAt);
      posts := posts + [batch];
    }
  }

  /** One measurement of `GetInfluxDBStructureAsync`: its name, tag keys and field keys. */
  datatype Measurement = Measurement(name: string, tags: seq<string>, fields: seq<string>)

  datatype Database = Database(measurements: seq<Measurement>)

  /** `Measurements.Any(m => m.Name == name)` */
  predicate HasMeasurement(db: Database, name: string) {
    exists i :: 0 <= i < |db.measurements| && db.measurements[i].name == name
  }

  /** `Measurements.FirstOrDefault(m => m.Name == name)`, when one exists. */
  function FirstMeasurement(db: Database, name: string): (m: Measurement)
    requires HasMeasurement(db, name)
    ensures m in db.measurements && m.name == name
    ensures exists k :: (0 <= k < |db.measurements| && db.measurements[k] == m
      && forall j :: 0 <= j < k ==> db.measurements[j].name != name)
    decreases |db.measurements|
  {
    if db.measurements[0].name == name then db.measurements[0]
    else
      var rest := Database(db.measurements[1..]);
      assert HasMeasurement(rest, name) by {
        var i :| 0 <= i < |db.measurements| && db.measurements[i].name == name;
        assert rest.measurements[i - 1] == db.measurements[i];
      }
      var m := FirstMeasurement(rest, name);
      assert exists k :: (0 <= k < |db.measurements| && db.measurements[k] == m
        && forall j :: 0 <= j < k ==> db.measurements[j].name != name)
      by {
        var k :| 0 <= k < |rest.measurements| && rest.measurements[k] == m
          && forall j :: 0 <= j < k ==> rest.measurements[j].name != name;
        assert db.measurements[k + 1] == m;
        forall j | 0 <= j < k + 1 ensures db.measurements[j].name != name {
          if j > 0 { assert db.measurements[j] == rest.measurements[j - 1]; }
        }
      }
      m
  }
}
