/** The in-memory warning log: one record per alerting detection of an alerting frame,
    kept in a ring of the newest 1000 records. The text log file, the console handler
    and the JSON export are side effects outside this model. */
module WarningLog {
  import opened Base
  import opened Config
  import opened Detections

  /** The most records the in-memory log holds. */
  const Capacity: nat := 1000

  /** One warning record, class and risk level by name. The wall-clock timestamp is
      supplied by the caller. */
  datatype LogRecord = LogRecord(
    timestamp: string,
    cls: string,
    distance: real,
    riskLevel: string,
    confidence: real,
    bbox: BBox)

  /** `initialized` is whether a logger object exists; without one nothing is recorded. */
  datatype Logger = Logger(initialized: bool, records: seq<LogRecord>)

  function NewLogger(): (l: Logger)
    ensures !l.initialized && |l.records| == 0
  {
    Logger(false, [])
  }

  /** Setting up the log file and handlers; `created` is whether that produced a logger
      object (the file system's answer, a parameter here). A logger once created stays. */
  function Initialize(l: Logger, created: bool): (r: Logger)
    ensures r.records == l.records
    ensures r.initialized <==> l.initialized || created
  {
    if created then l.(initialized := true) else l
  }

  /** The record a detection produces, or `None` when its distance is unknown: formatting
      the message with an unknown distance raises, and the handler swallows the error
      before anything is stored. */
  function RecordOf(p: Processed, timestamp: string): (r: Option<LogRecord>)
    ensures r.None? <==> p.distance.None?
    ensures r.Some? ==>
      && r.value.distance == p.distance.value && r.value.cls == ClassName(p.det.cls)
      && r.value.riskLevel == LevelName(p.risk.level) && r.value.bbox == p.det.bbox
      && r.value.confidence == p.det.confidence && r.value.timestamp == timestamp
  {
    match p.distance
    case None => None
    case Some(d) => Some(LogRecord(timestamp, ClassName(p.det.cls), d, LevelName(p.risk.level), p.det.confidence, p.det.bbox))
  }

  /** Records one warning: appended at the end, and when the log then exceeds its
      capacity the oldest record is dropped. Without a logger, or when no record can be
      formed, nothing changes. */
  function LogWarning(l: Logger, p: Processed, timestamp: string): (r: Logger)
    ensures r.initialized == l.initialized
    ensures !l.initialized || p.distance.None? ==> r == l
    ensures l.initialized && p.distance.Some? && |l.records| <= Capacity ==>
      r.records == Push(l.records, RecordOf(p, timestamp).value, Capacity)
  {
    if !l.initialized then l
    else match RecordOf(p, timestamp)
      case None => l
      case Some(rec) =>
        var appended := l.records + [rec];
        if |appended| > Capacity then
          assert |l.records| <= Capacity ==> appended[1..] == LastN(appended, Capacity);
          l.(records := appended[1..])
        else l.(records := appended)
  }

  /** A detection's record as a run of length one, or none. */
  function OwnRecord(p: Processed, timestamp: string): (r: seq<LogRecord>)
    ensures |r| == 0 <==> RecordOf(p, timestamp).None?
    ensures |r| > 0 ==> r == [RecordOf(p, timestamp).value]
  {
    match RecordOf(p, timestamp)
    case None => []
    case Some(x) => [x]
  }

  /** The records a run of detections would store, oldest first. */
  function Records(ps: seq<Processed>, timestamp: string): (r: seq<LogRecord>)
    ensures |r| <= |ps|
  {
    if |ps| == 0 then [] else OwnRecord(ps[0], timestamp) + Records(ps[1..], timestamp)
  }

  /** The stored records are exactly the records the detections yield. */
  lemma {:induction false} RecordsMembers(ps: seq<Processed>, timestamp: string)
    ensures forall x :: x in Records(ps, timestamp) <==> exists i :: 0 <= i < |ps| && RecordOf(ps[i], timestamp) == Some(x)
    decreases |ps|
  {
    if |ps| > 0 {
      RecordsMembers(ps[1..], timestamp);
      assert forall i :: 1 <= i < |ps| ==> ps[i] == ps[1..][i - 1];
      forall x | exists i :: 0 <= i < |ps| && RecordOf(ps[i], timestamp) == Some(x)
        ensures x in Records(ps, timestamp)
      {
        var i :| 0 <= i < |ps| && RecordOf(ps[i], timestamp) == Some(x);
        if i > 0 {
          assert RecordOf(ps[1..][i - 1], timestamp) == Some(x);
        }
      }
    }
  }

  /** A single detection yields its own record when it has one and nothing otherwise. */
  lemma RecordsOne(p: Processed, timestamp: string)
    ensures Records([p], timestamp) == OwnRecord(p, timestamp)
  {
    assert [p][1..] == [];
  }

  /** The records of a run are those of its parts, in order. */
  lemma {:induction false} RecordsSplit(a: seq<Processed>, b: seq<Processed>, timestamp: string)
    ensures Records(a + b, timestamp) == Records(a, timestamp) + Records(b, timestamp)
    decreases |a|
  {
    if |a| == 0 {
      assert a + b == b;
    } else {
      var c := a + b;
      var head := OwnRecord(a[0], timestamp);
      assert c[0] == a[0] && c[1..] == a[1..] + b;
      RecordsSplit(a[1..], b, timestamp);
      assert Records(c, timestamp) == head + Records(a[1..] + b, timestamp);
      assert Records(a, timestamp) == head + Records(a[1..], timestamp);
    }
  }

  /** Logs each detection in turn. */
  function LogAll(l: Logger, ps: seq<Processed>, timestamp: string): (r: Logger)
    ensures r.initialized == l.initialized
    ensures !l.initialized ==> r == l
    ensures |l.records| <= Capacity ==> |r.records| <= Capacity
    decreases |ps|
  {
    if |ps| == 0 then l else LogAll(LogWarning(l, ps[0], timestamp), ps[1..], timestamp)
  }

  /** However many warnings are logged, the in-memory log is exactly the newest (at most)
      1000 of all records stored so far, in order. */
  lemma {:induction false} LogAllKeepsNewest(l: Logger, ps: seq<Processed>, timestamp: string)
    requires l.initialized && |l.records| <= Capacity
    ensures LogAll(l, ps, timestamp).records == LastN(l.records + Records(ps, timestamp), Capacity)
    decreases |ps|
  {
    if |ps| == 0 {
      assert l.records + Records(ps, timestamp) == l.records;
    } else {
      var l' := LogWarning(l, ps[0], timestamp);
      var rest := Records(ps[1..], timestamp);
      assert LogAll(l, ps, timestamp) == LogAll(l', ps[1..], timestamp);
      LogAllKeepsNewest(l', ps[1..], timestamp);
      match RecordOf(ps[0], timestamp)
      case None =>
        assert Records(ps, timestamp) == rest;
      case Some(x) =>
        assert Records(ps, timestamp) == [x] + rest;
        assert l'.records == Push(l.records, x, Capacity);
        PushAbsorbs(l.records, x, rest, Capacity);
    }
  }

  /** `logs[-limit:]`: for a positive limit the newest `limit` records (all of them when
      fewer); for a zero limit the whole log, since `-0` is `0`; for a negative limit
      the log without its first `-limit` records. */
  function GetWarningLogs(l: Logger, limit: int): (r: seq<LogRecord>)
    ensures |r| <= |l.records| && r == l.records[|l.records| - |r|..]
    ensures limit > 0 ==> |r| == if limit <= |l.records| then limit else |l.records|
    ensures limit == 0 ==> r == l.records
    ensures limit < 0 ==> |r| == if -limit <= |l.records| then |l.records| + limit else 0
  {
    var n := |l.records|;
    if limit > 0 then LastN(l.records, limit)
    else if limit == 0 then l.records
    else if -limit <= n then l.records[-limit..]
    else []
  }

  /** Empties the in-memory log; the logger itself stays. */
  function ClearLogs(l: Logger): (r: Logger)
    ensures |r.records| == 0 && r.initialized == l.initialized
  {
    l.(records := [])
  }
}
