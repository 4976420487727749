/**
 * The fast-travel detector: walks the adjacent record pairs of one session
 * and reports each pair whose implied travel speed exceeds a threshold.
 *
 * Pairs are taken in the order the session's records were bucketed. The
 * source sorts its frame by timestamp but then reads rows by their original
 * index label, so the sort has no effect on which records form a pair.
 * The elapsed time of a pair is the seconds component of the timedelta
 * t2 - t1, that is (t2 - t1) mod 86400, whole days being dropped.
 */
module FastTravel {
  import opened Wrappers
  import opened Records

  /**
   * Great-circle distance in kilometres between (lon1, lat1) and
   * (lon2, lat2), argument order as the haversine helper takes them.
   */
  type Distance = (real, real, real, real) -> real

  const SecondsPerDay := 86400
  const SecondsPerHour := 3600

  /** One flagged pair: session, pair positions, both uuids, km and km/h. */
  datatype FastTravelInstance = FastTravelInstance(
    sessionId: string,
    first: nat,
    second: nat,
    uuid1: Option<string>,
    uuid2: Option<string>,
    distance: real,
    speed: real)

  /** The seconds component of the timedelta t2 - t1: never negative, below one day. */
  function DeltaSeconds(t1: int, t2: int): (d: nat)
    ensures d < SecondsPerDay
    ensures (t2 - t1 - d) % SecondsPerDay == 0
  {
    (t2 - t1) % SecondsPerDay
  }

  /** The elapsed time of a pair in hours, as the source computes it. */
  function ElapsedHours(t1: int, t2: int): (h: real)
    ensures h == 0.0 <==> DeltaSeconds(t1, t2) == 0
    ensures 0.0 <= h < 24.0
  {
    DeltaSeconds(t1, t2) as real / SecondsPerHour as real
  }

  /** How many adjacent pairs the scan visits. */
  function PairCount(logs: seq<Record>): nat
  {
    if |logs| < 2 then 0 else |logs| - 1
  }

  function PairDistance(logs: seq<Record>, i: nat, dist: Distance): real
    requires i + 1 < |logs|
  {
    dist(logs[i].longitude, logs[i].latitude, logs[i + 1].longitude, logs[i + 1].latitude)
  }

  function PairHours(logs: seq<Record>, i: nat): real
    requires i + 1 < |logs|
  {
    ElapsedHours(logs[i].timestamp, logs[i + 1].timestamp)
  }

  /** The decision rule: a pair is flagged when time has passed and speed exceeds the threshold. */
  predicate Flagged(logs: seq<Record>, i: nat, threshold: real, dist: Distance)
    requires i + 1 < |logs|
  {
    PairHours(logs, i) != 0.0 && PairDistance(logs, i, dist) / PairHours(logs, i) > threshold
  }

  /** What the scan emits for pair (i, i + 1): nothing, or that pair's instance. */
  function PairFinding(sid: string, logs: seq<Record>, i: nat, threshold: real, dist: Distance)
    : seq<FastTravelInstance>
    requires i + 1 < |logs|
  {
    var distance := PairDistance(logs, i, dist);
    var hours := PairHours(logs, i);
    if hours == 0.0 then []
    else
      var speed := distance / hours;
      if speed > threshold then
        [FastTravelInstance(sid, i, i + 1, logs[i].uuid, logs[i + 1].uuid, distance, speed)]
      else []
  }

  /** The instances emitted for the first n pairs. */
  function Scan(sid: string, logs: seq<Record>, threshold: real, dist: Distance, n: nat)
    : seq<FastTravelInstance>
    requires n <= PairCount(logs)
  {
    if n == 0 then [] else Scan(sid, logs, threshold, dist, n - 1) + PairFinding(sid, logs, n - 1, threshold, dist)
  }

  /** Everything the detector reports for one session. */
  function FastTravelFindings(sid: string, logs: seq<Record>, threshold: real, dist: Distance)
    : seq<FastTravelInstance>
  {
    Scan(sid, logs, threshold, dist, PairCount(logs))
  }

  /** An instance describes a flagged adjacent pair of logs, with that pair's data. */
  ghost predicate Describes(f: FastTravelInstance, sid: string, logs: seq<Record>, threshold: real, dist: Distance)
  {
    && f.second == f.first + 1 && f.second < |logs|
    && f.sessionId == sid
    && f.uuid1 == logs[f.first].uuid && f.uuid2 == logs[f.second].uuid
    && Flagged(logs, f.first, threshold, dist)
    && f.distance == PairDistance(logs, f.first, dist)
    && f.speed == f.distance / PairHours(logs, f.first)
  }

  /** The first n pairs yield instances for flagged pairs only, in increasing pair order. */
  lemma {:induction false} ScanSound(sid: string, logs: seq<Record>, threshold: real, dist: Distance, n: nat)
    requires n <= PairCount(logs)
    ensures forall j :: 0 <= j < |Scan(sid, logs, threshold, dist, n)| ==>
                          var f := Scan(sid, logs, threshold, dist, n)[j];
                          f.first < n && Describes(f, sid, logs, threshold, dist)
    ensures forall j, k :: 0 <= j < k < |Scan(sid, logs, threshold, dist, n)| ==>
                             Scan(sid, logs, threshold, dist, n)[j].first < Scan(sid, logs, threshold, dist, n)[k].first
  {
    if n > 0 {
      ScanSound(sid, logs, threshold, dist, n - 1);
    }
  }

  /** Some instance of r is about pair (i, i + 1). */
  ghost predicate ReportsPair(r: seq<FastTravelInstance>, i: nat)
  {
    exists j :: 0 <= j < |r| && r[j].first == i
  }

  /** Among the first n pairs, a pair has an instance exactly when it is flagged. */
  lemma {:induction false} ScanComplete(sid: string, logs: seq<Record>, threshold: real, dist: Distance, n: nat, i: nat)
    requires n <= PairCount(logs) && i < n
    ensures ReportsPair(Scan(sid, logs, threshold, dist, n), i) <==> Flagged(logs, i, threshold, dist)
  {
    var prefix := Scan(sid, logs, threshold, dist, n - 1);
    var tail := PairFinding(sid, logs, n - 1, threshold, dist);
    var r := Scan(sid, logs, threshold, dist, n);
    assert r == prefix + tail;
    PairFindingFlagged(sid, logs, n - 1, threshold, dist);
    if i < n - 1 {
      ScanComplete(sid, logs, threshold, dist, n - 1, i);
      forall j | |prefix| <= j < |r|
        ensures r[j].first == n - 1
      {
        assert r[j] == tail[j - |prefix|];
        assert tail[j - |prefix|] in tail;
      }
      if ReportsPair(r, i) {
        var j :| 0 <= j < |r| && r[j].first == i;
        assert prefix[j].first == i;
      }
      if ReportsPair(prefix, i) {
        var j :| 0 <= j < |prefix| && prefix[j].first == i;
        assert r[j] == prefix[j];
      }
    } else {
      ScanSound(sid, logs, threshold, dist, n - 1);
      if Flagged(logs, i, threshold, dist) {
        assert r[|prefix|].first == i;
      } else {
        assert r == prefix;
      }
    }
  }

  /** The scan step emits an instance for a pair exactly when the pair is flagged. */
  lemma PairFindingFlagged(sid: string, logs: seq<Record>, i: nat, threshold: real, dist: Distance)
    requires i + 1 < |logs|
    ensures |PairFinding(sid, logs, i, threshold, dist)| == if Flagged(logs, i, threshold, dist) then 1 else 0
    ensures forall f :: f in PairFinding(sid, logs, i, threshold, dist) ==> f.first == i
  {
  }

  /**
   * Every reported instance is an adjacent pair (i, i + 1) inside the
   * session that is flagged and carries that pair's uuids, distance and
   * speed; instances come in strictly increasing pair order.
   */
  lemma FastTravelFindingsSound(sid: string, logs: seq<Record>, threshold: real, dist: Distance)
    ensures forall f :: f in FastTravelFindings(sid, logs, threshold, dist) ==>
                          f.first + 1 < |logs| && Describes(f, sid, logs, threshold, dist)
    ensures forall j, k :: 0 <= j < k < |FastTravelFindings(sid, logs, threshold, dist)| ==>
                             FastTravelFindings(sid, logs, threshold, dist)[j].first
                             < FastTravelFindings(sid, logs, threshold, dist)[k].first
  {
    ScanSound(sid, logs, threshold, dist, PairCount(logs));
  }

  /** Pair (i, i + 1) is reported exactly when time has passed and its speed strictly exceeds the threshold. */
  lemma FastTravelFlaggedIff(sid: string, logs: seq<Record>, threshold: real, dist: Distance, i: nat)
    requires i + 1 < |logs|
    ensures ReportsPair(FastTravelFindings(sid, logs, threshold, dist), i)
            <==> PairHours(logs, i) != 0.0 && PairDistance(logs, i, dist) / PairHours(logs, i) > threshold
  {
    ScanComplete(sid, logs, threshold, dist, PairCount(logs), i);
  }

  /**
   * A pair whose timestamps differ by a whole number of days, the same
   * instant included, is never reported, however far apart its locations.
   */
  lemma WholeDayPairNeverReported(sid: string, logs: seq<Record>, threshold: real, dist: Distance, i: nat, days: int)
    requires i + 1 < |logs|
    requires logs[i + 1].timestamp - logs[i].timestamp == days * SecondsPerDay
    ensures !ReportsPair(FastTravelFindings(sid, logs, threshold, dist), i)
  {
    assert DeltaSeconds(logs[i].timestamp, logs[i + 1].timestamp) == 0;
    FastTravelFlaggedIff(sid, logs, threshold, dist, i);
  }

  /**
   * Scans the adjacent pairs of one session's records and collects every
   * pair travelled faster than threshold km/h.
   */
  method AnalyzeSessionFastTravel(sid: string, logs: seq<Record>, threshold: real, dist: Distance)
    returns (instances: seq<FastTravelInstance>)
    ensures |logs| < 2 ==> instances == []
    ensures |instances| <= PairCount(logs)
    ensures instances == FastTravelFindings(sid, logs, threshold, dist)
  {
    instances := [];
    var i := 0;
    while i < |logs| - 1
      invariant 0 <= i <= PairCount(logs)
      invariant |instances| <= i
      invariant instances == Scan(sid, logs, threshold, dist, i)
    {
      var distance := PairDistance(logs, i, dist);
      var hours := PairHours(logs, i);
      if hours != 0.0 {
        var speed := distance / hours;
        if speed > threshold {
          instances := instances + [FastTravelInstance(sid, i, i + 1, logs[i].uuid, logs[i + 1].uuid, distance, speed)];
        }
      }
      i := i + 1;
    }
  }
}
