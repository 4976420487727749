/**
 * The session anomaly orchestrator: buckets the log, runs every per-session
 * detector on each bucket and returns the findings the analyzer reports,
 * as values instead of printed lines.
 */
module SessionAnalysis {
  import opened Wrappers
  import opened Records
  import opened SessionBucketing
  import opened FastTravel
  import opened HighFrequency

  const PushSendEvent := "system.push.send_factor_verify_push"
  const PushDenyEvent := "user.mfa.okta_verify.deny_push"
  const UnauthorizedAccessEvent := "app.generic.unauth_app_access_attempt"

  /** The three thresholds of a run. */
  datatype Config = Config(fastTravelThreshold: real, pushThreshold: int, unauthorizedAccessThreshold: int)

  /** The command-line defaults: 100 km/h, 3 pushes, 1 unauthorized access attempt. */
  const DefaultConfig := Config(100.0, 3, 1)

  /** The distinct user agents and IP addresses of a session that uses several of each. */
  datatype SharingFinding = SharingFinding(userAgents: set<Option<string>>, ipAddresses: set<Option<string>>)

  /** Push fatigue: how many pushes were sent and how many of them were denied. */
  datatype PushFatigue = PushFatigue(pushCount: nat, deniedCount: nat)

  /** Everything reported about one session. */
  datatype SessionReport = SessionReport(
    sessionId: string,
    sharing: Option<SharingFinding>,
    fastTravel: seq<FastTravelInstance>,
    pushFatigue: Option<PushFatigue>,
    unauthorizedAccess: Option<nat>)

  /** The distinct values a field takes over the records of a session. */
  function Distinct(logs: seq<Record>, field: Record -> Option<string>): set<Option<string>>
  {
    set r | r in logs :: field(r)
  }

  /** Two records of the session disagree on the field. */
  ghost predicate Varies(logs: seq<Record>, field: Record -> Option<string>)
  {
    exists i, j :: 0 <= i < |logs| && 0 <= j < |logs| && field(logs[i]) != field(logs[j])
  }

  /** A field has more than one distinct value exactly when two records disagree on it. */
  lemma SeveralDistinctIff(logs: seq<Record>, field: Record -> Option<string>)
    ensures |Distinct(logs, field)| > 1 <==> Varies(logs, field)
  {
    var d := Distinct(logs, field);
    if Varies(logs, field) {
      var i, j :| 0 <= i < |logs| && 0 <= j < |logs| && field(logs[i]) != field(logs[j]);
      assert logs[i] in logs && logs[j] in logs;
      var a, b := field(logs[i]), field(logs[j]);
      assert a in d && b in d;
      assert b in d - {a};
      assert |d - {a}| == |d| - 1;
    }
    if |d| > 1 {
      var a :| a in d;
      assert |d - {a}| == |d| - 1;
      var b :| b in d - {a};
      var x :| x in logs && field(x) == a;
      var y :| y in logs && field(y) == b;
      var i :| 0 <= i < |logs| && logs[i] == x;
      var j :| 0 <= j < |logs| && logs[j] == y;
      assert field(logs[i]) != field(logs[j]);
    }
  }

  /**
   * The decisions taken for one session, given the fast-travel instances
   * found for it: the multi-agent, multi-IP finding; push fatigue with its
   * denial count; unauthorized access attempts.
   */
  function SessionFindings(sid: string, logs: seq<Record>, fastTravel: seq<FastTravelInstance>, cfg: Config)
    : (r: SessionReport)
    ensures r.sessionId == sid && r.fastTravel == fastTravel
    ensures r.sharing.Some? <==> Varies(logs, UserAgentOf) && Varies(logs, IpAddressOf)
    ensures r.sharing.Some? ==>
              (forall a :: a in r.sharing.value.userAgents <==> exists x :: x in logs && x.userAgent == a) &&
              (forall a :: a in r.sharing.value.ipAddresses <==> exists x :: x in logs && x.ipAddress == a)
    ensures r.pushFatigue.Some? <==> CountEvent(logs, PushSendEvent) >= cfg.pushThreshold
    ensures r.pushFatigue.Some? ==>
              r.pushFatigue.value == PushFatigue(CountEvent(logs, PushSendEvent), CountEvent(logs, PushDenyEvent))
    ensures r.unauthorizedAccess.Some? <==> CountEvent(logs, UnauthorizedAccessEvent) >= cfg.unauthorizedAccessThreshold
    ensures r.unauthorizedAccess.Some? ==> r.unauthorizedAccess.value == CountEvent(logs, UnauthorizedAccessEvent)
  {
    var userAgents := Distinct(logs, UserAgentOf);
    var ipAddresses := Distinct(logs, IpAddressOf);
    SeveralDistinctIff(logs, UserAgentOf);
    SeveralDistinctIff(logs, IpAddressOf);
    var pushFatigue := DetectHighFrequencyEvent(sid, logs, PushSendEvent, cfg.pushThreshold);
    var denials := DetectHighFrequencyEvent(sid, logs, PushDenyEvent, 0);
    var unauthorized := DetectHighFrequencyEvent(sid, logs, UnauthorizedAccessEvent, cfg.unauthorizedAccessThreshold);
    assert denials[0] in denials;
    assert |pushFatigue| > 0 ==> pushFatigue[0] in pushFatigue;
    assert |unauthorized| > 0 ==> unauthorized[0] in unauthorized;
    SessionReport(
      sid,
      if |userAgents| > 1 && |ipAddresses| > 1 then Some(SharingFinding(userAgents, ipAddresses)) else None,
      fastTravel,
      if |pushFatigue| > 0 then Some(PushFatigue(pushFatigue[0].1, denials[0].1)) else None,
      if |unauthorized| > 0 then Some(unauthorized[0].1) else None)
  }

  /** The report of one bucketed session. */
  function AnalyzeSession(sid: string, logs: seq<Record>, cfg: Config, dist: Distance): SessionReport
  {
    SessionFindings(sid, logs, FastTravelFindings(sid, logs, cfg.fastTravelThreshold, dist), cfg)
  }

  /**
   * Buckets the log and analyzes every session, one report per session id;
   * a missing required column aborts the run before any session is analyzed.
   */
  method AnalyzeUserSessions(columns: set<string>, records: seq<Record>, cfg: Config, dist: Distance)
    returns (result: Result<map<string, SessionReport>, SchemaError>)
    ensures result.Failure? <==> Bucketed(columns, records).Failure?
    ensures result.Failure? ==> result.error == Bucketed(columns, records).error
    ensures result.Success? ==>
              && result.value.Keys == Buckets(records).Keys
              && forall k :: k in result.value ==> result.value[k] == AnalyzeSession(k, Buckets(records)[k], cfg, dist)
  {
    var bucketed := BucketSessions(columns, records);
    if bucketed.Failure? {
      return Failure(bucketed.error);
    }
    var sessions := bucketed.value;
    var reports: map<string, SessionReport> := map[];
    var pending := sessions.Keys;
    while pending != {}
      invariant pending <= sessions.Keys
      invariant reports.Keys == sessions.Keys - pending
      invariant forall k :: k in reports ==> reports[k] == AnalyzeSession(k, sessions[k], cfg, dist)
      decreases pending
    {
      var sid :| sid in pending;
      var logs := sessions[sid];
      var fastTravel := AnalyzeSessionFastTravel(sid, logs, cfg.fastTravelThreshold, dist);
      reports := reports[sid := SessionFindings(sid, logs, fastTravel, cfg)];
      pending := pending - {sid};
    }
    return Success(reports);
  }
}
