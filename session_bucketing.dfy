/**
 * The session bucketer: checks that the two required columns exist, drops
 * the records without a usable session id or country, and groups the rest
 * by session id, each group in the records' original order.
 */
module SessionBucketing {
  import opened Wrappers
  import opened Records
  import opened Filtering

  const SessionIdColumn := "authentication_context.external_session_id"
  const CountryColumn := "client.geographical_context.country"
  /** The columns checked, in the order they are checked. */
  const RequiredColumns := [SessionIdColumn, CountryColumn]
  /** The session id the log uses when it has none. */
  const UnknownSession := "unknown"

  /** The ValueError raised for the first required column the log lacks. */
  datatype SchemaError = MissingColumn(column: string)

  /** The position of the first column of required that columns lacks, if any. */
  function FirstMissingColumn(columns: set<string>, required: seq<string>): (r: Option<nat>)
    ensures r.None? <==> forall c :: c in required ==> c in columns
    ensures r.Some? ==> r.value < |required| && required[r.value] !in columns
    ensures r.Some? ==> forall i :: 0 <= i < r.value ==> required[i] in columns
  {
    if required == [] then None
    else if required[0] !in columns then Some(0)
    else match FirstMissingColumn(columns, required[1..])
      case None => None
      case Some(j) => Some(j + 1)
  }

  /** A record takes part in session analysis: it has a real session id and a country. */
  predicate Usable(r: Record)
  {
    && r.sessionId.Some? && r.sessionId.value != "" && r.sessionId.value != UnknownSession
    && r.country.Some? && r.country.value != ""
  }

  /** Selects the usable records of session k. */
  function InSession(k: string): Record -> bool
  {
    r => Usable(r) && r.sessionId == Some(k)
  }

  /** The session ids of the usable records. */
  function SessionIds(records: seq<Record>): set<string>
  {
    set r | r in records && Usable(r) :: r.sessionId.value
  }

  /** The grouping the bucketer produces: each session id to its usable records, in order. */
  function Buckets(records: seq<Record>): map<string, seq<Record>>
  {
    map k | k in SessionIds(records) :: Filter(records, InSession(k))
  }

  /** What bucketing returns: the schema error, or the grouping. */
  function Bucketed(columns: set<string>, records: seq<Record>): Result<map<string, seq<Record>>, SchemaError>
  {
    match FirstMissingColumn(columns, RequiredColumns)
    case Some(i) => Failure(MissingColumn(RequiredColumns[i]))
    case None => Success(Buckets(records))
  }

  /** A session id no usable record carries selects nothing. */
  lemma AbsentSessionSelectsNothing(s: seq<Record>, k: string)
    requires k !in SessionIds(s)
    ensures Filter(s, InSession(k)) == []
  {
  }

  /** The session ids after one more record. */
  lemma SessionIdsSnoc(s: seq<Record>, x: Record)
    ensures SessionIds(s + [x]) == SessionIds(s) + (if Usable(x) then {x.sessionId.value} else {})
  {
  }

  /** One more record extends session k's selection by that record exactly when it is a usable record of k. */
  lemma SessionSelectionSnoc(s: seq<Record>, x: Record, k: string)
    ensures Filter(s + [x], InSession(k)) ==
            Filter(s, InSession(k)) + (if Usable(x) && x.sessionId == Some(k) then [x] else [])
  {
    FilterSnoc(s, x, InSession(k));
  }

  /** A usable record is appended to its own session's bucket, which it creates if new. */
  lemma BucketsSnocKept(s: seq<Record>, x: Record)
    requires Usable(x)
    ensures var k := x.sessionId.value;
            Buckets(s + [x]) == Buckets(s)[k := (if k in Buckets(s) then Buckets(s)[k] else []) + [x]]
  {
    var b, b' := Buckets(s), Buckets(s + [x]);
    var k := x.sessionId.value;
    var bucket := if k in b then b[k] else [];
    assert bucket == Filter(s, InSession(k)) by {
      if k !in b {
        AbsentSessionSelectsNothing(s, k);
      }
    }
    var expected := b[k := bucket + [x]];
    assert b'.Keys == expected.Keys by {
      SessionIdsSnoc(s, x);
    }
    forall k' | k' in b'
      ensures b'[k'] == expected[k']
    {
      SessionSelectionSnoc(s, x, k');
    }
    SameMap(b', expected);
  }

  /** Maps with the same keys and the same value at every key are equal. */
  lemma SameMap(m: map<string, seq<Record>>, m': map<string, seq<Record>>)
    requires m.Keys == m'.Keys
    requires forall k :: k in m ==> m[k] == m'[k]
    ensures m == m'
  {
  }

  /** A record that is not usable leaves the grouping unchanged. */
  lemma BucketsSnocDropped(s: seq<Record>, x: Record)
    requires !Usable(x)
    ensures Buckets(s + [x]) == Buckets(s)
  {
    var b, b' := Buckets(s), Buckets(s + [x]);
    assert b'.Keys == b.Keys by {
      SessionIdsSnoc(s, x);
    }
    forall k' | k' in b'
      ensures b'[k'] == b[k']
    {
      SessionSelectionSnoc(s, x, k');
    }
    SameMap(b', b);
  }

  /** The grouping after one more record: a usable record is appended to its session's bucket. */
  lemma BucketsSnoc(s: seq<Record>, x: Record)
    ensures Buckets(s + [x]) ==
      if Usable(x) then
        var k := x.sessionId.value;
        Buckets(s)[k := (if k in Buckets(s) then Buckets(s)[k] else []) + [x]]
      else Buckets(s)
  {
    if Usable(x) {
      BucketsSnocKept(s, x);
    } else {
      BucketsSnocDropped(s, x);
    }
  }

  /**
   * Groups the records of the log by session id, after checking the schema.
   * Each record is appended to the list of its session, so every list keeps
   * the log's order.
   */
  method BucketSessions(columns: set<string>, records: seq<Record>)
    returns (result: Result<map<string, seq<Record>>, SchemaError>)
    ensures result.Failure? <==> SessionIdColumn !in columns || CountryColumn !in columns
    ensures result.Failure? ==>
      result.error == MissingColumn(if SessionIdColumn !in columns then SessionIdColumn else CountryColumn)
    ensures result == Bucketed(columns, records)
  {
    var missing := FirstMissingColumn(columns, RequiredColumns);
    if missing.Some? {
      assert missing.value == 0 || RequiredColumns[0] in columns;
      return Failure(MissingColumn(RequiredColumns[missing.value]));
    }
    assert SessionIdColumn in RequiredColumns && CountryColumn in RequiredColumns;
    var sessions: map<string, seq<Record>> := map[];
    var i := 0;
    while i < |records|
      invariant 0 <= i <= |records|
      invariant sessions == Buckets(records[..i])
    {
      var r := records[i];
      assert records[..i + 1] == records[..i] + [r];
      BucketsSnoc(records[..i], r);
      if Usable(r) {
        var sid := r.sessionId.value;
        var bucket := if sid in sessions then sessions[sid] else [];
        sessions := sessions[sid := bucket + [r]];
      }
      i := i + 1;
    }
    assert records[..i] == records;
    return Success(sessions);
  }

  /**
   * A record lies in a bucket exactly when it is usable, and then only in
   * the bucket keyed by its own session id.
   */
  lemma BucketMembership(records: seq<Record>, r: Record)
    requires r in records
    ensures (exists k :: k in Buckets(records) && r in Buckets(records)[k]) <==> Usable(r)
    ensures Usable(r) ==> r.sessionId.value in Buckets(records) && r in Buckets(records)[r.sessionId.value]
    ensures forall k :: k in Buckets(records) && r in Buckets(records)[k] ==> Usable(r) && r.sessionId == Some(k)
  {
    var b := Buckets(records);
    forall k | k in b
      ensures r in b[k] <==> Usable(r) && r.sessionId == Some(k)
    {
      FilterMembership(records, InSession(k), r);
    }
    if Usable(r) {
      var k := r.sessionId.value;
      assert k in SessionIds(records);
      FilterMembership(records, InSession(k), r);
    }
  }

  /** The keys are exactly the session ids of the kept records, and no bucket is empty. */
  lemma BucketKeys(records: seq<Record>)
    ensures forall k :: k in Buckets(records) <==> exists r :: r in records && Usable(r) && r.sessionId == Some(k)
    ensures forall k :: k in Buckets(records) ==> |Buckets(records)[k]| > 0
  {
    forall k | k in Buckets(records)
      ensures |Buckets(records)[k]| > 0
    {
      var r :| r in records && Usable(r) && r.sessionId.value == k;
      FilterMembership(records, InSession(k), r);
    }
  }

  /**
   * Each bucket holds every copy of every usable record of its session and
   * nothing else, in the log's order.
   */
  lemma BucketContents(records: seq<Record>, k: string)
    requires k in Buckets(records)
    ensures forall r :: multiset(Buckets(records)[k])[r] ==
                        if Usable(r) && r.sessionId == Some(k) then multiset(records)[r] else 0
    ensures IsSubsequence(Buckets(records)[k], records)
  {
    FilterMultiplicity(records, InSession(k));
    FilterIsSubsequence(records, InSession(k));
  }
}
