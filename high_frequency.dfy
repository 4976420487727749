/**
 * The high-frequency event detector: counts one event type within a
 * session and reports the count when it reaches a threshold.
 */
module HighFrequency {
  import opened Wrappers
  import opened Records
  import opened Filtering

  /** Selects the records whose event type is exactly eventType; a missing event type never matches. */
  function IsEvent(eventType: string): Record -> bool
  {
    (r: Record) => r.eventType == Some(eventType)
  }

  /** The number of records of the given event type. */
  function CountEvent(logs: seq<Record>, eventType: string): nat
  {
    |Filter(logs, IsEvent(eventType))|
  }

  /**
   * The count is the number of copies, in the log, of records carrying the
   * event type: every matching record is counted once, nothing else is.
   */
  lemma {:induction false} CountEventMatches(logs: seq<Record>, eventType: string)
    ensures CountEvent(logs, eventType) <= |logs|
    ensures CountEvent(logs, eventType) == 0 <==> forall r :: r in logs ==> r.eventType != Some(eventType)
    ensures CountEvent(logs, eventType) == |logs| <==> forall r :: r in logs ==> r.eventType == Some(eventType)
    decreases |logs|
  {
    if logs != [] {
      var init := logs[..|logs| - 1];
      var last := logs[|logs| - 1];
      assert logs == init + [last];
      CountEventMatches(init, eventType);
      assert forall r :: r in logs <==> r in init || r == last;
    }
  }

  /** Counting does not depend on the order of the records: sorting them first changes nothing. */
  lemma CountEventPermutation(a: seq<Record>, b: seq<Record>, eventType: string)
    requires multiset(a) == multiset(b)
    ensures CountEvent(a, eventType) == CountEvent(b, eventType)
  {
    FilterLengthUnderPermutation(a, b, IsEvent(eventType));
  }

  /** Counting a log split in two adds the counts of the parts. */
  lemma {:induction false} CountEventAppend(a: seq<Record>, b: seq<Record>, eventType: string)
    ensures CountEvent(a + b, eventType) == CountEvent(a, eventType) + CountEvent(b, eventType)
    decreases |b|
  {
    if b == [] {
      assert a + b == a;
    } else {
      var init := b[..|b| - 1];
      var last := b[|b| - 1];
      assert b == init + [last];
      assert a + b == (a + init) + [last];
      CountEventAppend(a, init, eventType);
      FilterSnoc(a + init, last, IsEvent(eventType));
      FilterSnoc(init, last, IsEvent(eventType));
    }
  }

  /**
   * The detector's result: one (session id, count) pair when the count
   * reaches the threshold (inclusive), no pair otherwise. A threshold of
   * zero or less always reports, so the first element can be read.
   */
  function DetectHighFrequencyEvent(sid: string, logs: seq<Record>, eventType: string, threshold: int)
    : (r: seq<(string, nat)>)
    ensures |r| <= 1
    ensures |r| == 1 <==> CountEvent(logs, eventType) >= threshold
    ensures threshold <= 0 ==> |r| == 1
    ensures forall p :: p in r ==> p.0 == sid && p.1 == CountEvent(logs, eventType)
  {
    var count := CountEvent(logs, eventType);
    if count >= threshold then [(sid, count)] else []
  }

  /** The detector's result is the same for every ordering of the session's records. */
  lemma DetectHighFrequencyEventPermutation(sid: string, a: seq<Record>, b: seq<Record>, eventType: string, threshold: int)
    requires multiset(a) == multiset(b)
    ensures DetectHighFrequencyEvent(sid, a, eventType, threshold) == DetectHighFrequencyEvent(sid, b, eventType, threshold)
  {
    CountEventPermutation(a, b, eventType);
  }
}
