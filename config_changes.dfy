/**
 * The IdP configuration-change detector: an independent pass over the whole
 * log, not bucketed by session, that reports every identity-provider
 * lifecycle event.
 */
module ConfigChanges {
  import opened Wrappers
  import opened Records
  import opened Filtering

  /** The five identity-provider lifecycle event types. */
  const IdpLifecycleEvents := [
    "system.idp.lifecycle.delete",
    "system.idp.lifecycle.create",
    "system.idp.lifecycle.update",
    "system.idp.lifecycle.deactivate",
    "system.idp.lifecycle.activate"
  ]

  /** The record's event type is one of the lifecycle events; a missing event type is not. */
  predicate IsIdpLifecycle(r: Record)
  {
    r.eventType.Some? && r.eventType.value in IdpLifecycleEvents
  }

  /** One reported change: the event's uuid, its display message and the IdP's display name. */
  datatype ConfigChange = ConfigChange(uuid: Option<string>, displayMessage: Option<string>, idpDisplayName: Option<string>)

  /**
   * The lifecycle events of the log: exactly its lifecycle records, every
   * copy of each, in the log's order, with no threshold.
   */
  function IdpConfigChangeEvents(records: seq<Record>): (r: seq<Record>)
    ensures forall x :: x in r ==> IsIdpLifecycle(x)
    ensures forall x :: multiset(r)[x] == if IsIdpLifecycle(x) then multiset(records)[x] else 0
    ensures IsSubsequence(r, records)
  {
    FilterMultiplicity(records, IsIdpLifecycle);
    FilterIsSubsequence(records, IsIdpLifecycle);
    Filter(records, IsIdpLifecycle)
  }

  /** One finding per lifecycle event, in the log's order, carrying that event's fields. */
  function AnalyzeIdpConfigChanges(records: seq<Record>): (r: seq<ConfigChange>)
    ensures |r| == |IdpConfigChangeEvents(records)|
    ensures forall i :: 0 <= i < |r| ==>
              var e := IdpConfigChangeEvents(records)[i];
              r[i] == ConfigChange(e.uuid, e.displayMessage, e.targetDisplayName)
  {
    var events := IdpConfigChangeEvents(records);
    seq(|events|, i requires 0 <= i < |events| => ConfigChange(events[i].uuid, events[i].displayMessage, events[i].targetDisplayName))
  }

  /** A log without lifecycle events yields no finding. */
  lemma NoLifecycleEventsNoFindings(records: seq<Record>)
    requires forall x :: x in records ==> !IsIdpLifecycle(x)
    ensures AnalyzeIdpConfigChanges(records) == []
  {
  }
}
