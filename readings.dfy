/**
  Reading ingestion (server/api/readings.py, `Readings.put`): a probe posts a
  batch of (mapped service, reading name, value, timestamp) tuples; tuples of
  services that are not active for that probe are dropped, every other tuple
  appends one value to its reading, and the mapped service's status is
  re-evaluated against the thresholds of its service.

  The tables the handler touches are fields of `Readings`; `Tables` is their
  value at one moment and `IngestOne`/`IngestBatch` say what one tuple and a
  whole batch do to it.
 */
module ReadingsApi {
  import opened Wrappers
  import opened Entities
  import opened ThresholdMatcher

  /** A reading is identified by its mapped service and its name. */
  type ReadingKey = (int, string)

  datatype Tables = Tables(
    probes: map<string, int>,                          // probe name -> probe id
    services: map<int, int>,                           // probe service id -> probe id
    mapped: map<int, MappedService>,                   // mapped service id -> row
    thresholds: seq<ServiceThreshold>,
    readings: map<ReadingKey, seq<ReadingValue>>,      // reading -> its values, oldest first
    history: seq<StatusHistoryEntry>)

  /** The mapped services of a probe whose life-cycle status is `active`. */
  function ActiveIds(services: map<int, int>, mapped: map<int, MappedService>, probeId: int, active: int): (r: set<int>)
    ensures r <= mapped.Keys
  {
    set m | m in mapped && mapped[m].statusId == active
      && mapped[m].probeServiceId in services && services[mapped[m].probeServiceId] == probeId
  }

  /** The threshold rows of a mapped service's service, in ascending status id. */
  function RulesFor(thresholds: seq<ServiceThreshold>, mapped: map<int, MappedService>, m: int): seq<ServiceThreshold>
    requires m in mapped
  {
    QueryRules(thresholds, mapped[m].probeServiceId)
  }

  function ValuesAt(readings: map<ReadingKey, seq<ReadingValue>>, key: ReadingKey): seq<ReadingValue> {
    if key in readings then readings[key] else []
  }

  /** Sets the current status (and the time it was entered) and logs it. */
  function SetStatus(s: Tables, m: int, status: Option<int>, now: Timestamp): Tables
    requires m in s.mapped
  {
    s.(mapped := s.mapped[m := s.mapped[m].(currentStatus := status,
                                              currentStatusFrom := if status.Some? then Some(now) else None)],
       history := s.history + [StatusHistoryEntry(m, status, now)])
  }

  /** What one tuple of the batch does to the tables. */
  ghost function IngestOne(s: Tables, probeId: int, c: Consts, now: Timestamp, t: ReadingTuple): Tables {
    if t.service !in ActiveIds(s.services, s.mapped, probeId, c.active) then s
    else
      var key := (t.service, t.reading);
      var s1 := s.(readings := s.readings[key := ValuesAt(s.readings, key) + [ReadingValue(t.timestamp, t.value)]]);
      var current := s.mapped[t.service].currentStatus;
      var rules := RulesFor(s.thresholds, s.mapped, t.service);
      if rules != [] then
        var status := Evaluate(GroupByPattern(rules), t.reading, t.value, c.ok);
        if current != Some(status) then SetStatus(s1, t.service, Some(status), now) else s1
      else if current.Some? then SetStatus(s1, t.service, None, now)
      else s1
  }

  /** The tuples of a batch processed in order. */
  ghost function IngestBatch(s: Tables, probeId: int, c: Consts, now: Timestamp, batch: seq<ReadingTuple>): Tables {
    if batch == [] then s
    else IngestOne(IngestBatch(s, probeId, c, now, batch[..|batch| - 1]), probeId, c, now, batch[|batch| - 1])
  }

  /** Two versions of the mapped services that differ at most in their current status. */
  predicate SameShape(a: map<int, MappedService>, b: map<int, MappedService>) {
    && a.Keys == b.Keys
    && forall m :: m in a ==> b[m].probeServiceId == a[m].probeServiceId && b[m].statusId == a[m].statusId
  }

  /** Ingestion only touches readings, current statuses and history. */
  predicate Unshaped(s: Tables, s': Tables) {
    && s'.probes == s.probes
    && s'.services == s.services
    && s'.thresholds == s.thresholds
    && SameShape(s.mapped, s'.mapped)
  }

  lemma SameShapeActive(services: map<int, int>, a: map<int, MappedService>, b: map<int, MappedService>, probeId: int, active: int)
    requires SameShape(a, b)
    ensures ActiveIds(services, a, probeId, active) == ActiveIds(services, b, probeId, active)
    ensures forall m :: m in a ==> m in b
  {
    forall m ensures m in ActiveIds(services, a, probeId, active) <==> m in ActiveIds(services, b, probeId, active) {
      if m in a {
        assert m in b;
      }
    }
  }

  lemma SameShapeRules(thresholds: seq<ServiceThreshold>, a: map<int, MappedService>, b: map<int, MappedService>, m: int)
    requires SameShape(a, b) && m in a
    ensures m in b && RulesFor(thresholds, a, m) == RulesFor(thresholds, b, m)
  {
  }

  /**
    A tuple leaves the probe list, the services, the thresholds, the set of
    mapped services and their life-cycle statuses as they were, so the active
    set and the rules taken before the batch stay valid for every tuple.
   */
  lemma IngestOneShape(s: Tables, probeId: int, c: Consts, now: Timestamp, t: ReadingTuple)
    ensures Unshaped(s, IngestOne(s, probeId, c, now, t))
  {
    IngestOneEffect(s, probeId, c, now, t);
  }

  /**
    What one tuple changes, stated without the status it evaluates: an
    inactive service's tuple changes nothing; an active one appends its value
    to its reading, may append one history entry for its service and may
    change only its own service's current status.
   */
  lemma IngestOneEffect(s: Tables, probeId: int, c: Consts, now: Timestamp, t: ReadingTuple)
    ensures var s' := IngestOne(s, probeId, c, now, t);
      var key := (t.service, t.reading);
      && (t.service !in ActiveIds(s.services, s.mapped, probeId, c.active) ==> s' == s)
      && (t.service in ActiveIds(s.services, s.mapped, probeId, c.active) ==>
            && s'.readings == s.readings[key := ValuesAt(s.readings, key) + [ReadingValue(t.timestamp, t.value)]]
            && s.history <= s'.history && |s'.history| <= |s.history| + 1
            && (|s'.history| > |s.history| ==> s'.history[|s.history|].mappedServiceId == t.service)
            && s'.mapped.Keys == s.mapped.Keys
            && (forall m :: m in s.mapped && m != t.service ==> s'.mapped[m] == s.mapped[m])
            && s'.mapped[t.service] == s.mapped[t.service].(currentStatus := s'.mapped[t.service].currentStatus,
                                                            currentStatusFrom := s'.mapped[t.service].currentStatusFrom))
      && s'.probes == s.probes && s'.services == s.services && s'.thresholds == s.thresholds
  {
    if t.service in ActiveIds(s.services, s.mapped, probeId, c.active) {
      var key := (t.service, t.reading);
      var s1 := s.(readings := s.readings[key := ValuesAt(s.readings, key) + [ReadingValue(t.timestamp, t.value)]]);
      var current := s.mapped[t.service].currentStatus;
      var rules := RulesFor(s.thresholds, s.mapped, t.service);
      var status: Option<int> := if rules != [] then Some(Evaluate(GroupByPattern(rules), t.reading, t.value, c.ok)) else None;
      var s' := IngestOne(s, probeId, c, now, t);
      assert s' == if current != status then SetStatus(s1, t.service, status, now) else s1;
    }
  }

  lemma {:induction false} IngestBatchShape(s: Tables, probeId: int, c: Consts, now: Timestamp, batch: seq<ReadingTuple>)
    ensures Unshaped(s, IngestBatch(s, probeId, c, now, batch))
  {
    if batch != [] {
      var mid := IngestBatch(s, probeId, c, now, batch[..|batch| - 1]);
      IngestBatchShape(s, probeId, c, now, batch[..|batch| - 1]);
      IngestOneShape(mid, probeId, c, now, batch[|batch| - 1]);
    }
  }

  // ---------------------------------------------------------------------------
  // Properties of ingestion.

  /**
    One accepted tuple: the service's new status is the evaluated one when its
    service has threshold rows and "no status" otherwise; exactly one history
    entry carrying the new status is appended when the status changed, none
    when it did not; the time the status was entered becomes `now` on a change
    to a status, null on the change to no status, and stays otherwise; no other
    field of the service and no other mapped service changes.
   */
  lemma StatusTransition(s: Tables, probeId: int, c: Consts, now: Timestamp, t: ReadingTuple)
    requires t.service in ActiveIds(s.services, s.mapped, probeId, c.active)
    ensures var s' := IngestOne(s, probeId, c, now, t);
      var m := t.service;
      var rules := RulesFor(s.thresholds, s.mapped, m);
      && m in s'.mapped
      && s'.mapped[m].currentStatus ==
           (if rules != [] then Some(Evaluate(GroupByPattern(rules), t.reading, t.value, c.ok)) else None)
      && s'.history == s.history +
           (if s'.mapped[m].currentStatus != s.mapped[m].currentStatus
            then [StatusHistoryEntry(m, s'.mapped[m].currentStatus, now)] else [])
      && s'.mapped[m].currentStatusFrom ==
           (if s'.mapped[m].currentStatus == s.mapped[m].currentStatus then s.mapped[m].currentStatusFrom
            else if s'.mapped[m].currentStatus.Some? then Some(now) else None)
      && s'.mapped[m] == s.mapped[m].(currentStatus := s'.mapped[m].currentStatus,
                                      currentStatusFrom := s'.mapped[m].currentStatusFrom)
      && (forall m' :: m' in s.mapped && m' != m ==> s'.mapped[m'] == s.mapped[m'])
  {
  }

  /** The values a batch adds to one reading: those of its accepted tuples for that reading, in order. */
  function Appended(batch: seq<ReadingTuple>, active: set<int>, key: ReadingKey): (r: seq<ReadingValue>)
    ensures |r| <= |batch|
  {
    if batch == [] then []
    else
      var t := batch[|batch| - 1];
      var rest := Appended(batch[..|batch| - 1], active, key);
      if t.service in active && (t.service, t.reading) == key then rest + [ReadingValue(t.timestamp, t.value)] else rest
  }

  /**
    A reading keeps the values it had and gains one value per accepted tuple
    for it, in batch order; it exists afterwards exactly when it existed
    before or some accepted tuple named it, so it is created at most once.
   */
  lemma {:induction false} BatchReadingValues(s: Tables, probeId: int, c: Consts, now: Timestamp, batch: seq<ReadingTuple>, key: ReadingKey)
    ensures var s' := IngestBatch(s, probeId, c, now, batch);
      var added := Appended(batch, ActiveIds(s.services, s.mapped, probeId, c.active), key);
      && ValuesAt(s'.readings, key) == ValuesAt(s.readings, key) + added
      && (key in s'.readings <==> key in s.readings || added != [])
  {
    if batch != [] {
      var prefix := batch[..|batch| - 1];
      var mid := IngestBatch(s, probeId, c, now, prefix);
      BatchReadingValues(s, probeId, c, now, prefix, key);
      IngestBatchShape(s, probeId, c, now, prefix);
      SameShapeActive(s.services, s.mapped, mid.mapped, probeId, c.active);
      IngestOneEffect(mid, probeId, c, now, batch[|batch| - 1]);
      assert IngestBatch(s, probeId, c, now, batch) == IngestOne(mid, probeId, c, now, batch[|batch| - 1]);
    }
  }

  /**
    History is append-only, every entry a batch appends is for a service that
    was active, and a service that was not active keeps its row unchanged.
   */
  lemma {:induction false} BatchInactiveUntouched(s: Tables, probeId: int, c: Consts, now: Timestamp, batch: seq<ReadingTuple>)
    ensures var s' := IngestBatch(s, probeId, c, now, batch);
      var active := ActiveIds(s.services, s.mapped, probeId, c.active);
      && s.history <= s'.history
      && (forall i :: |s.history| <= i < |s'.history| ==> s'.history[i].mappedServiceId in active)
      && (forall m :: m in s.mapped && m !in active ==> m in s'.mapped && s'.mapped[m] == s.mapped[m])
  {
    if batch != [] {
      var prefix := batch[..|batch| - 1];
      var mid := IngestBatch(s, probeId, c, now, prefix);
      var t := batch[|batch| - 1];
      var active := ActiveIds(s.services, s.mapped, probeId, c.active);
      BatchInactiveUntouched(s, probeId, c, now, prefix);
      IngestBatchShape(s, probeId, c, now, prefix);
      SameShapeActive(s.services, s.mapped, mid.mapped, probeId, c.active);
      assert ActiveIds(mid.services, mid.mapped, probeId, c.active) == active;
      IngestOneEffect(mid, probeId, c, now, t);
      var s' := IngestOne(mid, probeId, c, now, t);
      assert IngestBatch(s, probeId, c, now, batch) == s';
      if t.service in active {
        HistoryExtends(s.history, mid.history, s'.history, active, t.service);
        forall m | m in s.mapped && m !in active ensures m in s'.mapped && s'.mapped[m] == s.mapped[m] {
          assert m != t.service && m in mid.mapped;
        }
      }
    }
  }

  /** Two appends to a history, each for active services only, make one. */
  lemma HistoryExtends(h0: seq<StatusHistoryEntry>, h1: seq<StatusHistoryEntry>, h2: seq<StatusHistoryEntry>,
                       active: set<int>, m: int)
    requires h0 <= h1 && forall i :: |h0| <= i < |h1| ==> h1[i].mappedServiceId in active
    requires h1 <= h2 && |h2| <= |h1| + 1 && (|h2| > |h1| ==> h2[|h1|].mappedServiceId == m) && m in active
    ensures h0 <= h2 && forall i :: |h0| <= i < |h2| ==> h2[i].mappedServiceId in active
  {
    forall i | |h0| <= i < |h2| ensures h2[i].mappedServiceId in active {
      if i < |h1| {
        assert h2[i] == h1[i];
      }
    }
  }

  /** The latest history entry of a mapped service, if it has any. */
  function LatestEntry(history: seq<StatusHistoryEntry>, m: int): (r: Option<StatusHistoryEntry>)
    ensures r.Some? ==> r.value in history && r.value.mappedServiceId == m
  {
    if history == [] then None
    else if history[|history| - 1].mappedServiceId == m then Some(history[|history| - 1])
    else LatestEntry(history[..|history| - 1], m)
  }

  /** A service row agrees with a history entry: same status, entered at the entry's time. */
  predicate Agrees(service: MappedService, e: StatusHistoryEntry) {
    && service.currentStatus == e.serviceStatusId
    && service.currentStatusFrom == if e.serviceStatusId.Some? then Some(e.timestamp) else None
  }

  /** Every mapped service with a history agrees with its latest entry. */
  predicate HistoryAgrees(s: Tables) {
    forall m :: m in s.mapped && LatestEntry(s.history, m).Some? ==> Agrees(s.mapped[m], LatestEntry(s.history, m).value)
  }

  /** Ingesting a tuple keeps every service in agreement with its latest history entry. */
  lemma IngestOneAgrees(s: Tables, probeId: int, c: Consts, now: Timestamp, t: ReadingTuple)
    requires HistoryAgrees(s)
    ensures HistoryAgrees(IngestOne(s, probeId, c, now, t))
  {
    var s' := IngestOne(s, probeId, c, now, t);
    forall m | m in s'.mapped && LatestEntry(s'.history, m).Some?
      ensures Agrees(s'.mapped[m], LatestEntry(s'.history, m).value)
    {
      if |s'.history| > |s.history| {
        assert s'.history[..|s'.history| - 1] == s.history;
      }
    }
  }

  lemma {:induction false} IngestBatchAgrees(s: Tables, probeId: int, c: Consts, now: Timestamp, batch: seq<ReadingTuple>)
    requires HistoryAgrees(s)
    ensures HistoryAgrees(IngestBatch(s, probeId, c, now, batch))
  {
    if batch != [] {
      IngestBatchAgrees(s, probeId, c, now, batch[..|batch| - 1]);
      IngestOneAgrees(IngestBatch(s, probeId, c, now, batch[..|batch| - 1]), probeId, c, now, batch[|batch| - 1]);
    }
  }

  // ---------------------------------------------------------------------------
  // The request handler.

  class Readings {
    var probes: map<string, int>
    var services: map<int, int>
    var mapped: map<int, MappedService>
    var thresholds: seq<ServiceThreshold>
    var readings: map<ReadingKey, seq<ReadingValue>>
    var history: seq<StatusHistoryEntry>

    ghost function State(): Tables
      reads this
    {
      Tables(probes, services, mapped, thresholds, readings, history)
    }

    constructor (tables: Tables)
      ensures State() == tables
    {
      probes := tables.probes;
      services := tables.services;
      mapped := tables.mapped;
      thresholds := tables.thresholds;
      readings := tables.readings;
      history := tables.history;
    }

    /**
      `thresholds_for_mapping`: for every active service addressed by the
      batch whose service has threshold rows, those rows grouped by pattern.
     */
    method ThresholdSnapshot(batch: seq<ReadingTuple>, activeIds: set<int>) returns (r: map<int, Groups>)
      requires activeIds <= mapped.Keys
      ensures forall m :: m in r <==>
        m in activeIds && (exists k :: 0 <= k < |batch| && batch[k].service == m) && RulesFor(thresholds, mapped, m) != []
      ensures forall m :: m in r ==> m in mapped && r[m] == GroupByPattern(RulesFor(thresholds, mapped, m))
    {
      r := map[];
      var i := 0;
      while i < |batch|
        invariant 0 <= i <= |batch|
        invariant forall m :: m in r <==>
          m in activeIds && (exists k :: 0 <= k < i && batch[k].service == m) && RulesFor(thresholds, mapped, m) != []
        invariant forall m :: m in r ==> m in mapped && r[m] == GroupByPattern(RulesFor(thresholds, mapped, m))
      {
        var m := batch[i].service;
        if m in activeIds {
          var rules := RulesFor(thresholds, mapped, m);
          if rules != [] {
            var groups := GroupRules(rules);
            r := r[m := groups];
          }
        }
        i := i + 1;
      }
    }

    /** One tuple of the batch, against the active set and the rules taken before the batch. */
    method IngestTuple(probeId: int, c: Consts, now: Timestamp, t: ReadingTuple, activeIds: set<int>, snapshot: map<int, Groups>)
      requires activeIds == ActiveIds(services, mapped, probeId, c.active)
      requires t.service in activeIds ==> (t.service in snapshot <==> RulesFor(thresholds, mapped, t.service) != [])
      requires t.service in snapshot && t.service in mapped ==>
        snapshot[t.service] == GroupByPattern(RulesFor(thresholds, mapped, t.service))
      modifies this
      ensures State() == IngestOne(old(State()), probeId, c, now, t)
    {
      if t.service !in activeIds {
        return;
      }
      var key := (t.service, t.reading);
      readings := readings[key := ValuesAt(readings, key) + [ReadingValue(t.timestamp, t.value)]];
      var service := mapped[t.service];
      if t.service in snapshot {
        var combined := CombineMatches(snapshot[t.service], t.reading);
        var status := ResolveStatus(combined, t.value, c.ok);
        if service.currentStatus != Some(status) {
          mapped := mapped[t.service := service.(currentStatus := Some(status), currentStatusFrom := Some(now))];
          history := history + [StatusHistoryEntry(t.service, Some(status), now)];
        }
      } else if service.currentStatus.Some? {
        mapped := mapped[t.service := service.(currentStatus := None, currentStatusFrom := None)];
        history := history + [StatusHistoryEntry(t.service, None, now)];
      }
    }

    /**
      `put`: an unknown probe name fails before anything is written (the
      transaction is rolled back); otherwise every tuple is ingested in order.
     */
    method Put(probeName: string, batch: seq<ReadingTuple>, c: Consts, now: Timestamp) returns (found: bool)
      modifies this
      ensures found == (probeName in old(probes))
      ensures State() == if found then IngestBatch(old(State()), old(probes)[probeName], c, now, batch) else old(State())
    {
      if probeName !in probes {
        return false;
      }
      found := true;
      var probeId := probes[probeName];
      var activeIds := ActiveIds(services, mapped, probeId, c.active);
      var snapshot := ThresholdSnapshot(batch, activeIds);
      ghost var start := State();
      var i := 0;
      while i < |batch|
        invariant 0 <= i <= |batch|
        invariant State() == IngestBatch(start, probeId, c, now, batch[..i])
        invariant Unshaped(start, State())
      {
        assert batch[..i + 1][..i] == batch[..i];
        SameShapeActive(services, start.mapped, mapped, probeId, c.active);
        if batch[i].service in snapshot {
          SameShapeRules(thresholds, start.mapped, mapped, batch[i].service);
        }
        if batch[i].service in activeIds {
          SameShapeRules(thresholds, start.mapped, mapped, batch[i].service);
        }
        IngestTuple(probeId, c, now, batch[i], activeIds, snapshot);
        IngestOneShape(IngestBatch(start, probeId, c, now, batch[..i]), probeId, c, now, batch[i]);
        i := i + 1;
      }
      assert batch[..i] == batch;
    }
  }
}
