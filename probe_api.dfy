/**
  Probe registration on the server (server/api/probe.py): `Probes.put`
  reconciles what a probe reports about its plugins with what is stored for
  it, and `Probe.get` lists what is stored.

  The stored rows of one probe are its services, each holding its options
  and thresholds; the mapped services and their option values are the
  tables the two bulk status updates touch. Identifiers of rows created in
  this request are absent (None) until the session is flushed.
 */
module ProbeApi {
  import opened Wrappers
  import opened Dicts
  import opened Entities

  // ---------------------------------------------------------------------------
  // Stored rows.

  datatype StoredOption = StoredOption(
    id: Option<int>,
    identifier: string,
    name: string,
    description: string,
    dataType: string,
    required: bool)

  datatype StoredThreshold = StoredThreshold(
    statusId: int,
    reading: string,
    min: Option<int>,
    max: Option<int>,
    source: ThresholdSource)

  /** A `probe_services` row with its options and thresholds; `deleted` is null until first set. */
  datatype StoredService = StoredService(
    id: Option<int>,
    name: string,
    description: string,
    deleted: Option<bool>,
    options: seq<StoredOption>,
    thresholds: seq<StoredThreshold>)

  // ---------------------------------------------------------------------------
  // The reported configuration (absent JSON keys are None).

  datatype ReportedOption = ReportedOption(
    identifier: string,
    name: Option<string>,
    description: Option<string>,
    typ: Option<string>,
    required: Option<bool>)

  datatype ReportedThreshold = ReportedThreshold(status: string, min: Option<int>, max: Option<int>)

  datatype ReportedService = ReportedService(
    name: string,
    description: Option<string>,
    options: seq<ReportedOption>,
    thresholds: Dict<string, ReportedThreshold>)

  datatype ProbeReport = ProbeReport(name: string, services: seq<ReportedService>)

  /** Python truthiness of a row identifier: present and not 0. */
  predicate Truthy(id: Option<int>) {
    id.Some? && id.value != 0
  }

  // ---------------------------------------------------------------------------
  // Options.

  /** A reported option that is not stored yet, with the defaults for what it leaves out. */
  function NewOptionRow(o: ReportedOption): (r: StoredOption)
    ensures r.id.None? && r.identifier == o.identifier
    ensures r.name == (if o.name.Some? then o.name.value else o.identifier)
    ensures r.description == (if o.description.Some? then o.description.value else "")
    ensures r.dataType == (if o.typ.Some? then o.typ.value else "string")
    ensures r.required == (o.required == Some(true))
  {
    StoredOption(None, o.identifier, o.name.GetOr(o.identifier), o.description.GetOr(""), o.typ.GetOr("string"), o.required.GetOr(false))
  }

  /** A stored option overwritten by a report: every attribute is replaced, reported or default. */
  function Overwrite(stored: StoredOption, o: ReportedOption): (r: StoredOption)
    requires stored.identifier == o.identifier
    ensures r.id == stored.id
    ensures r == NewOptionRow(o).(id := stored.id)
  {
    stored.(name := o.name.GetOr(o.identifier), description := o.description.GetOr(""),
            dataType := o.typ.GetOr("string"), required := o.required.GetOr(false))
  }

  /** `options_by_identifier`: the position of the last stored option with each identifier. */
  function IdentifierIndex(options: seq<StoredOption>): (known: map<string, nat>)
    ensures forall k :: k in known ==> known[k] < |options| && options[known[k]].identifier == k
    ensures forall i :: 0 <= i < |options| ==> options[i].identifier in known
  {
    if options == [] then map[]
    else
      var n := |options| - 1;
      IdentifierIndex(options[..n])[options[n].identifier := n]
  }

  /** The options being synchronised, whether a new required option appeared, and the ids that became required. */
  datatype OptionSync = OptionSync(options: seq<StoredOption>, newRequired: bool, requiredIds: seq<Option<int>>)

  predicate IndexFits(known: map<string, nat>, options: seq<StoredOption>) {
    forall k :: k in known ==> known[k] < |options| && options[known[k]].identifier == k
  }

  /** One reported option: created if its identifier was not stored, overwritten otherwise. */
  function SyncOption(acc: OptionSync, known: map<string, nat>, serviceStored: bool, o: ReportedOption): OptionSync
    requires IndexFits(known, acc.options)
  {
    if o.identifier !in known then
      var row := NewOptionRow(o);
      OptionSync(acc.options + [row], acc.newRequired || (row.required && serviceStored), acc.requiredIds)
    else
      var i := known[o.identifier];
      var row := Overwrite(acc.options[i], o);
      OptionSync(acc.options[i := row], acc.newRequired,
                 if row.required && serviceStored then acc.requiredIds + [row.id] else acc.requiredIds)
  }

  function SyncOptions(start: OptionSync, known: map<string, nat>, serviceStored: bool, reported: seq<ReportedOption>): (r: OptionSync)
    requires IndexFits(known, start.options)
    ensures IndexFits(known, r.options) && |r.options| >= |start.options|
  {
    if reported == [] then start
    else
      var acc := SyncOptions(start, known, serviceStored, reported[..|reported| - 1]);
      SyncOption(acc, known, serviceStored, reported[|reported| - 1])
  }

  function Identifiers(reported: seq<ReportedOption>): seq<string> {
    seq(|reported|, i requires 0 <= i < |reported| => reported[i].identifier)
  }

  /** The option the identifier index points at is deleted when the report does not name it. */
  predicate Deleted(options: seq<StoredOption>, i: int, known: map<string, nat>, reported: seq<string>)
    requires 0 <= i < |options|
  {
    var k := options[i].identifier;
    k in known && known[k] == i && k !in reported
  }

  /** The options left after the deletion loop, in order. */
  function DeleteUnreported(options: seq<StoredOption>, known: map<string, nat>, reported: seq<string>): seq<StoredOption> {
    if options == [] then []
    else
      var n := |options| - 1;
      var kept := DeleteUnreported(options[..n], known, reported);
      if Deleted(options, n, known, reported) then kept else kept + [options[n]]
  }

  // ---------------------------------------------------------------------------
  // Thresholds.

  /** The first of the first n stored thresholds for this reading pattern and status. */
  function FirstMatch(ths: seq<StoredThreshold>, n: nat, reading: string, statusId: int): (r: Option<nat>)
    requires n <= |ths|
    ensures r.Some? ==> r.value < n && ths[r.value].reading == reading && ths[r.value].statusId == statusId
    ensures r.Some? ==> forall j :: 0 <= j < r.value ==> !(ths[j].reading == reading && ths[j].statusId == statusId)
    ensures r.None? ==> forall j :: 0 <= j < n ==> !(ths[j].reading == reading && ths[j].statusId == statusId)
  {
    if n == 0 then None
    else
      match FirstMatch(ths, n - 1, reading, statusId)
      case Some(j) => Some(j)
      case None => if ths[n - 1].reading == reading && ths[n - 1].statusId == statusId then Some(n - 1) else None
  }

  /**
    One reported (pattern, limits) pair: a matching stored threshold takes the
    new bounds only when the service set it; without a match a new one is added.
   */
  function SyncThreshold(ths: seq<StoredThreshold>, known: nat, statusIds: map<string, int>,
                         reading: string, limits: ReportedThreshold): seq<StoredThreshold>
    requires known <= |ths| && limits.status in statusIds
  {
    var sid := statusIds[limits.status];
    match FirstMatch(ths, known, reading, sid)
    case None => ths + [StoredThreshold(sid, reading, limits.min, limits.max, FromService)]
    case Some(j) =>
      if ths[j].source == FromService then ths[j := ths[j].(min := limits.min, max := limits.max)] else ths
  }

  predicate StatusesKnown(reported: Dict<string, ReportedThreshold>, statusIds: map<string, int>) {
    forall i :: 0 <= i < |reported| ==> reported[i].1.status in statusIds
  }

  function SyncThresholds(ths: seq<StoredThreshold>, known: nat, statusIds: map<string, int>,
                          reported: Dict<string, ReportedThreshold>): (r: seq<StoredThreshold>)
    requires known <= |ths| && StatusesKnown(reported, statusIds)
    ensures |r| >= |ths|
  {
    if reported == [] then ths
    else
      var n := |reported| - 1;
      SyncThreshold(SyncThresholds(ths, known, statusIds, reported[..n]), known, statusIds, reported[n].0, reported[n].1)
  }

  // ---------------------------------------------------------------------------
  // Status updates of mapped services.

  function SetError(m: MappedService, error: int, cause: int): MappedService {
    m.(statusId := error, errorCauseId := Some(cause))
  }

  /** The first UPDATE: every mapped service of the service. */
  function MarkService(mapped: map<int, MappedService>, serviceId: Option<int>, error: int, cause: int): map<int, MappedService> {
    map m | m in mapped :: if serviceId.Some? && mapped[m].probeServiceId == serviceId.value then SetError(mapped[m], error, cause) else mapped[m]
  }

  /** The mapped service stores a value for one of the given options. */
  predicate HasValueFor(values: seq<MappedServiceOption>, m: int, optionIds: seq<Option<int>>) {
    exists i :: 0 <= i < |values| && values[i].mappedServiceId == m && Some(values[i].optionId) in optionIds
  }

  /**
    The second UPDATE as written: every mapped service, of any service,
    that stores a value for none of the options that are now required.
   */
  function MarkMissingAsWritten(mapped: map<int, MappedService>, values: seq<MappedServiceOption>,
                                requiredIds: seq<Option<int>>, error: int, cause: int): map<int, MappedService> {
    map m | m in mapped :: if !HasValueFor(values, m, requiredIds) then SetError(mapped[m], error, cause) else mapped[m]
  }

  /** The mapped service lacks a value for at least one of the options. */
  predicate MissesSome(values: seq<MappedServiceOption>, m: int, optionIds: seq<Option<int>>) {
    exists k :: 0 <= k < |optionIds| && !HasValueFor(values, m, [optionIds[k]])
  }

  /**
    The second UPDATE as intended: the mapped services of this service that
    lack a value for some option that is now required.
   */
  function MarkMissing(mapped: map<int, MappedService>, values: seq<MappedServiceOption>, serviceId: Option<int>,
                       requiredIds: seq<Option<int>>, error: int, cause: int): (marked: map<int, MappedService>)
    ensures marked.Keys == mapped.Keys
    ensures forall m :: m in mapped && (serviceId.None? || mapped[m].probeServiceId != serviceId.value) ==> marked[m] == mapped[m]
    ensures forall m :: m in mapped && !MissesSome(values, m, requiredIds) ==> marked[m] == mapped[m]
  {
    map m | m in mapped ::
      if serviceId.Some? && mapped[m].probeServiceId == serviceId.value && MissesSome(values, m, requiredIds)
      then SetError(mapped[m], error, cause) else mapped[m]
  }

  // ---------------------------------------------------------------------------
  // One reported service.

  /** The loop state over reported services. */
  datatype Sync = Sync(
    services: seq<StoredService>,
    byName: map<string, nat>,
    mapped: map<int, MappedService>)

  predicate NamesFit(byName: map<string, nat>, services: seq<StoredService>) {
    forall k :: k in byName ==> byName[k] < |services| && services[byName[k]].name == k
  }

  /** `services_by_name`: the position of the last stored service with each name. */
  function NameIndex(services: seq<StoredService>): (byName: map<string, nat>)
    ensures NamesFit(byName, services)
    ensures forall i :: 0 <= i < |services| ==> services[i].name in byName
  {
    if services == [] then map[]
    else
      var n := |services| - 1;
      NameIndex(services[..n])[services[n].name := n]
  }

  /** A reported service: created when its name is unknown, otherwise re-described and undeleted. */
  function Register(services: seq<StoredService>, byName: map<string, nat>, r: ReportedService): (p: (seq<StoredService>, nat))
    requires NamesFit(byName, services)
    ensures p.1 < |p.0| == (if r.name in byName then |services| else |services| + 1)
    ensures p.0[p.1].name == r.name
  {
    if r.name !in byName then
      (services + [StoredService(None, r.name, r.description.GetOr(""), None, [], [])], |services|)
    else
      var i := byName[r.name];
      (services[i := services[i].(description := r.description.GetOr(""), deleted := Some(false))], i)
  }

  /** What one reported service does: options, the status updates, option deletion, thresholds. */
  function ServiceStep(s: Sync, values: seq<MappedServiceOption>, statusIds: map<string, int>, c: Consts,
                       r: ReportedService): (t: Sync)
    requires NamesFit(s.byName, s.services) && StatusesKnown(r.thresholds, statusIds)
    ensures NamesFit(t.byName, t.services)
  {
    var (services, idx) := Register(s.services, s.byName, r);
    var svc := services[idx];
    var known := IdentifierIndex(svc.options);
    var sync := SyncOptions(OptionSync(svc.options, false, []), known, Truthy(svc.id), r.options);
    var mapped :=
      if sync.newRequired || svc.deleted == Some(true) then
        MarkService(s.mapped, svc.id, c.error, if sync.newRequired then c.missingRequiredOption else c.serviceUnavailable)
      else if sync.requiredIds != [] then
        MarkMissing(s.mapped, values, svc.id, sync.requiredIds, c.error, c.missingRequiredOption)
      else s.mapped;
    var options := DeleteUnreported(sync.options, known, Identifiers(r.options));
    var thresholds := SyncThresholds(svc.thresholds, |svc.thresholds|, statusIds, r.thresholds);
    Sync(services[idx := svc.(options := options, thresholds := thresholds)], s.byName[r.name := idx], mapped)
  }

  /** `reported_services_names`: the names of the reported services, in order. */
  function ReportedNames(rs: seq<ReportedService>): seq<string> {
    if rs == [] then [] else ReportedNames(rs[..|rs| - 1]) + [rs[|rs| - 1].name]
  }

  /** A name is reported exactly when some reported service carries it. */
  lemma {:induction false} ReportedNamesHas(rs: seq<ReportedService>, k: string)
    ensures k in ReportedNames(rs) <==> exists i :: 0 <= i < |rs| && rs[i].name == k
  {
    if rs != [] {
      var n := |rs| - 1;
      ReportedNamesHas(rs[..n], k);
      if k in ReportedNames(rs[..n]) {
        var i :| 0 <= i < n && rs[..n][i].name == k;
        assert rs[i].name == k;
      }
      if exists i :: 0 <= i < |rs| && rs[i].name == k {
        var i :| 0 <= i < |rs| && rs[i].name == k;
        if i < n { assert rs[..n][i].name == k; }
      }
    }
  }

  predicate ReportStatusesKnown(rs: seq<ReportedService>, statusIds: map<string, int>) {
    forall i :: 0 <= i < |rs| ==> StatusesKnown(rs[i].thresholds, statusIds)
  }

  function ServiceSteps(s: Sync, values: seq<MappedServiceOption>, statusIds: map<string, int>, c: Consts,
                        rs: seq<ReportedService>): (t: Sync)
    requires NamesFit(s.byName, s.services) && ReportStatusesKnown(rs, statusIds)
    ensures NamesFit(t.byName, t.services)
  {
    if rs == [] then s
    else
      var n := |rs| - 1;
      ServiceStep(ServiceSteps(s, values, statusIds, c, rs[..n]), values, statusIds, c, rs[n])
  }

  /** The final loop: services the report does not name are flagged deleted, never removed. */
  function MarkUnreported(services: seq<StoredService>, byName: map<string, nat>, reported: seq<string>): (r: seq<StoredService>)
    ensures |r| == |services|
  {
    seq(|services|, i requires 0 <= i < |services| =>
      var k := services[i].name;
      if k in byName && byName[k] == i && k !in reported then services[i].(deleted := Some(true)) else services[i])
  }

  // ---------------------------------------------------------------------------
  // The whole request.

  datatype Store = Store(
    probes: map<string, seq<StoredService>>,
    mapped: map<int, MappedService>,
    values: seq<MappedServiceOption>)

  /**
    Why `Probes.put` fails: the probe is not registered, or a reported
    threshold names a service status the status table does not hold (the
    KeyError of `const.service_status[limits["status"]]`, after which the
    session rolls back).
   */
  datatype PutError = UnknownProbe | UnknownStatus

  /**
    `Probes.put`: an unknown probe, or a threshold with an unknown status,
    fails and changes nothing.
   */
  function PutProbe(store: Store, statusIds: map<string, int>, c: Consts, report: ProbeReport): (r: Result<Store, PutError>)
    ensures r.Ok? <==> report.name in store.probes && ReportStatusesKnown(report.services, statusIds)
    ensures r.Err? ==> r.error == (if report.name !in store.probes then UnknownProbe else UnknownStatus)
    ensures r.Ok? ==> r.value.values == store.values && r.value.probes.Keys == store.probes.Keys
    ensures r.Ok? ==> forall p :: p in store.probes && p != report.name ==> r.value.probes[p] == store.probes[p]
  {
    if report.name !in store.probes then Err(UnknownProbe)
    else if !ReportStatusesKnown(report.services, statusIds) then Err(UnknownStatus)
    else
      var services := store.probes[report.name];
      var start := Sync(services, NameIndex(services), store.mapped);
      var t := ServiceSteps(start, store.values, statusIds, c, report.services);
      Ok(store.(probes := store.probes[report.name := MarkUnreported(t.services, t.byName, ReportedNames(report.services))],
                mapped := t.mapped))
  }

  // ---------------------------------------------------------------------------
  // What a reconciliation promises.

  /**
    An unknown service is appended with the reported description (default "")
    and nothing else; a known one keeps its place and only its description
    and deleted flag change, the flag to false.
   */
  lemma RegisterSpec(services: seq<StoredService>, byName: map<string, nat>, r: ReportedService)
    requires NamesFit(byName, services)
    ensures var (after, idx) := Register(services, byName, r);
      && (forall i :: 0 <= i < |services| && i != idx ==> after[i] == services[i])
      && after[idx].description == r.description.GetOr("")
      && (r.name !in byName ==> idx == |services| && after[idx] == StoredService(None, r.name, after[idx].description, None, [], []))
      && (r.name in byName ==>
            idx == byName[r.name] && after[idx] == services[idx].(description := after[idx].description, deleted := Some(false)))
  {
  }

  /** A stored option keeps its identity while reported options are applied. */
  lemma {:induction false} SyncOptionsKeepsRows(start: OptionSync, known: map<string, nat>, serviceStored: bool,
                                                reported: seq<ReportedOption>)
    requires IndexFits(known, start.options)
    ensures var r := SyncOptions(start, known, serviceStored, reported);
      forall i :: 0 <= i < |start.options| ==>
        r.options[i].identifier == start.options[i].identifier && r.options[i].id == start.options[i].id
  {
    if reported != [] {
      var n := |reported| - 1;
      SyncOptionsKeepsRows(start, known, serviceStored, reported[..n]);
      SyncOptionStable(SyncOptions(start, known, serviceStored, reported[..n]), known, serviceStored, reported[n]);
    }
  }

  /** Every reported identifier has an option. */
  predicate Covers(options: seq<StoredOption>, reported: seq<ReportedOption>) {
    forall k :: 0 <= k < |reported| ==> exists j :: 0 <= j < |options| && options[j].identifier == reported[k].identifier
  }

  lemma {:induction false} SyncOptionsCovers(start: OptionSync, known: map<string, nat>, serviceStored: bool,
                                             reported: seq<ReportedOption>)
    requires IndexFits(known, start.options)
    ensures Covers(SyncOptions(start, known, serviceStored, reported).options, reported)
  {
    if reported != [] {
      var n := |reported| - 1;
      var acc := SyncOptions(start, known, serviceStored, reported[..n]);
      var r := SyncOptions(start, known, serviceStored, reported);
      SyncOptionsCovers(start, known, serviceStored, reported[..n]);
      SyncOptionStable(acc, known, serviceStored, reported[n]);
      forall k | 0 <= k < |reported|
        ensures exists j :: 0 <= j < |r.options| && r.options[j].identifier == reported[k].identifier
      {
        if k < n {
          assert reported[..n][k] == reported[k];
          var j :| 0 <= j < |acc.options| && acc.options[j].identifier == reported[k].identifier;
          assert r.options[j].identifier == reported[k].identifier;
        } else if reported[n].identifier in known {
          var i := known[reported[n].identifier];
          assert i < |acc.options| && acc.options[i].identifier == reported[n].identifier;
          assert r.options[i] == Overwrite(acc.options[i], reported[n]);
        } else {
          assert r.options[|acc.options|].identifier == reported[k].identifier;
        }
      }
    }
  }

  /** One reported option keeps every existing row's identifier and may only append. */
  lemma SyncOptionStable(acc: OptionSync, known: map<string, nat>, serviceStored: bool, o: ReportedOption)
    requires IndexFits(known, acc.options)
    ensures var r := SyncOption(acc, known, serviceStored, o);
      && |r.options| >= |acc.options|
      && (forall i :: 0 <= i < |acc.options| ==> r.options[i].identifier == acc.options[i].identifier && r.options[i].id == acc.options[i].id)
      && (o.identifier !in known ==> r.options == acc.options + [NewOptionRow(o)])
      && (o.identifier in known ==> r.options == acc.options[known[o.identifier] := Overwrite(acc.options[known[o.identifier]], o)])
  {
  }

  /**
    On a service that is already stored, a reported option that was not
    stored and is required raises the new-required flag.
   */
  lemma {:induction false} NewRequiredDetected(start: OptionSync, known: map<string, nat>, reported: seq<ReportedOption>, k: nat)
    requires IndexFits(known, start.options)
    requires k < |reported| && reported[k].identifier !in known && reported[k].required == Some(true)
    ensures SyncOptions(start, known, true, reported).newRequired
  {
    var n := |reported| - 1;
    if k < n {
      assert reported[..n][k] == reported[k];
      NewRequiredDetected(start, known, reported[..n], k);
    }
  }

  /** The deletion loop removes exactly the options it finds unreported, and keeps the order of the rest. */
  lemma {:induction false} DeleteUnreportedSpec(options: seq<StoredOption>, known: map<string, nat>, reported: seq<string>)
    ensures var r := DeleteUnreported(options, known, reported);
      && (forall i :: 0 <= i < |options| && !Deleted(options, i, known, reported) ==> options[i] in r)
      && (forall o :: o in r ==> exists i :: 0 <= i < |options| && options[i] == o && !Deleted(options, i, known, reported))
      && (forall o :: o in r ==> o.identifier in reported || o.identifier !in known || exists i :: 0 <= i < |options| && options[i] == o && known[o.identifier] != i)
  {
    if options != [] {
      var n := |options| - 1;
      var prefix := options[..n];
      DeleteUnreportedSpec(prefix, known, reported);
      var kept := DeleteUnreported(prefix, known, reported);
      var r := DeleteUnreported(options, known, reported);
      forall i | 0 <= i < |options| && !Deleted(options, i, known, reported)
        ensures options[i] in r
      {
        if i < n {
          assert prefix[i] == options[i];
          assert !Deleted(prefix, i, known, reported);
        }
      }
      forall o | o in r
        ensures exists i :: 0 <= i < |options| && options[i] == o && !Deleted(options, i, known, reported)
      {
        if o in kept {
          var i :| 0 <= i < |prefix| && prefix[i] == o && !Deleted(prefix, i, known, reported);
          assert options[i] == o && !Deleted(options, i, known, reported);
        } else {
          assert options[n] == o;
        }
      }
    }
  }

  /** A reported identifier is never deleted. */
  lemma ReportedNeverDeleted(options: seq<StoredOption>, known: map<string, nat>, reported: seq<string>, i: nat)
    requires i < |options| && options[i].identifier in reported
    ensures options[i] in DeleteUnreported(options, known, reported)
  {
    DeleteUnreportedSpec(options, known, reported);
  }

  /** No entry of the report names this pattern with this status. */
  predicate Unreported(reported: Dict<string, ReportedThreshold>, statusIds: map<string, int>, reading: string, statusId: int)
    requires StatusesKnown(reported, statusIds)
  {
    forall i :: 0 <= i < |reported| ==> !(reported[i].0 == reading && statusIds[reported[i].1.status] == statusId)
  }

  /**
    Stored thresholds keep their pattern, status and source; a threshold set by
    configuration is never changed, and one the report does not name is kept
    as it was. Only a service-set threshold the report names takes new bounds.
   */
  lemma {:induction false} SyncThresholdsStored(ths: seq<StoredThreshold>, statusIds: map<string, int>,
                                                reported: Dict<string, ReportedThreshold>)
    requires StatusesKnown(reported, statusIds)
    ensures var r := SyncThresholds(ths, |ths|, statusIds, reported);
      forall j :: 0 <= j < |ths| ==>
        && r[j].reading == ths[j].reading && r[j].statusId == ths[j].statusId && r[j].source == ths[j].source
        && (ths[j].source == FromConfiguration ==> r[j] == ths[j])
        && (Unreported(reported, statusIds, ths[j].reading, ths[j].statusId) ==> r[j] == ths[j])
  {
    if reported != [] {
      var n := |reported| - 1;
      var prefix := reported[..n];
      assert StatusesKnown(prefix, statusIds);
      SyncThresholdsStored(ths, statusIds, prefix);
      forall j | 0 <= j < |ths| && Unreported(reported, statusIds, ths[j].reading, ths[j].statusId)
        ensures Unreported(prefix, statusIds, ths[j].reading, ths[j].statusId)
      {
        forall i | 0 <= i < |prefix|
          ensures !(prefix[i].0 == ths[j].reading && statusIds[prefix[i].1.status] == ths[j].statusId)
        {
          assert prefix[i] == reported[i];
        }
      }
      var acc := SyncThresholds(ths, |ths|, statusIds, prefix);
      SyncThresholdStable(acc, |ths|, statusIds, reported[n].0, reported[n].1);
    }
  }

  /** One reported pair changes at most the bounds of the one stored threshold it matches, and only if the service set it. */
  lemma SyncThresholdStable(ths: seq<StoredThreshold>, known: nat, statusIds: map<string, int>,
                            reading: string, limits: ReportedThreshold)
    requires known <= |ths| && limits.status in statusIds
    ensures var r := SyncThreshold(ths, known, statusIds, reading, limits);
      && |r| >= |ths|
      && forall j :: 0 <= j < |ths| ==>
           && r[j].reading == ths[j].reading && r[j].statusId == ths[j].statusId && r[j].source == ths[j].source
           && (ths[j].source == FromConfiguration ==> r[j] == ths[j])
           && (!(ths[j].reading == reading && ths[j].statusId == statusIds[limits.status]) ==> r[j] == ths[j])
  {
  }

  /** Some threshold is stored for this reading pattern and status. */
  predicate HasThreshold(ths: seq<StoredThreshold>, reading: string, statusId: int) {
    exists j :: 0 <= j < |ths| && ths[j].reading == reading && ths[j].statusId == statusId
  }

  /** After synchronisation, every reported (pattern, status) pair has a threshold. */
  lemma {:induction false} SyncThresholdsCovers(ths: seq<StoredThreshold>, known: nat, statusIds: map<string, int>,
                                                reported: Dict<string, ReportedThreshold>, k: nat)
    requires known <= |ths| && StatusesKnown(reported, statusIds) && k < |reported|
    ensures HasThreshold(SyncThresholds(ths, known, statusIds, reported), reported[k].0, statusIds[reported[k].1.status])
  {
    var n := |reported| - 1;
    var prefix := reported[..n];
    assert StatusesKnown(prefix, statusIds);
    var acc := SyncThresholds(ths, known, statusIds, prefix);
    SyncThresholdStable(acc, known, statusIds, reported[n].0, reported[n].1);
    var r := SyncThresholds(ths, known, statusIds, reported);
    assert r == SyncThreshold(acc, known, statusIds, reported[n].0, reported[n].1);
    if k < n {
      assert prefix[k] == reported[k];
      SyncThresholdsCovers(ths, known, statusIds, prefix, k);
      var j :| 0 <= j < |acc| && acc[j].reading == reported[k].0 && acc[j].statusId == statusIds[reported[k].1.status];
      assert r[j].reading == acc[j].reading && r[j].statusId == acc[j].statusId;
    } else {
      var sid := statusIds[reported[n].1.status];
      match FirstMatch(acc, known, reported[n].0, sid)
      case None =>
        assert r[|acc|].reading == reported[k].0 && r[|acc|].statusId == sid;
      case Some(j) =>
        assert r[j].reading == reported[k].0 && r[j].statusId == sid;
    }
  }

  /** The first UPDATE puts exactly the mapped services of the service into error with the given cause. */
  lemma MarkServiceSpec(mapped: map<int, MappedService>, serviceId: int, error: int, cause: int)
    ensures var r := MarkService(mapped, Some(serviceId), error, cause);
      && r.Keys == mapped.Keys
      && forall m :: m in mapped ==>
           if mapped[m].probeServiceId == serviceId
           then r[m].statusId == error && r[m].errorCauseId == Some(cause) && r[m] == mapped[m].(statusId := error, errorCauseId := Some(cause))
           else r[m] == mapped[m]
  {
  }

  /**
    The corrected second UPDATE: a mapped service of another service is never
    touched; one of this service goes into error exactly when it lacks a value
    for some option that is now required.
   */
  lemma MarkMissingSpec(mapped: map<int, MappedService>, values: seq<MappedServiceOption>, serviceId: int,
                        requiredIds: seq<Option<int>>, error: int, cause: int)
    ensures var r := MarkMissing(mapped, values, Some(serviceId), requiredIds, error, cause);
      && r.Keys == mapped.Keys
      && (forall m :: m in mapped && mapped[m].probeServiceId != serviceId ==> r[m] == mapped[m])
      && (forall m :: m in mapped && mapped[m].probeServiceId == serviceId ==>
            (r[m] == SetError(mapped[m], error, cause) <==> MissesSome(values, m, requiredIds) || SetError(mapped[m], error, cause) == mapped[m]))
  {
  }

  /** A value for a required option stored by another mapped service. */
  const OtherServiceValue := MappedServiceOption(2, 7, "x")

  /**
    As written, the second UPDATE reaches past the service: with option 5 of
    service 1 newly required, a mapped service of service 2 is put into error.
   */
  lemma MarkMissingAsWrittenTouchesOtherServices(error: int, cause: int)
    requires error != 0
    ensures var mapped := map[1 := MappedService(1, "a", "", 0, None, None, None), 2 := MappedService(2, "b", "", 0, None, None, None)];
      var r := MarkMissingAsWritten(mapped, [OtherServiceValue], [Some(5)], error, cause);
      mapped[2].probeServiceId != 1 && r[2] != mapped[2]
  {
    var mapped := map[1 := MappedService(1, "a", "", 0, None, None, None), 2 := MappedService(2, "b", "", 0, None, None, None)];
    assert !HasValueFor([OtherServiceValue], 2, [Some(5)]);
    assert MarkMissingAsWritten(mapped, [OtherServiceValue], [Some(5)], error, cause)[2].statusId == error;
  }

  /**
    As written, a mapped service that stores a value for one of two newly
    required options is left alone although it lacks the other one.
   */
  lemma MarkMissingAsWrittenNeedsAllMissing(error: int, cause: int)
    requires error != 0
    ensures var mapped := map[1 := MappedService(1, "a", "", 0, None, None, None)];
      var values := [MappedServiceOption(1, 5, "x")];
      var r := MarkMissingAsWritten(mapped, values, [Some(5), Some(6)], error, cause);
      MissesSome(values, 1, [Some(5), Some(6)]) && r[1] == mapped[1]
        && MarkMissing(mapped, values, Some(1), [Some(5), Some(6)], error, cause)[1] != mapped[1]
  {
    var values := [MappedServiceOption(1, 5, "x")];
    assert HasValueFor(values, 1, [Some(5), Some(6)]) by { assert values[0].mappedServiceId == 1; }
    assert !HasValueFor(values, 1, [[Some(5), Some(6)][1]]);
  }

  /**
    Every mapped service one reported service changes ends in error because a
    required option is missing: the "service unavailable" cause is never
    applied, as the deleted flag is cleared before it is looked at.
   */
  lemma ServiceStepMarksOnlyMissing(s: Sync, values: seq<MappedServiceOption>, statusIds: map<string, int>, c: Consts,
                                    r: ReportedService)
    requires NamesFit(s.byName, s.services) && StatusesKnown(r.thresholds, statusIds)
    ensures var t := ServiceStep(s, values, statusIds, c, r);
      && t.mapped.Keys == s.mapped.Keys
      && forall m :: m in s.mapped && t.mapped[m] != s.mapped[m] ==>
           t.mapped[m] == SetError(s.mapped[m], c.error, c.missingRequiredOption)
  {
    var (services, idx) := Register(s.services, s.byName, r);
    assert services[idx].deleted != Some(true);
  }

  /**
    A newly reported required option on a service that was already stored
    puts every mapped service of that service into error.
   */
  lemma NewRequiredMarksService(s: Sync, values: seq<MappedServiceOption>, statusIds: map<string, int>, c: Consts,
                                r: ReportedService, k: nat)
    requires NamesFit(s.byName, s.services) && StatusesKnown(r.thresholds, statusIds)
    requires r.name in s.byName && Truthy(s.services[s.byName[r.name]].id)
    requires k < |r.options| && r.options[k].required == Some(true)
    requires forall i :: 0 <= i < |s.services[s.byName[r.name]].options| ==>
      s.services[s.byName[r.name]].options[i].identifier != r.options[k].identifier
    ensures var t := ServiceStep(s, values, statusIds, c, r);
      forall m :: m in s.mapped && s.mapped[m].probeServiceId == s.services[s.byName[r.name]].id.value ==>
        t.mapped[m] == SetError(s.mapped[m], c.error, c.missingRequiredOption)
  {
    var (services, idx) := Register(s.services, s.byName, r);
    var svc := services[idx];
    var known := IdentifierIndex(svc.options);
    assert r.options[k].identifier !in known;
    NewRequiredDetected(OptionSync(svc.options, false, []), known, r.options, k);
  }

  /** One reported service keeps every stored service in place under its name. */
  lemma ServiceStepShape(s: Sync, values: seq<MappedServiceOption>, statusIds: map<string, int>, c: Consts,
                         r: ReportedService)
    requires NamesFit(s.byName, s.services) && StatusesKnown(r.thresholds, statusIds)
    ensures var t := ServiceStep(s, values, statusIds, c, r);
      && |t.services| >= |s.services|
      && (forall i :: 0 <= i < |s.services| ==> t.services[i].name == s.services[i].name)
      && t.byName.Keys == s.byName.Keys + {r.name}
      && (forall k :: k in s.byName && k != r.name ==> t.byName[k] == s.byName[k])
  {
    var (services, idx) := Register(s.services, s.byName, r);
    RegisterSpec(s.services, s.byName, r);
  }

  /** What the loop over reported services keeps of the stored services. */
  lemma {:induction false} ServiceStepsKeep(s: Sync, values: seq<MappedServiceOption>, statusIds: map<string, int>, c: Consts,
                                            rs: seq<ReportedService>)
    requires NamesFit(s.byName, s.services) && ReportStatusesKnown(rs, statusIds)
    ensures var t := ServiceSteps(s, values, statusIds, c, rs);
      && |t.services| >= |s.services|
      && (forall i :: 0 <= i < |s.services| ==> t.services[i].name == s.services[i].name)
      && (forall k :: k in s.byName && k !in ReportedNames(rs) ==> k in t.byName && t.byName[k] == s.byName[k])
  {
    if rs != [] {
      var n := |rs| - 1;
      var prefix := rs[..n];
      assert ReportStatusesKnown(prefix, statusIds) by {
        forall i | 0 <= i < n ensures StatusesKnown(prefix[i].thresholds, statusIds) { assert prefix[i] == rs[i]; }
      }
      ServiceStepsKeep(s, values, statusIds, c, prefix);
      var u := ServiceSteps(s, values, statusIds, c, prefix);
      ServiceStepShape(u, values, statusIds, c, rs[n]);
      var t := ServiceSteps(s, values, statusIds, c, rs);
      assert t == ServiceStep(u, values, statusIds, c, rs[n]);
      assert ReportedNames(rs) == ReportedNames(prefix) + [rs[n].name];
    }
  }

  /**
    A reconciliation never removes a stored service: each keeps its place and
    name, and a stored service the report does not name is flagged deleted.
   */
  lemma UnreportedFlaggedDeleted(store: Store, statusIds: map<string, int>, c: Consts, report: ProbeReport, i: nat)
    requires ReportStatusesKnown(report.services, statusIds)
    requires report.name in store.probes
    requires var services := store.probes[report.name];
      i < |services| && (forall j :: 0 <= j < |services| && j != i ==> services[j].name != services[i].name)
      && forall k :: 0 <= k < |report.services| ==> report.services[k].name != services[i].name
    ensures PutProbe(store, statusIds, c, report).Ok?
    ensures var after := PutProbe(store, statusIds, c, report).value.probes[report.name];
      && |after| >= |store.probes[report.name]|
      && after[i].name == store.probes[report.name][i].name
      && after[i].deleted == Some(true)
  {
    var services := store.probes[report.name];
    var start := Sync(services, NameIndex(services), store.mapped);
    ServiceStepsKeep(start, store.values, statusIds, c, report.services);
    var name := services[i].name;
    assert NameIndex(services)[name] == i;
    ReportedNamesHas(report.services, name);
  }

  /** A reported threshold whose status the table does not hold fails the whole request, whatever else it reports. */
  lemma UnknownStatusFails(store: Store, statusIds: map<string, int>, c: Consts, report: ProbeReport, i: nat, k: nat)
    requires report.name in store.probes
    requires i < |report.services| && k < |report.services[i].thresholds|
    requires report.services[i].thresholds[k].1.status !in statusIds
    ensures PutProbe(store, statusIds, c, report) == Err(UnknownStatus)
  {
    assert !StatusesKnown(report.services[i].thresholds, statusIds);
  }

  // ---------------------------------------------------------------------------
  // The loops of `Probes.put`.

  method IndexOptions(options: seq<StoredOption>) returns (known: map<string, nat>)
    ensures known == IdentifierIndex(options)
  {
    known := map[];
    var i := 0;
    while i < |options|
      invariant 0 <= i <= |options|
      invariant known == IdentifierIndex(options[..i])
    {
      assert options[..i + 1][..i] == options[..i];
      known := known[options[i].identifier := i];
      i := i + 1;
    }
    assert options[..i] == options;
  }

  method IndexServices(services: seq<StoredService>) returns (byName: map<string, nat>)
    ensures byName == NameIndex(services)
  {
    byName := map[];
    var i := 0;
    while i < |services|
      invariant 0 <= i <= |services|
      invariant byName == NameIndex(services[..i])
    {
      assert services[..i + 1][..i] == services[..i];
      byName := byName[services[i].name := i];
      i := i + 1;
    }
    assert services[..i] == services;
  }

  lemma SyncOptionsSnoc(stored: seq<StoredOption>, known: map<string, nat>, serviceStored: bool,
                        reported: seq<ReportedOption>, i: nat)
    requires IndexFits(known, stored) && i < |reported|
    ensures var prev := SyncOptions(OptionSync(stored, false, []), known, serviceStored, reported[..i]);
            SyncOptions(OptionSync(stored, false, []), known, serviceStored, reported[..i + 1]) ==
            SyncOption(prev, known, serviceStored, reported[i])
  {
    assert reported[..i + 1][..i] == reported[..i];
  }

  /** The loop over a reported service's options. */
  method SyncOptionsLoop(stored: seq<StoredOption>, known: map<string, nat>, serviceStored: bool,
                         reported: seq<ReportedOption>) returns (sync: OptionSync)
    requires IndexFits(known, stored)
    ensures sync == SyncOptions(OptionSync(stored, false, []), known, serviceStored, reported)
  {
    sync := OptionSync(stored, false, []);
    var i := 0;
    while i < |reported|
      invariant 0 <= i <= |reported|
      invariant sync == SyncOptions(OptionSync(stored, false, []), known, serviceStored, reported[..i])
    {
      SyncOptionsSnoc(stored, known, serviceStored, reported, i);
      ghost var prev := sync;
      var o := reported[i];
      if o.identifier !in known {
        var row := NewOptionRow(o);
        sync := sync.(options := sync.options + [row], newRequired := sync.newRequired || (row.required && serviceStored));
      } else {
        var j := known[o.identifier];
        var row := Overwrite(sync.options[j], o);
        sync := sync.(options := sync.options[j := row]);
        if row.required && serviceStored {
          sync := sync.(requiredIds := sync.requiredIds + [row.id]);
        }
      }
      assert sync == SyncOption(prev, known, serviceStored, o);
      i := i + 1;
    }
    assert reported[..i] == reported;
  }

  /** The deletion loop: the option each unreported identifier points at is dropped. */
  method DeleteLoop(options: seq<StoredOption>, known: map<string, nat>, reported: seq<string>) returns (kept: seq<StoredOption>)
    ensures kept == DeleteUnreported(options, known, reported)
  {
    kept := [];
    var i := 0;
    while i < |options|
      invariant 0 <= i <= |options|
      invariant kept == DeleteUnreported(options[..i], known, reported)
    {
      assert options[..i + 1][..i] == options[..i];
      assert Deleted(options[..i + 1], i, known, reported) == Deleted(options, i, known, reported);
      var k := options[i].identifier;
      if !(k in known && known[k] == i && k !in reported) {
        kept := kept + [options[i]];
      }
      i := i + 1;
    }
    assert options[..i] == options;
  }

  /** The search through the thresholds stored before this request, stopping at the first match. */
  method FindThreshold(ths: seq<StoredThreshold>, known: nat, reading: string, statusId: int) returns (found: Option<nat>)
    requires known <= |ths|
    ensures found == FirstMatch(ths, known, reading, statusId)
  {
    var j := 0;
    while j < known
      invariant 0 <= j <= known
      invariant FirstMatch(ths, j, reading, statusId).None?
    {
      if ths[j].reading == reading && ths[j].statusId == statusId {
        FirstMatchPrefix(ths, j + 1, known, reading, statusId);
        return Some(j);
      }
      j := j + 1;
    }
    return None;
  }

  /** A match among the first n thresholds is the first match among more. */
  lemma {:induction false} FirstMatchPrefix(ths: seq<StoredThreshold>, n: nat, m: nat, reading: string, statusId: int)
    requires n <= m <= |ths| && FirstMatch(ths, n, reading, statusId).Some?
    ensures FirstMatch(ths, m, reading, statusId) == FirstMatch(ths, n, reading, statusId)
    decreases m - n
  {
    if n < m {
      FirstMatchPrefix(ths, n, m - 1, reading, statusId);
    }
  }

  /**
    The loop over a reported service's thresholds; a status the status table
    does not hold fails it. No stored threshold carries such a status, so the
    search would find none and the lookup for the new row would raise.
   */
  method SyncThresholdsLoop(ths: seq<StoredThreshold>, statusIds: map<string, int>, reported: Dict<string, ReportedThreshold>)
      returns (result: Result<seq<StoredThreshold>, PutError>)
    ensures result.Ok? <==> StatusesKnown(reported, statusIds)
    ensures result.Err? ==> result.error == UnknownStatus
    ensures result.Ok? ==> result.value == SyncThresholds(ths, |ths|, statusIds, reported)
  {
    var acc := ths;
    var i := 0;
    while i < |reported|
      invariant 0 <= i <= |reported|
      invariant StatusesKnown(reported[..i], statusIds)
      invariant acc == SyncThresholds(ths, |ths|, statusIds, reported[..i])
    {
      assert reported[..i + 1][..i] == reported[..i];
      var reading, limits := reported[i].0, reported[i].1;
      if limits.status !in statusIds {
        return Err(UnknownStatus);
      }
      var sid := statusIds[limits.status];
      var found := FindThreshold(acc, |ths|, reading, sid);
      if found.None? {
        acc := acc + [StoredThreshold(sid, reading, limits.min, limits.max, FromService)];
      } else if acc[found.value].source == FromService {
        acc := acc[found.value := acc[found.value].(min := limits.min, max := limits.max)];
      }
      i := i + 1;
    }
    assert reported[..i] == reported;
    return Ok(acc);
  }

  /** The final loop over `services_by_name`. */
  method MarkUnreportedLoop(services: seq<StoredService>, byName: map<string, nat>, reported: seq<string>)
      returns (result: seq<StoredService>)
    ensures result == MarkUnreported(services, byName, reported)
  {
    result := services;
    var i := 0;
    while i < |services|
      invariant 0 <= i <= |services| && |result| == |services|
      invariant forall j :: 0 <= j < i ==> result[j] == MarkUnreported(services, byName, reported)[j]
      invariant forall j :: i <= j < |services| ==> result[j] == services[j]
    {
      var k := services[i].name;
      if k in byName && byName[k] == i && k !in reported {
        result := result[i := services[i].(deleted := Some(true))];
      }
      i := i + 1;
    }
  }

  /** One reported service with an unknown threshold status makes the report's statuses unknown. */
  lemma UnknownStatusAt(rs: seq<ReportedService>, statusIds: map<string, int>, i: nat)
    requires i < |rs| && !StatusesKnown(rs[i].thresholds, statusIds)
    ensures !ReportStatusesKnown(rs, statusIds)
  {
  }

  lemma ServiceStepsSnoc(s: Sync, values: seq<MappedServiceOption>, statusIds: map<string, int>, c: Consts,
                         rs: seq<ReportedService>, i: nat)
    requires NamesFit(s.byName, s.services) && i < |rs|
    requires ReportStatusesKnown(rs[..i], statusIds) && StatusesKnown(rs[i].thresholds, statusIds)
    ensures ReportStatusesKnown(rs[..i + 1], statusIds)
    ensures ServiceSteps(s, values, statusIds, c, rs[..i + 1])
         == ServiceStep(ServiceSteps(s, values, statusIds, c, rs[..i]), values, statusIds, c, rs[i])
  {
    assert rs[..i + 1][..i] == rs[..i];
  }

  lemma ReportedNamesSnoc(rs: seq<ReportedService>, i: nat)
    requires i < |rs|
    ensures ReportedNames(rs[..i + 1]) == ReportedNames(rs[..i]) + [rs[i].name]
  {
    assert rs[..i + 1][..i] == rs[..i];
  }

  /** The server's stored probes and mapped services. */
  class ProbeStore {
    var probes: map<string, seq<StoredService>>
    var mapped: map<int, MappedService>
    var values: seq<MappedServiceOption>

    ghost function State(): Store
      reads this
    {
      Store(probes, mapped, values)
    }

    constructor (store: Store)
      ensures State() == store
    {
      probes := store.probes;
      mapped := store.mapped;
      values := store.values;
    }

    /** `Probe.get`. */
    method Get(name: string) returns (view: Option<ProbeView>)
      ensures view == GetProbe(probes, name)
    {
      if name !in probes {
        return None;
      }
      var services := probes[name];
      view := Some(ProbeView(name, seq(|services|, i requires 0 <= i < |services| => ServiceViewOf(services[i]))));
    }

    /** One reported service, as the body of the loop in `Probes.put` handles it. */
    method SyncService(sync: Sync, statusIds: map<string, int>, c: Consts, r: ReportedService) returns (next: Result<Sync, PutError>)
      requires NamesFit(sync.byName, sync.services)
      ensures next.Ok? <==> StatusesKnown(r.thresholds, statusIds)
      ensures next.Err? ==> next.error == UnknownStatus
      ensures next.Ok? ==> next.value == ServiceStep(sync, values, statusIds, c, r)
    {
      var registered := Register(sync.services, sync.byName, r);
      var services, idx := registered.0, registered.1;
      var svc := services[idx];
      var known := IndexOptions(svc.options);
      var options := SyncOptionsLoop(svc.options, known, Truthy(svc.id), r.options);
      var marked := sync.mapped;
      if options.newRequired || svc.deleted == Some(true) {
        marked := MarkService(sync.mapped, svc.id, c.error, if options.newRequired then c.missingRequiredOption else c.serviceUnavailable);
      } else if options.requiredIds != [] {
        marked := MarkMissing(sync.mapped, values, svc.id, options.requiredIds, c.error, c.missingRequiredOption);
      }
      var kept := DeleteLoop(options.options, known, Identifiers(r.options));
      var thresholds := SyncThresholdsLoop(svc.thresholds, statusIds, r.thresholds);
      if thresholds.Err? {
        return Err(thresholds.error);
      }
      next := Ok(Sync(services[idx := svc.(options := kept, thresholds := thresholds.value)], sync.byName[r.name := idx], marked));
    }

    /** The loop over the reported services. */
    method SyncServices(start: Sync, statusIds: map<string, int>, c: Consts, rs: seq<ReportedService>)
      returns (result: Result<Sync, PutError>)
      requires NamesFit(start.byName, start.services)
      ensures result.Ok? <==> ReportStatusesKnown(rs, statusIds)
      ensures result.Err? ==> result.error == UnknownStatus
      ensures result.Ok? ==> result.value == ServiceSteps(start, values, statusIds, c, rs)
    {
      var sync := start;
      var i := 0;
      while i < |rs|
        invariant 0 <= i <= |rs|
        invariant ReportStatusesKnown(rs[..i], statusIds)
        invariant sync == ServiceSteps(start, values, statusIds, c, rs[..i])
      {
        var next := SyncService(sync, statusIds, c, rs[i]);
        if next.Err? {
          UnknownStatusAt(rs, statusIds, i);
          return Err(next.error);
        }
        ServiceStepsSnoc(start, values, statusIds, c, rs, i);
        sync := next.value;
        i := i + 1;
      }
      assert rs[..i] == rs;
      return Ok(sync);
    }

    /** The names of the reported services, in report order. */
    method CollectNames(rs: seq<ReportedService>) returns (reported: seq<string>)
      ensures reported == ReportedNames(rs)
    {
      reported := [];
      var i := 0;
      while i < |rs|
        invariant 0 <= i <= |rs|
        invariant reported == ReportedNames(rs[..i])
      {
        ReportedNamesSnoc(rs, i);
        reported := reported + [rs[i].name];
        i := i + 1;
      }
      assert rs[..i] == rs;
    }

    /**
      `Probes.put`: an unknown probe or a threshold with an unknown status
      fails with nothing changed; otherwise the probe's services and the
      mapped services become what the reconciliation gives.
     */
    method Put(statusIds: map<string, int>, c: Consts, report: ProbeReport) returns (r: Result<(), PutError>)
      modifies this
      ensures r.Err? ==> State() == old(State()) && PutProbe(old(State()), statusIds, c, report) == Err(r.error)
      ensures r.Ok? ==> PutProbe(old(State()), statusIds, c, report) == Ok(State())
    {
      if report.name !in probes {
        return Err(UnknownProbe);
      }
      var stored := probes[report.name];
      var byName := IndexServices(stored);
      var synced := SyncServices(Sync(stored, byName, mapped), statusIds, c, report.services);
      if synced.Err? {
        return Err(synced.error);
      }
      var sync := synced.value;
      var reported := CollectNames(report.services);
      var services := MarkUnreportedLoop(sync.services, sync.byName, reported);
      probes := probes[report.name := services];
      mapped := sync.mapped;
      return Ok(());
    }
  }

  // ---------------------------------------------------------------------------
  // `Probe.get`.

  datatype OptionView = OptionView(identifier: string, name: string, typ: string, description: string, required: bool)
  datatype ServiceView = ServiceView(name: string, description: string, deleted: Option<bool>, options: seq<OptionView>)
  datatype ProbeView = ProbeView(name: string, services: seq<ServiceView>)

  function OptionViewOf(o: StoredOption): OptionView {
    OptionView(o.identifier, o.name, o.dataType, o.description, o.required)
  }

  function ServiceViewOf(s: StoredService): ServiceView {
    ServiceView(s.name, s.description, s.deleted, seq(|s.options|, i requires 0 <= i < |s.options| => OptionViewOf(s.options[i])))
  }

  /** `Probe.get`: the stored services and options of a probe, one entry per row, in order. */
  function GetProbe(probes: map<string, seq<StoredService>>, name: string): (r: Option<ProbeView>)
    ensures r.Some? <==> name in probes
    ensures r.Some? ==> r.value.name == name && |r.value.services| == |probes[name]|
    ensures r.Some? ==> forall i :: 0 <= i < |probes[name]| ==>
      var (s, v) := (probes[name][i], r.value.services[i]);
      && v.name == s.name && v.description == s.description && v.deleted == s.deleted
      && |v.options| == |s.options|
      && forall j :: 0 <= j < |s.options| ==>
           v.options[j].identifier == s.options[j].identifier && v.options[j].name == s.options[j].name
           && v.options[j].typ == s.options[j].dataType && v.options[j].description == s.options[j].description
           && v.options[j].required == s.options[j].required
  {
    if name !in probes then None
    else
      var services := probes[name];
      Some(ProbeView(name, seq(|services|, i requires 0 <= i < |services| => ServiceViewOf(services[i]))))
  }
}
