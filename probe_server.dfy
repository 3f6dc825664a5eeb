/**
  The probe's side of the conversation with the server
  (probe/src/lib/server.py): the registration payload built from the
  discovered plugins, the filtering of the mapped services the server
  returns, and the flattening of fetched values into readings.

  HTTP calls are left to the caller: the methods return the JSON body they
  would send and take the decoded body they would receive.
 */
module ProbeServer {
  import opened Wrappers
  import opened Dicts
  import Text
  import PluginService

  // ---------------------------------------------------------------------------
  // Registration payload.

  datatype OptionPayload = OptionPayload(
    identifier: string,
    name: string,
    typ: string,
    description: string,
    required: bool)

  /** The bounds reported for one reading pattern; only one status per pattern survives. */
  datatype ThresholdPayload = ThresholdPayload(status: string, min: Option<int>, max: Option<int>)

  datatype ServicePayload = ServicePayload(
    name: string,
    description: string,
    options: seq<OptionPayload>,
    thresholds: Dict<string, ThresholdPayload>)

  datatype ProbePayload = ProbePayload(name: string, services: seq<ServicePayload>)

  /** One option as reported: a missing description is "". */
  function OptionPayloadOf(identifier: string, r: PluginService.OptionRecord): OptionPayload {
    OptionPayload(identifier, r.name, r.typ, r.description.GetOr(""), r.required)
  }

  function OptionsPayload(options: PluginService.OptionTable): seq<OptionPayload> {
    seq(|options|, i requires 0 <= i < |options| => OptionPayloadOf(options[i].0, options[i].1))
  }

  /**
    The reported options follow the option table one to one and in order; an
    option without a description reports "", and `required` is reported as
    configured.
   */
  lemma OptionsPayloadSpec(options: PluginService.OptionTable)
    ensures var r := OptionsPayload(options);
      && |r| == |options|
      && forall i :: 0 <= i < |r| ==>
           && r[i].identifier == options[i].0
           && r[i].name == options[i].1.name
           && r[i].typ == options[i].1.typ
           && r[i].required == options[i].1.required
           && (options[i].1.description.None? ==> r[i].description == "")
           && (options[i].1.description.Some? ==> r[i].description == options[i].1.description.value)
  {
  }

  /** Every status of one reading pattern assigned to the pattern's key in turn. */
  function PutStatuses(acc: Dict<string, ThresholdPayload>, reading: string,
                       statuses: Dict<string, PluginService.Bounds>): Dict<string, ThresholdPayload> {
    if statuses == [] then acc
    else
      var (status, bounds) := statuses[|statuses| - 1];
      Put(PutStatuses(acc, reading, statuses[..|statuses| - 1]), reading, ThresholdPayload(status, bounds.min, bounds.max))
  }

  /** The `thresholds` comprehension: keyed by the reading pattern alone. */
  function ThresholdsPayload(t: PluginService.ThresholdTable): Dict<string, ThresholdPayload> {
    if t == [] then []
    else
      var (reading, statuses) := t[|t| - 1];
      PutStatuses(ThresholdsPayload(t[..|t| - 1]), reading, statuses)
  }

  /** The status that ends up reported for a pattern: the last one of the last table entry that has any. */
  function LastStatus(t: PluginService.ThresholdTable, reading: string): Option<ThresholdPayload> {
    if t == [] then None
    else
      var statuses := t[|t| - 1].1;
      if t[|t| - 1].0 == reading && statuses != [] then
        var (status, bounds) := statuses[|statuses| - 1];
        Some(ThresholdPayload(status, bounds.min, bounds.max))
      else LastStatus(t[..|t| - 1], reading)
  }

  lemma {:induction false} PutStatusesGet(acc: Dict<string, ThresholdPayload>, reading: string,
                                          statuses: Dict<string, PluginService.Bounds>, k: string)
    ensures Get(PutStatuses(acc, reading, statuses), k) ==
      if k == reading && statuses != [] then
        Some(ThresholdPayload(statuses[|statuses| - 1].0, statuses[|statuses| - 1].1.min, statuses[|statuses| - 1].1.max))
      else Get(acc, k)
  {
    if statuses != [] {
      var (status, bounds) := statuses[|statuses| - 1];
      PutStatusesGet(acc, reading, statuses[..|statuses| - 1], k);
      PutGet(PutStatuses(acc, reading, statuses[..|statuses| - 1]), reading, ThresholdPayload(status, bounds.min, bounds.max), k);
    }
  }

  /**
    A reading pattern with several statuses reports only the last of them:
    the payload holds, per pattern, the last status assigned to it.
   */
  lemma {:induction false} ThresholdsPayloadSpec(t: PluginService.ThresholdTable, reading: string)
    ensures Get(ThresholdsPayload(t), reading) == LastStatus(t, reading)
  {
    if t != [] {
      ThresholdsPayloadSpec(t[..|t| - 1], reading);
      PutStatusesGet(ThresholdsPayload(t[..|t| - 1]), t[|t| - 1].0, t[|t| - 1].1, reading);
    }
  }

  /** A pattern with "warning" then "error" bounds reports only the "error" ones. */
  lemma ThresholdCollision(lo: int, hi: int)
    ensures var t: PluginService.ThresholdTable :=
      [("cpu", [("warning", PluginService.Bounds(None, Some(lo))), ("error", PluginService.Bounds(None, Some(hi)))])];
      ThresholdsPayload(t) == [("cpu", ThresholdPayload("error", None, Some(hi)))]
  {
    var warning := PluginService.Bounds(None, Some(lo));
    var error := PluginService.Bounds(None, Some(hi));
    var statuses := [("warning", warning), ("error", error)];
    assert statuses[..1] == [("warning", warning)];
    assert PutStatuses([], "cpu", statuses[..1]) == [("cpu", ThresholdPayload("warning", None, Some(lo)))] by {
      assert statuses[..1][..0] == [];
    }
    var t: PluginService.ThresholdTable := [("cpu", statuses)];
    assert t[..0] == [];
  }

  function ServicePayloadOf(s: PluginService.ServiceInfo): ServicePayload {
    ServicePayload(s.name, s.description, OptionsPayload(s.options), ThresholdsPayload(s.thresholds))
  }

  function RegistrationPayload(probeName: string, services: Dict<string, PluginService.ServiceInfo>): (p: ProbePayload)
    ensures p.name == probeName && |p.services| == |services|
    ensures forall i :: 0 <= i < |services| ==>
      var info := services[i].1;
      && p.services[i].name == info.name
      && p.services[i].description == info.description
      && p.services[i].options == OptionsPayload(info.options)
      && p.services[i].thresholds == ThresholdsPayload(info.thresholds)
  {
    ProbePayload(probeName, seq(|services|, i requires 0 <= i < |services| => ServicePayloadOf(services[i].1)))
  }

  // ---------------------------------------------------------------------------
  // Mapped services.

  /** One option row of a mapping as the server lists it; the value may be null. */
  datatype OptionRow = OptionRow(identifier: string, value: Option<string>)

  datatype MappingRow = MappingRow(id: int, name: string, service: string, options: seq<OptionRow>)

  /** `ServiceMapping`: the mapping bound to the local plugin it runs. */
  datatype ServiceMapping = ServiceMapping(
    id: int,
    service: PluginService.ServiceInfo,
    options: Dict<string, string>,
    name: string)

  /** The option comprehension: null values are dropped, a repeated identifier keeps its last value. */
  function MappingOptions(rows: seq<OptionRow>): Dict<string, string> {
    if rows == [] then []
    else
      var row := rows[|rows| - 1];
      var d := MappingOptions(rows[..|rows| - 1]);
      if row.value.None? then d else Put(d, row.identifier, row.value.value)
  }

  /** The last non-null value given for an identifier. */
  function LastValue(rows: seq<OptionRow>, k: string): Option<string> {
    if rows == [] then None
    else if rows[|rows| - 1].identifier == k && rows[|rows| - 1].value.Some? then rows[|rows| - 1].value
    else LastValue(rows[..|rows| - 1], k)
  }

  /** The row that gives v for k and is not followed by another non-null row for k. */
  predicate LastRow(rows: seq<OptionRow>, i: int, k: string, v: string) {
    0 <= i < |rows| && rows[i] == OptionRow(k, Some(v))
    && forall j :: i < j < |rows| ==> !(rows[j].identifier == k && rows[j].value.Some?)
  }

  lemma {:induction false} MappingOptionsGet(rows: seq<OptionRow>, k: string)
    ensures Get(MappingOptions(rows), k) == LastValue(rows, k)
  {
    if rows != [] {
      var row := rows[|rows| - 1];
      MappingOptionsGet(rows[..|rows| - 1], k);
      if row.value.Some? {
        PutGet(MappingOptions(rows[..|rows| - 1]), row.identifier, row.value.value, k);
      }
    }
  }

  lemma {:induction false} LastValueHasRow(rows: seq<OptionRow>, k: string)
    requires LastValue(rows, k).Some?
    ensures exists i :: LastRow(rows, i, k, LastValue(rows, k).value)
  {
    var n := |rows| - 1;
    if rows[n].identifier == k && rows[n].value.Some? {
      assert LastRow(rows, n, k, rows[n].value.value);
    } else {
      var prefix := rows[..n];
      LastValueHasRow(prefix, k);
      var i :| LastRow(prefix, i, k, LastValue(prefix, k).value);
      assert LastRow(rows, i, k, LastValue(rows, k).value);
    }
  }

  lemma {:induction false} LastRowGivesValue(rows: seq<OptionRow>, i: int, k: string, v: string)
    requires LastRow(rows, i, k, v)
    ensures LastValue(rows, k) == Some(v)
  {
    var n := |rows| - 1;
    if i < n {
      assert LastRow(rows[..n], i, k, v);
      LastRowGivesValue(rows[..n], i, k, v);
    }
  }

  /** An identifier has value v exactly when its last non-null row gives v; null rows are dropped. */
  lemma MappingOptionsSpec(rows: seq<OptionRow>, k: string, v: string)
    ensures Get(MappingOptions(rows), k) == Some(v) <==> exists i :: LastRow(rows, i, k, v)
  {
    MappingOptionsGet(rows, k);
    if LastValue(rows, k) == Some(v) {
      LastValueHasRow(rows, k);
    }
    if exists i :: LastRow(rows, i, k, v) {
      var i :| LastRow(rows, i, k, v);
      LastRowGivesValue(rows, i, k, v);
    }
  }

  /** The mapping rows whose service this probe runs, in the server's order. */
  function MappedServices(services: Dict<string, PluginService.ServiceInfo>, rows: seq<MappingRow>): seq<ServiceMapping> {
    if rows == [] then []
    else
      var row := rows[|rows| - 1];
      var out := MappedServices(services, rows[..|rows| - 1]);
      match Get(services, row.service)
      case None => out
      case Some(s) => out + [ServiceMapping(row.id, s, MappingOptions(row.options), row.name)]
  }

  /**
    Only mappings of local services are kept, each bound to that service with
    its non-null options; every such mapping is kept; nothing is invented.
   */
  lemma {:induction false} MappedServicesSpec(services: Dict<string, PluginService.ServiceInfo>, rows: seq<MappingRow>)
    ensures |MappedServices(services, rows)| <= |rows|
    ensures forall m :: m in MappedServices(services, rows) ==>
      exists i :: 0 <= i < |rows| && rows[i].id == m.id && rows[i].name == m.name
        && Get(services, rows[i].service) == Some(m.service) && m.options == MappingOptions(rows[i].options)
    ensures forall i :: 0 <= i < |rows| && Get(services, rows[i].service).Some? ==>
      ServiceMapping(rows[i].id, Get(services, rows[i].service).value, MappingOptions(rows[i].options), rows[i].name)
        in MappedServices(services, rows)
  {
    if rows != [] {
      var n := |rows| - 1;
      var prefix := rows[..n];
      MappedServicesSpec(services, prefix);
      assert forall i :: 0 <= i < n ==> prefix[i] == rows[i];
    }
  }

  // ---------------------------------------------------------------------------
  // Readings.

  /** One reading as posted: the mapping id, the key, the integer value and the shared timestamp. */
  datatype ReadingPayload = ReadingPayload(service: int, reading: string, value: int, timestamp: string)

  /**
    Why `update` raised: `int(val)` failed on this text, or the mapping's fetch
    failed (None) and `values.items()` was called on it.
   */
  datatype UpdateError = NotAnInteger(value: string) | FetchFailed(mapping: int)

  /** The fetch results the probe loop collects: None where the plugin exited non-zero. */
  type FetchResults = Dict<int, Option<Dict<string, string>>>

  /** The readings of one mapping's fetch result, in key order. */
  function MappingReadings(mapping: int, values: Dict<string, string>, timestamp: string): Result<seq<ReadingPayload>, UpdateError> {
    if values == [] then Ok([])
    else
      match MappingReadings(mapping, values[..|values| - 1], timestamp)
      case Err(e) => Err(e)
      case Ok(rs) =>
        var (key, val) := values[|values| - 1];
        match Text.ParseInt(val)
        case None => Err(NotAnInteger(val))
        case Some(v) => Ok(rs + [ReadingPayload(mapping, key, v, timestamp)])
  }

  /** The whole batch: every mapping's readings, mappings in order. */
  function Readings(fetched: Dict<int, Dict<string, string>>, timestamp: string): Result<seq<ReadingPayload>, UpdateError> {
    if fetched == [] then Ok([])
    else
      match Readings(fetched[..|fetched| - 1], timestamp)
      case Err(e) => Err(e)
      case Ok(rs) =>
        var (mapping, values) := fetched[|fetched| - 1];
        match MappingReadings(mapping, values, timestamp)
        case Err(e) => Err(e)
        case Ok(more) => Ok(rs + more)
  }

  /** The number of (mapping, key) pairs in a fetch result. */
  function Pairs(fetched: Dict<int, Dict<string, string>>): nat {
    if fetched == [] then 0 else Pairs(fetched[..|fetched| - 1]) + |fetched[|fetched| - 1].1|
  }

  /** A fetch value with this mapping id, key and integer value occurs in the result. */
  predicate Fetched(fetched: Dict<int, Dict<string, string>>, r: ReadingPayload) {
    exists m, k :: 0 <= m < |fetched| && 0 <= k < |fetched[m].1| && fetched[m].0 == r.service
      && fetched[m].1[k].0 == r.reading && Text.ParseInt(fetched[m].1[k].1) == Some(r.value)
  }

  /** A mapping's readings follow its values one to one: same key, the integer value, the one timestamp. */
  lemma {:induction false} MappingReadingsSpec(mapping: int, values: Dict<string, string>, timestamp: string)
    requires MappingReadings(mapping, values, timestamp).Ok?
    ensures var rs := MappingReadings(mapping, values, timestamp).value;
      && |rs| == |values|
      && forall k :: 0 <= k < |rs| ==>
           && rs[k].service == mapping && rs[k].reading == values[k].0 && rs[k].timestamp == timestamp
           && Text.ParseInt(values[k].1) == Some(rs[k].value)
  {
    if values != [] {
      var n := |values| - 1;
      var prefix := values[..n];
      MappingReadingsSpec(mapping, prefix, timestamp);
      var rs := MappingReadings(mapping, prefix, timestamp).value;
      var v := Text.ParseInt(values[n].1).value;
      var all := rs + [ReadingPayload(mapping, values[n].0, v, timestamp)];
      assert MappingReadings(mapping, values, timestamp) == Ok(all);
      ExtendReadings(mapping, values, timestamp, rs, all);
    }
  }

  lemma ExtendReadings(mapping: int, values: Dict<string, string>, timestamp: string, rs: seq<ReadingPayload>, all: seq<ReadingPayload>)
    requires values != [] && |rs| == |values| - 1
    requires forall k :: 0 <= k < |rs| ==>
           && rs[k].service == mapping && rs[k].reading == values[k].0 && rs[k].timestamp == timestamp
           && Text.ParseInt(values[k].1) == Some(rs[k].value)
    requires Text.ParseInt(values[|rs|].1).Some?
    requires all == rs + [ReadingPayload(mapping, values[|rs|].0, Text.ParseInt(values[|rs|].1).value, timestamp)]
    ensures forall k :: 0 <= k < |all| ==>
           && all[k].service == mapping && all[k].reading == values[k].0 && all[k].timestamp == timestamp
           && Text.ParseInt(values[k].1) == Some(all[k].value)
  {
  }

  /** What the prefix of the fetch result gives is still given by the whole. */
  lemma FetchedPrefix(fetched: Dict<int, Dict<string, string>>, n: nat, r: ReadingPayload)
    requires n <= |fetched| && Fetched(fetched[..n], r)
    ensures Fetched(fetched, r)
  {
    var prefix := fetched[..n];
    var m, k :| 0 <= m < |prefix| && 0 <= k < |prefix[m].1| && prefix[m].0 == r.service
      && prefix[m].1[k].0 == r.reading && Text.ParseInt(prefix[m].1[k].1) == Some(r.value);
    assert fetched[m] == prefix[m];
  }

  lemma FetchedLast(fetched: Dict<int, Dict<string, string>>, timestamp: string, r: ReadingPayload)
    requires fetched != []
    requires MappingReadings(fetched[|fetched| - 1].0, fetched[|fetched| - 1].1, timestamp).Ok?
    requires r in MappingReadings(fetched[|fetched| - 1].0, fetched[|fetched| - 1].1, timestamp).value
    ensures r.timestamp == timestamp && Fetched(fetched, r)
  {
    var n := |fetched| - 1;
    var (mapping, values) := fetched[n];
    MappingReadingsSpec(mapping, values, timestamp);
    var more := MappingReadings(mapping, values, timestamp).value;
    var k :| 0 <= k < |more| && more[k] == r;
    assert fetched[n].1[k] == values[k];
  }

  /**
    A successful update posts exactly one reading per (mapping, key) pair,
    each with the integer value of its text and the one timestamp.
   */
  lemma {:induction false} ReadingsSpec(fetched: Dict<int, Dict<string, string>>, timestamp: string)
    requires Readings(fetched, timestamp).Ok?
    ensures var rs := Readings(fetched, timestamp).value;
      && |rs| == Pairs(fetched)
      && forall r :: r in rs ==> r.timestamp == timestamp && Fetched(fetched, r)
  {
    if fetched != [] {
      var n := |fetched| - 1;
      var prefix := fetched[..n];
      ReadingsSpec(prefix, timestamp);
      var (mapping, values) := fetched[n];
      MappingReadingsSpec(mapping, values, timestamp);
      var rs := Readings(prefix, timestamp).value;
      var more := MappingReadings(mapping, values, timestamp).value;
      assert Readings(fetched, timestamp).value == rs + more;
      forall r: ReadingPayload | r in rs + more
        ensures r.timestamp == timestamp && Fetched(fetched, r)
      {
        if r in rs {
          FetchedPrefix(fetched, n, r);
        } else {
          FetchedLast(fetched, timestamp, r);
        }
      }
    }
  }

  /** Conversely, every pair of a successful update is posted. */
  lemma {:induction false} ReadingsComplete(fetched: Dict<int, Dict<string, string>>, timestamp: string, m: nat, k: nat)
    requires Readings(fetched, timestamp).Ok?
    requires m < |fetched| && k < |fetched[m].1|
    ensures Text.ParseInt(fetched[m].1[k].1).Some?
    ensures ReadingPayload(fetched[m].0, fetched[m].1[k].0, Text.ParseInt(fetched[m].1[k].1).value, timestamp)
      in Readings(fetched, timestamp).value
  {
    var n := |fetched| - 1;
    var prefix := fetched[..n];
    var rs := Readings(prefix, timestamp).value;
    var more := MappingReadings(fetched[n].0, fetched[n].1, timestamp).value;
    assert Readings(fetched, timestamp).value == rs + more;
    if m < n {
      assert prefix[m] == fetched[m];
      ReadingsComplete(prefix, timestamp, m, k);
    } else {
      assert m == n;
      LastMappingComplete(fetched[m].0, fetched[m].1, timestamp, k, rs);
    }
  }

  lemma LastMappingComplete(mapping: int, values: Dict<string, string>, timestamp: string, k: nat, rs: seq<ReadingPayload>)
    requires MappingReadings(mapping, values, timestamp).Ok? && k < |values|
    ensures Text.ParseInt(values[k].1).Some?
    ensures ReadingPayload(mapping, values[k].0, Text.ParseInt(values[k].1).value, timestamp)
      in rs + MappingReadings(mapping, values, timestamp).value
  {
    MappingReadingsSpec(mapping, values, timestamp);
    var more := MappingReadings(mapping, values, timestamp).value;
    assert (rs + more)[|rs| + k] == more[k];
  }

  /** A value that is not an integer makes the whole update fail. */
  lemma {:induction false} BadValueFails(fetched: Dict<int, Dict<string, string>>, timestamp: string, m: nat, k: nat)
    requires m < |fetched| && k < |fetched[m].1| && Text.ParseInt(fetched[m].1[k].1).None?
    ensures Readings(fetched, timestamp).Err?
  {
    if Readings(fetched, timestamp).Ok? {
      ReadingsComplete(fetched, timestamp, m, k);
    }
  }

  // ---------------------------------------------------------------------------
  // Failed fetches.

  /**
    The batch `update` builds from the fetch results as the probe loop passes
    them: a failed fetch fails the whole update.
   */
  function UpdateReadings(fetched: FetchResults, timestamp: string): Result<seq<ReadingPayload>, UpdateError> {
    if fetched == [] then Ok([])
    else
      match UpdateReadings(fetched[..|fetched| - 1], timestamp)
      case Err(e) => Err(e)
      case Ok(rs) =>
        var (mapping, values) := fetched[|fetched| - 1];
        if values.None? then Err(FetchFailed(mapping))
        else
          match MappingReadings(mapping, values.value, timestamp)
          case Err(e) => Err(e)
          case Ok(more) => Ok(rs + more)
  }

  /** The results of the fetches that succeeded, in order. */
  function Succeeded(fetched: FetchResults): (d: Dict<int, Dict<string, string>>)
    ensures |d| <= |fetched|
  {
    if fetched == [] then []
    else
      var (mapping, values) := fetched[|fetched| - 1];
      var d := Succeeded(fetched[..|fetched| - 1]);
      if values.None? then d else d + [(mapping, values.value)]
  }

  /** The intended batch: failed fetches are skipped and the others posted. */
  function SkipFailedReadings(fetched: FetchResults, timestamp: string): Result<seq<ReadingPayload>, UpdateError> {
    Readings(Succeeded(fetched), timestamp)
  }

  /** When every fetch succeeded, the batch is the readings of all their results. */
  lemma {:induction false} UpdateReadingsAllSucceeded(fetched: FetchResults, timestamp: string)
    requires forall i :: 0 <= i < |fetched| ==> fetched[i].1.Some?
    ensures |Succeeded(fetched)| == |fetched|
    ensures UpdateReadings(fetched, timestamp) == Readings(Succeeded(fetched), timestamp)
  {
    if fetched != [] {
      var n := |fetched| - 1;
      UpdateReadingsAllSucceeded(fetched[..n], timestamp);
      var d := Succeeded(fetched[..n]);
      var (mapping, values) := fetched[n];
      assert Succeeded(fetched) == d + [(mapping, values.value)];
      assert (d + [(mapping, values.value)])[..|d|] == d;
    }
  }

  /** As written, one failed fetch fails the whole update, so nothing is posted. */
  lemma {:induction false} FailedFetchFails(fetched: FetchResults, timestamp: string, m: nat)
    requires m < |fetched| && fetched[m].1.None?
    ensures UpdateReadings(fetched, timestamp).Err?
  {
    var n := |fetched| - 1;
    if m < n {
      assert fetched[..n][m] == fetched[m];
      FailedFetchFails(fetched[..n], timestamp, m);
    }
  }

  /** A probe whose only plugin run failed: the update fails as written and posts nothing once corrected. */
  lemma FailedFetchCrashes(mapping: int, timestamp: string)
    ensures UpdateReadings([(mapping, None)], timestamp) == Err(FetchFailed(mapping))
    ensures SkipFailedReadings([(mapping, None)], timestamp) == Ok([])
  {
    var f: FetchResults := [(mapping, None)];
    assert f[..0] == [];
  }

  /** A successful fetch's entry occurs among the succeeded results. */
  predicate FetchedOk(fetched: FetchResults, r: ReadingPayload) {
    exists m, k :: 0 <= m < |fetched| && fetched[m].1.Some? && 0 <= k < |fetched[m].1.value|
      && fetched[m].0 == r.service && fetched[m].1.value[k].0 == r.reading
      && Text.ParseInt(fetched[m].1.value[k].1) == Some(r.value)
  }

  /** Every succeeded result comes from a fetch that succeeded, with the same mapping and values. */
  lemma {:induction false} SucceededFrom(fetched: FetchResults, i: nat)
    requires i < |Succeeded(fetched)|
    ensures exists m :: 0 <= m < |fetched| && fetched[m] == (Succeeded(fetched)[i].0, Some(Succeeded(fetched)[i].1))
  {
    var n := |fetched| - 1;
    var d := Succeeded(fetched[..n]);
    if i < |d| {
      SucceededFrom(fetched[..n], i);
      var m :| 0 <= m < n && fetched[..n][m] == (d[i].0, Some(d[i].1));
      assert fetched[m] == fetched[..n][m];
    } else {
      assert fetched[n] == (Succeeded(fetched)[i].0, Some(Succeeded(fetched)[i].1));
    }
  }

  /**
    With failed fetches skipped, a successful update posts one reading per pair
    of the succeeded results, and every reading comes from a fetch that succeeded.
   */
  lemma SkipFailedSpec(fetched: FetchResults, timestamp: string)
    requires SkipFailedReadings(fetched, timestamp).Ok?
    ensures var rs := SkipFailedReadings(fetched, timestamp).value;
      && |rs| == Pairs(Succeeded(fetched))
      && forall r :: r in rs ==> r.timestamp == timestamp && FetchedOk(fetched, r)
  {
    var d := Succeeded(fetched);
    ReadingsSpec(d, timestamp);
    forall r | r in Readings(d, timestamp).value ensures FetchedOk(fetched, r) {
      var i, k :| 0 <= i < |d| && 0 <= k < |d[i].1| && d[i].0 == r.service
        && d[i].1[k].0 == r.reading && Text.ParseInt(d[i].1[k].1) == Some(r.value);
      SucceededFrom(fetched, i);
    }
  }

  /** A failed fetch adds nothing to the corrected batch and cannot fail it. */
  lemma FailedFetchSkipped(fetched: FetchResults, mapping: int, timestamp: string)
    ensures SkipFailedReadings(fetched + [(mapping, None)], timestamp) == SkipFailedReadings(fetched, timestamp)
  {
    assert (fetched + [(mapping, None)])[..|fetched|] == fetched;
  }

  // ---------------------------------------------------------------------------
  // The server connection.

  class Server {
    const probeName: string
    /** The plugins last registered; None before the first registration. */
    var services: Option<Dict<string, PluginService.ServiceInfo>>

    constructor (probeName: string)
      ensures this.probeName == probeName && services == None
    {
      this.probeName := probeName;
      services := None;
    }

    /** `register_probe`: remembers the plugins and gives the body of `PUT probe`. */
    method RegisterProbe(services: Dict<string, PluginService.ServiceInfo>) returns (payload: ProbePayload)
      modifies this`services
      ensures this.services == Some(services)
      ensures payload == RegistrationPayload(probeName, services)
    {
      this.services := Some(services);
      payload := ProbePayload(probeName, seq(|services|, i requires 0 <= i < |services| => ServicePayloadOf(services[i].1)));
    }

    /** `get_mapped_services` over the server's answer; the plugins must have been registered. */
    method GetMappedServices(rows: seq<MappingRow>) returns (out: seq<ServiceMapping>)
      requires services.Some?
      ensures out == MappedServices(services.value, rows)
    {
      var local := services.value;
      out := [];
      var i := 0;
      while i < |rows|
        invariant 0 <= i <= |rows|
        invariant out == MappedServices(local, rows[..i])
      {
        var row := rows[i];
        assert rows[..i + 1][..i] == rows[..i];
        var found := Get(local, row.service);
        if found.Some? {
          var options: Dict<string, string> := [];
          var j := 0;
          while j < |row.options|
            invariant 0 <= j <= |row.options|
            invariant options == MappingOptions(row.options[..j])
          {
            assert row.options[..j + 1][..j] == row.options[..j];
            if row.options[j].value.Some? {
              options := Put(options, row.options[j].identifier, row.options[j].value.value);
            }
            j := j + 1;
          }
          assert row.options[..j] == row.options;
          out := out + [ServiceMapping(row.id, found.value, options, row.name)];
        }
        i := i + 1;
      }
      assert rows[..i] == rows;
    }

    /**
      `update`: the body of `PUT /readings/{probe}`, or what made it raise: a
      value `int()` rejects, or a failed fetch.
     */
    method Update(fetched: FetchResults, timestamp: string) returns (r: Result<seq<ReadingPayload>, UpdateError>)
      ensures r == UpdateReadings(fetched, timestamp)
    {
      var readings: seq<ReadingPayload> := [];
      var i := 0;
      while i < |fetched|
        invariant 0 <= i <= |fetched|
        invariant UpdateReadings(fetched[..i], timestamp) == Ok(readings)
      {
        var (mapping, fetch) := fetched[i];
        assert fetched[..i + 1][..i] == fetched[..i];
        if fetch.None? {
          PrefixErrorStays(fetched, timestamp, i + 1);
          return Err(FetchFailed(mapping));
        }
        var values := fetch.value;
        var j := 0;
        var more: seq<ReadingPayload> := [];
        while j < |values|
          invariant 0 <= j <= |values|
          invariant MappingReadings(mapping, values[..j], timestamp) == Ok(more)
        {
          assert values[..j + 1][..j] == values[..j];
          var v := Text.ParseInt(values[j].1);
          if v.None? {
            MappingPrefixErrorStays(mapping, values, timestamp, j + 1);
            PrefixErrorStays(fetched, timestamp, i + 1);
            return Err(NotAnInteger(values[j].1));
          }
          more := more + [ReadingPayload(mapping, values[j].0, v.value, timestamp)];
          j := j + 1;
        }
        assert values[..j] == values;
        readings := readings + more;
        i := i + 1;
      }
      assert fetched[..i] == fetched;
      return Ok(readings);
    }
  }

  lemma {:induction false} MappingPrefixErrorStays(mapping: int, values: Dict<string, string>, timestamp: string, k: nat)
    requires k <= |values| && MappingReadings(mapping, values[..k], timestamp).Err?
    ensures MappingReadings(mapping, values, timestamp) == MappingReadings(mapping, values[..k], timestamp)
    decreases |values| - k
  {
    if k < |values| {
      assert values[..k + 1][..k] == values[..k];
      MappingPrefixErrorStays(mapping, values, timestamp, k + 1);
    } else {
      assert values[..k] == values;
    }
  }

  lemma {:induction false} PrefixErrorStays(fetched: FetchResults, timestamp: string, k: nat)
    requires k <= |fetched| && UpdateReadings(fetched[..k], timestamp).Err?
    ensures UpdateReadings(fetched, timestamp) == UpdateReadings(fetched[..k], timestamp)
    decreases |fetched| - k
  {
    if k < |fetched| {
      assert fetched[..k + 1][..k] == fetched[..k];
      PrefixErrorStays(fetched, timestamp, k + 1);
    } else {
      assert fetched[..k] == fetched;
    }
  }
}
