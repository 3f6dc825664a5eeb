/**
  The mapped services of the server and the two requests that change them:
  creating mappings for a probe's services and editing existing mappings.
  Each request is all or nothing: on failure nothing is stored.
 */
module ServicesStore {
  import opened Wrappers
  import opened Dicts
  import opened Entities
  import opened ServicesUpdate
  import opened ServicesPatch

  /** The service with this id, if any. */
  function ServiceById(services: seq<ServiceDef>, id: int): (r: Option<ServiceDef>)
    ensures r.Some? ==> r.value in services && r.value.id == id
    ensures r.None? ==> forall s :: s in services ==> s.id != id
  {
    if services == [] then None
    else if services[0].id == id then Some(services[0])
    else ServiceById(services[1..], id)
  }

  /** The mapping exists and maps one of the probe's services: the join of the edit query finds it. */
  predicate Owned(services: seq<ServiceDef>, mappings: map<int, Mapping>, probe: string, id: int) {
    && id in mappings
    && ServiceById(services, mappings[id].row.probeServiceId).Some?
    && ServiceById(services, mappings[id].row.probeServiceId).value.probe == probe
  }

  function RequestIds(reqs: seq<PatchRequest>): seq<int> {
    seq(|reqs|, i requires 0 <= i < |reqs| => reqs[i].id)
  }

  /** The ids the edit query finds. */
  function FoundIds(services: seq<ServiceDef>, mappings: map<int, Mapping>, probe: string, reqs: seq<PatchRequest>): (r: set<int>)
    ensures r <= Elements(RequestIds(reqs))
  {
    var r := set i | 0 <= i < |reqs| && Owned(services, mappings, probe, reqs[i].id) :: reqs[i].id;
    assert forall i :: 0 <= i < |reqs| ==> reqs[i].id == RequestIds(reqs)[i];
    r
  }

  /** The row count matches the request exactly when every id is found and none is sent twice. */
  lemma FoundIdsCount(services: seq<ServiceDef>, mappings: map<int, Mapping>, probe: string, reqs: seq<PatchRequest>)
    ensures |FoundIds(services, mappings, probe, reqs)| == |reqs| <==>
      (forall i :: 0 <= i < |reqs| ==> Owned(services, mappings, probe, reqs[i].id)) && Distinct(RequestIds(reqs))
  {
    var ids := RequestIds(reqs);
    var found := FoundIds(services, mappings, probe, reqs);
    FoundCount(found, ids);
    if forall i :: 0 <= i < |reqs| ==> Owned(services, mappings, probe, reqs[i].id) {
      forall x | x in Elements(ids) ensures x in found {
        var i :| 0 <= i < |ids| && ids[i] == x;
      }
    }
    if found == Elements(ids) {
      forall i | 0 <= i < |reqs| ensures Owned(services, mappings, probe, reqs[i].id) {
        assert ids[i] in Elements(ids);
      }
    }
  }

  /** Every request names a mapping whose service is known. */
  predicate Patchable(services: seq<ServiceDef>, orig: map<int, Mapping>, reqs: seq<PatchRequest>) {
    forall i :: 0 <= i < |reqs| ==> reqs[i].id in orig && ServiceById(services, orig[reqs[i].id].row.probeServiceId).Some?
  }

  /** The service of mapping `id`. */
  function ServiceOf(services: seq<ServiceDef>, orig: map<int, Mapping>, id: int): ServiceDef
    requires id in orig && ServiceById(services, orig[id].row.probeServiceId).Some?
  {
    ServiceById(services, orig[id].row.probeServiceId).value
  }

  /** The edits of a request, in order, each applied to the mapping as the earlier ones left it. */
  function ApplyPatches(services: seq<ServiceDef>, orig: map<int, Mapping>, reqs: seq<PatchRequest>, c: Consts,
                        toDouble: string -> Option<string>, corrected: bool): (r: Result<map<int, Mapping>, UpdateError>)
    requires Patchable(services, orig, reqs)
    ensures r.Ok? ==> r.value.Keys == orig.Keys
    ensures r.Err? ==> r.error != NotFound
  {
    if reqs == [] then Ok(orig)
    else
      var n := |reqs| - 1;
      assert Patchable(services, orig, reqs[..n]) by {
        assert forall i :: 0 <= i < n ==> reqs[..n][i] == reqs[i];
      }
      match ApplyPatches(services, orig, reqs[..n], c, toDouble, corrected)
      case Err(e) => Err(e)
      case Ok(acc) =>
        var id := reqs[n].id;
        match PatchOne(acc[id], ServiceOf(services, orig, id), reqs[n], c, toDouble, corrected)
        case Err(e) => Err(e)
        case Ok(m) => Ok(acc[id := m])
  }

  /** The edit request: an unknown probe is a 500, an id not found or sent twice a 404. */
  function PatchAll(probes: set<string>, services: seq<ServiceDef>, mappings: map<int, Mapping>, probe: string,
                    reqs: seq<PatchRequest>, c: Consts, toDouble: string -> Option<string>, corrected: bool)
      : Result<map<int, Mapping>, UpdateError>
  {
    if probe !in probes then Err(InternalError)
    else if |FoundIds(services, mappings, probe, reqs)| != |reqs| then Err(NotFound)
    else
      FoundIdsCount(services, mappings, probe, reqs);
      ApplyPatches(services, mappings, reqs, c, toDouble, corrected)
  }

  /** The edit request as written. */
  function PatchMappingsAsWritten(probes: set<string>, services: seq<ServiceDef>, mappings: map<int, Mapping>, probe: string,
                                  reqs: seq<PatchRequest>, c: Consts, toDouble: string -> Option<string>)
      : Result<map<int, Mapping>, UpdateError>
  {
    PatchAll(probes, services, mappings, probe, reqs, c, toDouble, false)
  }

  /** The edit request with the corrected reactivation. */
  function PatchMappings(probes: set<string>, services: seq<ServiceDef>, mappings: map<int, Mapping>, probe: string,
                         reqs: seq<PatchRequest>, c: Consts, toDouble: string -> Option<string>)
      : (r: Result<map<int, Mapping>, UpdateError>)
    ensures probe !in probes ==> r == Err(InternalError)
    ensures r.Ok? ==> r.value.Keys == mappings.Keys
  {
    PatchAll(probes, services, mappings, probe, reqs, c, toDouble, true)
  }

  /** Without repeated ids, the last id is not among the earlier ones, and the earlier ones repeat none. */
  lemma DistinctIdsPrefix(reqs: seq<PatchRequest>)
    requires reqs != [] && Distinct(RequestIds(reqs))
    ensures Distinct(RequestIds(reqs[..|reqs| - 1]))
    ensures reqs[|reqs| - 1].id !in RequestIds(reqs[..|reqs| - 1])
    ensures forall i :: 0 <= i < |reqs| - 1 ==> reqs[i].id != reqs[|reqs| - 1].id
  {
    var n := |reqs| - 1;
    var init := reqs[..n];
    assert RequestIds(reqs) == RequestIds(init) + [reqs[n].id];
    forall i, j | 0 <= i < j < n ensures RequestIds(init)[i] != RequestIds(init)[j] {
      assert RequestIds(reqs)[i] != RequestIds(reqs)[j];
    }
    forall i | 0 <= i < n ensures RequestIds(init)[i] != reqs[n].id && reqs[i].id != reqs[n].id {
      assert RequestIds(reqs)[i] != RequestIds(reqs)[n];
    }
  }

  /** With distinct ids, the request fails exactly when one edit of an original mapping fails. */
  lemma {:induction false} ApplyPatchesOk(services: seq<ServiceDef>, orig: map<int, Mapping>, reqs: seq<PatchRequest>,
                                          c: Consts, toDouble: string -> Option<string>, corrected: bool)
    requires Patchable(services, orig, reqs) && Distinct(RequestIds(reqs))
    ensures ApplyPatches(services, orig, reqs, c, toDouble, corrected).Ok? <==>
      forall i :: 0 <= i < |reqs| ==> PatchOne(orig[reqs[i].id], ServiceOf(services, orig, reqs[i].id), reqs[i], c, toDouble, corrected).Ok?
    ensures ApplyPatches(services, orig, reqs, c, toDouble, corrected).Ok? ==>
      forall id :: id in orig && id !in RequestIds(reqs) ==> ApplyPatches(services, orig, reqs, c, toDouble, corrected).value[id] == orig[id]
  {
    if reqs != [] {
      var n := |reqs| - 1;
      var init := reqs[..n];
      assert forall i :: 0 <= i < n ==> init[i] == reqs[i];
      DistinctIdsPrefix(reqs);
      assert RequestIds(reqs) == RequestIds(init) + [reqs[n].id];
      ApplyPatchesOk(services, orig, init, c, toDouble, corrected);
      var prev := ApplyPatches(services, orig, init, c, toDouble, corrected);
      if prev.Err? {
        var i :| 0 <= i < n && PatchOne(orig[init[i].id], ServiceOf(services, orig, init[i].id), init[i], c, toDouble, corrected).Err?;
        assert reqs[i] == init[i];
      } else {
        var id := reqs[n].id;
        assert prev.value[id] == orig[id];
        var p := PatchOne(orig[id], ServiceOf(services, orig, id), reqs[n], c, toDouble, corrected);
        assert ApplyPatches(services, orig, reqs, c, toDouble, corrected) ==
               if p.Ok? then Ok(prev.value[id := p.value]) else Err(p.error);
      }
    }
  }

  /** With distinct ids, every mapping sent is its own edit of its original state. */
  lemma {:induction false} ApplyPatchesEdits(services: seq<ServiceDef>, orig: map<int, Mapping>, reqs: seq<PatchRequest>,
                                             c: Consts, toDouble: string -> Option<string>, corrected: bool)
    requires Patchable(services, orig, reqs) && Distinct(RequestIds(reqs))
    requires ApplyPatches(services, orig, reqs, c, toDouble, corrected).Ok?
    ensures forall i :: 0 <= i < |reqs| ==>
      && PatchOne(orig[reqs[i].id], ServiceOf(services, orig, reqs[i].id), reqs[i], c, toDouble, corrected).Ok?
      && ApplyPatches(services, orig, reqs, c, toDouble, corrected).value[reqs[i].id]
           == PatchOne(orig[reqs[i].id], ServiceOf(services, orig, reqs[i].id), reqs[i], c, toDouble, corrected).value
  {
    if reqs != [] {
      var n := |reqs| - 1;
      var init := reqs[..n];
      assert forall i :: 0 <= i < n ==> init[i] == reqs[i];
      DistinctIdsPrefix(reqs);
      ApplyPatchesOk(services, orig, init, c, toDouble, corrected);
      var prev := ApplyPatches(services, orig, init, c, toDouble, corrected);
      assert prev.Ok?;
      ApplyPatchesEdits(services, orig, init, c, toDouble, corrected);
      var id := reqs[n].id;
      assert prev.value[id] == orig[id];
      var p := PatchOne(orig[id], ServiceOf(services, orig, id), reqs[n], c, toDouble, corrected);
      assert p.Ok? && ApplyPatches(services, orig, reqs, c, toDouble, corrected).value == prev.value[id := p.value];
    }
  }

  /**
    The edit request: a 500 for an unknown probe, a 404 exactly when an id
    is not one of the probe's mappings or is sent twice, and otherwise each
    mapping sent edited once from its stored state, the others unchanged.
   */
  lemma PatchMappingsSpec(probes: set<string>, services: seq<ServiceDef>, mappings: map<int, Mapping>, probe: string,
                          reqs: seq<PatchRequest>, c: Consts, toDouble: string -> Option<string>)
    ensures probe !in probes ==> PatchMappings(probes, services, mappings, probe, reqs, c, toDouble) == Err(InternalError)
    ensures probe in probes ==>
      (PatchMappings(probes, services, mappings, probe, reqs, c, toDouble) == Err(NotFound) <==>
        (exists i :: 0 <= i < |reqs| && !Owned(services, mappings, probe, reqs[i].id)) || !Distinct(RequestIds(reqs)))
    ensures PatchMappings(probes, services, mappings, probe, reqs, c, toDouble).Ok? ==>
      var r := PatchMappings(probes, services, mappings, probe, reqs, c, toDouble).value;
      && r.Keys == mappings.Keys
      && (forall i :: 0 <= i < |reqs| ==>
            Owned(services, mappings, probe, reqs[i].id) &&
            PatchOne(mappings[reqs[i].id], ServiceOf(services, mappings, reqs[i].id), reqs[i], c, toDouble, true).Ok? &&
            r[reqs[i].id] == PatchOne(mappings[reqs[i].id], ServiceOf(services, mappings, reqs[i].id), reqs[i], c, toDouble, true).value)
      && (forall id :: id in mappings && id !in RequestIds(reqs) ==> r[id] == mappings[id])
  {
    FoundIdsCount(services, mappings, probe, reqs);
    if probe in probes && |FoundIds(services, mappings, probe, reqs)| == |reqs| {
      ApplyPatchesOk(services, mappings, reqs, c, toDouble, true);
      if ApplyPatches(services, mappings, reqs, c, toDouble, true).Ok? {
        ApplyPatchesEdits(services, mappings, reqs, c, toDouble, true);
      }
    }
  }

  lemma PatchablePrefix(services: seq<ServiceDef>, orig: map<int, Mapping>, reqs: seq<PatchRequest>, i: nat)
    requires Patchable(services, orig, reqs) && i <= |reqs|
    ensures Patchable(services, orig, reqs[..i])
  {
    assert forall j :: 0 <= j < i ==> reqs[..i][j] == reqs[j];
  }

  /** A failed edit fails the request, whatever edits follow. */
  lemma {:induction false} PatchErrorStays(services: seq<ServiceDef>, orig: map<int, Mapping>, reqs: seq<PatchRequest>,
                                           c: Consts, toDouble: string -> Option<string>, corrected: bool, i: nat, e: UpdateError)
    requires Patchable(services, orig, reqs) && i <= |reqs|
    requires Patchable(services, orig, reqs[..i])
    requires ApplyPatches(services, orig, reqs[..i], c, toDouble, corrected) == Err(e)
    ensures ApplyPatches(services, orig, reqs, c, toDouble, corrected) == Err(e)
    decreases |reqs| - i
  {
    if i < |reqs| {
      assert reqs[..i + 1][..i] == reqs[..i];
      PatchablePrefix(services, orig, reqs, i + 1);
      PatchErrorStays(services, orig, reqs, c, toDouble, corrected, i + 1, e);
    } else {
      assert reqs[..i] == reqs;
    }
  }

  // ---------------------------------------------------------------------------
  // The stored mappings.

  /** The mappings created, numbered in order from `next`. */
  function Numbered(mappings: map<int, Mapping>, next: int, created: seq<Mapping>): (r: map<int, Mapping>)
    ensures forall id :: id in r <==> id in mappings || next <= id < next + |created|
    ensures forall i :: 0 <= i < |created| ==> r[next + i] == created[i]
    ensures forall id :: id in mappings && !(next <= id < next + |created|) ==> r[id] == mappings[id]
  {
    if created == [] then mappings
    else
      var n := |created| - 1;
      var r := Numbered(mappings, next, created[..n])[next + n := created[n]];
      assert forall i :: 0 <= i < n ==> created[..n][i] == created[i];
      r
  }

  /**
    The mapped services of the server, with the probes and services they
    may refer to, and the id the next created mapping gets.
   */
  class MappingStore {
    var probes: set<string>
    var services: seq<ServiceDef>
    var mappings: map<int, Mapping>
    var nextId: int

    /** Every stored mapping has an id below the next one. */
    ghost predicate Valid()
      reads this
    {
      forall id :: id in mappings ==> id < nextId
    }

    constructor(probes: set<string>, services: seq<ServiceDef>)
      ensures this.probes == probes && this.services == services && mappings == map[] && nextId == 1
      ensures Valid()
    {
      this.probes := probes;
      this.services := services;
      mappings := map[];
      nextId := 1;
    }

    /**
      A creation request for the probe: on failure nothing is stored; on
      success the mappings `PutMappings` creates are stored under fresh ids,
      in order, and no stored mapping changes.
     */
    method Put(probe: string, data: seq<NewMapping>, c: Consts, toDouble: string -> Option<string>)
        returns (r: Result<(), UpdateError>)
      requires Valid()
      modifies this
      ensures Valid()
      ensures probes == old(probes) && services == old(services)
      ensures r.Err? ==>
        mappings == old(mappings) && nextId == old(nextId) && PutMappings(probes, services, probe, data, c, toDouble) == Err(r.error)
      ensures r.Ok? ==>
        && PutMappings(probes, services, probe, data, c, toDouble).Ok?
        && var created := PutMappings(probes, services, probe, data, c, toDouble).value;
           mappings == Numbered(old(mappings), old(nextId), created) && nextId == old(nextId) + |created|
    {
      var known := services;
      if probe !in probes {
        return Err(InternalError);
      }
      if !Resolvable(known, probe, data) {
        return Err(NotFound);
      }
      ResolvableNames(known, probe, data);
      var built := BuildLoop(known, probe, data, c, toDouble);
      if built.Err? {
        return Err(built.error);
      }
      var created := built.value;
      mappings := NumberLoop(mappings, nextId, created);
      nextId := nextId + |created|;
      r := Ok(());
    }

    /**
      An edit request for the probe: on failure nothing is stored; on
      success the stored mappings are those `PatchMappings` gives.
     */
    method Patch(probe: string, reqs: seq<PatchRequest>, c: Consts, toDouble: string -> Option<string>)
        returns (r: Result<(), UpdateError>)
      requires Valid()
      modifies this
      ensures Valid()
      ensures probes == old(probes) && services == old(services) && nextId == old(nextId)
      ensures r.Err? ==> mappings == old(mappings) && PatchMappings(probes, services, old(mappings), probe, reqs, c, toDouble) == Err(r.error)
      ensures r.Ok? ==> PatchMappings(probes, services, old(mappings), probe, reqs, c, toDouble) == Ok(mappings)
    {
      var known, stored := services, mappings;
      if probe !in probes {
        return Err(InternalError);
      }
      if |FoundIds(known, stored, probe, reqs)| != |reqs| {
        return Err(NotFound);
      }
      FoundIdsCount(known, stored, probe, reqs);
      var acc := stored;
      for i := 0 to |reqs|
        invariant unchanged(this)
        invariant Patchable(known, stored, reqs[..i])
        invariant ApplyPatches(known, stored, reqs[..i], c, toDouble, true) == Ok(acc)
      {
        PatchablePrefix(known, stored, reqs, i + 1);
        assert reqs[..i + 1][..i] == reqs[..i];
        var id := reqs[i].id;
        var edited := PatchMapping(acc[id], ServiceOf(known, stored, id), reqs[i], c, toDouble);
        match edited {
          case Err(e) =>
            PatchErrorStays(known, stored, reqs, c, toDouble, true, i + 1, e);
            return Err(e);
          case Ok(m) =>
            acc := acc[id := m];
        }
      }
      assert reqs[..|reqs|] == reqs;
      mappings := acc;
      r := Ok(());
    }
  }

  /** One edit, with the sync and the deletion as the loops they are. */
  method PatchMapping(m: Mapping, svc: ServiceDef, req: PatchRequest, c: Consts, toDouble: string -> Option<string>)
      returns (r: Result<Mapping, UpdateError>)
    ensures r == PatchOne(m, svc, req, c, toDouble, true)
  {
    var row := EditRow(m.row, req, c);
    if req.options.None? {
      return Ok(Mapping(row, m.values));
    }
    var existing := Keys(m.values);
    var synced := SyncSentLoop(svc.options, existing, m.values, req.options.value, toDouble);
    if synced.Err? {
      return Err(synced.error);
    }
    var values := DropUnsent(synced.value.values, existing, synced.value.found);
    if RequiredStored(svc.options, values) && MissingOption(row, c) {
      row := row.(statusId := c.active, errorCauseId := None);
    }
    r := Ok(Mapping(row, values));
  }

  /** The loop building the new mappings, in request order. */
  method BuildLoop(services: seq<ServiceDef>, probe: string, data: seq<NewMapping>, c: Consts, toDouble: string -> Option<string>)
      returns (r: Result<seq<Mapping>, UpdateError>)
    requires forall i :: 0 <= i < |data| ==> ServiceNamed(services, probe, data[i].service).Some?
    ensures r == BuildMappings(services, probe, data, c, toDouble, true)
  {
    var created: seq<Mapping> := [];
    for i := 0 to |data|
      invariant BuildMappings(services, probe, data[..i], c, toDouble, true) == Ok(created)
    {
      assert data[..i + 1][..i] == data[..i];
      var svc := ServiceNamed(services, probe, data[i].service).value;
      var filled := FillOptionsLoop(svc.options, data[i].options, toDouble);
      match filled {
        case Err(e) =>
          BuildErrorStays(services, probe, data, c, toDouble, i + 1, e);
          return Err(e);
        case Ok(f) =>
          var row := MappedService(svc.id, data[i].name, data[i].description.GetOr(""),
                                   if f.requiredSet then c.active else c.error,
                                   if f.requiredSet then None else Some(c.missingRequiredOption), None, None);
          assert NewMappingOf(svc, data[i], c, toDouble) == Ok(Mapping(row, f.values));
          created := created + [Mapping(row, f.values)];
      }
    }
    assert data[..|data|] == data;
    r := Ok(created);
  }

  /** The loop storing the new mappings under consecutive ids. */
  method NumberLoop(mappings: map<int, Mapping>, next: int, created: seq<Mapping>) returns (m: map<int, Mapping>)
    ensures m == Numbered(mappings, next, created)
  {
    m := mappings;
    for i := 0 to |created|
      invariant m == Numbered(mappings, next, created[..i])
    {
      assert created[..i + 1][..i] == created[..i];
      m := m[next + i := created[i]];
    }
    assert created[..|created|] == created;
  }

  /** A failed mapping fails the creation request, whatever mappings follow. */
  lemma {:induction false} BuildErrorStays(services: seq<ServiceDef>, probe: string, data: seq<NewMapping>, c: Consts,
                                           toDouble: string -> Option<string>, i: nat, e: UpdateError)
    requires forall j :: 0 <= j < |data| ==> ServiceNamed(services, probe, data[j].service).Some?
    requires i <= |data| && BuildMappings(services, probe, data[..i], c, toDouble, true) == Err(e)
    ensures BuildMappings(services, probe, data, c, toDouble, true) == Err(e)
    decreases |data| - i
  {
    if i < |data| {
      assert data[..i + 1][..i] == data[..i];
      BuildErrorStays(services, probe, data, c, toDouble, i + 1, e);
    } else {
      assert data[..i] == data;
    }
  }
}
