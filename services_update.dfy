/**
  Creating and editing mapped services: a mapping is one use of a probe's
  service under its own name, with its own option values and a life-cycle
  status that leaves and re-enters "error" as required options go missing
  and are filled in.
 */
module ServicesUpdate {
  import opened Wrappers
  import opened Dicts
  import opened Entities
  import opened OptionValues

  /** A row of `probe_service_options`. */
  datatype OptionDef = OptionDef(id: int, identifier: string, dataType: string, required: bool)

  /** A row of `probe_services` with its options. */
  datatype ServiceDef = ServiceDef(id: int, probe: string, name: string, options: seq<OptionDef>)

  /** A mapped service: its row and its stored option values, keyed by option id. */
  datatype Mapping = Mapping(row: MappedService, values: Dict<int, string>)

  /**
    How a request fails, with nothing stored: `abort(404)`, `abort(400)`, or
    an exception the handler does not catch (a 500).
   */
  datatype UpdateError = NotFound | Invalid | InternalError

  /** One element of the body of a creation request. */
  datatype NewMapping = NewMapping(name: string, description: Option<string>, service: string, options: Option<Dict<string, string>>)

  predicate Distinct<T(==)>(xs: seq<T>) {
    forall i, j :: 0 <= i < j < |xs| ==> xs[i] != xs[j]
  }

  function Elements<T>(xs: seq<T>): set<T> {
    set x | x in xs
  }

  lemma {:induction false} ElementsCount<T>(xs: seq<T>)
    ensures |Elements(xs)| <= |xs|
    ensures |Elements(xs)| == |xs| <==> Distinct(xs)
  {
    if xs != [] {
      var n := |xs| - 1;
      ElementsCount(xs[..n]);
      assert xs == xs[..n] + [xs[n]];
      assert Elements(xs) == Elements(xs[..n]) + {xs[n]};
      if xs[n] in xs[..n] {
        assert !Distinct(xs) by {
          var i :| 0 <= i < n && xs[..n][i] == xs[n];
          assert xs[i] == xs[n];
        }
      } else {
        assert Distinct(xs) <==> Distinct(xs[..n]) by {
          if Distinct(xs[..n]) {
            forall i, j | 0 <= i < j < |xs| ensures xs[i] != xs[j] {
              if j < n {
                assert xs[..n][i] == xs[i] && xs[..n][j] == xs[j];
              } else {
                assert xs[i] in xs[..n];
              }
            }
          }
          if Distinct(xs) {
            forall i, j | 0 <= i < j < n ensures xs[..n][i] != xs[..n][j] {
              assert xs[..n][i] == xs[i] && xs[..n][j] == xs[j];
            }
          }
        }
      }
    }
  }

  /**
    The row-count test of the request handlers: the rows found for the
    requested keys are as many as the keys exactly when every key is found
    and no key is requested twice.
   */
  lemma FoundCount<T>(found: set<T>, xs: seq<T>)
    requires found <= Elements(xs)
    ensures |found| == |xs| <==> found == Elements(xs) && Distinct(xs)
  {
    ElementsCount(xs);
    var rest := Elements(xs) - found;
    assert Elements(xs) == found + rest && found * rest == {};
    assert |Elements(xs)| == |found| + |rest|;
    if |found| == |xs| {
      assert |rest| == 0;
      assert rest == {};
    }
  }

  // ---------------------------------------------------------------------------
  // Creating mappings.

  /** `mapping.get("options", {}).get(identifier, "")`. */
  function Given(options: Option<Dict<string, string>>, identifier: string): string {
    Get(options.GetOr([]), identifier).GetOr("")
  }

  /** The option values gathered for a new mapping, and whether every required option got one. */
  datatype Filled = Filled(values: Dict<int, string>, requiredSet: bool)

  /**
    The loop over the service's options: an empty value is skipped (and
    clears `requiredSet` when the option is required); any other value is
    normalised and stored, or rejects the whole request.
   */
  function FillOptions(options: seq<OptionDef>, given: Option<Dict<string, string>>, toDouble: string -> Option<string>)
      : Result<Filled, UpdateError>
  {
    if options == [] then Ok(Filled([], true))
    else
      var n := |options| - 1;
      match FillOptions(options[..n], given, toDouble)
      case Err(e) => Err(e)
      case Ok(f) => FillOption(f, options[n], given, toDouble)
  }

  /** One option of the loop. */
  function FillOption(f: Filled, o: OptionDef, given: Option<Dict<string, string>>, toDouble: string -> Option<string>)
      : Result<Filled, UpdateError>
  {
    var v := Given(given, o.identifier);
    if v == "" then Ok(f.(requiredSet := f.requiredSet && !o.required))
    else
      match Normalise(o.dataType, v, toDouble)
      case Err(_) => Err(Invalid)
      case Ok(x) => Ok(f.(values := f.values + [(o.id, x)]))
  }

  /** Option o is sent empty or not at all. */
  predicate Empty(o: OptionDef, given: Option<Dict<string, string>>) {
    Given(given, o.identifier) == ""
  }

  /** Option o's value is sent and its type rejects it. */
  predicate Rejects(o: OptionDef, given: Option<Dict<string, string>>, toDouble: string -> Option<string>) {
    !Empty(o, given) && Normalise(o.dataType, Given(given, o.identifier), toDouble).Err?
  }

  /** The stored entry of option o: its id with its normalised value. */
  function Entry(o: OptionDef, given: Option<Dict<string, string>>, toDouble: string -> Option<string>): (int, string)
    requires !Empty(o, given) && !Rejects(o, given, toDouble)
  {
    (o.id, Normalise(o.dataType, Given(given, o.identifier), toDouble).value)
  }

  /** The values stored for a mapping are exactly the non-empty values sent, normalised. */
  predicate StoresSent(options: seq<OptionDef>, given: Option<Dict<string, string>>, toDouble: string -> Option<string>,
                       values: Dict<int, string>) {
    && (forall o :: o in options && !Empty(o, given) ==> !Rejects(o, given, toDouble) && Entry(o, given, toDouble) in values)
    && (forall e :: e in values ==> exists o :: o in options && !Empty(o, given) && !Rejects(o, given, toDouble) && e == Entry(o, given, toDouble))
  }

  /**
    One option fails the request exactly when its value is rejected; an empty
    one clears `requiredSet` when it is required, any other one adds its entry.
   */
  lemma FillOptionSpec(f: Filled, o: OptionDef, given: Option<Dict<string, string>>, toDouble: string -> Option<string>)
    ensures var r := FillOption(f, o, given, toDouble);
      && (r.Err? <==> Rejects(o, given, toDouble))
      && (r.Err? ==> r.error == Invalid)
      && (r.Ok? && Empty(o, given) ==> r.value == f.(requiredSet := f.requiredSet && !o.required))
      && (r.Ok? && !Empty(o, given) ==> r.value == f.(values := f.values + [Entry(o, given, toDouble)]))
  {
  }

  /** The request fails exactly when some non-empty value is rejected, and then as invalid. */
  lemma {:induction false} FillOptionsErr(options: seq<OptionDef>, given: Option<Dict<string, string>>, toDouble: string -> Option<string>)
    ensures FillOptions(options, given, toDouble).Err? <==> exists o :: o in options && Rejects(o, given, toDouble)
    ensures FillOptions(options, given, toDouble).Err? ==> FillOptions(options, given, toDouble).error == Invalid
  {
    if options != [] {
      var n := |options| - 1;
      var init, o := options[..n], options[n];
      FillOptionsErr(init, given, toDouble);
      var before := FillOptions(init, given, toDouble);
      var r := FillOptions(options, given, toDouble);
      if before.Err? {
        assert r == before;
        var p :| p in init && Rejects(p, given, toDouble);
        var k :| 0 <= k < n && init[k] == p;
        assert options[k] == p;
      } else {
        FillOptionSpec(before.value, o, given, toDouble);
        assert r == FillOption(before.value, o, given, toDouble);
        if r.Ok? {
          forall p | p in options ensures !Rejects(p, given, toDouble) {
            var k :| 0 <= k <= n && options[k] == p;
            if k < n {
              assert init[k] == p;
            }
          }
        } else {
          assert o in options;
        }
      }
    }
  }

  /** The stored entries are exactly the non-empty values sent, normalised. */
  lemma {:induction false} FillOptionsValues(options: seq<OptionDef>, given: Option<Dict<string, string>>, toDouble: string -> Option<string>)
    requires FillOptions(options, given, toDouble).Ok?
    ensures StoresSent(options, given, toDouble, FillOptions(options, given, toDouble).value.values)
  {
    if options != [] {
      var n := |options| - 1;
      var init, o := options[..n], options[n];
      FillOptionsErr(init, given, toDouble);
      FillOptionsValues(init, given, toDouble);
      assert options == init + [o];
      assert forall p :: p in options <==> p in init || p == o;
      var before := FillOptions(init, given, toDouble).value;
      FillOptionSpec(before, o, given, toDouble);
      assert FillOptions(options, given, toDouble) == FillOption(before, o, given, toDouble);
    }
  }

  /** `requiredSet` holds exactly when no required option is left empty. */
  lemma {:induction false} FillOptionsRequired(options: seq<OptionDef>, given: Option<Dict<string, string>>, toDouble: string -> Option<string>)
    requires FillOptions(options, given, toDouble).Ok?
    ensures FillOptions(options, given, toDouble).value.requiredSet <==> forall o :: o in options && o.required ==> !Empty(o, given)
  {
    if options != [] {
      var n := |options| - 1;
      FillOptionsRequired(options[..n], given, toDouble);
      FillOptionSpec(FillOptions(options[..n], given, toDouble).value, options[n], given, toDouble);
      assert options == options[..n] + [options[n]];
    }
  }

  /** The loop over the service's options, for one new mapping. */
  method FillOptionsLoop(options: seq<OptionDef>, given: Option<Dict<string, string>>, toDouble: string -> Option<string>)
      returns (r: Result<Filled, UpdateError>)
    ensures r == FillOptions(options, given, toDouble)
  {
    var values: Dict<int, string> := [];
    var requiredSet := true;
    var i := 0;
    while i < |options|
      invariant 0 <= i <= |options|
      invariant FillOptions(options[..i], given, toDouble) == Ok(Filled(values, requiredSet))
    {
      assert options[..i + 1][..i] == options[..i];
      ghost var step := FillOption(Filled(values, requiredSet), options[i], given, toDouble);
      assert FillOptions(options[..i + 1], given, toDouble) == step;
      var o := options[i];
      var v := Given(given, o.identifier);
      if v == "" {
        if o.required {
          requiredSet := false;
        }
      } else {
        match Normalise(o.dataType, v, toDouble) {
          case Err(_) =>
            FillErrorStays(options, given, toDouble, i + 1);
            return Err(Invalid);
          case Ok(x) =>
            values := values + [(o.id, x)];
        }
      }
      i := i + 1;
    }
    assert options[..i] == options;
    r := Ok(Filled(values, requiredSet));
  }

  /** A rejected value rejects the request, whatever options follow. */
  lemma {:induction false} FillErrorStays(options: seq<OptionDef>, given: Option<Dict<string, string>>, toDouble: string -> Option<string>, i: nat)
    requires i <= |options| && FillOptions(options[..i], given, toDouble) == Err(Invalid)
    ensures FillOptions(options, given, toDouble) == Err(Invalid)
    decreases |options| - i
  {
    if i < |options| {
      assert options[..i + 1][..i] == options[..i];
      FillErrorStays(options, given, toDouble, i + 1);
    } else {
      assert options[..i] == options;
    }
  }

  /** The new mapping for a request element: active, or in error when a required option was left empty. */
  function NewMappingOf(svc: ServiceDef, m: NewMapping, c: Consts, toDouble: string -> Option<string>): Result<Mapping, UpdateError> {
    match FillOptions(svc.options, m.options, toDouble)
    case Err(e) => Err(e)
    case Ok(f) =>
      var row := MappedService(svc.id, m.name, m.description.GetOr(""),
                               if f.requiredSet then c.active else c.error,
                               if f.requiredSet then None else Some(c.missingRequiredOption), None, None);
      Ok(Mapping(row, f.values))
  }

  /** The service a name stands for: the last of the probe's services with that name. */
  function ServiceNamed(services: seq<ServiceDef>, probe: string, name: string): (r: Option<ServiceDef>)
    ensures r.Some? <==> exists i :: 0 <= i < |services| && services[i].probe == probe && services[i].name == name
    ensures r.Some? ==> r.value in services && r.value.probe == probe && r.value.name == name
  {
    if services == [] then None
    else
      var n := |services| - 1;
      if services[n].probe == probe && services[n].name == name then Some(services[n])
      else
        var r := ServiceNamed(services[..n], probe, name);
        assert forall i :: 0 <= i < n ==> services[..n][i] == services[i];
        r
  }

  function ServiceNames(data: seq<NewMapping>): seq<string> {
    seq(|data|, i requires 0 <= i < |data| => data[i].service)
  }

  /** The names among the requested ones that the probe has a service for. */
  function FoundNames(services: seq<ServiceDef>, probe: string, names: seq<string>): (r: set<string>)
    ensures r <= Elements(names)
  {
    set i | 0 <= i < |services| && services[i].probe == probe && services[i].name in names :: services[i].name
  }

  /** Every requested service is one of the probe's, each named once. */
  predicate Resolvable(services: seq<ServiceDef>, probe: string, data: seq<NewMapping>) {
    |FoundNames(services, probe, ServiceNames(data))| == |data|
  }

  /** The mappings a creation request produces, each in its turn; `keepEmpty` keeps those that store no value. */
  function BuildMappings(services: seq<ServiceDef>, probe: string, data: seq<NewMapping>, c: Consts,
                         toDouble: string -> Option<string>, keepEmpty: bool): (r: Result<seq<Mapping>, UpdateError>)
    requires forall i :: 0 <= i < |data| ==> ServiceNamed(services, probe, data[i].service).Some?
    ensures r.Ok? ==> |r.value| <= |data| && (keepEmpty ==> |r.value| == |data|)
  {
    if data == [] then Ok([])
    else
      var n := |data| - 1;
      match BuildMappings(services, probe, data[..n], c, toDouble, keepEmpty)
      case Err(e) => Err(e)
      case Ok(ms) =>
        match NewMappingOf(ServiceNamed(services, probe, data[n].service).value, data[n], c, toDouble)
        case Err(e) => Err(e)
        case Ok(m) => if keepEmpty || m.values != [] then Ok(ms + [m]) else Ok(ms)
  }

  lemma ResolvableNames(services: seq<ServiceDef>, probe: string, data: seq<NewMapping>)
    ensures Resolvable(services, probe, data) <==>
      (forall i :: 0 <= i < |data| ==> ServiceNamed(services, probe, data[i].service).Some?) && Distinct(ServiceNames(data))
  {
    var names := ServiceNames(data);
    var found := FoundNames(services, probe, names);
    FoundCount(found, names);
    if forall i :: 0 <= i < |data| ==> ServiceNamed(services, probe, data[i].service).Some? {
      forall x | x in Elements(names) ensures x in found {
        var i :| 0 <= i < |names| && names[i] == x;
        var j :| 0 <= j < |services| && services[j].probe == probe && services[j].name == data[i].service;
      }
    }
    if found == Elements(names) {
      forall i | 0 <= i < |data| ensures ServiceNamed(services, probe, data[i].service).Some? {
        assert names[i] in Elements(names);
      }
    }
  }

  /**
    The creation request as written: the mapping is queued for storing only
    inside the loop over options that stored a value, so a mapping that
    stores no value at all is silently never created.
   */
  function PutMappingsAsWritten(probes: set<string>, services: seq<ServiceDef>, probe: string, data: seq<NewMapping>,
                                c: Consts, toDouble: string -> Option<string>): Result<seq<Mapping>, UpdateError>
  {
    if probe !in probes then Err(InternalError)
    else if !Resolvable(services, probe, data) then Err(NotFound)
    else
      ResolvableNames(services, probe, data);
      BuildMappings(services, probe, data, c, toDouble, false)
  }

  /** The creation request with every mapping created, whether or not it stores a value. */
  function PutMappings(probes: set<string>, services: seq<ServiceDef>, probe: string, data: seq<NewMapping>,
                       c: Consts, toDouble: string -> Option<string>): (r: Result<seq<Mapping>, UpdateError>)
    ensures probe !in probes ==> r == Err(InternalError)
    ensures r.Ok? ==> |r.value| == |data|
  {
    if probe !in probes then Err(InternalError)
    else if !Resolvable(services, probe, data) then Err(NotFound)
    else
      ResolvableNames(services, probe, data);
      BuildMappings(services, probe, data, c, toDouble, true)
  }

  /**
    A new mapping of request element m: the named service, m's name and
    description (default ""), and status "active" unless a required option
    was left empty, in which case "error" with the missing-option cause.
   */
  predicate Creates(svc: ServiceDef, m: NewMapping, c: Consts, toDouble: string -> Option<string>, x: Mapping) {
    var missing := exists o :: o in svc.options && o.required && Empty(o, m.options);
    && x.row.probeServiceId == svc.id && x.row.name == m.name && x.row.description == m.description.GetOr("")
    && x.row.statusId == (if missing then c.error else c.active)
    && x.row.errorCauseId == (if missing then Some(c.missingRequiredOption) else None)
    && x.row.currentStatus.None?
    && StoresSent(svc.options, m.options, toDouble, x.values)
  }

  lemma NewMappingSpec(svc: ServiceDef, m: NewMapping, c: Consts, toDouble: string -> Option<string>)
    ensures NewMappingOf(svc, m, c, toDouble).Ok? ==> Creates(svc, m, c, toDouble, NewMappingOf(svc, m, c, toDouble).value)
    ensures NewMappingOf(svc, m, c, toDouble).Err? <==> exists o :: o in svc.options && Rejects(o, m.options, toDouble)
  {
    FillOptionsErr(svc.options, m.options, toDouble);
    if NewMappingOf(svc, m, c, toDouble).Ok? {
      FillOptionsValues(svc.options, m.options, toDouble);
      FillOptionsRequired(svc.options, m.options, toDouble);
    }
  }

  lemma {:induction false} BuildMappingsSpec(services: seq<ServiceDef>, probe: string, data: seq<NewMapping>, c: Consts,
                                             toDouble: string -> Option<string>)
    requires forall i :: 0 <= i < |data| ==> ServiceNamed(services, probe, data[i].service).Some?
    ensures BuildMappings(services, probe, data, c, toDouble, true).Ok? ==>
      var ms := BuildMappings(services, probe, data, c, toDouble, true).value;
      |ms| == |data| &&
      forall i :: 0 <= i < |data| ==> Creates(ServiceNamed(services, probe, data[i].service).value, data[i], c, toDouble, ms[i])
  {
    if data != [] {
      var n := |data| - 1;
      var init := data[..n];
      BuildMappingsSpec(services, probe, init, c, toDouble);
      var svc := ServiceNamed(services, probe, data[n].service).value;
      NewMappingSpec(svc, data[n], c, toDouble);
      BuildMappingsSnoc(services, probe, data, c, toDouble);
      var r := BuildMappings(services, probe, data, c, toDouble, true);
      if r.Ok? {
        var prev := BuildMappings(services, probe, init, c, toDouble, true).value;
        assert forall i :: 0 <= i < n ==> init[i] == data[i];
        CreatesExtend(services, probe, data, c, toDouble, prev, NewMappingOf(svc, data[n], c, toDouble).value);
      }
    }
  }

  lemma CreatesExtend(services: seq<ServiceDef>, probe: string, data: seq<NewMapping>, c: Consts,
                      toDouble: string -> Option<string>, prev: seq<Mapping>, m: Mapping)
    requires data != [] && |prev| == |data| - 1
    requires forall i :: 0 <= i < |data| ==> ServiceNamed(services, probe, data[i].service).Some?
    requires forall i :: 0 <= i < |prev| ==> Creates(ServiceNamed(services, probe, data[i].service).value, data[i], c, toDouble, prev[i])
    requires Creates(ServiceNamed(services, probe, data[|prev|].service).value, data[|prev|], c, toDouble, m)
    ensures forall i :: 0 <= i < |data| ==> Creates(ServiceNamed(services, probe, data[i].service).value, data[i], c, toDouble, (prev + [m])[i])
  {
    forall i | 0 <= i < |data|
      ensures Creates(ServiceNamed(services, probe, data[i].service).value, data[i], c, toDouble, (prev + [m])[i])
    {
      if i < |prev| {
        assert (prev + [m])[i] == prev[i];
      } else {
        assert (prev + [m])[i] == m;
      }
    }
  }

  lemma BuildMappingsSnoc(services: seq<ServiceDef>, probe: string, data: seq<NewMapping>, c: Consts,
                          toDouble: string -> Option<string>)
    requires data != [] && forall i :: 0 <= i < |data| ==> ServiceNamed(services, probe, data[i].service).Some?
    ensures var n := |data| - 1;
      var r := BuildMappings(services, probe, data, c, toDouble, true);
      r.Ok? ==> BuildMappings(services, probe, data[..n], c, toDouble, true).Ok? &&
                NewMappingOf(ServiceNamed(services, probe, data[n].service).value, data[n], c, toDouble).Ok? &&
                r.value == BuildMappings(services, probe, data[..n], c, toDouble, true).value +
                           [NewMappingOf(ServiceNamed(services, probe, data[n].service).value, data[n], c, toDouble).value]
  {
  }

  /**
    A creation request fails with "not found" exactly when some named
    service is not the probe's or a service is named twice; otherwise it
    creates one mapping per element, in order, each as `Creates` describes.
   */
  lemma PutMappingsSpec(probes: set<string>, services: seq<ServiceDef>, probe: string, data: seq<NewMapping>,
                        c: Consts, toDouble: string -> Option<string>)
    ensures probe !in probes ==> PutMappings(probes, services, probe, data, c, toDouble) == Err(InternalError)
    ensures probe in probes ==> (PutMappings(probes, services, probe, data, c, toDouble) == Err(NotFound) <==>
      (exists i :: 0 <= i < |data| && ServiceNamed(services, probe, data[i].service).None?) || !Distinct(ServiceNames(data)))
    ensures PutMappings(probes, services, probe, data, c, toDouble).Ok? <==>
      && probe in probes
      && (forall i :: 0 <= i < |data| ==> ServiceNamed(services, probe, data[i].service).Some?)
      && Distinct(ServiceNames(data))
      && AcceptsAll(services, probe, data, toDouble)
    ensures PutMappings(probes, services, probe, data, c, toDouble).Ok? ==>
      var ms := PutMappings(probes, services, probe, data, c, toDouble).value;
      |ms| == |data| &&
      forall i :: 0 <= i < |data| ==>
        ServiceNamed(services, probe, data[i].service).Some? &&
        Creates(ServiceNamed(services, probe, data[i].service).value, data[i], c, toDouble, ms[i])
  {
    ResolvableNames(services, probe, data);
    if probe in probes && Resolvable(services, probe, data) {
      BuildMappingsSpec(services, probe, data, c, toDouble);
      BuildNeverNotFound(services, probe, data, c, toDouble, true);
      BuildMappingsOk(services, probe, data, c, toDouble, true);
    }
  }

  /** No value sent for any element of the request is rejected by its option's type. */
  predicate AcceptsAll(services: seq<ServiceDef>, probe: string, data: seq<NewMapping>, toDouble: string -> Option<string>) {
    forall i, o ::
      (0 <= i < |data| && ServiceNamed(services, probe, data[i].service).Some?
       && o in ServiceNamed(services, probe, data[i].service).value.options) ==> !Rejects(o, data[i].options, toDouble)
  }

  /**
    Building the mappings of resolvable names succeeds exactly when no value
    sent is rejected; a rejected one fails the build with 400.
   */
  lemma {:induction false} BuildMappingsOk(services: seq<ServiceDef>, probe: string, data: seq<NewMapping>, c: Consts,
                                           toDouble: string -> Option<string>, keepEmpty: bool)
    requires forall i :: 0 <= i < |data| ==> ServiceNamed(services, probe, data[i].service).Some?
    ensures BuildMappings(services, probe, data, c, toDouble, keepEmpty).Ok? <==> AcceptsAll(services, probe, data, toDouble)
    ensures BuildMappings(services, probe, data, c, toDouble, keepEmpty).Err? ==>
      BuildMappings(services, probe, data, c, toDouble, keepEmpty).error == Invalid
  {
    if data != [] {
      var n := |data| - 1;
      var init := data[..n];
      BuildMappingsOk(services, probe, init, c, toDouble, keepEmpty);
      var svc := ServiceNamed(services, probe, data[n].service).value;
      NewMappingSpec(svc, data[n], c, toDouble);
      FillOptionsErr(svc.options, data[n].options, toDouble);
      assert forall i :: 0 <= i < n ==> init[i] == data[i];
      if AcceptsAll(services, probe, data, toDouble) {
        assert AcceptsAll(services, probe, init, toDouble);
        assert forall o :: o in svc.options ==> !Rejects(o, data[n].options, toDouble);
      } else if AcceptsAll(services, probe, init, toDouble) {
        var i, o :| 0 <= i < |data| && ServiceNamed(services, probe, data[i].service).Some?
          && o in ServiceNamed(services, probe, data[i].service).value.options && Rejects(o, data[i].options, toDouble);
        assert i == n;
      }
    }
  }

  lemma {:induction false} BuildNeverNotFound(services: seq<ServiceDef>, probe: string, data: seq<NewMapping>, c: Consts,
                                              toDouble: string -> Option<string>, keepEmpty: bool)
    requires forall i :: 0 <= i < |data| ==> ServiceNamed(services, probe, data[i].service).Some?
    ensures BuildMappings(services, probe, data, c, toDouble, keepEmpty) != Err(NotFound)
  {
    if data != [] {
      var n := |data| - 1;
      BuildNeverNotFound(services, probe, data[..n], c, toDouble, keepEmpty);
      FillOptionsErr(ServiceNamed(services, probe, data[n].service).value.options, data[n].options, toDouble);
    }
  }

  /**
    A service without options, mapped on its own, is created by the
    corrected request and silently dropped by the request as written.
   */
  lemma OptionlessMappingDropped(c: Consts, toDouble: string -> Option<string>)
    ensures var svc := ServiceDef(1, "probe", "ping", []);
      var data := [NewMapping("gateway", None, "ping", None)];
      && PutMappingsAsWritten({"probe"}, [svc], "probe", data, c, toDouble) == Ok([])
      && PutMappings({"probe"}, [svc], "probe", data, c, toDouble).Ok?
      && |PutMappings({"probe"}, [svc], "probe", data, c, toDouble).value| == 1
  {
    var svc := ServiceDef(1, "probe", "ping", []);
    var data := [NewMapping("gateway", None, "ping", None)];
    assert ServiceNames(data) == ["ping"];
    var found := FoundNames([svc], "probe", ["ping"]);
    assert "ping" in found by {
      assert [svc][0].probe == "probe" && [svc][0].name in ["ping"];
    }
    assert found == {"ping"};
    assert |found| == 1;
    assert Resolvable([svc], "probe", data);
    assert [svc][..0] == [];
    assert ServiceNamed([svc], "probe", "ping") == Some(svc);
    assert data[..0] == [];
    assert FillOptions([], None, toDouble) == Ok(Filled([], true));
    var m := NewMappingOf(svc, data[0], c, toDouble);
    assert m.Ok? && m.value.values == [];
    assert BuildMappings([svc], "probe", data, c, toDouble, false) == Ok([]);
    assert [] + [m.value] == [m.value];
    assert BuildMappings([svc], "probe", data, c, toDouble, true) == Ok([m.value]);
  }
}
