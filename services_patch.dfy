/**
  Editing mapped services: renaming, suspending and reactivating them, and
  synchronising their option values with the values sent, which moves a
  mapping out of the "error" status once its required options are filled.
 */
module ServicesPatch {
  import opened Wrappers
  import opened Dicts
  import opened Entities
  import opened OptionValues
  import opened ServicesUpdate

  /** The two statuses an edit may ask for. */
  datatype PatchStatus = Activate | Suspend

  /** One element of the body of an edit request; a key left out of the element is None. */
  datatype PatchRequest = PatchRequest(id: int, name: Option<string>, description: Option<string>,
                                       status: Option<PatchStatus>, options: Option<Dict<string, string>>)

  function StatusId(c: Consts, s: PatchStatus): int {
    match s
    case Activate => c.active
    case Suspend => c.suspended
  }

  /** `options_by_identifier[identifier]`: the last of the service's options with that identifier. */
  function OptionNamed(options: seq<OptionDef>, identifier: string): (r: Option<OptionDef>)
    ensures r.Some? <==> exists o :: o in options && o.identifier == identifier
    ensures r.Some? ==> r.value in options && r.value.identifier == identifier
  {
    if options == [] then None
    else
      var n := |options| - 1;
      if options[n].identifier == identifier then Some(options[n])
      else
        var r := OptionNamed(options[..n], identifier);
        assert forall o :: o in options <==> o in options[..n] || o == options[n];
        r
  }

  /** Option ids are a primary key: no two options of a service share one. */
  predicate IdsDistinct(options: seq<OptionDef>) {
    forall p, q :: p in options && q in options && p.id == q.id ==> p == q
  }

  /** Two different identifiers name options with different ids. */
  lemma OptionIdsDiffer(options: seq<OptionDef>, a: string, b: string)
    requires IdsDistinct(options) && a != b
    requires OptionNamed(options, a).Some? && OptionNamed(options, b).Some?
    ensures OptionNamed(options, a).value.id != OptionNamed(options, b).value.id
  {
  }

  // ---------------------------------------------------------------------------
  // The values sent.

  /** A sent entry names an option of the service, and a non-empty value fits its type. */
  predicate Accepts(options: seq<OptionDef>, entry: (string, string), toDouble: string -> Option<string>) {
    && OptionNamed(options, entry.0).Some?
    && (entry.1 == "" || Normalise(OptionNamed(options, entry.0).value.dataType, entry.1, toDouble).Ok?)
  }

  /** The sent entry gives option `id` a value. */
  predicate Sends(options: seq<OptionDef>, entry: (string, string), id: int) {
    entry.1 != "" && OptionNamed(options, entry.0).Some? && OptionNamed(options, entry.0).value.id == id
  }

  /** The id of the option an accepted, non-empty entry fills, with the value stored for it. */
  function Stored(options: seq<OptionDef>, entry: (string, string), toDouble: string -> Option<string>): (int, string)
    requires Accepts(options, entry, toDouble) && entry.1 != ""
  {
    var o := OptionNamed(options, entry.0).value;
    (o.id, Normalise(o.dataType, entry.1, toDouble).value)
  }

  /** The stored values so far, the ids of the options given a value, and whether no required option was sent empty. */
  datatype SentSync = SentSync(values: Dict<int, string>, found: seq<int>, requiredFilled: bool)

  /**
    The loop over the sent options: an unknown identifier fails the request
    (the lookup raises), an empty value is skipped and clears `requiredFilled`
    when the option is required, and any other value is normalised and then
    overwrites the value the mapping had for that option, or is appended.
   */
  function SyncSent(options: seq<OptionDef>, existing: seq<int>, start: Dict<int, string>,
                    sent: Dict<string, string>, toDouble: string -> Option<string>): Result<SentSync, UpdateError>
  {
    if sent == [] then Ok(SentSync(start, [], true))
    else
      var n := |sent| - 1;
      match SyncSent(options, existing, start, sent[..n], toDouble)
      case Err(e) => Err(e)
      case Ok(s) => SyncEntry(options, existing, s, sent[n], toDouble)
  }

  /** One sent entry of the loop. */
  function SyncEntry(options: seq<OptionDef>, existing: seq<int>, s: SentSync, entry: (string, string),
                     toDouble: string -> Option<string>): Result<SentSync, UpdateError>
  {
    match OptionNamed(options, entry.0)
    case None => Err(InternalError)
    case Some(o) =>
      if entry.1 == "" then Ok(s.(requiredFilled := s.requiredFilled && !o.required))
      else
        match Normalise(o.dataType, entry.1, toDouble)
        case Err(_) => Err(Invalid)
        case Ok(x) =>
          var values := if o.id in existing then Put(s.values, o.id, x) else s.values + [(o.id, x)];
          Ok(SentSync(values, s.found + [o.id], s.requiredFilled))
  }

  /** One entry succeeds exactly when it is accepted, and clears `requiredFilled` exactly when it is a required option sent empty. */
  lemma SyncEntrySpec(options: seq<OptionDef>, existing: seq<int>, s: SentSync, entry: (string, string),
                      toDouble: string -> Option<string>)
    ensures var r := SyncEntry(options, existing, s, entry, toDouble);
      && (r.Ok? <==> Accepts(options, entry, toDouble))
      && (r.Err? ==> r.error in {InternalError, Invalid})
      && (r.Ok? ==> (r.value.requiredFilled <==>
                      s.requiredFilled && !(entry.1 == "" && OptionNamed(options, entry.0).value.required)))
  {
  }

  /** The request fails exactly when some sent entry is not accepted; an unknown identifier is a 500, a rejected value a 400. */
  lemma {:induction false} SyncSentErr(options: seq<OptionDef>, existing: seq<int>, start: Dict<int, string>,
                                       sent: Dict<string, string>, toDouble: string -> Option<string>)
    ensures SyncSent(options, existing, start, sent, toDouble).Ok? <==> forall e :: e in sent ==> Accepts(options, e, toDouble)
    ensures SyncSent(options, existing, start, sent, toDouble).Err? ==> SyncSent(options, existing, start, sent, toDouble).error in {InternalError, Invalid}
  {
    if sent != [] {
      var n := |sent| - 1;
      var init, e := sent[..n], sent[n];
      SyncSentErr(options, existing, start, init, toDouble);
      var before := SyncSent(options, existing, start, init, toDouble);
      var r := SyncSent(options, existing, start, sent, toDouble);
      if before.Err? {
        assert r == before;
        var p :| p in init && !Accepts(options, p, toDouble);
        var k :| 0 <= k < n && init[k] == p;
        assert sent[k] == p;
      } else {
        SyncEntrySpec(options, existing, before.value, e, toDouble);
        assert r == SyncEntry(options, existing, before.value, e, toDouble);
        if r.Ok? {
          forall p | p in sent ensures Accepts(options, p, toDouble) {
            var k :| 0 <= k <= n && sent[k] == p;
            if k < n {
              assert init[k] == p;
            }
          }
        }
      }
    }
  }

  /** `requiredFilled` holds exactly when no required option was sent empty. */
  lemma {:induction false} SyncSentRequired(options: seq<OptionDef>, existing: seq<int>, start: Dict<int, string>,
                                            sent: Dict<string, string>, toDouble: string -> Option<string>)
    requires SyncSent(options, existing, start, sent, toDouble).Ok?
    ensures SyncSent(options, existing, start, sent, toDouble).value.requiredFilled <==>
      forall e :: e in sent && e.1 == "" && OptionNamed(options, e.0).Some? ==> !OptionNamed(options, e.0).value.required
  {
    if sent != [] {
      var n := |sent| - 1;
      SyncSentRequired(options, existing, start, sent[..n], toDouble);
      SyncEntrySpec(options, existing, SyncSent(options, existing, start, sent[..n], toDouble).value, sent[n], toDouble);
      assert sent == sent[..n] + [sent[n]];
      assert forall e :: e in sent <==> e in sent[..n] || e == sent[n];
    }
  }

  /** What the sync keeps true of the values: see `SyncSentFacts`. */
  ghost predicate SyncFacts(options: seq<OptionDef>, start: Dict<int, string>, sent: Dict<string, string>,
                            toDouble: string -> Option<string>, s: SentSync) {
    && DistinctKeys(s.values)
    && (forall k :: k in Keys(s.values) <==> k in Keys(start) || k in s.found)
    && (forall id :: id in s.found <==> exists i :: 0 <= i < |sent| && Sends(options, sent[i], id))
    && (forall id :: id !in s.found ==> Get(s.values, id) == Get(start, id))
    && (forall i :: 0 <= i < |sent| && sent[i].1 != "" && Accepts(options, sent[i], toDouble) ==>
          Get(s.values, Stored(options, sent[i], toDouble).0) == Some(Stored(options, sent[i], toDouble).1))
  }

  /**
    Starting from the mapping's values without repeated options, the sync
    leaves no option twice, adds exactly the options given a value, stores
    each sent value normalised, and leaves the other values as they were.
   */
  lemma {:induction false} SyncSentFacts(options: seq<OptionDef>, start: Dict<int, string>,
                                         sent: Dict<string, string>, toDouble: string -> Option<string>)
    requires IdsDistinct(options) && DistinctKeys(start) && DistinctKeys(sent)
    requires SyncSent(options, Keys(start), start, sent, toDouble).Ok?
    ensures SyncFacts(options, start, sent, toDouble, SyncSent(options, Keys(start), start, sent, toDouble).value)
  {
    if sent != [] {
      var n := |sent| - 1;
      var init := sent[..n];
      assert DistinctKeys(init) by {
        forall i, j | 0 <= i < j < n ensures init[i].0 != init[j].0 {
          assert init[i] == sent[i] && init[j] == sent[j];
        }
      }
      SyncSentFacts(options, start, init, toDouble);
      var s := SyncSent(options, Keys(start), start, init, toDouble).value;
      var r := SyncSent(options, Keys(start), start, sent, toDouble).value;
      if sent[n].1 == "" {
        SkipFacts(options, start, sent, toDouble, s, r);
      } else {
        StoreFacts(options, start, sent, toDouble, s, r);
      }
    }
  }

  /** An entry sent empty changes no value. */
  lemma SkipFacts(options: seq<OptionDef>, start: Dict<int, string>, sent: Dict<string, string>,
                  toDouble: string -> Option<string>, s: SentSync, r: SentSync)
    requires sent != [] && sent[|sent| - 1].1 == ""
    requires SyncFacts(options, start, sent[..|sent| - 1], toDouble, s)
    requires r.values == s.values && r.found == s.found
    ensures SyncFacts(options, start, sent, toDouble, r)
  {
    var init := sent[..|sent| - 1];
    SkipFound(options, sent, init, s.found);
    SkipValues(options, sent, init, toDouble, s.values);
  }

  lemma SkipFound(options: seq<OptionDef>, sent: Dict<string, string>, init: Dict<string, string>, found: seq<int>)
    requires sent != [] && init == sent[..|sent| - 1] && sent[|sent| - 1].1 == ""
    requires forall id :: id in found <==> exists i :: 0 <= i < |init| && Sends(options, init[i], id)
    ensures forall id :: id in found <==> exists i :: 0 <= i < |sent| && Sends(options, sent[i], id)
  {
    var n := |sent| - 1;
    forall id ensures id in found <==> exists i :: 0 <= i < |sent| && Sends(options, sent[i], id) {
      if id in found {
        var i :| 0 <= i < n && Sends(options, init[i], id);
        assert init[i] == sent[i];
      }
      if exists i :: 0 <= i < |sent| && Sends(options, sent[i], id) {
        var i :| 0 <= i < |sent| && Sends(options, sent[i], id);
        assert i < n && init[i] == sent[i];
      }
    }
  }

  lemma SkipValues(options: seq<OptionDef>, sent: Dict<string, string>, init: Dict<string, string>,
                   toDouble: string -> Option<string>, values: Dict<int, string>)
    requires sent != [] && init == sent[..|sent| - 1] && sent[|sent| - 1].1 == ""
    requires forall i :: 0 <= i < |init| && init[i].1 != "" && Accepts(options, init[i], toDouble) ==>
      Get(values, Stored(options, init[i], toDouble).0) == Some(Stored(options, init[i], toDouble).1)
    ensures forall i :: 0 <= i < |sent| && sent[i].1 != "" && Accepts(options, sent[i], toDouble) ==>
      Get(values, Stored(options, sent[i], toDouble).0) == Some(Stored(options, sent[i], toDouble).1)
  {
    forall i | 0 <= i < |sent| && sent[i].1 != "" && Accepts(options, sent[i], toDouble)
      ensures Get(values, Stored(options, sent[i], toDouble).0) == Some(Stored(options, sent[i], toDouble).1)
    {
      assert i < |init| && init[i] == sent[i];
    }
  }

  /** A non-empty entry stores its option's value, which no earlier entry had filled. */
  lemma StoreFacts(options: seq<OptionDef>, start: Dict<int, string>, sent: Dict<string, string>,
                   toDouble: string -> Option<string>, s: SentSync, r: SentSync)
    requires IdsDistinct(options) && DistinctKeys(sent)
    requires sent != [] && sent[|sent| - 1].1 != ""
    requires SyncFacts(options, start, sent[..|sent| - 1], toDouble, s)
    requires SyncSent(options, Keys(start), start, sent[..|sent| - 1], toDouble) == Ok(s)
    requires SyncSent(options, Keys(start), start, sent, toDouble) == Ok(r)
    ensures SyncFacts(options, start, sent, toDouble, r)
  {
    var n := |sent| - 1;
    var init, e := sent[..n], sent[n];
    assert forall i :: 0 <= i < n ==> sent[i] == init[i];
    var o := OptionNamed(options, e.0).value;
    var x := Normalise(o.dataType, e.1, toDouble).value;
    forall i | 0 <= i < n && OptionNamed(options, init[i].0).Some?
      ensures OptionNamed(options, init[i].0).value.id != o.id
    {
      assert sent[i].0 != sent[n].0;
      OptionIdsDiffer(options, init[i].0, e.0);
    }
    assert o.id !in s.found;
    assert r.found == s.found + [o.id];
    SyncStep(s, r, start, o.id, x);
    StoreFound(options, sent, init, s.found, r.found);
    StoreValues(options, sent, init, toDouble, s.values, r.values);
  }

  lemma StoreFound(options: seq<OptionDef>, sent: Dict<string, string>, init: Dict<string, string>, before: seq<int>, after: seq<int>)
    requires sent != [] && init == sent[..|sent| - 1]
    requires sent[|sent| - 1].1 != "" && OptionNamed(options, sent[|sent| - 1].0).Some?
    requires forall id :: id in before <==> exists i :: 0 <= i < |init| && Sends(options, init[i], id)
    requires after == before + [OptionNamed(options, sent[|sent| - 1].0).value.id]
    ensures forall id :: id in after <==> exists i :: 0 <= i < |sent| && Sends(options, sent[i], id)
  {
    var n := |sent| - 1;
    forall id ensures id in after <==> exists i :: 0 <= i < |sent| && Sends(options, sent[i], id) {
      if id in before {
        var i :| 0 <= i < n && Sends(options, init[i], id);
        assert Sends(options, sent[i], id);
      }
      if id == OptionNamed(options, sent[n].0).value.id {
        assert Sends(options, sent[n], id);
      }
      if exists i :: 0 <= i < |sent| && Sends(options, sent[i], id) {
        var i :| 0 <= i < |sent| && Sends(options, sent[i], id);
        if i < n {
          assert Sends(options, init[i], id);
        }
      }
    }
  }

  lemma StoreValues(options: seq<OptionDef>, sent: Dict<string, string>, init: Dict<string, string>,
                    toDouble: string -> Option<string>, before: Dict<int, string>, after: Dict<int, string>)
    requires IdsDistinct(options) && DistinctKeys(sent)
    requires sent != [] && init == sent[..|sent| - 1]
    requires sent[|sent| - 1].1 != "" && Accepts(options, sent[|sent| - 1], toDouble)
    requires forall i :: 0 <= i < |init| && init[i].1 != "" && Accepts(options, init[i], toDouble) ==>
      Get(before, Stored(options, init[i], toDouble).0) == Some(Stored(options, init[i], toDouble).1)
    requires forall k :: Get(after, k) == if k == Stored(options, sent[|sent| - 1], toDouble).0
      then Some(Stored(options, sent[|sent| - 1], toDouble).1) else Get(before, k)
    ensures forall i :: 0 <= i < |sent| && sent[i].1 != "" && Accepts(options, sent[i], toDouble) ==>
      Get(after, Stored(options, sent[i], toDouble).0) == Some(Stored(options, sent[i], toDouble).1)
  {
    var n := |sent| - 1;
    forall i | 0 <= i < |sent| && sent[i].1 != "" && Accepts(options, sent[i], toDouble)
      ensures Get(after, Stored(options, sent[i], toDouble).0) == Some(Stored(options, sent[i], toDouble).1)
    {
      if i < n {
        assert init[i] == sent[i];
        assert sent[i].0 != sent[n].0;
        OptionIdsDiffer(options, sent[i].0, sent[n].0);
      }
    }
  }

  /** One stored value: the option's value is overwritten in place or appended, and no other value moves. */
  lemma SyncStep(s: SentSync, r: SentSync, start: Dict<int, string>, id: int, x: string)
    requires DistinctKeys(s.values) && id !in s.found
    requires forall k :: k in Keys(s.values) <==> k in Keys(start) || k in s.found
    requires forall k :: k !in s.found ==> Get(s.values, k) == Get(start, k)
    requires r.found == s.found + [id]
    requires r.values == if id in Keys(start) then Put(s.values, id, x) else s.values + [(id, x)]
    ensures r.values == Put(s.values, id, x)
    ensures DistinctKeys(r.values)
    ensures forall k :: k in Keys(r.values) <==> k in Keys(start) || k in r.found
    ensures forall k :: k !in r.found ==> Get(r.values, k) == Get(start, k)
    ensures forall k :: Get(r.values, k) == if k == id then Some(x) else Get(s.values, k)
  {
    if id !in Keys(start) {
      PutAppend(s.values, id, x);
    }
    PutDistinct(s.values, id, x);
    PutKeys(s.values, id, x);
    forall k ensures Get(r.values, k) == if k == id then Some(x) else Get(s.values, k) {
      PutGet(s.values, id, x, k);
    }
  }

  // ---------------------------------------------------------------------------
  // Deleting the values not sent.

  /** The values left once those of the mapping's former options that were not given a value are deleted. */
  function Kept(values: Dict<int, string>, existing: seq<int>, found: seq<int>): (r: Dict<int, string>)
    ensures forall e :: e in r ==> e in values && (e.0 in existing ==> e.0 in found)
  {
    if values == [] then []
    else
      var rest := Kept(values[1..], existing, found);
      if values[0].0 in existing && values[0].0 !in found then rest else [values[0]] + rest
  }

  /** A key keeps its value unless it is a former option that was not given a value. */
  lemma {:induction false} KeptGet(values: Dict<int, string>, existing: seq<int>, found: seq<int>, k: int)
    ensures Get(Kept(values, existing, found), k) == if k in existing && k !in found then None else Get(values, k)
  {
    if values != [] {
      KeptGet(values[1..], existing, found, k);
    }
  }

  lemma {:induction false} KeptDistinct(values: Dict<int, string>, existing: seq<int>, found: seq<int>)
    requires DistinctKeys(values)
    ensures DistinctKeys(Kept(values, existing, found))
  {
    if values != [] {
      var rest := Kept(values[1..], existing, found);
      KeptDistinct(values[1..], existing, found);
      var r := Kept(values, existing, found);
      if r != rest {
        forall i, j | 0 <= i < j < |r| ensures r[i].0 != r[j].0 {
          if i == 0 {
            assert r[j] == rest[j - 1];
            assert r[j] in values[1..];
            var t :| 0 <= t < |values[1..]| && values[1..][t] == r[j];
            assert values[t + 1] == r[j];
          } else {
            assert r[i] == rest[i - 1] && r[j] == rest[j - 1];
          }
        }
      }
    }
  }

  /** The deletion loop, over the mapping's values. */
  method DropUnsent(values: Dict<int, string>, existing: seq<int>, found: seq<int>) returns (kept: Dict<int, string>)
    ensures kept == Kept(values, existing, found)
  {
    kept := [];
    var i := 0;
    while i < |values|
      invariant 0 <= i <= |values|
      invariant kept + Kept(values[i..], existing, found) == Kept(values, existing, found)
    {
      assert values[i..][1..] == values[i + 1..];
      if values[i].0 in existing && values[i].0 !in found {
      } else {
        kept := kept + [values[i]];
      }
      i := i + 1;
    }
  }

  // ---------------------------------------------------------------------------
  // The new option values.

  /** The values a mapping stores after an edit that sent options. */
  function PatchedValues(options: seq<OptionDef>, values: Dict<int, string>, sent: Dict<string, string>,
                         toDouble: string -> Option<string>): (r: Result<(Dict<int, string>, bool), UpdateError>)
    ensures r.Err? ==> r.error in {InternalError, Invalid}
  {
    SyncSentErr(options, Keys(values), values, sent, toDouble);
    match SyncSent(options, Keys(values), values, sent, toDouble)
    case Err(e) => Err(e)
    case Ok(s) => Ok((Kept(s.values, Keys(values), s.found), s.requiredFilled))
  }

  /**
    After an edit that sent options, the mapping stores a value for exactly
    the options sent non-empty, each the normalised value sent, and no option
    twice.
   */
  lemma PatchedValuesSpec(options: seq<OptionDef>, values: Dict<int, string>, sent: Dict<string, string>,
                          toDouble: string -> Option<string>)
    requires IdsDistinct(options) && DistinctKeys(values) && DistinctKeys(sent)
    requires PatchedValues(options, values, sent, toDouble).Ok?
    ensures var r := PatchedValues(options, values, sent, toDouble).value.0;
      && DistinctKeys(r)
      && (forall e :: e in sent ==> Accepts(options, e, toDouble))
      && (forall e :: e in sent && e.1 != "" ==> Get(r, Stored(options, e, toDouble).0) == Some(Stored(options, e, toDouble).1))
      && (forall k :: Get(r, k).Some? <==> exists e :: e in sent && Sends(options, e, k))
  {
    SyncSentErr(options, Keys(values), values, sent, toDouble);
    SyncSentFacts(options, values, sent, toDouble);
    var s := SyncSent(options, Keys(values), values, sent, toDouble).value;
    var r := Kept(s.values, Keys(values), s.found);
    KeptDistinct(s.values, Keys(values), s.found);
    forall e | e in sent && e.1 != "" ensures Get(r, Stored(options, e, toDouble).0) == Some(Stored(options, e, toDouble).1) {
      var i :| 0 <= i < |sent| && sent[i] == e;
      KeptGet(s.values, Keys(values), s.found, Stored(options, e, toDouble).0);
      assert Sends(options, sent[i], Stored(options, e, toDouble).0);
    }
    forall k ensures Get(r, k).Some? <==> exists e :: e in sent && Sends(options, e, k) {
      KeptGet(s.values, Keys(values), s.found, k);
      GetSome(values, k);
      if exists e :: e in sent && Sends(options, e, k) {
        var e :| e in sent && Sends(options, e, k);
        var i :| 0 <= i < |sent| && sent[i] == e;
        assert Sends(options, sent[i], k);
      }
      if Get(r, k).Some? && k in s.found {
        var i :| 0 <= i < |sent| && Sends(options, sent[i], k);
        assert sent[i] in sent;
      }
    }
  }

  /** `SyncSent` as the loop it is, over the sent entries in order. */
  method SyncSentLoop(options: seq<OptionDef>, existing: seq<int>, start: Dict<int, string>,
                      sent: Dict<string, string>, toDouble: string -> Option<string>) returns (r: Result<SentSync, UpdateError>)
    ensures r == SyncSent(options, existing, start, sent, toDouble)
  {
    var values, found, requiredFilled := start, [], true;
    for i := 0 to |sent|
      invariant SyncSent(options, existing, start, sent[..i], toDouble) == Ok(SentSync(values, found, requiredFilled))
    {
      assert sent[..i + 1][..i] == sent[..i];
      var identifier, value := sent[i].0, sent[i].1;
      match OptionNamed(options, identifier) {
        case None =>
          SyncErrorStays(options, existing, start, sent, toDouble, i + 1, InternalError);
          return Err(InternalError);
        case Some(o) =>
          if value == "" {
            if o.required {
              requiredFilled := false;
            }
          } else {
            match Normalise(o.dataType, value, toDouble) {
              case Err(_) =>
                SyncErrorStays(options, existing, start, sent, toDouble, i + 1, Invalid);
                return Err(Invalid);
              case Ok(x) =>
                if o.id in existing {
                  values := Put(values, o.id, x);
                } else {
                  values := values + [(o.id, x)];
                }
                found := found + [o.id];
            }
          }
      }
    }
    assert sent[..|sent|] == sent;
    r := Ok(SentSync(values, found, requiredFilled));
  }

  /** A failed entry fails the request, whatever entries follow. */
  lemma {:induction false} SyncErrorStays(options: seq<OptionDef>, existing: seq<int>, start: Dict<int, string>,
                                          sent: Dict<string, string>, toDouble: string -> Option<string>, i: nat, e: UpdateError)
    requires i <= |sent| && SyncSent(options, existing, start, sent[..i], toDouble) == Err(e)
    ensures SyncSent(options, existing, start, sent, toDouble) == Err(e)
    decreases |sent| - i
  {
    if i < |sent| {
      assert sent[..i + 1][..i] == sent[..i];
      SyncErrorStays(options, existing, start, sent, toDouble, i + 1, e);
    } else {
      assert sent[..i] == sent;
    }
  }

  // ---------------------------------------------------------------------------
  // One mapping.

  /** The name and description sent replace the stored ones; the status sent applies unless the mapping is in error. */
  function EditRow(row: MappedService, req: PatchRequest, c: Consts): MappedService {
    var row := row.(name := req.name.GetOr(row.name), description := req.description.GetOr(row.description));
    if req.status.Some? && row.statusId != c.error then row.(statusId := StatusId(c, req.status.value)) else row
  }

  /** In error because a required option has no value. */
  predicate MissingOption(row: MappedService, c: Consts) {
    row.statusId == c.error && row.errorCauseId == Some(c.missingRequiredOption)
  }

  /** Every required option of the service holds a value. */
  predicate RequiredStored(options: seq<OptionDef>, values: Dict<int, string>) {
    forall o :: o in options && o.required ==> Get(values, o.id).Some?
  }

  /**
    One edit of one mapping. With options sent, the values are synchronised
    and a mapping in error for a missing option is reactivated when the
    required options are filled: as written, when no required option was
    sent empty (`corrected` false); corrected, when every required option
    holds a value afterwards.
   */
  function PatchOne(m: Mapping, svc: ServiceDef, req: PatchRequest, c: Consts,
                    toDouble: string -> Option<string>, corrected: bool): (r: Result<Mapping, UpdateError>)
    ensures r.Err? ==> r.error in {InternalError, Invalid}
  {
    var row := EditRow(m.row, req, c);
    match req.options
    case None => Ok(Mapping(row, m.values))
    case Some(sent) =>
      match PatchedValues(svc.options, m.values, sent, toDouble)
      case Err(e) => Err(e)
      case Ok(p) =>
        var filled := if corrected then RequiredStored(svc.options, p.0) else p.1;
        var row := if filled && MissingOption(row, c) then row.(statusId := c.active, errorCauseId := None) else row;
        Ok(Mapping(row, p.0))
  }

  /** Distinct status ids, as the status table has them. */
  predicate StatusesDistinct(c: Consts) {
    c.active != c.error && c.suspended != c.error
  }

  /**
    The status rules of an edit: the status sent applies only to a mapping
    not in error, and a mapping in error leaves it only for "active", only
    when it was in error for a missing option and options were sent.
    Name, description and service follow the request; the reading status is
    untouched.
   */
  lemma PatchStatusRules(m: Mapping, svc: ServiceDef, req: PatchRequest, c: Consts,
                         toDouble: string -> Option<string>, corrected: bool)
    requires StatusesDistinct(c)
    requires PatchOne(m, svc, req, c, toDouble, corrected).Ok?
    ensures var r := PatchOne(m, svc, req, c, toDouble, corrected).value.row;
      && r.probeServiceId == m.row.probeServiceId
      && r.name == req.name.GetOr(m.row.name)
      && r.description == req.description.GetOr(m.row.description)
      && r.currentStatus == m.row.currentStatus && r.currentStatusFrom == m.row.currentStatusFrom
      && (m.row.statusId != c.error ==>
            r.statusId == (if req.status.Some? then StatusId(c, req.status.value) else m.row.statusId)
            && r.errorCauseId == m.row.errorCauseId)
      && (m.row.statusId == c.error ==>
            (r.statusId == c.error && r.errorCauseId == m.row.errorCauseId)
            || (r.statusId == c.active && r.errorCauseId == None && MissingOption(m.row, c) && req.options.Some?))
  {
  }

  /**
    The reactivation as written: a mapping in error for a missing option
    becomes active exactly when no required option was sent empty.
   */
  lemma ReactivationAsWritten(m: Mapping, svc: ServiceDef, req: PatchRequest, c: Consts, toDouble: string -> Option<string>)
    requires StatusesDistinct(c) && MissingOption(m.row, c) && req.options.Some?
    requires PatchOne(m, svc, req, c, toDouble, false).Ok?
    ensures PatchOne(m, svc, req, c, toDouble, false).value.row.statusId == c.active <==>
      forall e :: e in req.options.value && e.1 == "" && OptionNamed(svc.options, e.0).Some? ==> !OptionNamed(svc.options, e.0).value.required
  {
    SyncSentRequired(svc.options, Keys(m.values), m.values, req.options.value, toDouble);
  }

  /**
    The corrected reactivation: a mapping in error for a missing option
    becomes active exactly when every required option of its service is
    given a value by the options sent.
   */
  lemma Reactivation(m: Mapping, svc: ServiceDef, req: PatchRequest, c: Consts, toDouble: string -> Option<string>)
    requires StatusesDistinct(c) && MissingOption(m.row, c) && req.options.Some?
    requires IdsDistinct(svc.options) && DistinctKeys(m.values) && DistinctKeys(req.options.value)
    requires PatchOne(m, svc, req, c, toDouble, true).Ok?
    ensures PatchOne(m, svc, req, c, toDouble, true).value.row.statusId == c.active <==>
      forall o :: o in svc.options && o.required ==> exists e :: e in req.options.value && Sends(svc.options, e, o.id)
  {
    PatchedValuesSpec(svc.options, m.values, req.options.value, toDouble);
  }

  /** An edit never stores two values for one option. */
  lemma PatchKeepsDistinct(m: Mapping, svc: ServiceDef, req: PatchRequest, c: Consts,
                           toDouble: string -> Option<string>, corrected: bool)
    requires IdsDistinct(svc.options) && DistinctKeys(m.values)
    requires req.options.Some? ==> DistinctKeys(req.options.value)
    requires PatchOne(m, svc, req, c, toDouble, corrected).Ok?
    ensures DistinctKeys(PatchOne(m, svc, req, c, toDouble, corrected).value.values)
  {
    if req.options.Some? {
      PatchedValuesSpec(svc.options, m.values, req.options.value, toDouble);
    }
  }

  /**
    An edit that sends no value for a required option reactivates a mapping
    in error for a missing option, as written, although the option then has
    no value; corrected, the mapping stays in error.
   */
  lemma OmittedRequiredReactivates(c: Consts, toDouble: string -> Option<string>)
    requires StatusesDistinct(c)
    ensures var svc := ServiceDef(1, "probe", "ping", [OptionDef(7, "host", "string", true)]);
      var m := Mapping(MappedService(1, "gateway", "", c.error, Some(c.missingRequiredOption), None, None), []);
      var req := PatchRequest(5, None, None, None, Some([]));
      && PatchOne(m, svc, req, c, toDouble, false).Ok?
      && PatchOne(m, svc, req, c, toDouble, false).value.row.statusId == c.active
      && Get(PatchOne(m, svc, req, c, toDouble, false).value.values, 7).None?
      && PatchOne(m, svc, req, c, toDouble, true).Ok?
      && PatchOne(m, svc, req, c, toDouble, true).value.row.statusId == c.error
  {
    var svc := ServiceDef(1, "probe", "ping", [OptionDef(7, "host", "string", true)]);
    var m := Mapping(MappedService(1, "gateway", "", c.error, Some(c.missingRequiredOption), None, None), []);
    assert SyncSent(svc.options, [], [], [], toDouble) == Ok(SentSync([], [], true));
    assert Keys(m.values) == [];
    assert PatchedValues(svc.options, m.values, [], toDouble) == Ok(([], true));
    assert !RequiredStored(svc.options, []) by {
      assert svc.options[0] in svc.options;
    }
  }
}
