/**
  Threshold resolution for one reading (server/api/readings.py): the stored
  rules of the service are grouped by reading pattern, the patterns that match
  the reading name contribute candidates, each status keeps the candidate with
  the longest pattern, and the statuses are then visited in ascending order,
  every violated one overwriting the result.
 */
module ThresholdMatcher {
  import opened Wrappers
  import opened Entities
  import opened Dicts
  import Glob
  import Sorting

  /** A value violates a rule when it lies below a present minimum or above a present maximum. */
  predicate Violates(t: ServiceThreshold, value: int) {
    (t.min.Some? && value < t.min.value) || (t.max.Some? && value > t.max.value)
  }

  // ---------------------------------------------------------------------------
  // The threshold query: the rules of one service, ordered by status id.

  function RulesOfService(table: seq<ServiceThreshold>, probeServiceId: int): (r: seq<ServiceThreshold>)
    ensures forall t :: t in r <==> t in table && t.probeServiceId == probeServiceId
  {
    if table == [] then []
    else
      var rest := RulesOfService(table[..|table| - 1], probeServiceId);
      var t := table[|table| - 1];
      assert table == table[..|table| - 1] + [t];
      if t.probeServiceId == probeServiceId then rest + [t] else rest
  }

  function StatusKey(t: ServiceThreshold): int { t.statusId }

  /** The rows the query returns for a service: its rules, in ascending status id. */
  function QueryRules(table: seq<ServiceThreshold>, probeServiceId: int): seq<ServiceThreshold> {
    Sorting.SortBy(RulesOfService(table, probeServiceId), StatusKey)
  }

  lemma QueryRulesSpec(table: seq<ServiceThreshold>, probeServiceId: int)
    ensures Sorting.SortedBy(QueryRules(table, probeServiceId), StatusKey)
    ensures forall t :: t in QueryRules(table, probeServiceId) <==> t in table && t.probeServiceId == probeServiceId
  {
    var rules := RulesOfService(table, probeServiceId);
    Sorting.SortBySpec(rules, StatusKey);
    assert forall t :: t in QueryRules(table, probeServiceId) <==> t in multiset(rules);
  }

  // ---------------------------------------------------------------------------
  // thresholds[reading] = [rule, ...], in the order the rows arrive.

  type Groups = Dict<string, seq<ServiceThreshold>>

  function GroupByPattern(rules: seq<ServiceThreshold>): Groups {
    if rules == [] then []
    else
      var g := GroupByPattern(rules[..|rules| - 1]);
      var t := rules[|rules| - 1];
      Put(g, t.reading, Get(g, t.reading).GetOr([]) + [t])
  }

  function WithPattern(rules: seq<ServiceThreshold>, pattern: string): (r: seq<ServiceThreshold>)
    ensures forall t :: t in r ==> t.reading == pattern
  {
    if rules == [] then []
    else
      var rest := WithPattern(rules[..|rules| - 1], pattern);
      if rules[|rules| - 1].reading == pattern then rest + [rules[|rules| - 1]] else rest
  }

  /** Each pattern's group holds exactly that pattern's rules, in arrival order; patterns are not repeated. */
  lemma {:induction false} GroupByPatternSpec(rules: seq<ServiceThreshold>, pattern: string)
    ensures DistinctKeys(GroupByPattern(rules))
    ensures Get(GroupByPattern(rules), pattern) ==
            if WithPattern(rules, pattern) == [] then None else Some(WithPattern(rules, pattern))
  {
    if rules != [] {
      var g := GroupByPattern(rules[..|rules| - 1]);
      var t := rules[|rules| - 1];
      GroupByPatternSpec(rules[..|rules| - 1], pattern);
      GroupByPatternSpec(rules[..|rules| - 1], t.reading);
      PutDistinct(g, t.reading, Get(g, t.reading).GetOr([]) + [t]);
      PutGet(g, t.reading, Get(g, t.reading).GetOr([]) + [t], pattern);
    }
  }

  // ---------------------------------------------------------------------------
  // Candidates: (priority, rule) for every rule of every matching pattern, in
  // dictionary order; the priority is the pattern's length.

  datatype Candidate = Candidate(priority: nat, threshold: ServiceThreshold)

  function Candidates(groups: Groups, name: string): seq<Candidate> {
    if groups == [] then []
    else
      var (pattern, rules) := groups[|groups| - 1];
      Candidates(groups[..|groups| - 1], name) +
        (if Glob.Match(name, pattern) then PatternCandidates(pattern, rules) else [])
  }

  function PatternCandidates(pattern: string, rules: seq<ServiceThreshold>): (r: seq<Candidate>)
    ensures |r| == |rules|
    ensures forall i :: 0 <= i < |r| ==> r[i] == Candidate(|pattern|, rules[i])
  {
    seq(|rules|, i requires 0 <= i < |rules| => Candidate(|pattern|, rules[i]))
  }

  /** A candidate stems from a group whose pattern matches the name and has the candidate's length. */
  lemma {:induction false} CandidatesFromMatches(groups: Groups, name: string, c: Candidate)
    requires c in Candidates(groups, name)
    ensures exists g :: g in groups && Glob.Match(name, g.0) && c.threshold in g.1 && c.priority == |g.0|
  {
    if groups != [] {
      var (pattern, rules) := groups[|groups| - 1];
      if c in Candidates(groups[..|groups| - 1], name) {
        CandidatesFromMatches(groups[..|groups| - 1], name, c);
        var g :| g in groups[..|groups| - 1] && Glob.Match(name, g.0) && c.threshold in g.1 && c.priority == |g.0|;
        assert g in groups;
      } else {
        var k :| 0 <= k < |rules| && PatternCandidates(pattern, rules)[k] == c;
        assert groups[|groups| - 1] in groups;
      }
    }
  }

  /** Every rule of every matching group becomes a candidate. */
  lemma {:induction false} MatchesAreCandidates(groups: Groups, name: string, i: nat, t: ServiceThreshold)
    requires i < |groups| && Glob.Match(name, groups[i].0) && t in groups[i].1
    ensures Candidate(|groups[i].0|, t) in Candidates(groups, name)
  {
    var (pattern, rules) := groups[|groups| - 1];
    if i < |groups| - 1 {
      MatchesAreCandidates(groups[..|groups| - 1], name, i, t);
    } else {
      var k :| 0 <= k < |rules| && rules[k] == t;
      assert PatternCandidates(pattern, rules)[k] == Candidate(|groups[i].0|, t);
    }
  }

  // ---------------------------------------------------------------------------
  // combined[status] = the candidate with the longest pattern; a later
  // candidate replaces the kept one only when its priority is strictly greater.

  function CombineStep(m: map<int, Candidate>, c: Candidate): map<int, Candidate> {
    var s := c.threshold.statusId;
    if s !in m || m[s].priority < c.priority then m[s := c] else m
  }

  function Combine(cs: seq<Candidate>): map<int, Candidate> {
    if cs == [] then map[] else CombineStep(Combine(cs[..|cs| - 1]), cs[|cs| - 1])
  }

  /**
    Candidate i is the one kept for status s: it has status s, no candidate of
    status s has a longer pattern, and every earlier one of status s is shorter.
   */
  ghost predicate Winner(cs: seq<Candidate>, s: int, i: int) {
    && 0 <= i < |cs|
    && cs[i].threshold.statusId == s
    && (forall j :: 0 <= j < |cs| && cs[j].threshold.statusId == s ==> cs[j].priority <= cs[i].priority)
    && (forall j :: 0 <= j < i && cs[j].threshold.statusId == s ==> cs[j].priority < cs[i].priority)
  }

  /** The combined map has an entry exactly for the statuses present, and each entry is that status's winner. */
  lemma {:induction false} CombineSpec(cs: seq<Candidate>, s: int)
    ensures s in Combine(cs) <==> exists i :: 0 <= i < |cs| && cs[i].threshold.statusId == s
    ensures s in Combine(cs) ==> exists i :: Winner(cs, s, i) && cs[i] == Combine(cs)[s]
  {
    if cs != [] {
      var prefix := cs[..|cs| - 1];
      var c := cs[|cs| - 1];
      CombineSpec(prefix, s);
      var m := Combine(prefix);
      assert forall j :: 0 <= j < |prefix| ==> prefix[j] == cs[j];
      if c.threshold.statusId == s {
        if s !in m || m[s].priority < c.priority {
          assert Winner(cs, s, |cs| - 1);
        } else {
          var i :| Winner(prefix, s, i) && prefix[i] == m[s];
          assert Winner(cs, s, i);
        }
      } else if s in m {
        var i :| Winner(prefix, s, i) && prefix[i] == m[s];
        assert Winner(cs, s, i);
      }
    }
  }

  /** Two candidates never both win one status: the winner is unique. */
  lemma WinnerUnique(cs: seq<Candidate>, s: int, i: int, j: int)
    requires Winner(cs, s, i) && Winner(cs, s, j)
    ensures i == j
  {
  }

  // ---------------------------------------------------------------------------
  // for key in sorted(combined): if violated: status = key

  lemma HasElement(s: set<int>)
    requires s != {}
    ensures exists x :: x in s
  {
    if forall x :: x !in s {
      assert false;
    }
  }

  /** The least element of a non-empty set of integers. */
  ghost function MinOf(s: set<int>): (m: int)
    requires s != {}
    ensures m in s && forall k :: k in s ==> m <= k
  {
    HasElement(s);
    var x :| x in s;
    if s - {x} == {} then
      assert forall k :: k in s ==> k == x || k in s - {x};
      x
    else
      var y := MinOf(s - {x});
      assert forall k :: k in s ==> k == x || k in s - {x};
      if x < y then x else y
  }

  /** `sorted(keys)`: the keys in strictly ascending order. */
  ghost function SortedKeys(s: set<int>): (r: seq<int>)
    ensures forall i, j :: 0 <= i < j < |r| ==> r[i] < r[j]
    ensures forall k :: k in r <==> k in s
    decreases s
  {
    if s == {} then []
    else
      var m := MinOf(s);
      [m] + SortedKeys(s - {m})
  }

  function LastViolated(keys: seq<int>, m: map<int, Candidate>, value: int, ok: int): int
    requires forall k :: k in keys ==> k in m
  {
    if keys == [] then ok
    else
      var k := keys[|keys| - 1];
      if Violates(m[k].threshold, value) then k else LastViolated(keys[..|keys| - 1], m, value, ok)
  }

  /** The status a value resolves to under a combined rule map. */
  ghost function Resolve(m: map<int, Candidate>, value: int, ok: int): int {
    LastViolated(SortedKeys(m.Keys), m, value, ok)
  }

  /** Visiting keys in order and overwriting on violation leaves the last violated key, or the start value. */
  lemma {:induction false} LastViolatedSpec(keys: seq<int>, m: map<int, Candidate>, value: int, ok: int)
    requires forall k :: k in keys ==> k in m
    ensures var r := LastViolated(keys, m, value, ok);
      if forall i :: 0 <= i < |keys| ==> !Violates(m[keys[i]].threshold, value) then r == ok
      else exists i :: 0 <= i < |keys| && r == keys[i] && Violates(m[r].threshold, value)
             && forall j :: i < j < |keys| ==> !Violates(m[keys[j]].threshold, value)
  {
    if keys != [] {
      var prefix := keys[..|keys| - 1];
      LastViolatedSpec(prefix, m, value, ok);
      assert forall i :: 0 <= i < |prefix| ==> prefix[i] == keys[i];
    }
  }

  /**
    The resolved status is "ok" when no kept rule is violated, and otherwise the
    highest status id whose kept rule is violated.
   */
  lemma ResolveSpec(m: map<int, Candidate>, value: int, ok: int)
    ensures (forall s :: s in m ==> !Violates(m[s].threshold, value)) ==> Resolve(m, value, ok) == ok
    ensures (exists s :: s in m && Violates(m[s].threshold, value)) ==>
      var r := Resolve(m, value, ok);
      r in m && Violates(m[r].threshold, value) &&
      forall s :: s in m && Violates(m[s].threshold, value) ==> s <= r
  {
    var keys := SortedKeys(m.Keys);
    LastViolatedSpec(keys, m, value, ok);
    if exists s :: s in m && Violates(m[s].threshold, value) {
      var s :| s in m && Violates(m[s].threshold, value);
      assert s in keys;
      var r := Resolve(m, value, ok);
      var i :| 0 <= i < |keys| && r == keys[i] && Violates(m[r].threshold, value)
             && forall j :: i < j < |keys| ==> !Violates(m[keys[j]].threshold, value);
      forall s' | s' in m && Violates(m[s'].threshold, value) ensures s' <= r {
        var j :| 0 <= j < |keys| && keys[j] == s';
        if j > i { assert false; }
      }
    }
  }

  // ---------------------------------------------------------------------------
  // The loops of the request handler, proved against the functions above.

  /** Builds `thresholds[reading] = [rule, ...]` row by row, as the setdefault/append loop does. */
  method GroupRules(rules: seq<ServiceThreshold>) returns (groups: Groups)
    ensures groups == GroupByPattern(rules)
  {
    groups := [];
    var i := 0;
    while i < |rules|
      invariant 0 <= i <= |rules|
      invariant groups == GroupByPattern(rules[..i])
    {
      var t := rules[i];
      assert rules[..i + 1][..i] == rules[..i];
      groups := Put(groups, t.reading, Get(groups, t.reading).GetOr([]) + [t]);
      i := i + 1;
    }
    assert rules[..i] == rules;
  }

  lemma CombineAppend(cs: seq<Candidate>, c: Candidate)
    ensures Combine(cs + [c]) == CombineStep(Combine(cs), c)
  {
    assert (cs + [c])[..|cs|] == cs;
  }

  lemma CandidatesPrefix(groups: Groups, name: string, i: nat)
    requires i < |groups|
    ensures Candidates(groups[..i + 1], name) ==
      Candidates(groups[..i], name) +
      (if Glob.Match(name, groups[i].0) then PatternCandidates(groups[i].0, groups[i].1) else [])
  {
    assert groups[..i + 1][..i] == groups[..i];
  }

  /**
    The nested loop over the matching patterns and their rules: the map it
    builds is the combination of all candidates, in dictionary order.
   */
  method CombineMatches(groups: Groups, name: string) returns (combined: map<int, Candidate>)
    ensures combined == Combine(Candidates(groups, name))
  {
    combined := map[];
    var i := 0;
    while i < |groups|
      invariant 0 <= i <= |groups|
      invariant combined == Combine(Candidates(groups[..i], name))
    {
      var (pattern, rules) := groups[i];
      ghost var before := Candidates(groups[..i], name);
      if Glob.Match(name, pattern) {
        var priority := |pattern|;
        var j := 0;
        assert PatternCandidates(pattern, rules[..0]) == [];
        assert before + [] == before;
        while j < |rules|
          invariant 0 <= j <= |rules|
          invariant combined == Combine(before + PatternCandidates(pattern, rules[..j]))
        {
          var t := rules[j];
          var c := Candidate(priority, t);
          assert PatternCandidates(pattern, rules[..j + 1]) == PatternCandidates(pattern, rules[..j]) + [c];
          assert before + PatternCandidates(pattern, rules[..j + 1]) ==
                 (before + PatternCandidates(pattern, rules[..j])) + [c];
          CombineAppend(before + PatternCandidates(pattern, rules[..j]), c);
          if t.statusId !in combined || combined[t.statusId].priority < priority {
            combined := combined[t.statusId := c];
          }
          j := j + 1;
        }
        assert rules[..j] == rules;
      } else {
        assert before + [] == before;
      }
      CandidatesPrefix(groups, name, i);
      i := i + 1;
    }
    assert groups[..i] == groups;
  }

  /** Taking the least element off the front of the ordered keys. */
  lemma SortedKeysLeast(s: set<int>, k: int)
    requires k in s && forall j :: j in s ==> k <= j
    ensures SortedKeys(s) == [k] + SortedKeys(s - {k})
  {
    assert MinOf(s) == k;
  }

  lemma ConcatAssoc(a: seq<int>, k: int, b: seq<int>)
    ensures a + ([k] + b) == (a + [k]) + b
  {
  }

  lemma LastViolatedAppend(keys: seq<int>, k: int, m: map<int, Candidate>, value: int, ok: int)
    requires forall x :: x in keys ==> x in m
    requires k in m
    ensures LastViolated(keys + [k], m, value, ok) ==
      if Violates(m[k].threshold, value) then k else LastViolated(keys, m, value, ok)
  {
    assert (keys + [k])[..|keys|] == keys;
  }

  /**
    The loop over `sorted(combined)`: takes the least remaining status each
    time and overwrites the result on every violation.
   */
  method ResolveStatus(m: map<int, Candidate>, value: int, ok: int) returns (status: int)
    ensures status == Resolve(m, value, ok)
  {
    status := ok;
    var remaining := m.Keys;
    ghost var visited: seq<int> := [];
    while remaining != {}
      invariant remaining <= m.Keys
      invariant SortedKeys(m.Keys) == visited + SortedKeys(remaining)
      invariant forall k :: k in visited ==> k in m
      invariant status == LastViolated(visited, m, value, ok)
      decreases remaining
    {
      ghost var least := MinOf(remaining);
      var key :| key in remaining && forall j :: j in remaining ==> key <= j;
      SortedKeysLeast(remaining, key);
      ghost var rest := SortedKeys(remaining - {key});
      ConcatAssoc(visited, key, rest);
      LastViolatedAppend(visited, key, m, value, ok);
      if Violates(m[key].threshold, value) {
        status := key;
      }
      visited := visited + [key];
      remaining := remaining - {key};
    }
    assert visited + [] == visited;
  }

  // ---------------------------------------------------------------------------
  // The whole evaluation for one reading.

  ghost function Evaluate(groups: Groups, name: string, value: int, ok: int): int {
    Resolve(Combine(Candidates(groups, name)), value, ok)
  }

  /** A service whose rules do not match the reading name resolves to "ok". */
  lemma NoMatchIsOk(groups: Groups, name: string, value: int, ok: int)
    requires forall g :: g in groups ==> !Glob.Match(name, g.0)
    ensures Evaluate(groups, name, value, ok) == ok
  {
    var cs := Candidates(groups, name);
    if cs != [] {
      CandidatesFromMatches(groups, name, cs[0]);
    }
    ResolveSpec(Combine(cs), value, ok);
  }

  // ---------------------------------------------------------------------------
  // Worked scenarios.

  lemma GroupTwo(a: ServiceThreshold, b: ServiceThreshold)
    ensures GroupByPattern([a, b]) ==
      if a.reading == b.reading then [(a.reading, [a, b])] else [(a.reading, [a]), (b.reading, [b])]
  {
    assert [a, b][..1] == [a];
    assert [a][..0] == [];
    var g := GroupByPattern([a]);
    var e: Groups := [];
    assert GroupByPattern([]) == e;
    assert Get(e, a.reading) == None;
    assert Get(e, a.reading).GetOr([]) + [a] == [a];
    assert Put(e, a.reading, [a]) == [(a.reading, [a])];
    assert g == Put(e, a.reading, Get(e, a.reading).GetOr([]) + [a]);
    assert g == [(a.reading, [a])];
    assert g[1..] == e;
    var v := Get(g, b.reading).GetOr([]) + [b];
    assert GroupByPattern([a, b]) == Put(g, b.reading, v);
    if a.reading == b.reading {
      assert v == [a, b];
    } else {
      assert Get(g, b.reading) == Get(e, b.reading);
      assert v == [b];
      assert Put(g, b.reading, v) == [g[0]] + Put(e, b.reading, v);
    }
  }

  lemma CandidatesOfGroups(g: (string, seq<ServiceThreshold>), h: (string, seq<ServiceThreshold>), name: string)
    ensures Candidates([g], name) == (if Glob.Match(name, g.0) then PatternCandidates(g.0, g.1) else [])
    ensures Candidates([g, h], name) == Candidates([g], name) +
      (if Glob.Match(name, h.0) then PatternCandidates(h.0, h.1) else [])
  {
    assert [g][..0] == [];
    assert [g, h][..1] == [g];
  }

  lemma CombineTwo(c1: Candidate, c2: Candidate)
    ensures Combine([c1, c2]) == CombineStep(CombineStep(map[], c1), c2)
  {
    CombineAppend([], c1);
    CombineAppend([c1], c2);
    assert [] + [c1] == [c1] && [c1] + [c2] == [c1, c2];
  }

  /**
    Two kept rules for statuses a < b: b's violation takes precedence, then
    a's, and a value inside both ranges is ok.
   */
  lemma ResolveTwo(a: int, b: int, ca: Candidate, cb: Candidate, value: int, ok: int)
    requires a < b
    ensures Resolve(map[a := ca, b := cb], value, ok) ==
      if Violates(cb.threshold, value) then b
      else if Violates(ca.threshold, value) then a
      else ok
  {
    var m := map[a := ca, b := cb];
    ResolveSpec(m, value, ok);
    assert m[a] == ca && m[b] == cb;
    if Violates(cb.threshold, value) {
      assert b in m && Violates(m[b].threshold, value);
    } else if Violates(ca.threshold, value) {
      assert a in m && Violates(m[a].threshold, value);
    } else {
      assert forall s :: s in m ==> s == a || s == b;
    }
  }

  /** The two rules of the "ping" example below. */
  const PingWarning := ServiceThreshold(1, 20, "latency.*", None, Some(100), FromService)
  const PingError := ServiceThreshold(1, 30, "latency.*", None, Some(500), FromService)

  lemma PingCombined()
    ensures Combine(Candidates(GroupByPattern([PingWarning, PingError]), "latency.google")) ==
      map[20 := Candidate(9, PingWarning), 30 := Candidate(9, PingError)]
  {
    GroupTwo(PingWarning, PingError);
    var groups := [("latency.*", [PingWarning, PingError])];
    assert Glob.IsLiteral("latency.");
    Glob.PrefixStarMatch("latency.google", "latency.");
    assert "latency." + "*" == "latency.*";
    CandidatesOfGroups(groups[0], groups[0], "latency.google");
    var cs := [Candidate(9, PingWarning), Candidate(9, PingError)];
    assert Candidates(groups, "latency.google") == cs;
    CombineTwo(cs[0], cs[1]);
  }

  /**
    A "ping" service declares `latency.*.warning.max = 100` and
    `latency.*.error.max = 500` with warning = 20 < error = 30: the reading
    `latency.google` resolves to ok at 50 and at 10, to warning at 150 and to
    error at 600.
   */
  lemma PingScenario(ok: int)
    ensures var groups := GroupByPattern([PingWarning, PingError]);
      && Evaluate(groups, "latency.google", 50, ok) == ok
      && Evaluate(groups, "latency.google", 150, ok) == 20
      && Evaluate(groups, "latency.google", 600, ok) == 30
      && Evaluate(groups, "latency.google", 10, ok) == ok
  {
    PingCombined();
    var cw, ce := Candidate(9, PingWarning), Candidate(9, PingError);
    ResolveTwo(20, 30, cw, ce, 50, ok);
    ResolveTwo(20, 30, cw, ce, 150, ok);
    ResolveTwo(20, 30, cw, ce, 600, ok);
    ResolveTwo(20, 30, cw, ce, 10, ok);
  }

  /** Two rules for one status, `cpu.*` and `cpu.load.*`, in the example below. */
  function ShortRule(status: int): ServiceThreshold {
    ServiceThreshold(1, status, "cpu.*", None, Some(10), FromService)
  }

  function LongRule(status: int): ServiceThreshold {
    ServiceThreshold(1, status, "cpu.load.*", None, Some(100), FromService)
  }

  lemma CpuCandidates(status: int)
    ensures Candidates([("cpu.*", [ShortRule(status)]), ("cpu.load.*", [LongRule(status)])], "cpu.load.1m") ==
      [Candidate(5, ShortRule(status)), Candidate(10, LongRule(status))]
    ensures Candidates([("cpu.load.*", [LongRule(status)]), ("cpu.*", [ShortRule(status)])], "cpu.load.1m") ==
      [Candidate(10, LongRule(status)), Candidate(5, ShortRule(status))]
  {
    var gs := ("cpu.*", [ShortRule(status)]);
    var gl := ("cpu.load.*", [LongRule(status)]);
    assert Glob.IsLiteral("cpu.");
    assert Glob.IsLiteral("cpu.load.");
    Glob.PrefixStarMatch("cpu.load.1m", "cpu.");
    Glob.PrefixStarMatch("cpu.load.1m", "cpu.load.");
    assert "cpu." + "*" == "cpu.*";
    assert "cpu.load." + "*" == "cpu.load.*";
    CandidatesOfGroups(gs, gl, "cpu.load.1m");
    CandidatesOfGroups(gl, gs, "cpu.load.1m");
  }

  /**
    Of `cpu.*` and `cpu.load.*`, both matching `cpu.load.1m` for the same
    status, the longer pattern's rule is kept.
   */
  lemma LongerPatternWins(status: int)
    ensures Combine(Candidates(GroupByPattern([ShortRule(status), LongRule(status)]), "cpu.load.1m")) ==
      map[status := Candidate(10, LongRule(status))]
  {
    assert "cpu.*" != "cpu.load.*" by { assert "cpu.*"[4] != "cpu.load.*"[4]; }
    GroupTwo(ShortRule(status), LongRule(status));
    CpuCandidates(status);
    CombineTwo(Candidate(5, ShortRule(status)), Candidate(10, LongRule(status)));
  }

  /** The same with the groups in the other order. */
  lemma LongerPatternWinsEitherOrder(status: int)
    ensures Combine(Candidates(GroupByPattern([LongRule(status), ShortRule(status)]), "cpu.load.1m")) ==
      map[status := Candidate(10, LongRule(status))]
  {
    assert "cpu.*" != "cpu.load.*" by { assert "cpu.*"[4] != "cpu.load.*"[4]; }
    GroupTwo(LongRule(status), ShortRule(status));
    CpuCandidates(status);
    CombineTwo(Candidate(10, LongRule(status)), Candidate(5, ShortRule(status)));
  }

  /** With the longer rule kept, a value that only the shorter rule forbids resolves to ok. */
  lemma LongerPatternDecides(status: int, ok: int)
    ensures Evaluate(GroupByPattern([ShortRule(status), LongRule(status)]), "cpu.load.1m", 50, ok) == ok
  {
    LongerPatternWins(status);
    ResolveSpec(map[status := Candidate(10, LongRule(status))], 50, ok);
  }
}
