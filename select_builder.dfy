/**
  The column selection behind the `show` parameter: each requested column
  is looked up in the endpoint's column mapping, the tables its columns
  need are gathered, and every gathered table is outer-joined once.
  Column expressions and join targets are opaque values of the ORM.
 */
module SelectBuilder {
  import opened Wrappers
  import opened Dicts

  /** `", ".join(parts)`. */
  function JoinWith(parts: seq<string>, sep: string): (r: string)
    ensures |parts| == 1 ==> r == parts[0]
    ensures |parts| == 0 ==> r == ""
  {
    if |parts| == 0 then ""
    else if |parts| == 1 then parts[0]
    else JoinWith(parts[..|parts| - 1], sep) + sep + parts[|parts| - 1]
  }

  datatype SelectError = BadRequest(message: string) | KeyError(key: string)

  /** A join table entry: one target, or a tuple of arguments spread into the outer join. */
  datatype JoinTarget<T> = Single(target: T) | Several(targets: seq<T>)

  /** The query: the selected expressions, then one outer join per applied table, with its arguments. */
  datatype Query<E, T> = Query(selected: seq<E>, outerJoins: seq<seq<T>>)

  /** The message for a column that is not in the mapping. */
  function BadColumn<E>(itemName: string, column: string, columnMapping: Dict<string, E>): string {
    "Bad '" + itemName + "' value '" + column + "'. Can be one of '" + JoinWith(Keys(columnMapping), ", ") + "'."
  }

  /** The selected expressions, or the error for the first unknown column. */
  function Selected<E>(columns: seq<string>, columnMapping: Dict<string, E>, itemName: string): Result<seq<E>, SelectError>
  {
    if columns == [] then Ok([])
    else
      var n := |columns| - 1;
      var before := Selected(columns[..n], columnMapping, itemName);
      if before.Err? then before
      else if Get(columnMapping, columns[n]).None? then Err(BadRequest(BadColumn(itemName, columns[n], columnMapping)))
      else Ok(before.value + [Get(columnMapping, columns[n]).value])
  }

  /** The tables the columns need: the union of their join mapping entries; nothing without a join mapping. */
  function Joins(columns: seq<string>, joinMapping: Option<Dict<string, set<string>>>): set<string>
  {
    if columns == [] || joinMapping.None? then {}
    else
      var n := |columns| - 1;
      var g := Get(joinMapping.value, columns[n]);
      Joins(columns[..n], joinMapping) + (if g.Some? then g.value else {})
  }

  /** Every column known: the mapped expressions in request order and multiplicity; otherwise the first unknown one is named. */
  lemma {:induction false} SelectedSpec<E>(columns: seq<string>, columnMapping: Dict<string, E>, itemName: string)
    ensures var r := Selected(columns, columnMapping, itemName);
            r.Ok? <==> forall i :: 0 <= i < |columns| ==> Get(columnMapping, columns[i]).Some?
    ensures var r := Selected(columns, columnMapping, itemName);
            r.Ok? ==> |r.value| == |columns| &&
                      forall i :: 0 <= i < |columns| ==> Some(r.value[i]) == Get(columnMapping, columns[i])
    ensures var r := Selected(columns, columnMapping, itemName);
            r.Err? ==> exists i :: 0 <= i < |columns| && Get(columnMapping, columns[i]).None? &&
                                   (forall j :: 0 <= j < i ==> Get(columnMapping, columns[j]).Some?) &&
                                   r.error == BadRequest(BadColumn(itemName, columns[i], columnMapping))
  {
    if columns != [] {
      var n := |columns| - 1;
      var pre := columns[..n];
      SelectedSpec(pre, columnMapping, itemName);
      assert forall i :: 0 <= i < n ==> pre[i] == columns[i];
      var before := Selected(pre, columnMapping, itemName);
      if before.Err? {
        var i :| 0 <= i < n && Get(columnMapping, pre[i]).None? &&
                 (forall j :: 0 <= j < i ==> Get(columnMapping, pre[j]).Some?) &&
                 before.error == BadRequest(BadColumn(itemName, pre[i], columnMapping));
        assert Get(columnMapping, columns[i]).None?;
      }
    }
  }

  /** A table is joined iff some requested column lists it in the join mapping. */
  lemma {:induction false} JoinsSpec(columns: seq<string>, joinMapping: Dict<string, set<string>>, table: string)
    ensures table in Joins(columns, Some(joinMapping)) <==>
            exists i :: 0 <= i < |columns| && Get(joinMapping, columns[i]).Some? && table in Get(joinMapping, columns[i]).value
  {
    if columns != [] {
      var n := |columns| - 1;
      JoinsSpec(columns[..n], joinMapping, table);
      assert forall i :: 0 <= i < n ==> columns[..n][i] == columns[i];
      if table in Joins(columns, Some(joinMapping)) && table !in Joins(columns[..n], Some(joinMapping)) {
        assert Get(joinMapping, columns[n]).Some? && table in Get(joinMapping, columns[n]).value;
      }
    }
  }

  /** Without a join mapping no table is joined. */
  lemma NoJoinMapping(columns: seq<string>)
    ensures Joins(columns, None) == {}
  {
  }

  /** The arguments of one outer join. */
  function JoinArgs<T>(j: JoinTarget<T>): seq<T> {
    match j
    case Single(t) => [t]
    case Several(ts) => ts
  }

  /** The outer joins for tables taken in `order`, or the first table with no join table entry. */
  function OuterJoins<T>(order: seq<string>, joinTables: Dict<string, JoinTarget<T>>): Result<seq<seq<T>>, SelectError>
  {
    if order == [] then Ok([])
    else
      var n := |order| - 1;
      var before := OuterJoins(order[..n], joinTables);
      if before.Err? then before
      else if Get(joinTables, order[n]).None? then Err(KeyError(order[n]))
      else Ok(before.value + [JoinArgs(Get(joinTables, order[n]).value)])
  }

  /** An order that lists every table of the set exactly once. */
  predicate Enumerates(order: seq<string>, tables: set<string>) {
    && |order| == |tables|
    && (forall i :: 0 <= i < |order| ==> order[i] in tables)
    && (forall i, j :: 0 <= i < j < |order| ==> order[i] != order[j])
  }

  /** The joins succeed iff every table has an entry, and then there is one outer join per table, with its arguments. */
  lemma {:induction false} OuterJoinsSpec<T>(order: seq<string>, joinTables: Dict<string, JoinTarget<T>>)
    ensures var r := OuterJoins(order, joinTables);
            r.Ok? <==> forall i :: 0 <= i < |order| ==> Get(joinTables, order[i]).Some?
    ensures var r := OuterJoins(order, joinTables);
            r.Ok? ==> |r.value| == |order| &&
                      forall i :: 0 <= i < |order| ==> r.value[i] == JoinArgs(Get(joinTables, order[i]).value)
  {
    if order != [] {
      var n := |order| - 1;
      OuterJoinsSpec(order[..n], joinTables);
      assert forall i :: 0 <= i < n ==> order[..n][i] == order[i];
    }
  }

  /** A Selected error found on a prefix is the error of the whole request. */
  lemma {:induction false} SelectedErrorStays<E>(columns: seq<string>, columnMapping: Dict<string, E>, itemName: string,
                                                i: nat, e: SelectError)
    requires i <= |columns| && Selected(columns[..i], columnMapping, itemName) == Err(e)
    ensures Selected(columns, columnMapping, itemName) == Err(e)
    decreases |columns| - i
  {
    if i < |columns| {
      assert columns[..i + 1][..i] == columns[..i];
      SelectedErrorStays(columns, columnMapping, itemName, i + 1, e);
    } else {
      assert columns[..i] == columns;
    }
  }

  lemma {:induction false} OuterJoinsErrorStays<T>(order: seq<string>, joinTables: Dict<string, JoinTarget<T>>, i: nat,
                                                  e: SelectError)
    requires i <= |order| && OuterJoins(order[..i], joinTables) == Err(e)
    ensures OuterJoins(order, joinTables) == Err(e)
    decreases |order| - i
  {
    if i < |order| {
      assert order[..i + 1][..i] == order[..i];
      OuterJoinsErrorStays(order, joinTables, i + 1, e);
    } else {
      assert order[..i] == order;
    }
  }

  /**
    `select`: the query selecting the mapped expressions of the columns,
    outer-joined once with each table they need, in some order of the
    joined set; a bad column or a table without an entry fails.
   */
  method Select<E, T>(columns: seq<string>, columnMapping: Dict<string, E>,
                      joinMapping: Option<Dict<string, set<string>>>, joinTables: Dict<string, JoinTarget<T>>,
                      itemName: string)
    returns (r: Result<Query<E, T>, SelectError>, ghost order: seq<string>)
    ensures Selected(columns, columnMapping, itemName).Err? ==> r == Err(Selected(columns, columnMapping, itemName).error)
    ensures Selected(columns, columnMapping, itemName).Ok? ==>
              Enumerates(order, Joins(columns, joinMapping)) &&
              match OuterJoins(order, joinTables)
              case Err(e) => r == Err(e)
              case Ok(joins) => r == Ok(Query(Selected(columns, columnMapping, itemName).value, joins))
  {
    order := [];
    var selected := SelectColumns(columns, columnMapping, joinMapping, itemName);
    if selected.Err? {
      return Err(selected.error), order;
    }
    var (args, joins) := selected.value;
    var outer;
    outer, order := JoinAll(joins, joinTables);
    if outer.Err? {
      return Err(outer.error), order;
    }
    r := Ok(Query(args, outer.value));
  }

  /** The loop over the requested columns: their expressions and the tables they need, or the first bad column. */
  method SelectColumns<E>(columns: seq<string>, columnMapping: Dict<string, E>,
                          joinMapping: Option<Dict<string, set<string>>>, itemName: string)
    returns (r: Result<(seq<E>, set<string>), SelectError>)
    ensures Selected(columns, columnMapping, itemName).Err? ==> r == Err(Selected(columns, columnMapping, itemName).error)
    ensures Selected(columns, columnMapping, itemName).Ok? ==>
              r == Ok((Selected(columns, columnMapping, itemName).value, Joins(columns, joinMapping)))
  {
    var args: seq<E> := [];
    var joins: set<string> := {};
    var i := 0;
    while i < |columns|
      invariant 0 <= i <= |columns|
      invariant Selected(columns[..i], columnMapping, itemName) == Ok(args)
      invariant joins == Joins(columns[..i], joinMapping)
    {
      var column := columns[i];
      assert columns[..i + 1][..i] == columns[..i];
      var expr := Get(columnMapping, column);
      if expr.None? {
        r := Err(BadRequest(BadColumn(itemName, column, columnMapping)));
        SelectedErrorStays(columns, columnMapping, itemName, i + 1, r.error);
        return;
      }
      args := args + [expr.value];
      if joinMapping.Some? {
        var needs := Get(joinMapping.value, column);
        if needs.Some? {
          joins := joins + needs.value;
        }
      }
      i := i + 1;
    }
    assert columns[..|columns|] == columns;
    r := Ok((args, joins));
  }

  /** The loop over the joined tables, taken in some order: one outer join each, or the first table without an entry. */
  method JoinAll<T>(joins: set<string>, joinTables: Dict<string, JoinTarget<T>>)
    returns (r: Result<seq<seq<T>>, SelectError>, ghost order: seq<string>)
    ensures Enumerates(order, joins) && r == OuterJoins(order, joinTables)
    ensures r.Ok? <==> forall t :: t in joins ==> Get(joinTables, t).Some?
    ensures r.Ok? ==> |r.value| == |joins|
  {
    var outer: seq<seq<T>> := [];
    order := [];
    var remaining := joins;
    while remaining != {}
      invariant remaining <= joins
      invariant |order| + |remaining| == |joins|
      invariant forall k :: 0 <= k < |order| ==> order[k] in joins && order[k] !in remaining
      invariant forall k, l :: 0 <= k < l < |order| ==> order[k] != order[l]
      invariant OuterJoins(order, joinTables) == Ok(outer)
      invariant forall t :: t in joins && t !in remaining ==> t in order
      decreases |remaining|
    {
      var table :| table in remaining;
      assert (order + [table])[..|order|] == order;
      var target := Get(joinTables, table);
      if target.None? {
        r := Err(KeyError(table));
        // The tables not reached are listed after the failing one.
        ghost var rest := Enumeration(remaining - {table});
        ghost var full := order + [table] + rest;
        assert full[..|order| + 1] == order + [table];
        OuterJoinsErrorStays(full, joinTables, |order| + 1, r.error);
        forall k, l | 0 <= k < l < |full| ensures full[k] != full[l] {
          if l > |order| {
            assert full[l] == rest[l - |order| - 1] && full[l] in remaining - {table};
          }
        }
        order := full;
        return;
      }
      outer := outer + [JoinArgs(target.value)];
      order := order + [table];
      remaining := remaining - {table};
    }
    r := Ok(outer);
    OuterJoinsSpec(order, joinTables);
  }

  /** Some order of a finite set. */
  ghost function Enumeration(s: set<string>): (order: seq<string>)
    ensures Enumerates(order, s)
  {
    if s == {} then []
    else
      var x :| x in s;
      [x] + Enumeration(s - {x})
  }
}
