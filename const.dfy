/**
  The server's constant tables (mapping statuses, error causes, service
  statuses), loaded lazily from the database and cached. Each table is one
  dictionary that maps both ways: a row's id to its name and its name to its
  id.
 */
module Constants {
  import opened Wrappers
  import opened Dicts
  import Sorting

  /** A key or value of a constant table: a row's id or a row's name. */
  datatype Ref = Id(id: int) | Name(name: string)

  /** A row of `statuses`, `error_causes` or `service_statuses`. */
  datatype Row = Row(id: int, name: string)

  type Table = Dict<Ref, Ref>

  function RowId(r: Row): int { r.id }

  /** The table a load builds: for each row in turn, id to name, then name to id. */
  function Load(rows: seq<Row>): Table {
    if rows == [] then []
    else
      var r := rows[|rows| - 1];
      Put(Put(Load(rows[..|rows| - 1]), Id(r.id), Name(r.name)), Name(r.name), Id(r.id))
  }

  /** What a key finds: the other half of the last row that has it. */
  function LastFor(rows: seq<Row>, k: Ref): Option<Ref> {
    if rows == [] then None
    else
      var r := rows[|rows| - 1];
      if k == Name(r.name) then Some(Id(r.id))
      else if k == Id(r.id) then Some(Name(r.name))
      else LastFor(rows[..|rows| - 1], k)
  }

  /** Ids and names are each unique, as the tables' keys are. */
  predicate UniqueRows(rows: seq<Row>) {
    forall i, j :: 0 <= i < j < |rows| ==> rows[i].id != rows[j].id && rows[i].name != rows[j].name
  }

  /** The ids among some keys, in order. */
  function IdsOf(ks: seq<Ref>): seq<int> {
    if ks == [] then []
    else
      var k := ks[|ks| - 1];
      IdsOf(ks[..|ks| - 1]) + (if k.Id? then [k.id] else [])
  }

  predicate Ascending(s: seq<int>) {
    forall i, j :: 0 <= i < j < |s| ==> s[i] <= s[j]
  }

  /** A key maps to the other half of the last row holding it. */
  lemma {:induction false} LoadGet(rows: seq<Row>, k: Ref)
    ensures Get(Load(rows), k) == LastFor(rows, k)
  {
    if rows != [] {
      var r := rows[|rows| - 1];
      var t := Load(rows[..|rows| - 1]);
      LoadGet(rows[..|rows| - 1], k);
      PutGet(Put(t, Id(r.id), Name(r.name)), Name(r.name), Id(r.id), k);
      PutGet(t, Id(r.id), Name(r.name), k);
    }
  }

  /** Some row has k as its id or as its name exactly when the last such row answers k. */
  lemma {:induction false} LastForSome(rows: seq<Row>, k: Ref)
    ensures LastFor(rows, k).Some? <==> exists i :: 0 <= i < |rows| && (k == Id(rows[i].id) || k == Name(rows[i].name))
  {
    if rows != [] {
      var n := |rows| - 1;
      LastForSome(rows[..n], k);
      if exists i :: 0 <= i < |rows| && (k == Id(rows[i].id) || k == Name(rows[i].name)) {
        var i :| 0 <= i < |rows| && (k == Id(rows[i].id) || k == Name(rows[i].name));
        if i < n {
          assert rows[..n][i] == rows[i];
        }
      }
    }
  }

  /**
    After loading, every row is found both ways, by its id and by its name,
    and no other key is present.
   */
  lemma LoadSpec(rows: seq<Row>)
    requires UniqueRows(rows)
    ensures forall i :: 0 <= i < |rows| ==>
      Get(Load(rows), Id(rows[i].id)) == Some(Name(rows[i].name)) && Get(Load(rows), Name(rows[i].name)) == Some(Id(rows[i].id))
    ensures forall k :: Get(Load(rows), k).Some? <==>
      exists i :: 0 <= i < |rows| && (k == Id(rows[i].id) || k == Name(rows[i].name))
  {
    forall i | 0 <= i < |rows|
      ensures Get(Load(rows), Id(rows[i].id)) == Some(Name(rows[i].name))
      ensures Get(Load(rows), Name(rows[i].name)) == Some(Id(rows[i].id))
    {
      LoadGet(rows, Id(rows[i].id));
      LoadGet(rows, Name(rows[i].name));
      UniqueLastFor(rows, i);
    }
    forall k ensures Get(Load(rows), k).Some? <==> exists i :: 0 <= i < |rows| && (k == Id(rows[i].id) || k == Name(rows[i].name)) {
      LoadGet(rows, k);
      LastForSome(rows, k);
    }
  }

  lemma {:induction false} UniqueLastFor(rows: seq<Row>, i: nat)
    requires UniqueRows(rows) && i < |rows|
    ensures LastFor(rows, Id(rows[i].id)) == Some(Name(rows[i].name))
    ensures LastFor(rows, Name(rows[i].name)) == Some(Id(rows[i].id))
  {
    var n := |rows| - 1;
    if i < n {
      assert rows[..n][i] == rows[i];
      UniqueLastFor(rows[..n], i);
    }
  }

  lemma IdsOfSnoc(ks: seq<Ref>, k: Ref)
    ensures IdsOf(ks + [k]) == IdsOf(ks) + (if k.Id? then [k.id] else [])
  {
    assert (ks + [k])[..|ks|] == ks;
  }

  lemma AscendingSnoc(s: seq<int>, x: int)
    requires Ascending(s) && forall y :: y in s ==> y <= x
    ensures Ascending(s + [x])
  {
    var t := s + [x];
    forall i, j | 0 <= i < j < |t| ensures t[i] <= t[j] {
      assert t[i] == s[i];
      if j == |s| {
        assert s[i] in s;
      } else {
        assert t[j] == s[j];
      }
    }
  }

  /** Loading one more row adds its id to the ids among the keys unless it is already there. */
  lemma LoadRowIds(rows: seq<Row>)
    requires rows != []
    ensures var n := |rows| - 1;
      IdsOf(Keys(Load(rows))) == IdsOf(Keys(Load(rows[..n]))) ||
      IdsOf(Keys(Load(rows))) == IdsOf(Keys(Load(rows[..n]))) + [rows[n].id]
  {
    var n := |rows| - 1;
    var r := rows[n];
    var t := Load(rows[..n]);
    var t1 := Put(t, Id(r.id), Name(r.name));
    PutKeys(t, Id(r.id), Name(r.name));
    PutKeys(t1, Name(r.name), Id(r.id));
    IdsOfSnoc(Keys(t), Id(r.id));
    IdsOfSnoc(Keys(t1), Name(r.name));
  }

  /** A load of rows ordered by id lists the ids among its keys in ascending order. */
  lemma {:induction false} LoadAscending(rows: seq<Row>)
    requires Sorting.SortedBy(rows, RowId)
    ensures Ascending(IdsOf(Keys(Load(rows))))
    ensures forall x :: x in IdsOf(Keys(Load(rows))) ==> exists i :: 0 <= i < |rows| && rows[i].id == x
  {
    if rows != [] {
      var n := |rows| - 1;
      assert Sorting.SortedBy(rows[..n], RowId) by {
        forall i, j | 0 <= i < j < n ensures RowId(rows[..n][i]) <= RowId(rows[..n][j]) {
          assert RowId(rows[i]) <= RowId(rows[j]);
        }
      }
      LoadAscending(rows[..n]);
      LoadRowIds(rows);
      var before := IdsOf(Keys(Load(rows[..n])));
      forall x | x in before ensures x <= rows[n].id {
        var i :| 0 <= i < n && rows[..n][i].id == x;
        assert RowId(rows[i]) <= RowId(rows[n]);
      }
      if IdsOf(Keys(Load(rows))) != before {
        AscendingSnoc(before, rows[n].id);
      }
      forall x | x in IdsOf(Keys(Load(rows))) ensures exists i :: 0 <= i < |rows| && rows[i].id == x {
        if x in before {
          var i :| 0 <= i < n && rows[..n][i].id == x;
          assert rows[i].id == x;
        } else {
          assert rows[n].id == x;
        }
      }
    }
  }

  /** Service statuses are read ordered by id, so their ids enter the table in ascending order. */
  lemma ServiceStatusAscending(rows: seq<Row>)
    ensures Ascending(IdsOf(Keys(Load(Sorting.SortBy(rows, RowId)))))
  {
    Sorting.SortBySpec(rows, RowId);
    LoadAscending(Sorting.SortBy(rows, RowId));
  }

  /** The loop of `load_status`, `load_errors` and `load_service_status`. */
  method LoadRows(rows: seq<Row>) returns (t: Table)
    ensures t == Load(rows)
  {
    t := [];
    var i := 0;
    while i < |rows|
      invariant 0 <= i <= |rows|
      invariant t == Load(rows[..i])
    {
      assert rows[..i + 1][..i] == rows[..i];
      t := Put(t, Id(rows[i].id), Name(rows[i].name));
      t := Put(t, Name(rows[i].name), Id(rows[i].id));
      i := i + 1;
    }
    assert rows[..i] == rows;
  }

  /**
    The cache. Each accessor takes the rows the database would return at that
    moment; it loads them only while its table is absent and otherwise
    returns the cached table whatever the database now holds.
   */
  class Const {
    var status: Option<Table>
    var errors: Option<Table>
    var serviceStatus: Option<Table>

    constructor ()
      ensures status == None && errors == None && serviceStatus == None
    {
      status := None;
      errors := None;
      serviceStatus := None;
    }

    method LoadStatus(rows: seq<Row>)
      modifies this`status
      ensures status == Some(Load(rows))
    {
      var t := LoadRows(rows);
      status := Some(t);
    }

    method LoadErrors(rows: seq<Row>)
      modifies this`errors
      ensures errors == Some(Load(rows))
    {
      var t := LoadRows(rows);
      errors := Some(t);
    }

    /** The query orders the rows by id. */
    method LoadServiceStatus(rows: seq<Row>)
      modifies this`serviceStatus
      ensures serviceStatus == Some(Load(Sorting.SortBy(rows, RowId)))
    {
      var t := LoadRows(Sorting.SortBy(rows, RowId));
      serviceStatus := Some(t);
    }

    method Status(rows: seq<Row>) returns (t: Table)
      modifies this`status
      ensures old(status).Some? ==> t == old(status).value && status == old(status)
      ensures old(status).None? ==> t == Load(rows) && status == Some(t)
    {
      if status.None? {
        LoadStatus(rows);
      }
      t := status.value;
    }

    method ErrorCause(rows: seq<Row>) returns (t: Table)
      modifies this`errors
      ensures old(errors).Some? ==> t == old(errors).value && errors == old(errors)
      ensures old(errors).None? ==> t == Load(rows) && errors == Some(t)
    {
      if errors.None? {
        LoadErrors(rows);
      }
      t := errors.value;
    }

    method ServiceStatus(rows: seq<Row>) returns (t: Table)
      modifies this`serviceStatus
      ensures old(serviceStatus).Some? ==> t == old(serviceStatus).value && serviceStatus == old(serviceStatus)
      ensures old(serviceStatus).None? ==> t == Load(Sorting.SortBy(rows, RowId)) && serviceStatus == Some(t)
    {
      if serviceStatus.None? {
        LoadServiceStatus(rows);
      }
      t := serviceStatus.value;
    }
  }

  /** The data types a service option may declare. */
  datatype DataType = StringType | IntegerType | DoubleType | BoolType | ListType

  function DataTypeName(t: DataType): string {
    match t
    case StringType => "string"
    case IntegerType => "integer"
    case DoubleType => "double"
    case BoolType => "bool"
    case ListType => "list"
  }

  /** `OptionDataType(s)`: the member whose value is s, if any. */
  function ParseDataType(s: string): (r: Option<DataType>)
    ensures r.Some? <==> s in {"string", "integer", "double", "bool", "list"}
  {
    if s == "string" then Some(StringType)
    else if s == "integer" then Some(IntegerType)
    else if s == "double" then Some(DoubleType)
    else if s == "bool" then Some(BoolType)
    else if s == "list" then Some(ListType)
    else None
  }

  /** The value names and the members correspond one to one. */
  lemma DataTypeRoundTrip(t: DataType, s: string)
    ensures ParseDataType(DataTypeName(t)) == Some(t)
    ensures ParseDataType(s).Some? ==> DataTypeName(ParseDataType(s).value) == s
  {
  }
}
