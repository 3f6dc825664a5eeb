/**
  The query side of the mapping endpoint: which mapping statuses a listing
  asks for, and how its `show` columns divide between the mapping and its
  options.
 */
module ServicesQuery {
  import opened Wrappers
  import opened Dicts
  import Text
  import opened Constants

  /** How a listing request fails: a 400 with a message, or an unexpected exception (a 500). */
  datatype QueryError = BadRequest(message: string) | InternalError

  // ---------------------------------------------------------------------------
  // The `status` arguments.

  /**
    The arguments read from the front: the first "all" stops the reading and
    lifts the filter; before it, every name must be a status, else the
    reading stops at the first unknown one. Ok(Some(ids)) lists the statuses
    asked for, in order.
   */
  function Collect(args: seq<string>, table: Table): Result<Option<seq<Ref>>, string> {
    if args == [] then Ok(Some([]))
    else if args[0] == "all" then Ok(None)
    else
      match Get(table, Name(args[0]))
      case None => Err(args[0])
      case Some(id) => Prepend([id], Collect(args[1..], table))
  }

  function Prepend(ids: seq<Ref>, r: Result<Option<seq<Ref>>, string>): Result<Option<seq<Ref>>, string> {
    if r.Ok? && r.value.Some? then Ok(Some(ids + r.value.value)) else r
  }

  /** The status names of a table. */
  function Names(ks: seq<Ref>): seq<string> {
    if ks == [] then []
    else
      var k := ks[|ks| - 1];
      Names(ks[..|ks| - 1]) + if k.Name? then [k.name] else []
  }

  /** `",".join(...)` of the names. */
  function JoinNames(names: seq<string>): string {
    if names == [] then "" else Text.Join(names, ',')
  }

  function BadStatusMessage(value: string, names: seq<string>): string {
    "Bad status value: '" + value + "'. Must be one of " + JoinNames(names) + "."
  }

  /**
    The status filter as written: the message for an unknown status joins
    every key of the table, and the table also has the ids as keys, which
    `str.join` refuses, so the request fails with an internal error instead.
    An empty request means "active"; None means no filter.
   */
  function StatusFilterAsWritten(args: seq<string>, table: Table): Result<Option<seq<Ref>>, QueryError> {
    match Collect(args, table)
    case Err(value) =>
      if exists k :: k in Keys(table) && k.Id? then Err(InternalError)
      else Err(BadRequest(BadStatusMessage(value, Names(Keys(table)))))
    case Ok(None) => Ok(None)
    case Ok(Some(ids)) =>
      if ids != [] then Ok(Some(ids))
      else
        match Get(table, Name("active"))
        case None => Err(InternalError)
        case Some(active) => Ok(Some([active]))
  }

  /** The status filter with the message built from the status names only. */
  function StatusFilter(args: seq<string>, table: Table): Result<Option<seq<Ref>>, QueryError> {
    match Collect(args, table)
    case Err(value) => Err(BadRequest(BadStatusMessage(value, Names(Keys(table)))))
    case Ok(None) => Ok(None)
    case Ok(Some(ids)) =>
      if ids != [] then Ok(Some(ids))
      else
        match Get(table, Name("active"))
        case None => Err(InternalError)
        case Some(active) => Ok(Some([active]))
  }

  predicate Known(table: Table, name: string) {
    Get(table, Name(name)).Some?
  }

  /** The statuses the names stand for, in order. */
  function Lookups(args: seq<string>, table: Table): seq<Ref>
    requires forall i :: 0 <= i < |args| ==> Known(table, args[i])
  {
    if args == [] then []
    else
      assert Known(table, args[0]);
      [Get(table, Name(args[0])).value] + Lookups(args[1..], table)
  }

  /** "all" after known names lifts the filter, whatever follows it. */
  lemma {:induction false} CollectAll(args: seq<string>, table: Table, i: nat)
    requires i < |args| && args[i] == "all"
    requires forall j :: 0 <= j < i ==> args[j] != "all" && Known(table, args[j])
    ensures Collect(args, table) == Ok(None)
  {
    if i > 0 {
      CollectAll(args[1..], table, i - 1);
    }
  }

  /** Known names without "all" select exactly their statuses. */
  lemma {:induction false} CollectKnown(args: seq<string>, table: Table)
    requires forall j :: 0 <= j < |args| ==> args[j] != "all" && Known(table, args[j])
    ensures Collect(args, table) == Ok(Some(Lookups(args, table)))
  {
    if args != [] {
      CollectKnown(args[1..], table);
    }
  }

  /** The first unknown name before any "all" is the one reported. */
  lemma {:induction false} CollectUnknown(args: seq<string>, table: Table, i: nat)
    requires i < |args| && args[i] != "all" && !Known(table, args[i])
    requires forall j :: 0 <= j < i ==> args[j] != "all" && Known(table, args[j])
    ensures Collect(args, table) == Err(args[i])
  {
    if i > 0 {
      CollectUnknown(args[1..], table, i - 1);
    }
  }

  /**
    The three outcomes: "all" lifts the filter; known names select their
    statuses, no names selecting "active"; an unknown name before any "all"
    is a bad request naming it.
   */
  lemma StatusFilterSpec(args: seq<string>, table: Table)
    ensures (exists i :: 0 <= i < |args| && args[i] == "all" &&
               forall j :: 0 <= j < i ==> args[j] != "all" && Known(table, args[j]))
            ==> StatusFilter(args, table) == Ok(None)
    ensures (forall j :: 0 <= j < |args| ==> args[j] != "all" && Known(table, args[j])) && args != []
            ==> StatusFilter(args, table) == Ok(Some(Lookups(args, table)))
    ensures args == [] && Known(table, "active") ==> StatusFilter(args, table) == Ok(Some([Get(table, Name("active")).value]))
    ensures forall i :: (0 <= i < |args| && args[i] != "all" && !Known(table, args[i]) &&
                         forall j :: 0 <= j < i ==> args[j] != "all" && Known(table, args[j]))
                        ==> StatusFilter(args, table) == Err(BadRequest(BadStatusMessage(args[i], Names(Keys(table)))))
  {
    if exists i :: 0 <= i < |args| && args[i] == "all" && forall j :: 0 <= j < i ==> args[j] != "all" && Known(table, args[j]) {
      var i :| 0 <= i < |args| && args[i] == "all" && forall j :: 0 <= j < i ==> args[j] != "all" && Known(table, args[j]);
      CollectAll(args, table, i);
    }
    if forall j :: 0 <= j < |args| ==> args[j] != "all" && Known(table, args[j]) {
      CollectKnown(args, table);
      assert args != [] ==> Lookups(args, table) != [];
    }
    forall i | 0 <= i < |args| && args[i] != "all" && !Known(table, args[i]) &&
               (forall j :: 0 <= j < i ==> args[j] != "all" && Known(table, args[j]))
      ensures StatusFilter(args, table) == Err(BadRequest(BadStatusMessage(args[i], Names(Keys(table)))))
    {
      CollectUnknown(args, table, i);
    }
  }

  /**
    Once the table is loaded from at least one row, an unknown status makes
    the filter as written fail with an internal error, where a bad request
    naming the value is meant.
   */
  lemma UnknownStatusFails(rows: seq<Row>, value: string)
    requires rows != [] && value != "all" && Get(Load(rows), Name(value)).None?
    ensures StatusFilterAsWritten([value], Load(rows)) == Err(InternalError)
    ensures StatusFilter([value], Load(rows)).Err? && StatusFilter([value], Load(rows)).error.BadRequest?
  {
    var t := Load(rows);
    var r := rows[|rows| - 1];
    LoadGet(rows, Id(r.id));
    GetSome(t, Id(r.id));
    assert Id(r.id) in Keys(t) && Id(r.id).Id?;
    CollectUnknown([value], t, 0);
  }

  lemma PrependTwice(a: seq<Ref>, b: seq<Ref>, r: Result<Option<seq<Ref>>, string>)
    ensures Prepend(a, Prepend(b, r)) == Prepend(a + b, r)
  {
    if r.Ok? && r.value.Some? {
      assert a + (b + r.value.value) == (a + b) + r.value.value;
    }
  }

  /** The loop over the `status` arguments. */
  method ParseStatusFilter(args: seq<string>, table: Table) returns (r: Result<Option<seq<Ref>>, QueryError>)
    ensures r == StatusFilter(args, table)
  {
    var allowed: Option<seq<Ref>> := Some([]);
    var i := 0;
    assert args[0..] == args;
    assert Prepend([], Collect(args, table)) == Collect(args, table) by {
      var c := Collect(args, table);
      if c.Ok? && c.value.Some? {
        assert [] + c.value.value == c.value.value;
      }
    }
    while i < |args|
      invariant 0 <= i <= |args| && allowed.Some?
      invariant Collect(args, table) == Prepend(allowed.value, Collect(args[i..], table))
    {
      assert args[i..][0] == args[i];
      if args[i] == "all" {
        assert Collect(args, table) == Ok(None);
        allowed := None;
        break;
      }
      match Get(table, Name(args[i])) {
        case None =>
          return Err(BadRequest(BadStatusMessage(args[i], Names(Keys(table)))));
        case Some(id) =>
          assert args[i..][1..] == args[i + 1..];
          PrependTwice(allowed.value, [id], Collect(args[i + 1..], table));
          allowed := Some(allowed.value + [id]);
      }
      i := i + 1;
    }
    if allowed.Some? {
      assert args[i..] == [];
      assert allowed.value + [] == allowed.value;
      assert Collect(args, table) == Ok(Some(allowed.value));
    }
    if allowed == Some([]) {
      match Get(table, Name("active")) {
        case None => return Err(InternalError);
        case Some(active) => allowed := Some([active]);
      }
    }
    r := Ok(allowed);
  }

  // ---------------------------------------------------------------------------
  // The `show` arguments.

  const OptionsPrefix: string := "options."

  predicate IsOptionColumn(c: string) {
    Text.StartsWith(c, OptionsPrefix)
  }

  /** The columns of the mapping itself, in order. */
  function ServiceColumns(show: seq<string>): (r: seq<string>)
    ensures forall i :: 0 <= i < |r| ==> !IsOptionColumn(r[i])
  {
    if show == [] then []
    else (if IsOptionColumn(show[0]) then [] else [show[0]]) + ServiceColumns(show[1..])
  }

  /** The option columns, without their prefix, in order. */
  function OptionColumns(show: seq<string>): seq<string> {
    if show == [] then []
    else (if IsOptionColumn(show[0]) then [show[0][|OptionsPrefix|..]] else []) + OptionColumns(show[1..])
  }

  lemma OptionColumnsCons(x: string, rest: seq<string>)
    ensures OptionColumns([x] + rest) == OptionColumns([x]) + OptionColumns(rest)
  {
    assert ([x] + rest)[0] == x && ([x] + rest)[1..] == rest;
    assert [x][1..] == [];
  }

  lemma {:induction false} OptionColumnsConcat(a: seq<string>, b: seq<string>)
    ensures OptionColumns(a + b) == OptionColumns(a) + OptionColumns(b)
  {
    if a == [] {
      assert a + b == b;
    } else {
      var x, rest := a[0], a[1..];
      OptionColumnsConcat(rest, b);
      assert a == [x] + rest && a + b == [x] + (rest + b);
      OptionColumnsCons(x, rest + b);
      OptionColumnsCons(x, rest);
    }
  }

  /**
    Every column lands on exactly one side: the mapping's columns are the
    unprefixed ones, each option column is a prefixed one with the prefix
    removed, and none is lost.
   */
  lemma {:induction false} ShowSplitSpec(show: seq<string>)
    ensures |ServiceColumns(show)| + |OptionColumns(show)| == |show|
    ensures forall c :: c in ServiceColumns(show) <==> c in show && !IsOptionColumn(c)
    ensures forall o :: o in OptionColumns(show) <==> OptionsPrefix + o in show
  {
    if show != [] {
      ShowSplitSpec(show[1..]);
      assert show == [show[0]] + show[1..];
      forall o ensures o in OptionColumns(show) <==> OptionsPrefix + o in show {
        if IsOptionColumn(show[0]) {
          assert show[0] == OptionsPrefix + show[0][|OptionsPrefix|..];
        }
        if OptionsPrefix + o == show[0] {
          assert show[0][|OptionsPrefix|..] == o;
        }
      }
    }
  }

  /** The prefixed forms of the option columns. */
  function Prefixed(options: seq<string>): (r: seq<string>)
    ensures |r| == |options|
  {
    if options == [] then [] else [OptionsPrefix + options[0]] + Prefixed(options[1..])
  }

  /** `list.remove(x)`: the first occurrence of x taken out. */
  function RemoveFirst(s: seq<string>, x: string): seq<string>
    requires x in s
  {
    if s[0] == x then s[1..] else [s[0]] + RemoveFirst(s[1..], x)
  }

  /** `list.remove` of each of xs in turn; None where one is missing (a `ValueError`). */
  function RemoveAll(s: seq<string>, xs: seq<string>): Option<seq<string>>
    decreases |xs|
  {
    if xs == [] then Some(s)
    else if xs[0] in s then RemoveAll(RemoveFirst(s, xs[0]), xs[1..])
    else None
  }

  /** Removing strings other than the head leaves the head in front. */
  lemma {:induction false} RemoveAllCons(h: string, t: seq<string>, xs: seq<string>)
    requires h !in xs
    ensures RemoveAll([h] + t, xs) == if RemoveAll(t, xs).Some? then Some([h] + RemoveAll(t, xs).value) else None
    decreases |xs|
  {
    if xs != [] {
      assert xs[0] != h;
      assert xs[0] in [h] + t <==> xs[0] in t;
      if xs[0] in t {
        assert ([h] + t)[1..] == t;
        assert RemoveFirst([h] + t, xs[0]) == [h] + RemoveFirst(t, xs[0]);
        RemoveAllCons(h, RemoveFirst(t, xs[0]), xs[1..]);
      }
    }
  }

  lemma {:induction false} PrefixedAreOptions(options: seq<string>, c: string)
    requires c in Prefixed(options)
    ensures IsOptionColumn(c)
  {
    if c != OptionsPrefix + options[0] {
      PrefixedAreOptions(options[1..], c);
    } else {
      assert c[..|OptionsPrefix|] == OptionsPrefix;
    }
  }

  /**
    Removing the prefixed form of every option column, in order, always
    finds it, and leaves exactly the mapping's columns.
   */
  lemma {:induction false} RemoveOptionColumns(show: seq<string>)
    ensures RemoveAll(show, Prefixed(OptionColumns(show))) == Some(ServiceColumns(show))
  {
    if show != [] {
      var h, t := show[0], show[1..];
      RemoveOptionColumns(t);
      assert show == [h] + t;
      if IsOptionColumn(h) {
        assert OptionsPrefix + h[|OptionsPrefix|..] == h;
        assert h in show && RemoveFirst(show, h) == t;
        var rest := Prefixed(OptionColumns(t));
        assert ([h] + rest)[0] == h && ([h] + rest)[1..] == rest;
        assert ServiceColumns(show) == ServiceColumns(t);
        assert Prefixed(OptionColumns(show)) == [h] + Prefixed(OptionColumns(t));
      } else {
        if h in Prefixed(OptionColumns(t)) {
          PrefixedAreOptions(OptionColumns(t), h);
        }
        RemoveAllCons(h, t, Prefixed(OptionColumns(t)));
        assert OptionColumns(show) == OptionColumns(t);
        assert ServiceColumns(show) == [h] + ServiceColumns(t);
      }
    }
  }

  /**
    The two loops over `show`: the option columns are collected, then each
    one's prefixed form is removed from the list.
   */
  method SplitShow(show: seq<string>) returns (columns: seq<string>, options: seq<string>)
    ensures columns == ServiceColumns(show) && options == OptionColumns(show)
  {
    options := [];
    var i := 0;
    while i < |show|
      invariant 0 <= i <= |show|
      invariant options == OptionColumns(show[..i])
    {
      assert show[..i + 1] == show[..i] + [show[i]];
      OptionColumnsConcat(show[..i], [show[i]]);
      if Text.StartsWith(show[i], OptionsPrefix) {
        options := options + [show[i][|OptionsPrefix|..]];
      }
      i := i + 1;
    }
    assert show[..i] == show;
    RemoveOptionColumns(show);
    var removals := Prefixed(options);
    columns := show;
    i := 0;
    while i < |options|
      invariant 0 <= i <= |options|
      invariant RemoveAll(columns, removals[i..]) == Some(ServiceColumns(show))
    {
      assert removals[i..][0] == OptionsPrefix + options[i] by {
        PrefixedAt(options, i);
      }
      assert removals[i..][1..] == removals[i + 1..];
      columns := RemoveFirst(columns, OptionsPrefix + options[i]);
      i := i + 1;
    }
  }

  lemma {:induction false} PrefixedAt(options: seq<string>, i: nat)
    requires i < |options|
    ensures Prefixed(options)[i] == OptionsPrefix + options[i]
  {
    if i > 0 {
      PrefixedAt(options[1..], i - 1);
    }
  }
}
