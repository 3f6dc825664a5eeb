/**
  Plugin discovery on the probe (probe/src/service.py): a plugin is an
  executable file; running it with `config` describes its options and
  thresholds, running it with `fetch` produces readings.

  The configuration text is taken already tokenised: the value of
  `description` and the (key, value) lists of the `[options]` and
  `[thresholds]` sections in file order, or the parser's duplicate-section /
  duplicate-key failure. Process execution is a parameter.
 */
module PluginService {
  import opened Wrappers
  import opened Dicts
  import Text

  // ---------------------------------------------------------------------------
  // Option keys: `identifier` or `identifier.(type|description|required|default)`.

  datatype SubItem = NameItem | TypeItem | DescriptionItem | RequiredItem | DefaultItem

  function SubItemName(item: SubItem): string {
    match item
    case NameItem => "name"
    case TypeItem => "type"
    case DescriptionItem => "description"
    case RequiredItem => "required"
    case DefaultItem => "default"
  }

  /** The sub-items an option key may end with; any other last segment is part of the identifier. */
  function KnownSubItem(segment: string): (r: Option<SubItem>)
    ensures r.Some? ==> r.value != NameItem && SubItemName(r.value) == segment
  {
    if segment == "type" then Some(TypeItem)
    else if segment == "description" then Some(DescriptionItem)
    else if segment == "required" then Some(RequiredItem)
    else if segment == "default" then Some(DefaultItem)
    else None
  }

  /** Splits an `[options]` key into the option identifier and the sub-item it sets. */
  function OptionKey(key: string): (string, SubItem) {
    var split := Text.Split(key, '.');
    if |split| > 1 then
      var option := Text.Join(split[..|split| - 1], '.');
      var subitem := split[|split| - 1];
      match KnownSubItem(subitem)
      case Some(item) => (option, item)
      case None => (option + "." + subitem, NameItem)
    else (key, NameItem)
  }

  /**
    A key that ends in a known sub-item is that sub-item of the identifier
    before the last dot; every other key is, as a whole, the identifier and
    sets its name.
   */
  lemma OptionKeySpec(key: string)
    ensures var (option, item) := OptionKey(key);
      if item == NameItem then option == key
      else key == option + "." + SubItemName(item) && '.' !in SubItemName(item)
  {
    var split := Text.Split(key, '.');
    Text.JoinSplit(key, '.');
    if |split| > 1 {
      assert split[..|split| - 1] + [split[|split| - 1]] == split;
    }
  }

  /** Every key names a sub-item of the identifier in front of it: `x.required` configures option `x`. */
  lemma OptionKeyOfSubItem(option: string, item: SubItem)
    requires item != NameItem
    ensures OptionKey(option + "." + SubItemName(item)) == (option, item)
  {
    var name := SubItemName(item);
    assert KnownSubItem(name) == Some(item);
    assert '.' !in name;
    Text.SplitNoSeparator(name, '.');
    Text.SplitConcat(option, name, '.');
    assert option + "." + name == option + ['.'] + name;
    var front := Text.Split(option, '.');
    var split := Text.Split(option + "." + name, '.');
    assert split == front + [name];
    assert split[..|split| - 1] == front && split[|split| - 1] == name;
    Text.JoinSplit(option, '.');
    assert Text.Join(front, '.') == option;
  }

  /** An option record: name, data type, required flag and, once set, description and default. */
  datatype OptionRecord = OptionRecord(
    name: string,
    typ: string,
    required: bool,
    description: Option<string>,
    default: Option<string>)

  type OptionTable = Dict<string, OptionRecord>

  /** The record an identifier starts with. */
  function NewOption(option: string): OptionRecord {
    OptionRecord(option, "string", false, None, None)
  }

  /** Assigns one sub-item; `required` holds exactly when the text is "1". */
  function SetItem(r: OptionRecord, item: SubItem, value: string): OptionRecord {
    match item
    case NameItem => r.(name := value)
    case TypeItem => r.(typ := value)
    case DescriptionItem => r.(description := Some(value))
    case RequiredItem => r.(required := value == "1")
    case DefaultItem => r.(default := Some(value))
  }

  /** One `[options]` entry: the sub-item of the (possibly new) record is set. */
  function ApplyOption(options: OptionTable, key: string, value: string): OptionTable {
    var (option, item) := OptionKey(key);
    Put(options, option, SetItem(Get(options, option).GetOr(NewOption(option)), item, value))
  }

  function ApplyOptions(options: OptionTable, entries: seq<(string, string)>): OptionTable {
    if entries == [] then options
    else
      var (key, value) := entries[|entries| - 1];
      ApplyOption(ApplyOptions(options, entries[..|entries| - 1]), key, value)
  }

  /** The value of the last entry that sets the given sub-item of the given option. */
  function LastItem(entries: seq<(string, string)>, option: string, item: SubItem): Option<string> {
    if entries == [] then None
    else
      var (key, value) := entries[|entries| - 1];
      if OptionKey(key) == (option, item) then Some(value)
      else LastItem(entries[..|entries| - 1], option, item)
  }

  /** Some entry configures the option. */
  predicate Mentions(entries: seq<(string, string)>, option: string) {
    exists i :: 0 <= i < |entries| && OptionKey(entries[i].0).0 == option
  }

  /**
    The record an option ends up with: each sub-item holds the value of the
    last entry setting it, or its initial value when no entry does.
   */
  function ExpectedOption(entries: seq<(string, string)>, option: string): OptionRecord {
    OptionRecord(
      LastItem(entries, option, NameItem).GetOr(option),
      LastItem(entries, option, TypeItem).GetOr("string"),
      LastItem(entries, option, RequiredItem) == Some("1"),
      LastItem(entries, option, DescriptionItem),
      LastItem(entries, option, DefaultItem))
  }

  /**
    Starting from no options, an identifier has a record exactly when some
    entry configures it, and each key changes only its own sub-item.
   */
  lemma {:induction false} ApplyOptionsSpec(entries: seq<(string, string)>, option: string)
    ensures Get(ApplyOptions([], entries), option) ==
      if Mentions(entries, option) then Some(ExpectedOption(entries, option)) else None
  {
    if entries != [] {
      var prefix := entries[..|entries| - 1];
      var (key, value) := entries[|entries| - 1];
      var before := ApplyOptions([], prefix);
      ApplyOptionsSpec(prefix, option);
      var (o, item) := OptionKey(key);
      PutGet(before, o, SetItem(Get(before, o).GetOr(NewOption(o)), item, value), option);
      MentionsSnoc(entries, option);
      if o == option {
        if !Mentions(prefix, option) {
          UnmentionedIsNew(prefix, option);
        }
        ExpectedOptionSame(entries, option);
      } else {
        ExpectedOptionOther(entries, option);
      }
    }
  }

  lemma MentionsSnoc(entries: seq<(string, string)>, option: string)
    requires entries != []
    ensures Mentions(entries, option) <==>
      Mentions(entries[..|entries| - 1], option) || OptionKey(entries[|entries| - 1].0).0 == option
  {
    var prefix := entries[..|entries| - 1];
    if Mentions(entries, option) {
      var i :| 0 <= i < |entries| && OptionKey(entries[i].0).0 == option;
      if i < |prefix| {
        assert prefix[i] == entries[i];
      }
    }
    if Mentions(prefix, option) {
      var i :| 0 <= i < |prefix| && OptionKey(prefix[i].0).0 == option;
      assert prefix[i] == entries[i];
    }
  }

  lemma {:induction false} NoItemWithoutMention(entries: seq<(string, string)>, option: string, item: SubItem)
    requires !Mentions(entries, option)
    ensures LastItem(entries, option, item) == None
  {
    if entries != [] {
      MentionsSnoc(entries, option);
      NoItemWithoutMention(entries[..|entries| - 1], option, item);
    }
  }

  /** An option no entry configures keeps the record it starts with. */
  lemma UnmentionedIsNew(entries: seq<(string, string)>, option: string)
    requires !Mentions(entries, option)
    ensures ExpectedOption(entries, option) == NewOption(option)
  {
    NoItemWithoutMention(entries, option, NameItem);
    NoItemWithoutMention(entries, option, TypeItem);
    NoItemWithoutMention(entries, option, RequiredItem);
    NoItemWithoutMention(entries, option, DescriptionItem);
    NoItemWithoutMention(entries, option, DefaultItem);
  }

  lemma ExpectedOptionSame(entries: seq<(string, string)>, option: string)
    requires entries != [] && OptionKey(entries[|entries| - 1].0).0 == option
    ensures ExpectedOption(entries, option) ==
      SetItem(ExpectedOption(entries[..|entries| - 1], option),
        OptionKey(entries[|entries| - 1].0).1, entries[|entries| - 1].1)
  {
    var prefix := entries[..|entries| - 1];
    var item := OptionKey(entries[|entries| - 1].0).1;
    var value := entries[|entries| - 1].1;
    assert LastItem(entries, option, item) == Some(value);
    assert forall other :: other != item ==> LastItem(entries, option, other) == LastItem(prefix, option, other);
  }

  lemma ExpectedOptionOther(entries: seq<(string, string)>, option: string)
    requires entries != [] && OptionKey(entries[|entries| - 1].0).0 != option
    ensures ExpectedOption(entries, option) == ExpectedOption(entries[..|entries| - 1], option)
  {
    var prefix := entries[..|entries| - 1];
    assert forall item :: LastItem(entries, option, item) == LastItem(prefix, option, item);
  }

  // ---------------------------------------------------------------------------
  // Threshold keys: `{reading}.{status}.(min|max)`.

  datatype Bound = Min | Max

  /** The bounds configured for one status of one reading pattern. */
  datatype Bounds = Bounds(min: Option<int>, max: Option<int>)

  type ThresholdTable = Dict<string, Dict<string, Bounds>>

  /** The reading pattern, status name and bound a threshold key sets; None for a malformed key. */
  function ThresholdKey(key: string): Option<(string, string, Bound)> {
    var split := Text.Split(key, '.');
    if |split| < 3 || (split[|split| - 1] != "min" && split[|split| - 1] != "max") then None
    else
      var bound := if split[|split| - 1] == "min" then Min else Max;
      Some((Text.Join(split[..|split| - 2], '.'), split[|split| - 2], bound))
  }

  function BoundName(b: Bound): string {
    if b == Min then "min" else "max"
  }

  /** A well-formed key is the reading pattern, the status and the bound joined by dots. */
  lemma ThresholdKeySpec(key: string)
    ensures var r := ThresholdKey(key);
      r.Some? ==> key == r.value.0 + "." + r.value.1 + "." + BoundName(r.value.2) && '.' !in r.value.1
  {
    var split := Text.Split(key, '.');
    Text.JoinSplit(key, '.');
    if |split| >= 3 {
      var n := |split|;
      assert split[..n - 1] == split[..n - 2] + [split[n - 2]];
      assert split[..n - 1][..n - 2] == split[..n - 2];
      assert split[..n - 1] + [split[n - 1]] == split;
    }
  }

  /** Any pattern, a status without dots and a bound make a key that reads back as themselves. */
  lemma ThresholdKeyRoundTrip(reading: string, status: string, b: Bound)
    requires '.' !in status
    ensures ThresholdKey(reading + "." + status + "." + BoundName(b)) == Some((reading, status, b))
  {
    var name := BoundName(b);
    var key := reading + "." + status + "." + name;
    var head := Text.Split(reading, '.');
    SplitKey(reading, status, name);
    var split := head + [status, name];
    assert split[..|split| - 2] == head;
    Text.JoinSplit(reading, '.');
  }

  /** Splitting `reading.status.name` gives the segments of the pattern, then the status and the name. */
  lemma SplitKey(reading: string, status: string, name: string)
    requires '.' !in status && '.' !in name
    ensures Text.Split(reading + "." + status + "." + name, '.') == Text.Split(reading, '.') + [status, name]
  {
    var left := reading + ['.'] + status;
    assert reading + "." + status + "." + name == left + ['.'] + name;
    Text.SplitNoSeparator(status, '.');
    Text.SplitNoSeparator(name, '.');
    Text.SplitConcat(reading, status, '.');
    Text.SplitConcat(left, name, '.');
  }

  /** An `int()` failure on a threshold value: the plugin is not usable. */
  datatype ServiceError = ConfigCommandFailed | NotAnInteger(key: string, value: string)

  /** Sets one bound of one (pattern, status) pair, creating the entries on first use. */
  function SetBound(table: ThresholdTable, reading: string, status: string, b: Bound, v: int): ThresholdTable {
    var statuses := Get(table, reading).GetOr([]);
    var bounds := Get(statuses, status).GetOr(Bounds(None, None));
    Put(table, reading, Put(statuses, status, if b == Min then bounds.(min := Some(v)) else bounds.(max := Some(v))))
  }

  function ApplyThreshold(table: ThresholdTable, key: string, value: string): Result<ThresholdTable, ServiceError> {
    match ThresholdKey(key)
    case None => Ok(table)
    case Some((reading, status, b)) =>
      match Text.ParseInt(value)
      case None => Err(NotAnInteger(key, value))
      case Some(v) => Ok(SetBound(table, reading, status, b, v))
  }

  /** The `[thresholds]` entries in order; the first value that is not an integer aborts. */
  function ApplyThresholds(table: ThresholdTable, entries: seq<(string, string)>): Result<ThresholdTable, ServiceError> {
    if entries == [] then Ok(table)
    else
      match ApplyThresholds(table, entries[..|entries| - 1])
      case Err(e) => Err(e)
      case Ok(t) => ApplyThreshold(t, entries[|entries| - 1].0, entries[|entries| - 1].1)
  }

  /** The value of the last well-formed entry that sets this bound. */
  function LastBound(entries: seq<(string, string)>, reading: string, status: string, b: Bound): Option<int> {
    if entries == [] then None
    else
      var (key, value) := entries[|entries| - 1];
      if ThresholdKey(key) == Some((reading, status, b)) then Text.ParseInt(value)
      else LastBound(entries[..|entries| - 1], reading, status, b)
  }

  predicate SetsStatus(entries: seq<(string, string)>, reading: string, status: string) {
    exists i :: 0 <= i < |entries| && ThresholdKey(entries[i].0).Some?
      && ThresholdKey(entries[i].0).value.0 == reading && ThresholdKey(entries[i].0).value.1 == status
  }

  predicate SetsReading(entries: seq<(string, string)>, reading: string) {
    exists i :: 0 <= i < |entries| && ThresholdKey(entries[i].0).Some? && ThresholdKey(entries[i].0).value.0 == reading
  }

  function Lookup(table: ThresholdTable, reading: string, status: string): Option<Bounds> {
    match Get(table, reading)
    case None => None
    case Some(statuses) => Get(statuses, status)
  }

  /**
    When every value is an integer, a (pattern, status) pair has bounds exactly
    when some well-formed key names it, each bound is the last value given for
    it and a bound never given stays None; a pattern has an entry exactly when
    some well-formed key names it. Malformed keys change nothing.
   */
  lemma {:induction false} ApplyThresholdsSpec(entries: seq<(string, string)>, reading: string, status: string)
    requires ApplyThresholds([], entries).Ok?
    ensures var t := ApplyThresholds([], entries).value;
      && (Get(t, reading).Some? <==> SetsReading(entries, reading))
      && Lookup(t, reading, status) ==
           if SetsStatus(entries, reading, status)
           then Some(Bounds(LastBound(entries, reading, status, Min), LastBound(entries, reading, status, Max)))
           else None
  {
    if entries != [] {
      var prefix := entries[..|entries| - 1];
      var (key, value) := entries[|entries| - 1];
      ApplyThresholdsSpec(prefix, reading, status);
      SetsSnoc(entries, reading, status);
      var t := ApplyThresholds([], prefix).value;
      match ThresholdKey(key)
      case None =>
      case Some((r, s, b)) =>
        var v := Text.ParseInt(value).value;
        SetBoundLookup(t, r, s, b, v, reading, status);
        if r == reading && s == status && !SetsStatus(prefix, reading, status) {
          NoBoundWithoutKey(prefix, reading, status, Min);
          NoBoundWithoutKey(prefix, reading, status, Max);
        }
    }
  }

  /** How the last entry extends the two "some key names it" predicates. */
  lemma SetsSnoc(entries: seq<(string, string)>, reading: string, status: string)
    requires entries != []
    ensures var prefix := entries[..|entries| - 1];
      var k := ThresholdKey(entries[|entries| - 1].0);
      && (SetsReading(entries, reading) <==> SetsReading(prefix, reading) || (k.Some? && k.value.0 == reading))
      && (SetsStatus(entries, reading, status) <==>
            SetsStatus(prefix, reading, status) || (k.Some? && k.value.0 == reading && k.value.1 == status))
  {
    SetsReadingSnoc(entries, reading);
    SetsStatusSnoc(entries, reading, status);
  }

  lemma SetsReadingSnoc(entries: seq<(string, string)>, reading: string)
    requires entries != []
    ensures var k := ThresholdKey(entries[|entries| - 1].0);
      SetsReading(entries, reading) <==> SetsReading(entries[..|entries| - 1], reading) || (k.Some? && k.value.0 == reading)
  {
    var prefix := entries[..|entries| - 1];
    if SetsReading(entries, reading) {
      var i :| 0 <= i < |entries| && ThresholdKey(entries[i].0).Some? && ThresholdKey(entries[i].0).value.0 == reading;
      if i < |prefix| {
        assert prefix[i] == entries[i];
      }
    }
    if SetsReading(prefix, reading) {
      var i :| 0 <= i < |prefix| && ThresholdKey(prefix[i].0).Some? && ThresholdKey(prefix[i].0).value.0 == reading;
      assert prefix[i] == entries[i];
    }
  }

  lemma SetsStatusSnoc(entries: seq<(string, string)>, reading: string, status: string)
    requires entries != []
    ensures var k := ThresholdKey(entries[|entries| - 1].0);
      SetsStatus(entries, reading, status) <==>
        SetsStatus(entries[..|entries| - 1], reading, status) || (k.Some? && k.value.0 == reading && k.value.1 == status)
  {
    var prefix := entries[..|entries| - 1];
    if SetsStatus(entries, reading, status) {
      var i :| 0 <= i < |entries| && ThresholdKey(entries[i].0).Some?
        && ThresholdKey(entries[i].0).value.0 == reading && ThresholdKey(entries[i].0).value.1 == status;
      if i < |prefix| {
        assert prefix[i] == entries[i];
      }
    }
    if SetsStatus(prefix, reading, status) {
      var i :| 0 <= i < |prefix| && ThresholdKey(prefix[i].0).Some?
        && ThresholdKey(prefix[i].0).value.0 == reading && ThresholdKey(prefix[i].0).value.1 == status;
      assert prefix[i] == entries[i];
    }
  }

  /** Setting one bound touches only its own (pattern, status) pair, which it creates if needed. */
  lemma SetBoundLookup(t: ThresholdTable, r: string, s: string, b: Bound, v: int, reading: string, status: string)
    ensures Get(SetBound(t, r, s, b, v), reading).Some? <==> r == reading || Get(t, reading).Some?
    ensures Lookup(SetBound(t, r, s, b, v), reading, status) ==
      if r == reading && s == status then
        var bounds := Lookup(t, r, s).GetOr(Bounds(None, None));
        Some(if b == Min then bounds.(min := Some(v)) else bounds.(max := Some(v)))
      else Lookup(t, reading, status)
  {
    var statuses := Get(t, r).GetOr([]);
    var bounds := Get(statuses, s).GetOr(Bounds(None, None));
    var bounds' := if b == Min then bounds.(min := Some(v)) else bounds.(max := Some(v));
    PutGet(t, r, Put(statuses, s, bounds'), reading);
    PutGet(statuses, s, bounds', status);
  }

  lemma {:induction false} NoBoundWithoutKey(entries: seq<(string, string)>, reading: string, status: string, b: Bound)
    requires !SetsStatus(entries, reading, status)
    ensures LastBound(entries, reading, status, b) == None
  {
    if entries != [] {
      var prefix := entries[..|entries| - 1];
      assert forall i :: 0 <= i < |prefix| ==> prefix[i] == entries[i];
      var last := |entries| - 1;
      assert ThresholdKey(entries[last].0) == Some((reading, status, b)) ==> SetsStatus(entries, reading, status);
      NoBoundWithoutKey(prefix, reading, status, b);
    }
  }

  /** A well-formed threshold key with a value that is not an integer makes the configuration fail. */
  lemma {:induction false} BadThresholdValueFails(entries: seq<(string, string)>, i: nat)
    requires i < |entries| && ThresholdKey(entries[i].0).Some? && Text.ParseInt(entries[i].1).None?
    ensures ApplyThresholds([], entries).Err?
  {
    if i < |entries| - 1 {
      BadThresholdValueFails(entries[..|entries| - 1], i);
    }
  }

  // ---------------------------------------------------------------------------
  // The service itself.

  /** What running `binary config` gave: a failed command, a parser duplicate error, or the parsed sections. */
  datatype ConfigOutcome =
    | CommandFailed
    | DuplicateSection
    | DuplicateOption
    | Parsed(description: Option<string>, options: Option<seq<(string, string)>>, thresholds: Option<seq<(string, string)>>)

  /** A discovered plugin as a value. */
  datatype ServiceInfo = ServiceInfo(
    binary: string,
    name: string,
    description: string,
    options: OptionTable,
    thresholds: ThresholdTable)

  /** The service name: the file's base name without its extension. */
  function ServiceName(binary: string): string {
    Text.StripExtension(Text.Basename(binary))
  }

  /** For a file `name` in directory `dir`, the service name is `name` without its extension. */
  lemma ServiceNameOfChild(dir: string, name: string)
    requires '/' !in name
    ensures ServiceName(Text.JoinPath(dir, name)) == Text.StripExtension(name)
  {
    Text.BasenameOfJoin(dir, name);
  }

  /** The service a binary describes: duplicate keys or sections leave it empty; a failure discards it. */
  function Describe(binary: string, outcome: ConfigOutcome): Result<ServiceInfo, ServiceError> {
    var empty := ServiceInfo(binary, ServiceName(binary), "", [], []);
    match outcome
    case CommandFailed => Err(ConfigCommandFailed)
    case DuplicateSection => Ok(empty)
    case DuplicateOption => Ok(empty)
    case Parsed(description, options, thresholds) =>
      var withOptions := empty.(description := description.GetOr(""),
                                options := if options.Some? then ApplyOptions([], options.value) else []);
      if thresholds.None? then Ok(withOptions)
      else
        match ApplyThresholds([], thresholds.value)
        case Err(e) => Err(e)
        case Ok(t) => Ok(withOptions.(thresholds := t))
  }

  /** A duplicate section or key keeps the description, options and thresholds empty. */
  lemma DuplicateKeepsEmpty(binary: string, outcome: ConfigOutcome)
    requires outcome.DuplicateSection? || outcome.DuplicateOption?
    ensures Describe(binary, outcome).Ok?
    ensures var s := Describe(binary, outcome).value;
      s.description == "" && s.options == [] && s.thresholds == [] && s.name == ServiceName(binary)
  {
  }

  class Service {
    var binary: string
    var name: string
    var description: string
    var options: OptionTable
    var thresholds: ThresholdTable

    ghost function Info(): ServiceInfo
      reads this
    {
      ServiceInfo(binary, name, description, options, thresholds)
    }

    /** The state before the configuration is read. */
    constructor (binary: string)
      ensures Info() == ServiceInfo(binary, ServiceName(binary), "", [], [])
    {
      this.binary := binary;
      options := [];
      thresholds := [];
      name := ServiceName(binary);
      description := "";
    }

    method Snapshot() returns (info: ServiceInfo)
      ensures info == Info()
    {
      info := ServiceInfo(binary, name, description, options, thresholds);
    }

    /** `populate_options`: the entries applied to the option table in order. */
    method PopulateOptions(entries: seq<(string, string)>)
      modifies this`options
      ensures options == ApplyOptions(old(options), entries)
    {
      var i := 0;
      while i < |entries|
        invariant 0 <= i <= |entries|
        invariant options == ApplyOptions(old(options), entries[..i])
      {
        var (key, value) := entries[i];
        var (option, item) := OptionKey(key);
        var record := Get(options, option).GetOr(NewOption(option));
        options := Put(options, option, SetItem(record, item, value));
        assert entries[..i + 1][..i] == entries[..i];
        i := i + 1;
      }
      assert entries[..i] == entries;
    }

    /** `populate_thresholds`: stops at the first value that is not an integer. */
    method PopulateThresholds(entries: seq<(string, string)>) returns (r: Result<(), ServiceError>)
      modifies this`thresholds
      ensures r.Ok? <==> ApplyThresholds(old(thresholds), entries).Ok?
      ensures r.Ok? ==> thresholds == ApplyThresholds(old(thresholds), entries).value
      ensures r.Err? ==> r.error == ApplyThresholds(old(thresholds), entries).error
    {
      var i := 0;
      while i < |entries|
        invariant 0 <= i <= |entries|
        invariant ApplyThresholds(old(thresholds), entries[..i]) == Ok(thresholds)
      {
        var (key, value) := entries[i];
        assert entries[..i + 1][..i] == entries[..i];
        match ThresholdKey(key) {
          case None =>
          case Some((reading, status, b)) =>
            var v := Text.ParseInt(value);
            if v.None? {
              PrefixErrorStays(old(thresholds), entries, i + 1);
              return Err(NotAnInteger(key, value));
            }
            thresholds := SetBound(thresholds, reading, status, b, v.value);
        }
        i := i + 1;
      }
      assert entries[..i] == entries;
      return Ok(());
    }

    /** `get_config`, run right after construction. */
    method GetConfig(outcome: ConfigOutcome) returns (r: Result<(), ServiceError>)
      requires description == "" && options == [] && thresholds == []
      modifies this`description, this`options, this`thresholds
      ensures r.Ok? <==> Describe(binary, outcome).Ok?
      ensures r.Ok? ==> Info() == Describe(binary, outcome).value.(name := name)
      ensures r.Err? ==> r.error == Describe(binary, outcome).error
    {
      match outcome
      case CommandFailed =>
        return Err(ConfigCommandFailed);
      case DuplicateSection =>
        return Ok(());
      case DuplicateOption =>
        return Ok(());
      case Parsed(desc, opts, ths) =>
        description := desc.GetOr("");
        if opts.Some? {
          PopulateOptions(opts.value);
        }
        if ths.Some? {
          r := PopulateThresholds(ths.value);
          if r.Err? {
            return;
          }
        }
        return Ok(());
    }
  }

  /** Once the fold has failed, later entries keep the failure. */
  lemma {:induction false} PrefixErrorStays(table: ThresholdTable, entries: seq<(string, string)>, k: nat)
    requires k <= |entries| && ApplyThresholds(table, entries[..k]).Err?
    ensures ApplyThresholds(table, entries) == ApplyThresholds(table, entries[..k])
    decreases |entries| - k
  {
    if k < |entries| {
      assert entries[..k + 1][..k] == entries[..k];
      PrefixErrorStays(table, entries, k + 1);
    } else {
      assert entries[..k] == entries;
    }
  }

  /** `examine_file`: an executable file becomes a service; any other file is ignored. */
  method ExamineFile(path: string, executable: bool, config: ConfigOutcome) returns (r: Result<Option<ServiceInfo>, ServiceError>)
    ensures r == if !executable then Ok(None)
                 else match Describe(path, config)
                      case Err(e) => Err(e)
                      case Ok(info) => Ok(Some(info))
  {
    if !executable {
      return Ok(None);
    }
    var service := new Service(path);
    ghost var described := Describe(path, config);
    var loaded := service.GetConfig(config);
    assert service.name == ServiceName(path);
    if loaded.Err? {
      assert described == Err(loaded.error);
      return Err(loaded.error);
    }
    var info := service.Snapshot();
    assert described == Ok(info);
    return Ok(Some(info));
  }

  // ---------------------------------------------------------------------------
  // Directory scan.

  /**
    A directory entry: a file (with its executable flag and what its `config`
    run gives), a directory (whose listing is None when it cannot be found),
    or anything else.
   */
  datatype Entry =
    | File(name: string, executable: bool, config: ConfigOutcome)
    | Directory(name: string, listing: Listing)
    | Special(name: string)

  /** What listing a directory gives: nothing when it cannot be found, else its entries. */
  datatype Listing = Missing | Listed(entries: seq<Entry>)

  type Found = Dict<string, ServiceInfo>

  /** `scan(path)`: a missing directory yields nothing; a failing plugin aborts the scan. */
  function Scan(path: string, listing: Listing): Result<Found, ServiceError>
    decreases listing, 2
  {
    match listing
    case Missing => Ok([])
    case Listed(entries) => ScanEntries(path, entries, |entries|)
  }

  /** The first n entries of a listing, in order. */
  function ScanEntries(path: string, entries: seq<Entry>, n: nat): Result<Found, ServiceError>
    requires n <= |entries|
    decreases Listed(entries), 1, n
  {
    if n == 0 then Ok([])
    else
      match ScanEntries(path, entries, n - 1)
      case Err(e) => Err(e)
      case Ok(found) =>
        assert entries[n - 1] in entries;
        ScanEntry(path, entries[n - 1], found)
  }

  function ScanEntry(path: string, e: Entry, found: Found): Result<Found, ServiceError>
    decreases e, 0
  {
    if Text.StartsWith(e.name, ".") then Ok(found)
    else
      match e
      case File(name, executable, config) =>
        if !executable then Ok(found)
        else
          (match Describe(Text.JoinPath(path, name), config)
           case Err(err) => Err(err)
           case Ok(info) => Ok(Put(found, info.name, info)))
      case Directory(name, listing) =>
        (match Scan(Text.JoinPath(path, name), listing)
         case Err(err) => Err(err)
         case Ok(sub) => Ok(Update(found, sub)))
      case Special(_) => Ok(found)
  }

  /** The scan loop, recursing into sub-directories. */
  method ScanDirectory(path: string, listing: Listing) returns (r: Result<Found, ServiceError>)
    ensures r == Scan(path, listing)
    decreases listing, 2
  {
    if listing.Missing? {
      return Ok([]);
    }
    var entries := listing.entries;
    var out: Found := [];
    var i := 0;
    while i < |entries|
      invariant 0 <= i <= |entries|
      invariant ScanEntries(path, entries, i) == Ok(out)
    {
      var e := entries[i];
      assert e in entries;
      if Text.StartsWith(e.name, ".") {
      } else if e.File? {
        var examined := ExamineFile(Text.JoinPath(path, e.name), e.executable, e.config);
        if examined.Err? {
          PrefixScanErrorStays(path, entries, i + 1);
          return Err(examined.error);
        }
        if examined.value.Some? {
          out := Put(out, examined.value.value.name, examined.value.value);
        }
      } else if e.Directory? {
        var sub := ScanDirectory(Text.JoinPath(path, e.name), e.listing);
        if sub.Err? {
          PrefixScanErrorStays(path, entries, i + 1);
          return Err(sub.error);
        }
        out := Update(out, sub.value);
      }
      i := i + 1;
    }
    r := Ok(out);
  }

  lemma {:induction false} PrefixScanErrorStays(path: string, entries: seq<Entry>, k: nat)
    requires k <= |entries| && ScanEntries(path, entries, k).Err?
    ensures Scan(path, Listed(entries)) == ScanEntries(path, entries, k)
    decreases |entries| - k
  {
    if k < |entries| {
      PrefixScanErrorStays(path, entries, k + 1);
    }
  }

  /** Entries whose names start with "." never contribute, whatever they are. */
  lemma HiddenEntryIgnored(path: string, e: Entry, found: Found)
    requires Text.StartsWith(e.name, ".")
    ensures ScanEntry(path, e, found) == Ok(found)
  {
  }

  /**
    A successful scan finds only services whose name is the key they are
    stored under, and stores each name once.
   */
  lemma {:induction false} ScanKeysAreNames(path: string, listing: Listing)
    requires Scan(path, listing).Ok?
    ensures DistinctKeys(Scan(path, listing).value)
    ensures forall i :: 0 <= i < |Scan(path, listing).value| ==>
      Scan(path, listing).value[i].1.name == Scan(path, listing).value[i].0
    decreases listing, 2
  {
    if listing.Listed? {
      ScanEntriesKeysAreNames(path, listing.entries, |listing.entries|);
    }
  }

  predicate WellKeyed(found: Found) {
    DistinctKeys(found) && forall i :: 0 <= i < |found| ==> found[i].1.name == found[i].0
  }

  lemma {:induction false} ScanEntriesKeysAreNames(path: string, entries: seq<Entry>, n: nat)
    requires n <= |entries| && ScanEntries(path, entries, n).Ok?
    ensures WellKeyed(ScanEntries(path, entries, n).value)
    decreases Listed(entries), 1, n
  {
    if n > 0 {
      ScanEntriesKeysAreNames(path, entries, n - 1);
      var found := ScanEntries(path, entries, n - 1).value;
      var e := entries[n - 1];
      assert e in entries;
      if !Text.StartsWith(e.name, ".") {
        match e
        case File(name, executable, config) =>
          if executable {
            var info := Describe(Text.JoinPath(path, name), config).value;
            PutWellKeyed(found, info);
          }
        case Directory(name, listing) =>
          ScanKeysAreNames(Text.JoinPath(path, name), listing);
          UpdateWellKeyed(found, Scan(Text.JoinPath(path, name), listing).value);
        case Special(_) =>
      }
    }
  }

  lemma PutWellKeyed(found: Found, info: ServiceInfo)
    requires WellKeyed(found)
    ensures WellKeyed(Put(found, info.name, info))
  {
    PutDistinct(found, info.name, info);
    PutEntries(found, info.name, info);
  }

  lemma {:induction false} UpdateWellKeyed(found: Found, sub: Found)
    requires WellKeyed(found) && WellKeyed(sub)
    ensures WellKeyed(Update(found, sub))
  {
    if sub != [] {
      var prefix := sub[..|sub| - 1];
      assert WellKeyed(prefix);
      UpdateWellKeyed(found, prefix);
      PutWellKeyed(Update(found, prefix), sub[|sub| - 1].1);
    }
  }

  // ---------------------------------------------------------------------------
  // `ServiceMapping.fetch`.

  /** What running `binary fetch` gave: its exit code and the parsed `[fetch]` pairs. */
  datatype FetchRun = FetchRun(exitCode: int, output: Dict<string, string>)

  /** The variable an option sets: the mapping's value, else the option's default, else "". */
  function OptionValue(mapping: Dict<string, string>, option: string, record: OptionRecord): string {
    Get(mapping, option).GetOr(record.default.GetOr(""))
  }

  /** The process environment with one upper-cased variable per option of the service. */
  function FetchEnv(environ: map<string, string>, options: OptionTable, mapping: Dict<string, string>): map<string, string> {
    if options == [] then environ
    else
      var (option, record) := options[|options| - 1];
      FetchEnv(environ, options[..|options| - 1], mapping)[Text.Upper(option) := OptionValue(mapping, option, record)]
  }

  /**
    The variable of option i holds its value unless a later option upper-cases
    to the same name; variables no option names keep the inherited value.
   */
  lemma {:induction false} FetchEnvSpec(environ: map<string, string>, options: OptionTable, mapping: Dict<string, string>, k: string)
    ensures var env := FetchEnv(environ, options, mapping);
      && (k in env <==> k in environ || exists i :: 0 <= i < |options| && Text.Upper(options[i].0) == k)
      && ((forall i :: 0 <= i < |options| ==> Text.Upper(options[i].0) != k) ==> k in env ==> env[k] == environ[k])
      && (forall i :: (0 <= i < |options| && Text.Upper(options[i].0) == k
                       && forall j :: i < j < |options| ==> Text.Upper(options[j].0) != k) ==>
            k in env && env[k] == OptionValue(mapping, options[i].0, options[i].1))
  {
    if options != [] {
      var prefix := options[..|options| - 1];
      FetchEnvSpec(environ, prefix, mapping, k);
      assert forall i :: 0 <= i < |prefix| ==> prefix[i] == options[i];
    }
  }

  /** `fetch`: the parsed output on exit code 0, nothing otherwise. */
  function Fetch(environ: map<string, string>, options: OptionTable, mapping: Dict<string, string>,
                 run: map<string, string> -> FetchRun): (r: Option<Dict<string, string>>)
    ensures var outcome := run(FetchEnv(environ, options, mapping));
      r == if outcome.exitCode == 0 then Some(outcome.output) else None
  {
    var outcome := run(FetchEnv(environ, options, mapping));
    if outcome.exitCode != 0 then None else Some(outcome.output)
  }
}
