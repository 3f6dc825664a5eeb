/**
  How the mapping endpoints normalise an option value by the option's data
  type before storing it.
 */
module OptionValues {
  import opened Wrappers
  import Text
  import opened Constants

  /** A value the declared type rejects, or a type the server does not know: `abort(400)`. */
  datatype Rejected = Rejected

  /** A line that is not whitespace only. */
  predicate NonBlank(line: string) {
    Text.Strip(line) != []
  }

  /** The non-blank lines, in order. */
  function NonBlankLines(lines: seq<string>): (r: seq<string>)
    ensures forall i :: 0 <= i < |r| ==> NonBlank(r[i]) && r[i] in lines
  {
    if lines == [] then []
    else
      var n := |lines| - 1;
      NonBlankLines(lines[..n]) + if NonBlank(lines[n]) then [lines[n]] else []
  }

  /** A list value: blank lines dropped, the rest joined with newlines. */
  function NormaliseList(value: string): string {
    var kept := NonBlankLines(Text.Split(value, '\n'));
    if kept == [] then "" else Text.Join(kept, '\n')
  }

  /**
    The value stored for an option of the given type. The conversion of a
    double is a parameter: `toDouble` is `str(float(v))`, or None when
    `float` rejects v.
   */
  function Normalise(dataType: string, value: string, toDouble: string -> Option<string>): (r: Result<string, Rejected>)
    ensures r.Err? <==> ParseDataType(dataType).None?
                        || (dataType == "integer" && Text.ParseInt(value).None?)
                        || (dataType == "double" && toDouble(value).None?)
  {
    match ParseDataType(dataType)
    case None => Err(Rejected)
    case Some(StringType) => Ok(value)
    case Some(IntegerType) =>
      (match Text.ParseInt(value)
       case None => Err(Rejected)
       case Some(n) => Ok(Text.IntToString(n)))
    case Some(DoubleType) =>
      (match toDouble(value)
       case None => Err(Rejected)
       case Some(d) => Ok(d))
    case Some(BoolType) => Ok(if value != "" then "1" else "0")
    case Some(ListType) => Ok(NormaliseList(value))
  }

  lemma {:induction false} NonBlankLinesKeeps(lines: seq<string>)
    requires forall i :: 0 <= i < |lines| ==> NonBlank(lines[i])
    ensures NonBlankLines(lines) == lines
  {
    if lines != [] {
      var n := |lines| - 1;
      var init, last := lines[..n], lines[n];
      assert lines == init + [last];
      assert NonBlank(last);
      assert NonBlankLines(lines) == NonBlankLines(init) + [last];
      assert forall i :: 0 <= i < n ==> NonBlank(init[i]) by {
        assert forall i :: 0 <= i < n ==> init[i] == lines[i];
      }
      NonBlankLinesKeeps(init);
    }
  }

  /** The lines of a normalised list are exactly the non-blank lines of the input. */
  lemma NormaliseListLines(value: string)
    ensures var kept := NonBlankLines(Text.Split(value, '\n'));
      if kept == [] then NormaliseList(value) == "" else Text.Split(NormaliseList(value), '\n') == kept
  {
    var kept := NonBlankLines(Text.Split(value, '\n'));
    if kept != [] {
      Text.SplitJoin(kept, '\n');
    }
  }

  /** Normalising a list twice changes nothing. */
  lemma NormaliseListIdempotent(value: string)
    ensures NormaliseList(NormaliseList(value)) == NormaliseList(value)
  {
    var kept := NonBlankLines(Text.Split(value, '\n'));
    NormaliseListLines(value);
    if kept == [] {
      assert Text.Split("", '\n') == [""];
      assert !NonBlank("");
      assert NonBlankLines([""]) == NonBlankLines([]) + [];
    } else {
      NonBlankLinesKeeps(kept);
    }
  }

  /**
    What a stored value means: an integer keeps the value it parses to, a
    non-empty bool is always true, a list keeps its non-blank lines, a string
    is kept as sent.
   */
  lemma NormalisePreserves(dataType: string, value: string, toDouble: string -> Option<string>)
    requires Normalise(dataType, value, toDouble).Ok?
    ensures var v := Normalise(dataType, value, toDouble).value;
      && (dataType == "string" ==> v == value)
      && (dataType == "integer" ==> Text.ParseInt(v) == Text.ParseInt(value))
      && (dataType == "bool" && value != "" ==> v == "1")
      && (dataType == "list" ==> (v == "" || Text.Split(v, '\n') == NonBlankLines(Text.Split(value, '\n'))))
  {
    if dataType == "integer" {
      Text.IntStringRoundTrip(Text.ParseInt(value).value);
    }
    if dataType == "list" {
      NormaliseListLines(value);
    }
  }

  /** A stored value normalises to itself: sending it back stores the same text. */
  lemma NormaliseIdempotent(dataType: string, value: string, toDouble: string -> Option<string>)
    requires Normalise(dataType, value, toDouble).Ok? && dataType != "double"
    requires dataType == "bool" ==> value != ""
    ensures Normalise(dataType, Normalise(dataType, value, toDouble).value, toDouble) == Normalise(dataType, value, toDouble)
  {
    if dataType == "integer" {
      Text.CanonicalIntIdempotent(value);
    }
    if dataType == "list" {
      NormaliseListIdempotent(value);
    }
  }
}
