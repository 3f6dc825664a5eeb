/**
  The handful of Python string operations the core relies on: `str.split`,
  `str.join`, `str.strip`, `str.upper`, `int(str)`, `str(int)`,
  `os.path.basename` and `os.path.splitext`.
 */
module Text {
  import opened Wrappers

  /** `s.split(sep)`: never empty; separators between every two parts. */
  function Split(s: string, sep: char): (parts: seq<string>)
    ensures |parts| >= 1
    ensures forall i :: 0 <= i < |parts| ==> sep !in parts[i]
  {
    if s == [] then [[]]
    else
      var r := Split(s[..|s| - 1], sep);
      var last := s[|s| - 1];
      if last == sep then r + [[]]
      else r[..|r| - 1] + [r[|r| - 1] + [last]]
  }

  /** `sep.join(parts)` for a non-empty list of parts. */
  function Join(parts: seq<string>, sep: char): string
    requires |parts| >= 1
  {
    if |parts| == 1 then parts[0]
    else Join(parts[..|parts| - 1], sep) + [sep] + parts[|parts| - 1]
  }

  lemma JoinExtendLast(parts: seq<string>, sep: char, c: char)
    requires |parts| >= 1
    ensures Join(parts[..|parts| - 1] + [parts[|parts| - 1] + [c]], sep) == Join(parts, sep) + [c]
  {
    var q := parts[..|parts| - 1] + [parts[|parts| - 1] + [c]];
    assert q[..|q| - 1] == parts[..|parts| - 1];
  }

  /** Joining the parts of a split with the same separator gives back the text. */
  lemma {:induction false} JoinSplit(s: string, sep: char)
    ensures Join(Split(s, sep), sep) == s
  {
    if s != [] {
      var r := Split(s[..|s| - 1], sep);
      JoinSplit(s[..|s| - 1], sep);
      if s[|s| - 1] == sep {
        assert (r + [[]])[..|r|] == r;
      } else {
        JoinExtendLast(r, sep, s[|s| - 1]);
      }
      assert s[..|s| - 1] + [s[|s| - 1]] == s;
    }
  }

  /** A text without the separator splits into itself alone. */
  lemma {:induction false} SplitNoSeparator(s: string, sep: char)
    requires sep !in s
    ensures Split(s, sep) == [s]
  {
    if s != [] {
      SplitNoSeparator(s[..|s| - 1], sep);
      assert s[..|s| - 1] + [s[|s| - 1]] == s;
    }
  }

  lemma SplitSnoc(x: string, c: char, sep: char)
    ensures Split(x + [c], sep) ==
      if c == sep then Split(x, sep) + [[]]
      else Split(x, sep)[..|Split(x, sep)| - 1] + [Split(x, sep)[|Split(x, sep)| - 1] + [c]]
  {
    assert (x + [c])[..|x|] == x;
  }

  lemma ExtendLastOfConcat(a: seq<string>, q: seq<string>, c: char)
    requires |q| >= 1
    ensures var r := a + q;
      r[..|r| - 1] + [r[|r| - 1] + [c]] == a + (q[..|q| - 1] + [q[|q| - 1] + [c]])
  {
  }

  lemma SplitConcatStep(s: string, t: string, c: char, sep: char)
    requires Split(s + [sep] + t, sep) == Split(s, sep) + Split(t, sep)
    ensures Split(s + [sep] + (t + [c]), sep) == Split(s, sep) + Split(t + [c], sep)
  {
    var x := s + [sep] + t;
    assert s + [sep] + (t + [c]) == x + [c];
    if c != sep {
      SplitConcatStepOther(x, t, Split(s, sep), c, sep);
    } else {
      SplitConcatStepSeparator(x, t, Split(s, sep), sep);
    }
  }

  lemma SplitConcatStepSeparator(x: string, t: string, a: seq<string>, sep: char)
    requires Split(x, sep) == a + Split(t, sep)
    ensures Split(x + [sep], sep) == a + Split(t + [sep], sep)
  {
    SplitSnoc(x, sep, sep);
    SplitSnoc(t, sep, sep);
  }

  lemma SplitConcatStepOther(x: string, t: string, a: seq<string>, c: char, sep: char)
    requires c != sep
    requires Split(x, sep) == a + Split(t, sep)
    ensures Split(x + [c], sep) == a + Split(t + [c], sep)
  {
    SplitSnoc(x, c, sep);
    SplitSnoc(t, c, sep);
    ExtendLastOfConcat(a, Split(t, sep), c);
  }

  /** Splitting at a separator splits each side independently. */
  lemma {:induction false} SplitConcat(s: string, t: string, sep: char)
    ensures Split(s + [sep] + t, sep) == Split(s, sep) + Split(t, sep)
  {
    if t == [] {
      SplitSnoc(s, sep, sep);
      assert s + [sep] + t == s + [sep];
    } else {
      var t' := t[..|t| - 1];
      SplitConcat(s, t', sep);
      SplitConcatStep(s, t', t[|t| - 1], sep);
      assert t' + [t[|t| - 1]] == t;
    }
  }

  /** Splitting joined parts that hold no separator gives the parts back. */
  lemma {:induction false} SplitJoin(parts: seq<string>, sep: char)
    requires |parts| >= 1 && forall i :: 0 <= i < |parts| ==> sep !in parts[i]
    ensures Split(Join(parts, sep), sep) == parts
  {
    var n := |parts| - 1;
    if n == 0 {
      SplitNoSeparator(parts[0], sep);
    } else {
      SplitJoin(parts[..n], sep);
      SplitConcat(Join(parts[..n], sep), parts[n], sep);
      SplitNoSeparator(parts[n], sep);
      assert parts[..n] + [parts[n]] == parts;
    }
  }

  predicate StartsWith(s: string, prefix: string) {
    |prefix| <= |s| && s[..|prefix|] == prefix
  }

  /** The characters for which Python's `str.isspace` holds. */
  predicate IsSpace(c: char) {
    c == ' ' || '\U{9}' <= c <= '\U{d}' || '\U{1c}' <= c <= '\U{1f}' || c == '\U{85}' || c == '\U{a0}'
    || c == '\U{1680}' || '\U{2000}' <= c <= '\U{200a}' || c == '\U{2028}' || c == '\U{2029}'
    || c == '\U{202f}' || c == '\U{205f}' || c == '\U{3000}'
  }

  /** `s.strip()`. */
  function Strip(s: string): (r: string)
    ensures r == [] || (!IsSpace(r[0]) && !IsSpace(r[|r| - 1]))
    ensures r == [] <==> forall i :: 0 <= i < |s| ==> IsSpace(s[i])
  {
    StripRight(StripLeft(s))
  }

  /** `strip()` gives the inner slice of the text, with only whitespace cut off either end. */
  lemma StripIsSlice(s: string)
    ensures exists i, j :: 0 <= i <= j <= |s| && Strip(s) == s[i..j] && AllSpace(s[..i]) && AllSpace(s[j..])
  {
    var l := StripLeft(s);
    StripLeftSlice(s);
    StripRightSlice(l);
    var r := StripRight(l);
    var i := |s| - |l|;
    var j := i + |r|;
    assert l == s[i..];
    assert s[j..] == l[|r|..];
    assert Strip(s) == r == l[..|r|];
    assert l[..|r|] == s[i..j];
  }

  predicate AllSpace(s: string) {
    forall i :: 0 <= i < |s| ==> IsSpace(s[i])
  }

  /** `lstrip` cuts a run of whitespace off the front. */
  lemma {:induction false} StripLeftSlice(s: string)
    ensures var r := StripLeft(s); |r| <= |s| && r == s[|s| - |r|..] && AllSpace(s[..|s| - |r|])
  {
    if s != [] && IsSpace(s[0]) {
      StripLeftSlice(s[1..]);
      var r := StripLeft(s[1..]);
      assert s[1..][|s| - 1 - |r|..] == s[|s| - |r|..];
      assert s[..|s| - |r|] == [s[0]] + s[1..][..|s| - 1 - |r|];
    }
  }

  /** `rstrip` cuts a run of whitespace off the back. */
  lemma {:induction false} StripRightSlice(s: string)
    ensures var r := StripRight(s); |r| <= |s| && r == s[..|r|] && AllSpace(s[|r|..])
  {
    if s != [] && IsSpace(s[|s| - 1]) {
      var n := |s| - 1;
      StripRightSlice(s[..n]);
      var r := StripRight(s[..n]);
      assert s[..n][..|r|] == s[..|r|];
      assert s[|r|..] == s[..n][|r|..] + [s[n]];
    }
  }

  function StripLeft(s: string): (r: string)
    ensures r == [] || !IsSpace(r[0])
    ensures r == [] <==> forall i :: 0 <= i < |s| ==> IsSpace(s[i])
    ensures (s == [] || !IsSpace(s[0])) ==> r == s
  {
    if s == [] then []
    else if IsSpace(s[0]) then
      assert forall i :: 1 <= i < |s| ==> s[1..][i - 1] == s[i];
      StripLeft(s[1..])
    else s
  }

  function StripRight(s: string): (r: string)
    ensures r == [] || !IsSpace(r[|r| - 1])
    ensures r == [] <==> forall i :: 0 <= i < |s| ==> IsSpace(s[i])
    ensures s != [] && !IsSpace(s[0]) ==> r != [] && r[0] == s[0]
    ensures (s == [] || !IsSpace(s[|s| - 1])) ==> r == s
  {
    if s == [] then []
    else if IsSpace(s[|s| - 1]) then StripRight(s[..|s| - 1])
    else s
  }

  predicate IsLowerAscii(c: char) { 'a' <= c <= 'z' }

  /**
    `s.upper()` for the ASCII letters: no lower-case ASCII letter remains, and every
    other character is kept in place.
   */
  function Upper(s: string): (r: string)
    ensures |r| == |s|
    ensures forall i :: 0 <= i < |r| ==> !IsLowerAscii(r[i])
    ensures forall i :: 0 <= i < |s| && !IsLowerAscii(s[i]) ==> r[i] == s[i]
  {
    seq(|s|, i requires 0 <= i < |s| => UpperChar(s[i]))
  }

  /** Upper-casing twice changes nothing. */
  lemma UpperIdempotent(s: string)
    ensures Upper(Upper(s)) == Upper(s)
  {
  }

  function UpperChar(c: char): char {
    if IsLowerAscii(c) then (c as int - 32) as char else c
  }

  predicate IsDigit(c: char) { '0' <= c <= '9' }

  function DigitValue(c: char): nat requires IsDigit(c) { c as int - '0' as int }

  function DigitChar(d: nat): (c: char)
    requires d < 10
    ensures IsDigit(c) && DigitValue(c) == d
  {
    ('0' as int + d) as char
  }

  /** The value of a run of decimal digits. */
  function DigitsValue(ds: string): nat
    requires forall i :: 0 <= i < |ds| ==> IsDigit(ds[i])
  {
    if ds == [] then 0 else 10 * DigitsValue(ds[..|ds| - 1]) + DigitValue(ds[|ds| - 1])
  }

  /** `str(n)` for a natural number. */
  function NatToString(n: nat): (s: string)
    ensures |s| >= 1
    ensures forall i :: 0 <= i < |s| ==> IsDigit(s[i])
    ensures s[0] != '0' || n == 0
  {
    if n < 10 then [DigitChar(n)] else NatToString(n / 10) + [DigitChar(n % 10)]
  }

  lemma {:induction false} NatToStringValue(n: nat)
    ensures DigitsValue(NatToString(n)) == n
  {
    if n >= 10 {
      NatToStringValue(n / 10);
      var s := NatToString(n);
      assert s[..|s| - 1] == NatToString(n / 10);
    }
  }

  /** `str(n)` for an integer. */
  function IntToString(n: int): (s: string)
    ensures |s| >= 1
  {
    if n < 0 then "-" + NatToString(-n) else NatToString(n)
  }

  /** `int(s)`: surrounding whitespace, an optional sign, then at least one decimal digit. */
  function ParseInt(s: string): Option<int> {
    ParseSigned(Strip(s))
  }

  predicate AllDigits(ds: string) {
    forall i :: 0 <= i < |ds| ==> IsDigit(ds[i])
  }

  /** An optional sign followed by at least one decimal digit. */
  function ParseSigned(t: string): Option<int> {
    if t == [] then None
    else
      var sign := if t[0] == '-' then -1 else 1;
      var digits := if t[0] == '-' || t[0] == '+' then t[1..] else t;
      if digits != [] && AllDigits(digits) then Some(sign * DigitsValue(digits)) else None
  }

  lemma IntStringNoSpaces(n: int)
    ensures Strip(IntToString(n)) == IntToString(n)
  {
    var s := IntToString(n);
    var m: nat := if n < 0 then -n else n;
    var ds := NatToString(m);
    assert !IsSpace(s[0]) && !IsSpace(s[|s| - 1]) by {
      if n < 0 { assert s[|s| - 1] == ds[|ds| - 1]; }
    }
  }

  /** `int(str(n)) == n`. */
  lemma IntStringRoundTrip(n: int)
    ensures ParseInt(IntToString(n)) == Some(n)
  {
    IntStringNoSpaces(n);
    var m: nat := if n < 0 then -n else n;
    NatToStringValue(m);
    if n < 0 {
      assert IntToString(n)[1..] == NatToString(m);
    }
  }

  /** Different integers are written differently. */
  lemma IntToStringInjective(m: int, n: int)
    requires IntToString(m) == IntToString(n)
    ensures m == n
  {
    IntStringRoundTrip(m);
    IntStringRoundTrip(n);
  }

  /** `str(int(s))` is a fixed point: canonicalising twice changes nothing. */
  lemma CanonicalIntIdempotent(s: string)
    requires ParseInt(s).Some?
    ensures ParseInt(IntToString(ParseInt(s).value)) == ParseInt(s)
  {
    IntStringRoundTrip(ParseInt(s).value);
  }

  /** `os.path.basename(p)`: everything after the last "/". */
  function Basename(p: string): (b: string)
    ensures '/' !in b && |b| <= |p|
  {
    if p == [] || p[|p| - 1] == '/' then []
    else Basename(p[..|p| - 1]) + [p[|p| - 1]]
  }

  /** The base name is the part of the path after its last "/", or all of it when there is none. */
  lemma {:induction false} BasenameSuffix(p: string)
    ensures var b := Basename(p);
      && b == p[|p| - |b|..]
      && (|b| < |p| ==> p[|p| - |b| - 1] == '/')
  {
    if p != [] && p[|p| - 1] != '/' {
      var n := |p| - 1;
      var b := Basename(p[..n]);
      BasenameSuffix(p[..n]);
      assert p[..n][n - |b|..] == p[n - |b|..n];
      assert p[n - |b|..] == p[n - |b|..n] + [p[n]];
    }
  }

  /** The base name of `dir/name` is `name` when the name holds no "/". */
  lemma {:induction false} BasenameOfChild(dir: string, name: string)
    requires '/' !in name
    ensures Basename(dir + "/" + name) == name
    decreases |name|
  {
    var p := dir + "/" + name;
    if name == [] {
    } else {
      var n' := name[..|name| - 1];
      assert p[..|p| - 1] == dir + "/" + n';
      BasenameOfChild(dir, n');
      assert n' + [name[|name| - 1]] == name;
    }
  }

  /**
    `os.path.join(dir, name)` for a relative name, as a directory entry's path
    is built: no "/" is added after an empty directory or one ending in "/".
   */
  function JoinPath(dir: string, name: string): (p: string)
    ensures StartsWith(p, dir) && |p| >= |name| && p[|p| - |name|..] == name
    ensures |p| == |dir| + |name| + (if dir == [] || dir[|dir| - 1] == '/' then 0 else 1)
  {
    if dir == [] || dir[|dir| - 1] == '/' then dir + name else dir + "/" + name
  }

  /** A name without "/" has itself as base name. */
  lemma {:induction false} BasenameOfName(name: string)
    requires '/' !in name
    ensures Basename(name) == name
  {
    if name != [] {
      var n := |name| - 1;
      BasenameOfName(name[..n]);
      assert name[..n] + [name[n]] == name;
    }
  }

  /** The base name of a joined path is the name joined, whatever the directory. */
  lemma BasenameOfJoin(dir: string, name: string)
    requires '/' !in name
    ensures Basename(JoinPath(dir, name)) == name
  {
    if dir == [] {
      assert JoinPath(dir, name) == name;
      BasenameOfName(name);
    } else if dir[|dir| - 1] == '/' {
      var d := dir[..|dir| - 1];
      assert JoinPath(dir, name) == d + "/" + name;
      BasenameOfChild(d, name);
    } else {
      BasenameOfChild(dir, name);
    }
  }

  /**
    `os.path.splitext(b)[0]` for a name without "/": cut at the last "." unless
    only dots precede it (a leading-dot name has no extension).
   */
  function StripExtension(b: string): (r: string)
    ensures StartsWith(b, r)
  {
    var d := LastIndexOf(b, '.');
    if d.Some? && exists i :: 0 <= i < d.value && b[i] != '.' then b[..d.value] else b
  }

  /**
    The root `splitext` gives: the name is cut just before its last ".", and
    only when something other than dots precedes that "."; otherwise the name
    comes back whole.
   */
  lemma StripExtensionSpec(b: string)
    ensures var r := StripExtension(b);
      && (r != b ==> |r| < |b| && b[|r|] == '.' && '.' !in b[|r| + 1..] && !AllDots(r))
      && (r == b <==> forall d :: 0 <= d < |b| && b[d] == '.' && '.' !in b[d + 1..] ==> AllDots(b[..d]))
  {
    var d := LastIndexOf(b, '.');
    if d.Some? && exists i :: 0 <= i < d.value && b[i] != '.' {
      assert !AllDots(b[..d.value]) by {
        var i :| 0 <= i < d.value && b[i] != '.';
        assert b[..d.value][i] == b[i];
      }
    } else {
      forall e | 0 <= e < |b| && b[e] == '.' && '.' !in b[e + 1..] ensures AllDots(b[..e]) {
        assert d.Some?;
      }
    }
  }

  predicate AllDots(s: string) {
    forall i :: 0 <= i < |s| ==> s[i] == '.'
  }

  /** Cutting the extension off `stem.ext` gives back the stem, when the stem is not all dots. */
  lemma StripExtensionOfName(stem: string, ext: string)
    requires '.' !in ext && !AllDots(stem)
    ensures StripExtension(stem + "." + ext) == stem
  {
    var b := stem + "." + ext;
    var d := |stem|;
    assert forall j :: d < j < |b| ==> b[j] == ext[j - d - 1];
    assert b[d] == '.';
    assert LastIndexOf(b, '.') == Some(d);
    var i :| 0 <= i < d && stem[i] != '.';
    assert b[i] != '.';
    assert b[..d] == stem;
  }

  function LastIndexOf(s: string, c: char): (r: Option<nat>)
    ensures r.None? <==> c !in s
    ensures r.Some? ==> r.value < |s| && s[r.value] == c && forall j :: r.value < j < |s| ==> s[j] != c
  {
    if s == [] then None
    else if s[|s| - 1] == c then Some(|s| - 1)
    else
      var n := |s| - 1;
      assert s == s[..n] + [s[n]];
      LastIndexOf(s[..n], c)
  }
}
