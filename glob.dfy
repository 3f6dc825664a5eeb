/**
  Shell-style pattern matching after `fnmatch` on POSIX, for `*` and `?`: `*`
  matches any run of characters, `?` any one character, and every other
  character, `[` included, matches itself; the match covers the whole name and
  is case-sensitive. Bracket character classes are not modelled.
 */
module Glob {
  import Text

  predicate Match(name: string, pattern: string)
    decreases |name| + |pattern|
  {
    if pattern == [] then name == []
    else if pattern[0] == '*' then
      Match(name, pattern[1..]) || (name != [] && Match(name[1..], pattern))
    else if pattern[0] == '?' then
      name != [] && Match(name[1..], pattern[1..])
    else
      name != [] && name[0] == pattern[0] && Match(name[1..], pattern[1..])
  }

  predicate IsLiteral(pattern: string) {
    '*' !in pattern && '?' !in pattern
  }

  /** A pattern without wildcards matches exactly the name equal to it. */
  lemma {:induction false} LiteralMatch(name: string, pattern: string)
    requires IsLiteral(pattern)
    ensures Match(name, pattern) <==> name == pattern
    decreases |pattern|
  {
    if pattern != [] {
      assert pattern[0] in pattern;
      assert forall c :: c in pattern[1..] ==> c in pattern;
      if name != [] {
        LiteralMatch(name[1..], pattern[1..]);
        if name[0] == pattern[0] && name[1..] == pattern[1..] {
          assert name == [name[0]] + name[1..];
          assert pattern == [pattern[0]] + pattern[1..];
        }
      }
    }
  }

  /** A lone `*` matches every name. */
  lemma {:induction false} StarMatchesAll(name: string)
    ensures Match(name, "*")
    decreases |name|
  {
    if name != [] {
      StarMatchesAll(name[1..]);
    }
  }

  /** A literal prefix followed by `*` matches exactly the names that start with that prefix. */
  lemma {:induction false} PrefixStarMatch(name: string, prefix: string)
    requires IsLiteral(prefix)
    ensures Match(name, prefix + "*") <==> Text.StartsWith(name, prefix)
    decreases |prefix|
  {
    if prefix == [] {
      assert prefix + "*" == "*";
      StarMatchesAll(name);
    } else {
      var p := prefix + "*";
      assert p[0] == prefix[0] && p[1..] == prefix[1..] + "*";
      assert prefix[0] in prefix;
      assert forall c :: c in prefix[1..] ==> c in prefix;
      if name != [] {
        PrefixStarMatch(name[1..], prefix[1..]);
        if Text.StartsWith(name, prefix) {
          assert name[1..][..|prefix| - 1] == prefix[1..];
        }
        if name[0] == prefix[0] && Text.StartsWith(name[1..], prefix[1..]) {
          assert name[..|prefix|] == [name[0]] + name[1..][..|prefix| - 1];
        }
      }
    }
  }
}
