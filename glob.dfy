/**
 * The glob patterns of the Redis KEYS command, as `clearCache` uses them:
 * `*` matches any run of characters, `?` any one character, `\` makes the next
 * character literal (a trailing `\` stands for itself), every other character
 * matches itself.
 */
module Glob {

  function Match(p: string, s: string): bool
    decreases |p| + |s|
  {
    if p == [] then s == []
    else if p[0] == '*' then Match(p[1..], s) || (s != [] && Match(p, s[1..]))
    else if p[0] == '?' then s != [] && Match(p[1..], s[1..])
    else if p[0] == '\\' && |p| >= 2 then s != [] && s[0] == p[1] && Match(p[2..], s[1..])
    else s != [] && s[0] == p[0] && Match(p[1..], s[1..])
  }

  predicate IsMeta(c: char) {
    c == '*' || c == '?' || c == '\\' || c == '['
  }

  /** A pattern that only contains ordinary characters. */
  predicate Literal(p: string) {
    forall i :: 0 <= i < |p| ==> !IsMeta(p[i])
  }

  /** `*` matches every key. */
  lemma {:induction false} StarMatchesAll(s: string)
    ensures Match("*", s)
  {
    if s != [] {
      StarMatchesAll(s[1..]);
    }
  }

  /** A literal prefix must be matched character by character before the rest of the pattern. */
  lemma {:induction false} LiteralPrefix(lit: string, q: string, s: string)
    requires Literal(lit)
    ensures Match(lit + q, s) <==> |lit| <= |s| && s[..|lit|] == lit && Match(q, s[|lit|..])
  {
    if lit == [] {
      assert lit + q == q;
    } else {
      var p := lit + q;
      assert p[0] == lit[0] && p[1..] == lit[1..] + q;
      assert !IsMeta(lit[0]);
      if s != [] {
        LiteralPrefix(lit[1..], q, s[1..]);
        if |lit| <= |s| {
          assert s[..|lit|] == [s[0]] + s[1..][..|lit| - 1];
          assert s[|lit|..] == s[1..][|lit| - 1..];
        }
      }
    }
  }

  /** A literal pattern matches exactly itself. */
  lemma LiteralMatchesItself(lit: string, s: string)
    requires Literal(lit)
    ensures Match(lit, s) <==> s == lit
  {
    LiteralPrefix(lit, "", s);
    assert lit + "" == lit;
  }

  /** `prefix*` matches exactly the keys that start with the prefix. */
  lemma PrefixStar(lit: string, s: string)
    requires Literal(lit)
    ensures Match(lit + "*", s) <==> |lit| <= |s| && s[..|lit|] == lit
  {
    LiteralPrefix(lit, "*", s);
    if |lit| <= |s| {
      StarMatchesAll(s[|lit|..]);
    }
  }
}
