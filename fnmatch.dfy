/** Shell-style matching as Python's `fnmatch.fnmatch` does it on POSIX, where
    `normcase` leaves text unchanged: `*` matches any run of characters
    (the path separator included), `?` any one character, and every other
    character itself; the whole text must match. */
module Fnmatch {
  import opened Text

  function Match(s: string, p: string): bool
    decreases |s| + |p|
  {
    if p == [] then s == []
    else if p[0] == '*' then Match(s, p[1..]) || (s != [] && Match(s[1..], p))
    else if p[0] == '?' then s != [] && Match(s[1..], p[1..])
    else s != [] && s[0] == p[0] && Match(s[1..], p[1..])
  }

  /** A pattern without wildcards. */
  predicate Literal(p: string)
  {
    '*' !in p && '?' !in p
  }

  /** `*` on its own matches everything. */
  lemma {:induction false} StarMatchesAll(s: string)
    ensures Match(s, "*")
    decreases |s|
  {
    if s != [] {
      StarMatchesAll(s[1..]);
    }
  }

  /** A literal pattern matches exactly itself. */
  lemma {:induction false} LiteralMatch(s: string, lit: string)
    requires Literal(lit)
    ensures Match(s, lit) <==> s == lit
    decreases |lit|
  {
    if lit != [] && s != [] {
      assert lit == [lit[0]] + lit[1..];
      LiteralMatch(s[1..], lit[1..]);
      if s[0] == lit[0] {
        assert s == [s[0]] + s[1..];
      }
    }
  }

  /** `lit*` matches exactly the texts starting with `lit`. */
  lemma {:induction false} PrefixPattern(s: string, lit: string)
    requires Literal(lit)
    ensures Match(s, lit + "*") <==> StartsWith(s, lit)
    decreases |lit|
  {
    if lit == [] {
      assert lit + "*" == "*";
      StarMatchesAll(s);
    } else {
      assert (lit + "*")[0] == lit[0] && (lit + "*")[1..] == lit[1..] + "*";
      if s != [] {
        PrefixPattern(s[1..], lit[1..]);
        if s[0] == lit[0] && StartsWith(s[1..], lit[1..]) {
          assert s[..|lit|] == [s[0]] + s[1..][..|lit| - 1];
        }
        if StartsWith(s, lit) {
          assert s[1..][..|lit| - 1] == s[..|lit|][1..];
        }
      }
    }
  }

  lemma EndsWithStep(s: string, lit: string)
    requires s != []
    ensures EndsWith(s, lit) <==> s == lit || EndsWith(s[1..], lit)
  {
    if |lit| <= |s| - 1 {
      assert s[|s| - |lit|..] == s[1..][|s| - 1 - |lit|..];
    }
  }

  /** `*lit` matches exactly the texts ending with `lit`. */
  lemma {:induction false} SuffixPattern(s: string, lit: string)
    requires Literal(lit)
    ensures Match(s, "*" + lit) <==> EndsWith(s, lit)
    decreases |s|
  {
    var p := "*" + lit;
    assert p[0] == '*' && p[1..] == lit;
    LiteralMatch(s, lit);
    if s == [] {
      assert EndsWith(s, lit) <==> lit == [];
    } else {
      SuffixPattern(s[1..], lit);
      EndsWithStep(s, lit);
    }
  }
}
