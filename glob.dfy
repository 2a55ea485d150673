/**
 * Case-sensitive shell-style matching of interface names against one selector
 * pattern, as fnmatch.fnmatchcase does it: '*' matches any run of characters,
 * '?' any single character, every other character itself, and the pattern has
 * to cover the whole name.
 */
module Glob {

  predicate HasWildcard(p: string) {
    '*' in p || '?' in p
  }

  /** fnmatch.fnmatchcase(name, pattern) for patterns without bracket classes. */
  predicate Matches(name: string, pattern: string)
    ensures Matches(name, pattern) && '*' !in pattern ==> |name| == |pattern|
    decreases |pattern| + |name|
  {
    if pattern == [] then name == []
    else if pattern[0] == '*' then
      Matches(name, pattern[1..]) || (name != [] && Matches(name[1..], pattern))
    else
      name != [] && (pattern[0] == '?' || pattern[0] == name[0]) && Matches(name[1..], pattern[1..])
  }

  /** '?' takes exactly one character, whichever it is. */
  lemma QuestionMatchesOne(name: string, q: string)
    ensures Matches(name, "?" + q) <==> name != [] && Matches(name[1..], q)
  {
    assert ("?" + q)[0] == '?' && ("?" + q)[1..] == q;
  }

  /** A pattern with no wildcard matches exactly the name it spells. */
  lemma {:induction false} LiteralPattern(name: string, pattern: string)
    requires !HasWildcard(pattern)
    ensures Matches(name, pattern) <==> name == pattern
    decreases |pattern|
  {
    if pattern != [] {
      assert pattern[0] in pattern;
      assert !HasWildcard(pattern[1..]) by {
        forall c | c in pattern[1..] ensures c in pattern { }
      }
      if name != [] {
        LiteralPattern(name[1..], pattern[1..]);
        assert name == pattern <==> (name[0] == pattern[0] && name[1..] == pattern[1..]) by {
          if name[0] == pattern[0] && name[1..] == pattern[1..] {
            assert name == [name[0]] + name[1..];
            assert pattern == [pattern[0]] + pattern[1..];
          }
        }
      }
    }
  }

  /** A lone '*' matches every name, the empty one included. */
  lemma {:induction false} StarMatchesAll(name: string)
    ensures Matches(name, "*")
    decreases |name|
  {
    assert "*"[1..] == [];
    if name != [] {
      StarMatchesAll(name[1..]);
    }
  }

  /** '*' followed by q matches a name exactly when q matches some suffix of it. */
  lemma {:induction false} StarSplits(name: string, q: string)
    ensures Matches(name, "*" + q) <==> exists k :: 0 <= k <= |name| && Matches(name[k..], q)
    decreases |name|
  {
    var p := "*" + q;
    assert p[0] == '*' && p[1..] == q;
    assert name[0..] == name;
    if name != [] {
      StarSplits(name[1..], q);
      if Matches(name, p) && !Matches(name, q) {
        var k :| 0 <= k <= |name[1..]| && Matches(name[1..][k..], q);
        assert name[1..][k..] == name[k + 1..];
      }
      if k :| 0 <= k <= |name| && Matches(name[k..], q) {
        if k > 0 {
          assert name[1..][k - 1..] == name[k..];
        }
      }
    }
  }

  /** A wildcard-free prefix followed by '*' matches exactly the names that start with the prefix. */
  lemma {:induction false} PrefixStar(name: string, prefix: string)
    requires !HasWildcard(prefix)
    ensures Matches(name, prefix + "*") <==> |prefix| <= |name| && name[..|prefix|] == prefix
    decreases |prefix|
  {
    var p := prefix + "*";
    if prefix == [] {
      assert p == "*";
      StarMatchesAll(name);
    } else {
      assert prefix[0] in prefix;
      assert !HasWildcard(prefix[1..]) by {
        forall c | c in prefix[1..] ensures c in prefix { }
      }
      assert p[0] == prefix[0] && p[1..] == prefix[1..] + "*";
      if name != [] {
        PrefixStar(name[1..], prefix[1..]);
        if |prefix| <= |name| {
          assert name[..|prefix|] == [name[0]] + name[1..][..|prefix| - 1];
          assert prefix == [prefix[0]] + prefix[1..];
        }
      }
    }
  }
}
