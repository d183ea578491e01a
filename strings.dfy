/** The handful of Python string operations the tool applies to names and
    commit messages, on strings as sequences of characters. */
module Strings {

  /** The characters Python's `str.isspace()` accepts, which `str.strip()`
      with no argument removes from both ends. */
  predicate IsSpace(c: char)
  {
    || ('\t' <= c <= '\r')
    || ('\U{1C}' <= c <= '\U{1F}')
    || c == ' '
    || c == '\U{85}'
    || c == '\U{A0}'
    || c == '\U{1680}'
    || ('\U{2000}' <= c <= '\U{200A}')
    || c == '\U{2028}'
    || c == '\U{2029}'
    || c == '\U{202F}'
    || c == '\U{205F}'
    || c == '\U{3000}'
  }

  /** The number of whitespace characters at the start of `s`. */
  function LeadingSpaces(s: string): (n: nat)
    ensures n <= |s|
    ensures forall k :: 0 <= k < n ==> IsSpace(s[k])
    ensures n < |s| ==> !IsSpace(s[n])
  {
    if s == [] || !IsSpace(s[0]) then 0 else 1 + LeadingSpaces(s[1..])
  }

  /** The number of whitespace characters at the end of `s`. */
  function TrailingSpaces(s: string): (n: nat)
    ensures n <= |s|
    ensures forall k :: |s| - n <= k < |s| ==> IsSpace(s[k])
    ensures n < |s| ==> !IsSpace(s[|s| - 1 - n])
  {
    if s == [] || !IsSpace(s[|s| - 1]) then 0 else 1 + TrailingSpaces(s[..|s| - 1])
  }

  /** `s.strip()`: `s` without its leading and trailing whitespace. The result is
      the slice of `s` that starts after the leading whitespace, everything after
      it is whitespace, and it neither starts nor ends with whitespace. */
  function Strip(s: string): (r: string)
    ensures |r| <= |s| - LeadingSpaces(s)
    ensures r == s[LeadingSpaces(s)..LeadingSpaces(s) + |r|]
    ensures forall k :: LeadingSpaces(s) + |r| <= k < |s| ==> IsSpace(s[k])
    ensures r != [] ==> !IsSpace(r[0]) && !IsSpace(r[|r| - 1])
  {
    var rest := s[LeadingSpaces(s)..];
    rest[..|rest| - TrailingSpaces(rest)]
  }

  /** `s.split("\n")[0]`: the text before the first line feed, or all of `s`
      when it has none. */
  function FirstLine(s: string): (r: string)
    ensures r <= s
    ensures '\n' !in r
    ensures |r| < |s| ==> s[|r|] == '\n'
  {
    if s == [] || s[0] == '\n' then [] else [s[0]] + FirstLine(s[1..])
  }

  /** `s.startswith(p)`. */
  predicate StartsWith(s: string, p: string)
  {
    p <= s
  }

  /** `s.endswith(p)`. */
  predicate EndsWith(s: string, p: string)
  {
    |p| <= |s| && s[|s| - |p|..] == p
  }

  /** `p` occurs in `s` at index `i`. */
  predicate OccursAt(s: string, p: string, i: nat)
  {
    i + |p| <= |s| && s[i..i + |p|] == p
  }

  /** `p in s` for strings: `p` is a substring of `s`. */
  predicate Occurs(s: string, p: string)
  {
    exists i: nat | i <= |s| :: OccursAt(s, p, i)
  }

  /** `s.replace(p, "")`: scanning from the left, every occurrence of `p` that
      does not overlap an occurrence already removed is deleted. An empty `p`
      leaves `s` as it is, as Python's replacement of "" by "" does. */
  function RemoveAll(s: string, p: string): (r: string)
    ensures |r| <= |s|
    decreases |s|
  {
    if p == [] || |s| < |p| then s
    else if s[..|p|] == p then RemoveAll(s[|p|..], p)
    else [s[0]] + RemoveAll(s[1..], p)
  }

  /** An occurrence in `s[1..]` is an occurrence in `s`, one place later. */
  lemma OccursInTail(s: string, p: string)
    requires s != []
    requires Occurs(s[1..], p)
    ensures Occurs(s, p)
  {
    var i: nat :| i <= |s[1..]| && OccursAt(s[1..], p, i);
    assert i + |p| <= |s| - 1;
    assert s[i + 1..i + 1 + |p|] == s[1..][i..i + |p|];
    assert OccursAt(s, p, i + 1);
  }

  /** Removing a pattern that does not occur changes nothing. */
  lemma {:induction false} RemoveAllAbsent(s: string, p: string)
    requires p != []
    requires !Occurs(s, p)
    ensures RemoveAll(s, p) == s
    decreases |s|
  {
    if |s| < |p| {
    } else {
      assert !OccursAt(s, p, 0);
      assert s[..|p|] != p;
      if Occurs(s[1..], p) {
        OccursInTail(s, p);
      }
      RemoveAllAbsent(s[1..], p);
      assert [s[0]] + s[1..] == s;
    }
  }

  /** Removing a pattern that does occur makes the string strictly shorter. */
  lemma {:induction false} RemoveAllShrinks(s: string, p: string)
    requires p != []
    requires Occurs(s, p)
    ensures |RemoveAll(s, p)| < |s|
    decreases |s|
  {
    var i: nat :| i <= |s| && OccursAt(s, p, i);
    assert i + |p| <= |s|;
    if s[..|p|] == p {
    } else {
      assert i != 0;
      assert s[1..][i - 1..i - 1 + |p|] == s[i..i + |p|];
      assert OccursAt(s[1..], p, i - 1);
      RemoveAllShrinks(s[1..], p);
    }
  }

  /** `s.replace(p, "")` returns `s` unchanged exactly when `p` is not a substring of `s`. */
  lemma RemoveAllUnchanged(s: string, p: string)
    requires p != []
    ensures RemoveAll(s, p) == s <==> !Occurs(s, p)
  {
    if Occurs(s, p) {
      RemoveAllShrinks(s, p);
    } else {
      RemoveAllAbsent(s, p);
    }
  }

  /** An occurrence at the front is removed, and removal goes on after it. */
  lemma RemoveAllLeading(p: string, rest: string)
    requires p != []
    ensures RemoveAll(p + rest, p) == RemoveAll(rest, p)
  {
    var t := p + rest;
    assert t[..|p|] == p;
    assert t[|p|..] == rest;
  }

  /** Where no occurrence starts at the front, removal keeps the first character. */
  lemma RemoveAllStep(t: string, p: string)
    requires p != [] && t != []
    requires !OccursAt(t, p, 0)
    ensures RemoveAll(t, p) == [t[0]] + RemoveAll(t[1..], p)
  {
    if |t| >= |p| {
      assert t[0..|p|] == t[..|p|];
    } else {
      assert t == [t[0]] + t[1..];
    }
  }

  /** An occurrence in `t[1..]` at `i` is an occurrence in `t` at `i + 1`. */
  lemma OccursAtTail(t: string, p: string, i: nat)
    requires t != []
    requires OccursAt(t[1..], p, i)
    ensures OccursAt(t, p, i + 1)
  {
    assert t[1..][i..i + |p|] == t[i + 1..i + 1 + |p|];
  }

  lemma NoOccurrenceInTail(a: string, s: string, p: string)
    requires a != []
    requires forall i :: 0 <= i < |a| ==> !OccursAt(a + s, p, i)
    ensures (a + s)[1..] == a[1..] + s
    ensures forall i :: 0 <= i < |a[1..]| ==> !OccursAt(a[1..] + s, p, i)
  {
    var t := a + s;
    assert t[1..] == a[1..] + s;
    forall i | 0 <= i < |a[1..]| ensures !OccursAt(a[1..] + s, p, i) {
      if OccursAt(t[1..], p, i) {
        OccursAtTail(t, p, i);
      }
    }
  }

  /** A stretch `a` in which no occurrence of `p` starts is kept as it is. */
  lemma {:induction false} RemoveAllKeeps(a: string, s: string, p: string)
    requires p != []
    requires forall i :: 0 <= i < |a| ==> !OccursAt(a + s, p, i)
    ensures RemoveAll(a + s, p) == a + RemoveAll(s, p)
    decreases |a|
  {
    if a == [] {
      assert a + s == s;
    } else {
      var t := a + s;
      NoOccurrenceInTail(a, s, p);
      RemoveAllKeeps(a[1..], s, p);
      RemoveAllStep(t, p);
      assert RemoveAll(t, p) == [a[0]] + (a[1..] + RemoveAll(s, p));
      assert a == [a[0]] + a[1..];
    }
  }

}
