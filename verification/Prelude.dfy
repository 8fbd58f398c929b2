/**
 Small shared vocabulary: optional values, and the few facts about strings and
 sequences that several components need.
 */
module Prelude {

  datatype Option<+T> = None | Some(value: T)

  /** JavaScript's truthiness of a nullable string: null and "" are both false. */
  predicate Truthy(s: Option<string>) {
    s.Some? && s.value != ""
  }

  predicate IsSpace(c: char) {
    c == ' ' || c == '\t' || c == '\n' || c == '\r'
  }

  /** `String.prototype.trim`. */
  function Trim(s: string): (r: string)
    ensures |r| <= |s|
    decreases |s|
  {
    if s == "" then ""
    else if IsSpace(s[0]) then Trim(s[1..])
    else if IsSpace(s[|s| - 1]) then Trim(s[..|s| - 1])
    else s
  }

  /** Nothing is left to trim. */
  predicate Trimmed(s: string) {
    s == "" || (!IsSpace(s[0]) && !IsSpace(s[|s| - 1]))
  }

  /** `value.trim()` is falsy. */
  predicate Blank(s: string) {
    Trim(s) == ""
  }

  /** `haystack.includes(needle)`. */
  predicate Includes(haystack: string, needle: string) {
    needle <= haystack || (haystack != "" && Includes(haystack[1..], needle))
  }

  /** A text that only grows by suffix keeps everything it included. */
  lemma {:induction false} IncludesPrefix(a: string, b: string, needle: string)
    requires a <= b && Includes(a, needle)
    ensures Includes(b, needle)
    decreases |a|
  {
    if needle <= a {
    } else {
      IncludesPrefix(a[1..], b[1..], needle);
    }
  }

  lemma {:induction false} IncludesSuffix(a: string, b: string)
    ensures Includes(a + b, b)
    decreases |a|
  {
    if a == "" {
      assert a + b == b;
    } else {
      assert (a + b)[1..] == a[1..] + b;
      IncludesSuffix(a[1..], b);
    }
  }

  predicate NoRepeats<T(==)>(s: seq<T>) {
    forall i, j :: 0 <= i < j < |s| ==> s[i] != s[j]
  }

  lemma SomeMember<T>(s: seq<T>)
    ensures s != [] ==> exists x :: x in s
  {
    if s != [] {
      assert s[0] in s;
    }
  }

  /** How often `x` occurs in `s`. */
  function Count<T(==)>(s: seq<T>, x: T): (r: nat) {
    multiset(s)[x]
  }

  lemma CountConcat<T>(a: seq<T>, b: seq<T>, x: T)
    ensures Count(a + b, x) == Count(a, x) + Count(b, x)
  {
  }

  lemma NoRepeatsCount<T>(s: seq<T>, x: T)
    requires NoRepeats(s) && x in s
    ensures Count(s, x) == 1
  {
    var i :| 0 <= i < |s| && s[i] == x;
    assert s == s[..i] + [x] + s[i + 1..];
    assert x !in s[..i] && x !in s[i + 1..];
  }

  lemma CountPositive<T>(s: seq<T>, x: T)
    ensures x in s <==> Count(s, x) > 0
  {
    assert x in s <==> x in multiset(s);
  }

  lemma CountsNoRepeats<T>(s: seq<T>)
    requires forall x :: Count(s, x) <= 1
    ensures NoRepeats(s)
  {
    forall i, j | 0 <= i < j < |s|
      ensures s[i] != s[j]
    {
      assert s == s[..i] + [s[i]] + s[i + 1..j] + [s[j]] + s[j + 1..];
      assert Count(s, s[i]) >= if s[i] == s[j] then 2 else 1;
    }
  }

  lemma OnlyMember<T>(s: seq<T>, x: T)
    requires forall y :: Count(s, y) == if y == x then 1 else 0
    ensures s == [x]
  {
    assert multiset(s) == multiset{x} by {
      forall y
        ensures multiset(s)[y] == multiset{x}[y]
      {
        assert Count(s, y) == if y == x then 1 else 0;
      }
    }
    assert |s| == |multiset(s)| == 1;
    assert s[0] in multiset(s);
  }

  /** Distinct values drawn from a set are at most as many as its elements. */
  lemma {:induction false} Pigeonhole<T>(s: seq<T>, pool: set<T>)
    requires NoRepeats(s)
    requires forall x :: x in s ==> x in pool
    ensures |s| <= |pool|
    decreases |s|
  {
    if s == [] {
    } else {
      var x := s[0];
      assert x in s;
      forall y | y in s[1..]
        ensures y in pool - {x}
      {
        var k :| 0 <= k < |s[1..]| && s[1..][k] == y;
        assert s[k + 1] == y && s[0] != s[k + 1];
        assert y in s;
      }
      Pigeonhole(s[1..], pool - {x});
    }
  }

  /** Two texts joined by a colon come apart at it when the first ones hold none. */
  lemma ColonSplits(a: string, x: string, b: string, y: string)
    requires a + ":" + x == b + ":" + y && ':' !in a && ':' !in b
    ensures a == b && x == y
  {
    var s := a + ":" + x;
    assert s[|a|] == ':' && s[|b|] == ':';
    assert forall i :: 0 <= i < |a| ==> s[i] == a[i] && s[i] in a;
    assert forall i :: 0 <= i < |b| ==> s[i] == b[i] && s[i] in b;
    assert |a| == |b|;
    assert a == s[..|a|] && x == s[|a| + 1..];
  }
}
