/**
 * The few pieces of Cypher semantics the ICD queries rely on: the string
 * operator `CONTAINS`, the order `ORDER BY` uses on strings, and the rows a
 * query hands back in an order the database does not promise (`collect`,
 * `LIMIT` without `ORDER BY`).
 */
module Cypher {

  /** `s CONTAINS t`: t occurs in s as a contiguous, case-sensitive run. */
  predicate Contains(s: string, t: string)
    decreases |s|
  {
    t <= s || (s != [] && Contains(s[1..], t))
  }

  /** t occurs in s starting at position i. */
  predicate OccursAt(s: string, t: string, i: int)
  {
    0 <= i && i + |t| <= |s| && s[i..i + |t|] == t
  }

  /** `Contains` agrees with the textbook definition by position. */
  lemma {:induction false} ContainsAt(s: string, t: string)
    ensures Contains(s, t) <==> exists i :: OccursAt(s, t, i)
    decreases |s|
  {
    if t <= s {
      assert OccursAt(s, t, 0);
    }
    if s == [] {
      return;
    }
    ContainsAt(s[1..], t);
    if Contains(s[1..], t) {
      var i :| OccursAt(s[1..], t, i);
      assert s[1..][i..i + |t|] == s[i + 1..i + 1 + |t|];
      assert OccursAt(s, t, i + 1);
    }
    if exists i :: OccursAt(s, t, i) {
      var i :| OccursAt(s, t, i);
      if i == 0 {
        assert t <= s;
      } else {
        assert s[1..][i - 1..i - 1 + |t|] == s[i..i + |t|];
        assert OccursAt(s[1..], t, i - 1);
      }
    }
  }

  /** An occurrence inside b is an occurrence inside a + b + c, shifted by |a|. */
  lemma OccursInside(a: string, b: string, c: string, t: string, k: int)
    requires OccursAt(b, t, k)
    ensures OccursAt(a + b + c, t, |a| + k)
  {
    assert (a + b + c)[|a| + k..|a| + k + |t|] == b[k..k + |t|];
  }

  /** An occurrence inside s is an occurrence inside h + s, shifted by |h|. */
  lemma OccursAfter(h: string, s: string, t: string, k: int)
    requires OccursAt(s, t, k)
    ensures OccursAt(h + s, t, |h| + k)
  {
    assert (h + s)[|h| + k..|h| + k + |t|] == s[k..k + |t|];
  }

  /** Every string contains the empty string. */
  lemma ContainsEmpty(s: string)
    ensures Contains(s, "")
  {
  }

  /** The lexicographic order `ORDER BY` uses on string values. */
  predicate LessEq(a: string, b: string)
    decreases |a|
  {
    a == [] || (b != [] && (a[0] < b[0] || (a[0] == b[0] && LessEq(a[1..], b[1..]))))
  }

  lemma {:induction false} LessEqTotal(a: string, b: string)
    ensures LessEq(a, b) || LessEq(b, a)
    decreases |a|
  {
    if a != [] && b != [] && a[0] == b[0] {
      LessEqTotal(a[1..], b[1..]);
    }
  }

  lemma {:induction false} LessEqTransitive(a: string, b: string, c: string)
    requires LessEq(a, b) && LessEq(b, c)
    ensures LessEq(a, c)
    decreases |a|
  {
    if a != [] && b != [] && c != [] && a[0] == b[0] && b[0] == c[0] {
      LessEqTransitive(a[1..], b[1..], c[1..]);
    }
  }

  /** No element occurs twice: the rows of `collect(DISTINCT ...)`, or of a query over distinct nodes. */
  predicate Distinct<T(==)>(s: seq<T>)
  {
    forall i, j :: 0 <= i < j < |s| ==> s[i] != s[j]
  }

  /** s lists exactly the elements of the set, each once, in some order. */
  predicate Enumerates<T(==)>(s: seq<T>, elements: set<T>)
  {
    Distinct(s) && (forall x :: x in s ==> x in elements) && (forall x :: x in elements ==> x in s)
  }

  /**
   * The rows a query returns from a set of matches when it promises no order,
   * at most `limit` of them. The database's choice of order is modelled by an
   * arbitrary choice at each step.
   */
  method Enumerate<T(==)>(elements: set<T>, limit: nat) returns (r: seq<T>)
    ensures Distinct(r)
    ensures |r| == if |elements| <= limit then |elements| else limit
    ensures forall x :: x in r ==> x in elements
    ensures |elements| <= limit ==> Enumerates(r, elements)
  {
    var rest := elements;
    r := [];
    while rest != {} && |r| < limit
      invariant rest <= elements
      invariant Distinct(r)
      invariant |r| <= limit
      invariant |r| + |rest| == |elements|
      invariant forall x :: x in r <==> x in elements && x !in rest
      decreases |rest|
    {
      var x :| x in rest;
      r := r + [x];
      rest := rest - {x};
    }
  }
}
