/** Two list idioms the views share: `Array.prototype.filter`, and building
    an id-keyed object with `forEach`. */
module Seqs {

  /** `s.filter(p)`. */
  function Filter<T>(s: seq<T>, p: T -> bool): (r: seq<T>)
    ensures |r| <= |s|
    ensures forall i :: 0 <= i < |r| ==> p(r[i]) && r[i] in s
  {
    if s == [] then []
    else (if p(s[0]) then [s[0]] else []) + Filter(s[1..], p)
  }

  /** `s.filter(p).length`. */
  function Count<T>(s: seq<T>, p: T -> bool): nat {
    |Filter(s, p)|
  }

  /** Filtering keeps exactly the elements that pass. */
  lemma {:induction false} FilterMembership<T>(s: seq<T>, p: T -> bool, x: T)
    ensures x in Filter(s, p) <==> x in s && p(x)
  {
    if s != [] {
      FilterMembership(s[1..], p, x);
      assert s == [s[0]] + s[1..];
    }
  }

  /** Filtering commutes with concatenation: the kept elements stay in their
      original order. */
  lemma {:induction false} FilterConcat<T>(a: seq<T>, b: seq<T>, p: T -> bool)
    ensures Filter(a + b, p) == Filter(a, p) + Filter(b, p)
  {
    if a == [] {
      assert a + b == b;
    } else {
      assert (a + b)[0] == a[0];
      assert (a + b)[1..] == a[1..] + b;
      FilterConcat(a[1..], b, p);
    }
  }

  /** A filter that every element passes is the identity. */
  lemma {:induction false} FilterAll<T>(s: seq<T>, p: T -> bool)
    requires forall i :: 0 <= i < |s| ==> p(s[i])
    ensures Filter(s, p) == s
  {
    if s != [] {
      FilterAll(s[1..], p);
    }
  }

  /** A filter that no element passes keeps nothing. */
  lemma {:induction false} FilterNone<T>(s: seq<T>, p: T -> bool)
    requires forall i :: 0 <= i < |s| ==> !p(s[i])
    ensures Filter(s, p) == []
  {
    if s != [] {
      FilterNone(s[1..], p);
    }
  }

  /** Filtering a one-element list. */
  lemma FilterSingleton<T>(x: T, p: T -> bool)
    ensures Filter([x], p) == if p(x) then [x] else []
  {
    assert [x][1..] == [];
  }

  /** Two filters that agree on every element give the same list. */
  lemma {:induction false} FilterCongruent<T>(s: seq<T>, p: T -> bool, q: T -> bool)
    requires forall i :: 0 <= i < |s| ==> p(s[i]) == q(s[i])
    ensures Filter(s, p) == Filter(s, q)
  {
    if s != [] {
      FilterCongruent(s[1..], p, q);
    }
  }

  /** Counting over a concatenation adds up. */
  lemma CountConcat<T>(a: seq<T>, b: seq<T>, p: T -> bool)
    ensures Count(a + b, p) == Count(a, p) + Count(b, p)
  {
    FilterConcat(a, b, p);
  }

  /** Counting one element more of a list. */
  lemma CountSnoc<T>(s: seq<T>, j: nat, p: T -> bool)
    requires j < |s|
    ensures Count(s[..j + 1], p) == Count(s[..j], p) + if p(s[j]) then 1 else 0
  {
    assert s[..j + 1] == s[..j] + [s[j]];
    CountConcat(s[..j], [s[j]], p);
    FilterSingleton(s[j], p);
  }

  /** A weaker test counts at least as many elements. */
  lemma {:induction false} CountMono<T>(s: seq<T>, p: T -> bool, q: T -> bool)
    requires forall i :: 0 <= i < |s| ==> p(s[i]) ==> q(s[i])
    ensures Count(s, p) <= Count(s, q)
  {
    if s != [] {
      CountMono(s[1..], p, q);
    }
  }

  /** Two tests that no element passes both of count, together, the
      elements that pass either. */
  lemma {:induction false} CountDisjoint<T>(s: seq<T>, p: T -> bool, q: T -> bool, either: T -> bool)
    requires forall i :: 0 <= i < |s| ==> !(p(s[i]) && q(s[i])) && (either(s[i]) <==> p(s[i]) || q(s[i]))
    ensures Count(s, p) + Count(s, q) == Count(s, either)
  {
    if s != [] {
      CountDisjoint(s[1..], p, q, either);
    }
  }

  /** The object `o` after `xs.forEach(x => { o[key(x)] = val(x) })` on an
      empty `o`: a later element overwrites an earlier one with the same key. */
  function IndexOf<T, V>(xs: seq<T>, key: T -> string, val: T -> V): map<string, V> {
    if xs == [] then map[]
    else IndexOf(xs[..|xs| - 1], key, val)[key(xs[|xs| - 1]) := val(xs[|xs| - 1])]
  }

  /** `k` is a key of the index exactly when some element has that key, and
      it then maps to the value of the last such element. */
  lemma {:induction false} IndexOfLookup<T, V>(xs: seq<T>, key: T -> string, val: T -> V, k: string)
    ensures k in IndexOf(xs, key, val) <==> exists i :: 0 <= i < |xs| && key(xs[i]) == k
    ensures k in IndexOf(xs, key, val) ==>
      exists i :: 0 <= i < |xs| && key(xs[i]) == k && IndexOf(xs, key, val)[k] == val(xs[i]) &&
        forall j :: i < j < |xs| ==> key(xs[j]) != k
  {
    if xs != [] {
      var n := |xs| - 1;
      var front := xs[..n];
      IndexOfLookup(front, key, val, k);
      if key(xs[n]) != k {
        if k in IndexOf(xs, key, val) {
          var i :| 0 <= i < |front| && key(front[i]) == k && IndexOf(front, key, val)[k] == val(front[i]) &&
            forall j :: i < j < |front| ==> key(front[j]) != k;
          assert xs[i] == front[i];
          assert forall j :: i < j < |xs| ==> key(xs[j]) != k by {
            forall j | i < j < |xs| ensures key(xs[j]) != k {
              if j < n {
                assert xs[j] == front[j];
              }
            }
          }
        }
        if exists i :: 0 <= i < |xs| && key(xs[i]) == k {
          var i :| 0 <= i < |xs| && key(xs[i]) == k;
          assert i < n && front[i] == xs[i];
        }
      }
    }
  }

  /** Runs the `forEach` loop that fills an id-keyed object. */
  method Index<T, V>(xs: seq<T>, key: T -> string, val: T -> V) returns (m: map<string, V>)
    ensures m == IndexOf(xs, key, val)
  {
    m := map[];
    var i := 0;
    while i < |xs|
      invariant 0 <= i <= |xs|
      invariant m == IndexOf(xs[..i], key, val)
    {
      assert xs[..i + 1][..i] == xs[..i];
      m := m[key(xs[i]) := val(xs[i])];
      i := i + 1;
    }
    assert xs[..|xs|] == xs;
  }
}
