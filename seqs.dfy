/** Facts about sequences shared by the text helpers and the access
    analysis: occurrence counts, first-appearance de-duplication (the key
    order of a Python dict that is filled in sequence order) and first
    indices. Recursive definitions peel the LAST element, so that they
    unfold the same way a left-to-right loop grows its prefix. */
module Seqs {

  /** Number of occurrences of `x` in `s`. */
  function Occ<T(==)>(s: seq<T>, x: T): (n: nat)
    ensures n <= |s|
    ensures n > 0 <==> x in s
    decreases |s|
  {
    if s == [] then 0
    else Occ(s[..|s| - 1], x) + (if s[|s| - 1] == x then 1 else 0)
  }

  lemma OccSnoc<T>(s: seq<T>, y: T, x: T)
    ensures Occ(s + [y], x) == Occ(s, x) + (if y == x then 1 else 0)
  {
    assert (s + [y])[..|s|] == s;
  }

  lemma {:induction false} OccAppend<T>(a: seq<T>, b: seq<T>, x: T)
    ensures Occ(a + b, x) == Occ(a, x) + Occ(b, x)
    decreases |b|
  {
    if b == [] {
      assert a + b == a;
    } else {
      var b' := b[..|b| - 1];
      assert (a + b)[..|a + b| - 1] == a + b';
      OccAppend(a, b', x);
    }
  }

  lemma AppendAssoc<T>(a: seq<T>, b: seq<T>, c: seq<T>)
    ensures a + b + c == a + (b + c)
  {
  }

  lemma PrefixAppend<T>(s: seq<T>, t: seq<T>, u: seq<T>)
    requires s <= t
    ensures s <= t + u
  {
    assert (t + u)[..|t|] == t;
  }

  lemma DropLast<T>(s: seq<T>)
    requires s != []
    ensures s == s[..|s| - 1] + [s[|s| - 1]]
  {
  }

  lemma TakeTake<T>(s: seq<T>, n: nat)
    requires 0 < n <= |s|
    ensures s[..n][..n - 1] == s[..n - 1] && s[..n][n - 1] == s[n - 1]
  {
  }

  lemma SnocThree<T>(s: seq<T>, a: T, b: T, c: T)
    ensures s + [a] + [b] + [c] == s + [a, b, c]
  {
  }

  /** Re-bracketing a three-element prefix in front of a three-element
      display and a tail. */
  lemma SpliceSix<T>(s: seq<T>, a: T, b: T, c: T, d: T, e: T, f: T, rest: seq<T>, z: T)
    ensures s + [a, b, c] + ([d, e, f] + rest + [z]) == s + ([a, b, c, d, e, f] + rest + [z])
  {
    calc {
      s + [a, b, c] + ([d, e, f] + rest + [z]);
      { AppendAssoc(s, [a, b, c], [d, e, f] + rest + [z]); }
      s + ([a, b, c] + ([d, e, f] + rest + [z]));
      { assert [a, b, c] + ([d, e, f] + rest + [z]) == [a, b, c, d, e, f] + rest + [z]; }
      s + ([a, b, c, d, e, f] + rest + [z]);
    }
  }

  /** Re-bracketing one element in front of a two-element display and a tail. */
  lemma SpliceThree<T>(s: seq<T>, a: T, b: T, c: T, rest: seq<T>)
    ensures s + [a] + ([b, c] + rest) == s + ([a, b, c] + rest)
  {
    AppendAssoc(s, [a], [b, c] + rest);
    assert [a] + ([b, c] + rest) == [a, b, c] + rest;
  }

  lemma TakeDrop<T>(s: seq<T>, n: nat)
    requires n <= |s|
    ensures s == s[..n] + s[n..]
  {
  }

  lemma TakeSnoc<T>(s: seq<T>, i: nat)
    requires i < |s|
    ensures s[..i + 1] == s[..i] + [s[i]]
  {
  }

  predicate NoDups<T(==)>(s: seq<T>)
  {
    forall i, j :: 0 <= i < j < |s| ==> s[i] != s[j]
  }

  /** The elements of `s`, each once, in the order of their first appearance. */
  function Distinct<T(==)>(s: seq<T>): (d: seq<T>)
    ensures |d| <= |s|
    decreases |s|
  {
    if s == [] then []
    else
      var d := Distinct(s[..|s| - 1]);
      var x := s[|s| - 1];
      if x in d then d else d + [x]
  }

  /** Distinct keeps exactly the elements of `s`. */
  lemma {:induction false} DistinctMember<T>(s: seq<T>, x: T)
    ensures x in Distinct(s) <==> x in s
    decreases |s|
  {
    if s != [] {
      var p := s[..|s| - 1];
      assert s == p + [s[|s| - 1]];
      DistinctMember(p, x);
    }
  }

  /** Distinct lists each element once. */
  lemma {:induction false} DistinctNoDups<T>(s: seq<T>)
    ensures NoDups(Distinct(s))
    decreases |s|
  {
    if s != [] {
      var p, x := s[..|s| - 1], s[|s| - 1];
      DistinctNoDups(p);
      var d := Distinct(p);
      if x !in d {
        var d' := d + [x];
        forall i, j | 0 <= i < j < |d'| ensures d'[i] != d'[j] {
          if j == |d| { assert d'[i] == d[i]; }
        }
      }
    }
  }

  lemma DistinctSnoc<T>(s: seq<T>, x: T)
    ensures Distinct(s + [x]) == if x in Distinct(s) then Distinct(s) else Distinct(s) + [x]
  {
    assert (s + [x])[..|s|] == s;
  }

  /** The index of the first occurrence of `x` in `s`. */
  function IndexOf<T(==)>(s: seq<T>, x: T): (k: nat)
    requires x in s
    ensures k < |s| && s[k] == x
    ensures forall j :: 0 <= j < k ==> s[j] != x
  {
    if s[0] == x then 0 else 1 + IndexOf(s[1..], x)
  }

  lemma IndexOfPrefix<T>(p: seq<T>, q: seq<T>, x: T)
    requires x in p
    ensures IndexOf(p + q, x) == IndexOf(p, x)
  {
    var k, m := IndexOf(p + q, x), IndexOf(p, x);
    assert (p + q)[m] == x;
  }

  lemma IndexOfNoDups<T>(s: seq<T>, k: nat)
    requires NoDups(s) && k < |s|
    ensures IndexOf(s, s[k]) == k
  {
  }

  /** Distinct keeps first-appearance order: an element listed earlier in
      Distinct(s) occurs for the first time earlier in `s`. */
  lemma {:induction false} DistinctFirstAppearance<T>(s: seq<T>, a: nat, b: nat)
    requires a < b < |Distinct(s)|
    ensures Distinct(s)[a] in s && Distinct(s)[b] in s
    ensures IndexOf(s, Distinct(s)[a]) < IndexOf(s, Distinct(s)[b])
    decreases |s|
  {
    var p, x := s[..|s| - 1], s[|s| - 1];
    assert s == p + [x];
    var d := Distinct(p);
    DistinctSnoc(p, x);
    DistinctMember(p, d[a]);
    DistinctMember(p, x);
    if b < |d| { DistinctMember(p, d[b]); }
    if x in d {
      DistinctFirstAppearance(p, a, b);
      IndexOfPrefix(p, [x], d[a]);
      IndexOfPrefix(p, [x], d[b]);
    } else {
      assert d[a] in p;
      IndexOfPrefix(p, [x], d[a]);
      if b < |d| {
        DistinctFirstAppearance(p, a, b);
        IndexOfPrefix(p, [x], d[b]);
      } else {
        assert Distinct(s)[b] == x && x !in p;
        assert IndexOf(s, x) == |p| by {
          assert s[|p|] == x;
          forall j | 0 <= j < |p| ensures s[j] != x {
            assert s[j] == p[j];
          }
        }
      }
    }
  }

  /** The sum, over the elements `e` of `d`, of Occ(s, e). */
  function SumOcc<T(==)>(d: seq<T>, s: seq<T>): nat
    decreases |d|
  {
    if d == [] then 0 else SumOcc(d[..|d| - 1], s) + Occ(s, d[|d| - 1])
  }

  lemma SumOccAppend<T>(d: seq<T>, x: T, s: seq<T>)
    ensures SumOcc(d + [x], s) == SumOcc(d, s) + Occ(s, x)
  {
    assert (d + [x])[..|d|] == d;
  }

  lemma {:induction false} SumOccSnoc<T>(d: seq<T>, s: seq<T>, y: T)
    requires NoDups(d)
    ensures SumOcc(d, s + [y]) == SumOcc(d, s) + (if y in d then 1 else 0)
    decreases |d|
  {
    if d != [] {
      var d', e := d[..|d| - 1], d[|d| - 1];
      assert d == d' + [e];
      assert NoDups(d');
      assert y in d <==> y in d' || y == e;
      assert y == e ==> y !in d';
      SumOccSnoc(d', s, y);
      OccSnoc(s, y, e);
    }
  }

  /** Counting every distinct element's occurrences counts every element once. */
  lemma {:induction false} DistinctOccurrences<T>(s: seq<T>)
    ensures SumOcc(Distinct(s), s) == |s|
    decreases |s|
  {
    if s != [] {
      var p, x := s[..|s| - 1], s[|s| - 1];
      assert s == p + [x];
      var d := Distinct(p);
      DistinctSnoc(p, x);
      DistinctOccurrences(p);
      DistinctNoDups(p);
      DistinctMember(p, x);
      SumOccSnoc(d, p, x);
      if x !in d {
        SumOccAppend(d, x, s);
        OccSnoc(p, x, x);
      }
    }
  }
}
