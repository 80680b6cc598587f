/** Sums of permutations: adding each number its image modulo an even `n` always
    sends two numbers to the same place. */
module Counting {
  import opened Words
  import opened Lists

  function Total(s: seq<nat>): nat {
    if s == [] then 0 else Total(s[..|s| - 1]) + s[|s| - 1]
  }

  predicate Below(s: seq<nat>, n: nat) {
    forall i :: 0 <= i < |s| ==> s[i] < n
  }

  function Range(n: nat): (r: set<nat>)
    ensures forall x: nat :: x in r <==> x < n
    ensures |r| == n
  {
    if n == 0 then {} else Range(n - 1) + {n - 1}
  }

  /** Distinct numbers below their count leave none of them out. */
  lemma NoneLeftOut(s: seq<nat>, x: nat)
    requires Distinct(s) && Below(s, |s|) && x < |s|
    ensures x in s
  {
    MembersAtMost(s);
    if x !in s {
      SubsetSmaller(Members(s), Range(|s|) - {x});
    }
  }

  lemma {:induction false} TotalUpdate(s: seq<nat>, i: nat, x: nat)
    requires i < |s|
    ensures Total(s[i := x]) + s[i] == Total(s) + x
  {
    var n := |s| - 1;
    if i == n {
      assert s[i := x][..n] == s[..n];
    } else {
      assert s[i := x][..n] == s[..n][i := x];
      TotalUpdate(s[..n], i, x);
    }
  }

  /** 0 + 1 + ... + (m - 1) */
  function Triangle(m: nat): nat {
    if m == 0 then 0 else Triangle(m - 1) + (m - 1)
  }

  lemma {:induction false} TriangleDouble(m: nat)
    ensures 2 * Triangle(m) == m * (m - 1)
  {
    if m > 0 {
      TriangleDouble(m - 1);
      Distribute(m - 2, 2, m - 1);
    }
  }

  /** They add up to 0 + 1 + ... */
  lemma {:induction false} DistinctTotal(s: seq<nat>)
    requires Distinct(s) && Below(s, |s|)
    ensures Total(s) == Triangle(|s|)
    decreases |s|
  {
    if s != [] {
      var n := |s| - 1;
      NoneLeftOut(s, n);
      var j :| 0 <= j < |s| && s[j] == n;
      TotalUpdate(s, j, s[n]);
      LargestMovedOut(s, j);
      DistinctTotal(s[j := s[n]][..n]);
    }
  }

  lemma LargestMovedOut(s: seq<nat>, j: nat)
    requires Distinct(s) && Below(s, |s|) && j < |s| && s[j] == |s| - 1
    ensures var n := |s| - 1; var t := s[j := s[n]];
      Distinct(t[..n]) && Below(t[..n], n) && t[n] == s[n]
  {
  }

  function Shifted(s: seq<nat>, n: nat): (r: seq<nat>)
    requires n > 0
    ensures |r| == |s|
  {
    seq(|s|, i requires 0 <= i < |s| => (s[i] + i) % n)
  }

  /** Up to multiples of `n`, the shifted numbers add up to the numbers and the shifts. */
  lemma {:induction false} ShiftedTotal(s: seq<nat>, n: nat) returns (q: int)
    requires n > 0
    ensures Total(s) + Triangle(|s|) == Total(Shifted(s, n)) + n * q
  {
    hide Shifted;
    if s == [] {
      q := 0;
    } else {
      var p := ShiftedTotal(s[..|s| - 1], n);
      var d := ShiftedLast(s, n);
      q := p + d;
      Distribute(p, d, n);
    }
  }

  lemma ShiftedLast(s: seq<nat>, n: nat) returns (d: int)
    requires n > 0 && s != []
    ensures var m := |s| - 1;
      Shifted(s, n)[..m] == Shifted(s[..m], n) && s[m] + m == n * d + Shifted(s, n)[m]
  {
    d := (s[|s| - 1] + |s| - 1) / n;
  }

  /** Modulo an even number no permutation stays one when every place is added to
      what it holds: two of the sums agree. */
  lemma SumsCollide(s: seq<nat>) returns (u: nat, v: nat)
    requires Distinct(s) && Below(s, |s|) && |s| > 0 && |s| % 2 == 0
    ensures u < v < |s| && (s[u] + u) % |s| == (s[v] + v) % |s|
  {
    var n := |s|;
    if Distinct(Shifted(s, n)) {
      DistinctTotal(s);
      assert Below(Shifted(s, n), n);
      DistinctTotal(Shifted(s, n));
      var q := ShiftedTotal(s, n);
      OddHalf(n, q);
    }
    u, v :| 0 <= u < v < n && Shifted(s, n)[u] == Shifted(s, n)[v];
  }

  lemma OddHalf(n: nat, q: int)
    requires n > 0 && n % 2 == 0
    ensures Triangle(n) != n * q
  {
    TriangleDouble(n);
    if Triangle(n) == n * q {
      Distribute(q, q, n);
      CancelFactor(n, n - 1, q + q);
    }
  }

  lemma CancelFactor(n: nat, a: int, b: int)
    requires n > 0 && n * a == n * b
    ensures a == b
  {
    Distribute(b, a - b, n);
    if a != b {
      Nonzero(n, a - b);
    }
  }

  lemma Nonzero(n: nat, d: int)
    requires n > 0 && d != 0
    ensures n * d != 0
  {
  }
}
