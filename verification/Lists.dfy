/** Lists without repetitions, and taking an item off a list. */
module Lists {

  /** No item twice. */
  predicate Distinct<T(==)>(s: seq<T>) {
    forall i, j :: 0 <= i < j < |s| ==> s[i] != s[j]
  }

  function Members<T(==)>(s: seq<T>): set<T> { set x | x in s }

  lemma {:induction false} MembersAtMost<T>(s: seq<T>)
    ensures |Members(s)| <= |s|
    ensures Distinct(s) ==> |Members(s)| == |s|
  {
    if s != [] {
      var init, last := s[..|s| - 1], s[|s| - 1];
      MembersAtMost(init);
      assert s == init + [last];
      assert Members(s) == Members(init) + {last};
    }
  }

  lemma SubsetSmaller<T>(a: set<T>, b: set<T>)
    requires a <= b
    ensures |a| <= |b|
  {
    assert b == a + (b - a);
  }

  /** A sequence without the first occurrence of an item: `list_del`. */
  function Without<T(==)>(s: seq<T>, x: T): seq<T> {
    if s == [] then [] else if s[0] == x then s[1..] else [s[0]] + Without(s[1..], x)
  }

  lemma {:induction false} WithoutFirst<T>(a: seq<T>, b: seq<T>, x: T)
    requires x in a
    ensures Without(a + b, x) == Without(a, x) + b
  {
    assert (a + b)[1..] == a[1..] + b;
    if a[0] != x {
      WithoutFirst(a[1..], b, x);
    }
  }

  lemma {:induction false} WithoutSecond<T>(a: seq<T>, b: seq<T>, x: T)
    requires x !in a
    ensures Without(a + b, x) == a + Without(b, x)
  {
    if a == [] {
      assert a + b == b;
    } else {
      assert (a + b)[1..] == a[1..] + b;
      WithoutSecond(a[1..], b, x);
      assert [a[0]] + (a[1..] + Without(b, x)) == a + Without(b, x);
    }
  }

  lemma WithoutInMiddle<T>(l: seq<T>, y: T, r: seq<T>, x: T)
    ensures Without(l + [y] + r, x) ==
      if x in l then Without(l, x) + [y] + r else if x == y then l + r else l + [y] + Without(r, x)
  {
    if x in l {
      WithoutFirst(l + [y], r, x);
      WithoutFirst(l, [y], x);
    } else if x == y {
      WithoutFirst(l + [y], r, x);
      WithoutSecond(l, [y], x);
    } else {
      WithoutSecond(l + [y], r, x);
    }
  }

  lemma WithoutNone<T>(x: T)
    ensures Without([], x) == []
  {
  }

  /** Where an item stands that is taken out, and what is left. */
  lemma {:induction false} WithoutAt<T>(s: seq<T>, x: T) returns (k: nat)
    requires x in s
    ensures k < |s| && s[k] == x && Without(s, x) == s[..k] + s[k + 1..]
  {
    if s[0] == x {
      k := 0;
    } else {
      var j := WithoutAt(s[1..], x);
      k := j + 1;
      assert s[..k] == [s[0]] + s[1..][..j];
    }
  }

  lemma WithoutPlaces<T>(s: seq<T>, x: T) returns (k: nat)
    requires x in s
    ensures k < |s| && s[k] == x && |Without(s, x)| == |s| - 1
    ensures forall i :: 0 <= i < k ==> Without(s, x)[i] == s[i]
    ensures forall i :: k <= i < |s| - 1 ==> Without(s, x)[i] == s[i + 1]
  {
    hide Without;
    k := WithoutAt(s, x);
  }

  lemma WithoutDistinct<T>(s: seq<T>, x: T)
    requires Distinct(s) && x in s
    ensures Distinct(Without(s, x)) && |Without(s, x)| == |s| - 1
    ensures forall y :: y in Without(s, x) ==> y in s && y != x
    ensures forall y :: y in s && y != x ==> y in Without(s, x)
  {
    var k := WithoutAt(s, x);
    var w := Without(s, x);
    forall y | y in s && y != x ensures y in w {
      var i :| 0 <= i < |s| && s[i] == y;
      assert w[if i < k then i else i - 1] == y;
    }
  }
}
