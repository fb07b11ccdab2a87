/** Go's ordering of strings (byte-wise lexicographic; for UTF-8 text this is
    the order of code points, which is how `char` is compared here) and the
    sorted listing that `sets.String.List()` and `sort.Strings` produce. */
module StringOrder {

  /** `a < b` on Go strings. */
  predicate Less(a: string, b: string)
    decreases |a|
  {
    |b| > 0 && (|a| == 0 || a[0] < b[0] || (a[0] == b[0] && Less(a[1..], b[1..])))
  }

  lemma {:induction false} LessIrreflexive(a: string)
    ensures !Less(a, a)
    decreases |a|
  {
    if |a| > 0 {
      LessIrreflexive(a[1..]);
    }
  }

  lemma {:induction false} LessAsymmetric(a: string, b: string)
    requires Less(a, b)
    ensures !Less(b, a)
    decreases |a|
  {
    if |a| > 0 && a[0] == b[0] {
      LessAsymmetric(a[1..], b[1..]);
    }
  }

  lemma {:induction false} LessTransitive(a: string, b: string, c: string)
    requires Less(a, b) && Less(b, c)
    ensures Less(a, c)
    decreases |a|
  {
    if |a| > 0 && a[0] == b[0] && b[0] == c[0] {
      LessTransitive(a[1..], b[1..], c[1..]);
    }
  }

  lemma {:induction false} LessTotal(a: string, b: string)
    ensures a == b || Less(a, b) || Less(b, a)
    decreases |a|
  {
    if |a| > 0 && |b| > 0 && a[0] == b[0] {
      LessTotal(a[1..], b[1..]);
      if a[1..] == b[1..] {
        assert a == [a[0]] + a[1..] && b == [b[0]] + b[1..];
      }
    }
  }

  lemma LessAsymmetricAll()
    ensures forall a, b :: Less(a, b) ==> !Less(b, a)
  {
    forall a, b | Less(a, b)
      ensures !Less(b, a)
    {
      LessAsymmetric(a, b);
    }
  }

  /** Strictly increasing, hence also free of duplicates. */
  predicate StrictlySorted(xs: seq<string>) {
    forall i, j :: 0 <= i < j < |xs| ==> Less(xs[i], xs[j])
  }

  /** `m` is the least element of `s`. */
  predicate IsLeast(m: string, s: set<string>) {
    m in s && forall x :: x in s && x != m ==> Less(m, x)
  }

  lemma {:induction false} LeastExists(s: set<string>)
    requires s != {}
    ensures exists m :: IsLeast(m, s)
    decreases s
  {
    var y :| y in s;
    if s == {y} {
      assert IsLeast(y, s);
    } else {
      LeastExists(s - {y});
      var m :| IsLeast(m, s - {y});
      LessTotal(m, y);
      if Less(m, y) {
        assert IsLeast(m, s);
      } else {
        forall x | x in s && x != y
          ensures Less(y, x)
        {
          if x != m {
            LessTransitive(y, m, x);
          }
        }
        assert IsLeast(y, s);
      }
    }
  }

  /** The least element of a non-empty set. */
  function Least(s: set<string>): (m: string)
    requires s != {}
    ensures IsLeast(m, s)
  {
    LeastExists(s);
    LessAsymmetricAll();
    var m :| IsLeast(m, s);
    m
  }

  /** `sets.String.List()`: the elements of `s` in increasing order. */
  function SortedList(s: set<string>): (r: seq<string>)
    ensures StrictlySorted(r)
    ensures |r| == |s|
    ensures forall x :: x in r <==> x in s
    decreases s
  {
    if s == {} then []
    else
      var m := Least(s);
      var rest := SortedList(s - {m});
      assert forall j :: 0 <= j < |rest| ==> Less(m, rest[j]) by {
        forall j | 0 <= j < |rest|
          ensures Less(m, rest[j])
        {
          assert rest[j] in s - {m};
        }
      }
      [m] + rest
  }

  /** Two increasing sequences with the same elements are equal, so a sorted
      listing of a set is unique. */
  lemma {:induction false} SortedUnique(xs: seq<string>, ys: seq<string>)
    requires StrictlySorted(xs) && StrictlySorted(ys)
    requires forall x :: x in xs <==> x in ys
    ensures xs == ys
    decreases |xs|
  {
    assert |xs| > 0 ==> xs[0] in ys;
    assert |ys| > 0 ==> ys[0] in xs;
    if |xs| > 0 && |ys| > 0 {
      if xs[0] != ys[0] {
        LessTotal(xs[0], ys[0]);
        if Less(xs[0], ys[0]) {
          LessAsymmetric(xs[0], ys[0]);
        }
      } else {
        forall x | x in xs[1..]
          ensures x in ys[1..]
        {
          LessIrreflexive(x);
          assert x in xs;
          assert x in ys;
          var j :| 0 <= j < |ys| && ys[j] == x;
          assert j != 0;
        }
        forall x | x in ys[1..]
          ensures x in xs[1..]
        {
          LessIrreflexive(x);
          assert x in ys;
          assert x in xs;
          var j :| 0 <= j < |xs| && xs[j] == x;
          assert j != 0;
        }
        SortedUnique(xs[1..], ys[1..]);
      }
    }
  }

  /** The sorted listing is the only strictly increasing sequence over the set. */
  lemma SortedListUnique(s: set<string>, xs: seq<string>)
    requires StrictlySorted(xs)
    requires forall x :: x in xs <==> x in s
    ensures xs == SortedList(s)
  {
    SortedUnique(xs, SortedList(s));
  }
}
