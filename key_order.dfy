/**
  The order in which the ledger's range scan visits keys.

  A range scan over the whole key space returns keys in ascending byte order of their UTF-8
  encoding. For Unicode scalar values that order is exactly the lexicographic order of code
  points, which is what `Below` defines on Dafny strings.
 */
module KeyOrder {

  /** `a` comes no later than `b` in lexicographic code-point order. */
  predicate Below(a: string, b: string)
    decreases |a|
  {
    |a| == 0 || (|b| > 0 && (a[0] < b[0] || (a[0] == b[0] && Below(a[1..], b[1..]))))
  }

  /** Strictly before. */
  predicate Less(a: string, b: string) {
    Below(a, b) && a != b
  }

  lemma {:induction false} BelowReflexive(a: string)
    ensures Below(a, a)
    decreases |a|
  {
    if |a| > 0 {
      BelowReflexive(a[1..]);
    }
  }

  lemma {:induction false} BelowAntisymmetric(a: string, b: string)
    requires Below(a, b) && Below(b, a)
    ensures a == b
    decreases |a|
  {
    if |a| > 0 {
      BelowAntisymmetric(a[1..], b[1..]);
      assert a == [a[0]] + a[1..] && b == [b[0]] + b[1..];
    }
  }

  lemma {:induction false} BelowTransitive(a: string, b: string, c: string)
    requires Below(a, b) && Below(b, c)
    ensures Below(a, c)
    decreases |a|
  {
    if |a| > 0 && a[0] == b[0] && b[0] == c[0] {
      BelowTransitive(a[1..], b[1..], c[1..]);
    }
  }

  lemma LessTransitive(a: string, b: string, c: string)
    requires Less(a, b) && Less(b, c)
    ensures Less(a, c)
  {
    BelowTransitive(a, b, c);
    if a == c {
      BelowAntisymmetric(a, b);
    }
  }

  lemma {:induction false} BelowTotal(a: string, b: string)
    ensures Below(a, b) || Below(b, a)
    decreases |a|
  {
    if |a| > 0 && |b| > 0 && a[0] == b[0] {
      BelowTotal(a[1..], b[1..]);
    }
  }

  /** `m` belongs to `s` and no key of `s` comes before it. */
  predicate IsLeast(m: string, s: set<string>) {
    m in s && forall x :: x in s ==> Below(m, x)
  }

  /** Every non-empty finite set of keys has a least element. */
  lemma {:induction false} LeastExists(s: set<string>) returns (m: string)
    requires s != {}
    ensures IsLeast(m, s)
    decreases |s|
  {
    var y :| y in s;
    if s == {y} {
      m := y;
      forall x | x in s
        ensures Below(y, x)
      {
        BelowReflexive(y);
      }
    } else {
      var t := s - {y};
      var n := LeastExists(t);
      BelowTotal(n, y);
      if Below(n, y) {
        m := n;
        forall x | x in s
          ensures Below(n, x)
        {
          if x != y {
            assert x in t;
          }
        }
      } else {
        m := y;
        forall x | x in s
          ensures Below(y, x)
        {
          if x == y {
            BelowReflexive(y);
          } else {
            assert x in t;
            BelowTransitive(y, n, x);
          }
        }
      }
    }
  }

  /** The least key of a non-empty set. */
  function Least(s: set<string>): (m: string)
    requires s != {}
    ensures m in s
    ensures forall x :: x in s ==> Below(m, x)
  {
    assert exists m :: IsLeast(m, s) by {
      var m := LeastExists(s);
    }
    assert forall a, b :: a in s && b in s && Below(a, b) && Below(b, a) ==> a == b by {
      forall a, b | a in s && b in s && Below(a, b) && Below(b, a)
        ensures a == b
      {
        BelowAntisymmetric(a, b);
      }
    }
    var m :| IsLeast(m, s);
    m
  }

  /** The keys of `s` listed in strictly ascending order, each exactly once. */
  function SortedKeys(s: set<string>): (r: seq<string>)
    ensures |r| == |s|
    ensures forall i :: 0 <= i < |r| ==> r[i] in s
    ensures forall k :: k in s ==> k in r
    ensures forall i, j :: 0 <= i < j < |r| ==> Less(r[i], r[j])
    decreases |s|
  {
    if s == {} then []
    else
      var m := Least(s);
      var rest := SortedKeys(s - {m});
      AscendingCons(m, rest);
      [m] + rest
  }

  /** A key below every key of an ascending list, put in front, keeps the list ascending. */
  lemma AscendingCons(m: string, rest: seq<string>)
    requires forall i :: 0 <= i < |rest| ==> Below(m, rest[i]) && m != rest[i]
    requires forall i, j :: 0 <= i < j < |rest| ==> Less(rest[i], rest[j])
    ensures forall i, j :: 0 <= i < j < |[m] + rest| ==> Less(([m] + rest)[i], ([m] + rest)[j])
  {
    var r := [m] + rest;
    forall i, j | 0 <= i < j < |r|
      ensures Less(r[i], r[j])
    {
      assert r[j] == rest[j - 1];
      if i > 0 {
        assert r[i] == rest[i - 1];
      }
    }
  }
}
