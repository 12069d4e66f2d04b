/** Finite sums over sequences and duplicate-freedom, the bookkeeping behind
    every linear expression the scripts accumulate with `+=`. */
module Sums {

  /** Sum of `f` over the elements of `s`, in order. */
  function SumR<X>(s: seq<X>, f: X -> real): real
  {
    if |s| == 0 then 0.0 else f(s[0]) + SumR(s[1..], f)
  }

  /** Integer version of `SumR`. */
  function SumI<X>(s: seq<X>, f: X -> int): int
  {
    if |s| == 0 then 0 else f(s[0]) + SumI(s[1..], f)
  }

  /** No element occurs twice. */
  predicate NoDup<X(==)>(s: seq<X>)
  {
    forall p, q | 0 <= p < q < |s| :: s[p] != s[q]
  }

  lemma {:induction false} SumRConcat<X>(a: seq<X>, b: seq<X>, f: X -> real)
    ensures SumR(a + b, f) == SumR(a, f) + SumR(b, f)
  {
    if |a| == 0 {
      assert a + b == b;
    } else {
      assert (a + b)[1..] == a[1..] + b;
      SumRConcat(a[1..], b, f);
    }
  }

  lemma {:induction false} SumIConcat<X>(a: seq<X>, b: seq<X>, f: X -> int)
    ensures SumI(a + b, f) == SumI(a, f) + SumI(b, f)
  {
    if |a| == 0 {
      assert a + b == b;
    } else {
      assert (a + b)[1..] == a[1..] + b;
      SumIConcat(a[1..], b, f);
    }
  }

  /** Terms that vanish on `s` contribute nothing. */
  lemma {:induction false} SumRZero<X>(s: seq<X>, f: X -> real)
    requires forall k | 0 <= k < |s| :: f(s[k]) == 0.0
    ensures SumR(s, f) == 0.0
  {
    if |s| > 0 {
      assert forall k | 0 <= k < |s[1..]| :: s[1..][k] == s[k + 1];
      SumRZero(s[1..], f);
    }
  }

  lemma {:induction false} SumIZero<X>(s: seq<X>, f: X -> int)
    requires forall k | 0 <= k < |s| :: f(s[k]) == 0
    ensures SumI(s, f) == 0
  {
    if |s| > 0 {
      assert forall k | 0 <= k < |s[1..]| :: s[1..][k] == s[k + 1];
      SumIZero(s[1..], f);
    }
  }

  /** Sums of functions that agree on `s` are equal. */
  lemma {:induction false} SumRCongruent<X>(s: seq<X>, f: X -> real, g: X -> real)
    requires forall k | 0 <= k < |s| :: f(s[k]) == g(s[k])
    ensures SumR(s, f) == SumR(s, g)
  {
    if |s| > 0 {
      assert forall k | 0 <= k < |s[1..]| :: s[1..][k] == s[k + 1];
      SumRCongruent(s[1..], f, g);
    }
  }

  lemma {:induction false} SumICongruent<X>(s: seq<X>, f: X -> int, g: X -> int)
    requires forall k | 0 <= k < |s| :: f(s[k]) == g(s[k])
    ensures SumI(s, f) == SumI(s, g)
  {
    if |s| > 0 {
      assert forall k | 0 <= k < |s[1..]| :: s[1..][k] == s[k + 1];
      SumICongruent(s[1..], f, g);
    }
  }

  /** A sum of non-negative terms is non-negative. */
  lemma {:induction false} SumRNonNeg<X>(s: seq<X>, f: X -> real)
    requires forall k | 0 <= k < |s| :: f(s[k]) >= 0.0
    ensures SumR(s, f) >= 0.0
  {
    if |s| > 0 {
      assert forall k | 0 <= k < |s[1..]| :: s[1..][k] == s[k + 1];
      SumRNonNeg(s[1..], f);
    }
  }

  /** A sum of non-negative terms that is zero has every term zero. */
  lemma {:induction false} SumRZeroNonNeg<X>(s: seq<X>, f: X -> real)
    requires forall k | 0 <= k < |s| :: f(s[k]) >= 0.0
    requires SumR(s, f) == 0.0
    ensures forall k | 0 <= k < |s| :: f(s[k]) == 0.0
  {
    if |s| > 0 {
      assert forall k | 0 <= k < |s[1..]| :: s[1..][k] == s[k + 1];
      SumRNonNeg(s[1..], f);
      SumRZeroNonNeg(s[1..], f);
      forall k | 0 <= k < |s|
        ensures f(s[k]) == 0.0
      {
        if k > 0 {
          assert s[k] == s[1..][k - 1];
        }
      }
    }
  }

  /** On a duplicate-free sequence, a sum whose only non-zero term is at
      element `e` equals that term. */
  lemma {:induction false} SumRSingle<X>(s: seq<X>, f: X -> real, e: X)
    requires NoDup(s) && e in s
    requires forall k | 0 <= k < |s| :: s[k] != e ==> f(s[k]) == 0.0
    ensures SumR(s, f) == f(e)
  {
    assert forall k | 0 <= k < |s[1..]| :: s[1..][k] == s[k + 1];
    if s[0] == e {
      assert forall k | 0 <= k < |s[1..]| :: s[1..][k] != e;
      SumRZero(s[1..], f);
    } else {
      SumRSingle(s[1..], f, e);
    }
  }

  lemma {:induction false} SumISingle<X>(s: seq<X>, f: X -> int, e: X)
    requires NoDup(s) && e in s
    requires forall k | 0 <= k < |s| :: s[k] != e ==> f(s[k]) == 0
    ensures SumI(s, f) == f(e)
  {
    assert forall k | 0 <= k < |s[1..]| :: s[1..][k] == s[k + 1];
    if s[0] == e {
      assert forall k | 0 <= k < |s[1..]| :: s[1..][k] != e;
      SumIZero(s[1..], f);
    } else {
      SumISingle(s[1..], f, e);
    }
  }

  lemma NoDupConcat<X>(a: seq<X>, b: seq<X>)
    requires NoDup(a) && NoDup(b)
    requires forall k | 0 <= k < |a| :: a[k] !in b
    ensures NoDup(a + b)
  {
    forall p, q | 0 <= p < q < |a + b|
      ensures (a + b)[p] != (a + b)[q]
    {
      if q >= |a| && p < |a| {
        assert (a + b)[q] == b[q - |a|];
      }
    }
  }

  /** Dropping the first element keeps a sequence duplicate-free, and the
      dropped element does not recur. */
  lemma TailDistinct<X>(s: seq<X>)
    requires |s| > 0 && NoDup(s)
    ensures NoDup(s[1..]) && s[0] !in s[1..]
  {
    forall p, q | 0 <= p < q < |s[1..]|
      ensures s[1..][p] != s[1..][q]
    {
      assert s[1..][p] == s[p + 1] && s[1..][q] == s[q + 1];
    }
    forall k | 0 <= k < |s[1..]|
      ensures s[1..][k] != s[0]
    {
      assert s[1..][k] == s[k + 1];
    }
  }
  lemma SumRPair<X>(p: X, q: X, f: X -> real)
    ensures SumR([p, q], f) == f(p) + f(q)
  {
    var e: seq<X> := [];
    assert [p, q][1..] == [q];
    assert [q][1..] == e;
    assert SumR([q], f) == f(q) + SumR(e, f);
    assert SumR([p, q], f) == f(p) + SumR([q], f);
  }

  /** One step of a sum, taken at any position. */
  lemma SumRStep<X>(s: seq<X>, k: nat, f: X -> real)
    requires k < |s|
    ensures SumR(s[k..], f) == f(s[k]) + SumR(s[k + 1..], f)
  {
    assert s[k..][0] == s[k] && s[k..][1..] == s[k + 1..];
  }

  /** Sums are additive pointwise. */
  lemma {:induction false} SumRAdd<X>(s: seq<X>, f: X -> real, g: X -> real, h: X -> real)
    requires forall k | 0 <= k < |s| :: h(s[k]) == f(s[k]) + g(s[k])
    ensures SumR(s, h) == SumR(s, f) + SumR(s, g)
  {
    if |s| > 0 {
      assert forall k | 0 <= k < |s[1..]| :: s[1..][k] == s[k + 1];
      SumRAdd(s[1..], f, g, h);
    }
  }

  /** Constant factors come out of a sum. */
  lemma {:induction false} SumRScale<X>(s: seq<X>, c: real, f: X -> real, g: X -> real)
    requires forall k | 0 <= k < |s| :: g(s[k]) == c * f(s[k])
    ensures SumR(s, g) == c * SumR(s, f)
  {
    if |s| > 0 {
      assert forall k | 0 <= k < |s[1..]| :: s[1..][k] == s[k + 1];
      SumRScale(s[1..], c, f, g);
    }
  }

  /** Sums are monotone pointwise. */
  lemma {:induction false} SumRMono<X>(s: seq<X>, f: X -> real, g: X -> real)
    requires forall k | 0 <= k < |s| :: f(s[k]) <= g(s[k])
    ensures SumR(s, f) <= SumR(s, g)
  {
    if |s| > 0 {
      assert forall k | 0 <= k < |s[1..]| :: s[1..][k] == s[k + 1];
      SumRMono(s[1..], f, g);
    }
  }

  /** Integer sums are linear pointwise. */
  lemma {:induction false} SumIAddSub<X>(s: seq<X>, f: X -> int, g: X -> int, e: X -> int, h: X -> int)
    requires forall k | 0 <= k < |s| :: h(s[k]) == f(s[k]) + g(s[k]) - e(s[k])
    ensures SumI(s, h) == SumI(s, f) + SumI(s, g) - SumI(s, e)
  {
    if |s| > 0 {
      assert forall k | 0 <= k < |s[1..]| :: s[1..][k] == s[k + 1];
      SumIAddSub(s[1..], f, g, e, h);
    }
  }

  lemma {:induction false} SumINonNeg<X>(s: seq<X>, f: X -> int)
    requires forall k | 0 <= k < |s| :: f(s[k]) >= 0
    ensures SumI(s, f) >= 0
  {
    if |s| > 0 {
      assert forall k | 0 <= k < |s[1..]| :: s[1..][k] == s[k + 1];
      SumINonNeg(s[1..], f);
    }
  }

  /** Removing the element at position `i` removes its term. */
  lemma SumRRemove<X>(t: seq<X>, i: nat, f: X -> real)
    requires i < |t|
    ensures SumR(t, f) == f(t[i]) + SumR(t[..i] + t[i + 1..], f)
  {
    assert t == t[..i] + ([t[i]] + t[i + 1..]);
    SumRConcat(t[..i], [t[i]] + t[i + 1..], f);
    SumRConcat(t[..i], t[i + 1..], f);
    assert ([t[i]] + t[i + 1..])[1..] == t[i + 1..];
  }

  /** Removing one element of a duplicate-free sequence removes exactly
      that element. */
  lemma RemoveDistinct<X>(t: seq<X>, i: nat)
    requires i < |t| && NoDup(t)
    ensures NoDup(t[..i] + t[i + 1..])
    ensures forall e :: e in t[..i] + t[i + 1..] <==> e in t && e != t[i]
  {
    var t' := t[..i] + t[i + 1..];
    assert forall k | 0 <= k < |t'| :: t'[k] == if k < i then t[k] else t[k + 1];
    forall e | e in t && e != t[i]
      ensures e in t'
    {
      var q :| 0 <= q < |t| && t[q] == e;
      if q < i {
        assert t'[q] == t[q];
      } else {
        assert t'[q - 1] == t[q];
      }
    }
  }

  /** On duplicate-free sequences, a sum over `s` equals the sum over any
      duplicate-free `t` drawn from `s` that holds every non-zero term. */
  lemma {:induction false} SumRSupport<X>(s: seq<X>, t: seq<X>, f: X -> real)
    requires NoDup(s) && NoDup(t)
    requires forall k | 0 <= k < |t| :: t[k] in s
    requires forall k | 0 <= k < |s| :: s[k] !in t ==> f(s[k]) == 0.0
    ensures SumR(s, f) == SumR(t, f)
    decreases |s|
  {
    if |s| > 0 {
      TailDistinct(s);
      var s' := s[1..];
      assert forall k | 0 <= k < |s'| :: s'[k] == s[k + 1];
      if s[0] in t {
        var i :| 0 <= i < |t| && t[i] == s[0];
        var t' := t[..i] + t[i + 1..];
        SumRRemove(t, i, f);
        RemoveDistinct(t, i);
        forall k | 0 <= k < |t'|
          ensures t'[k] in s'
        {
          assert t'[k] in t && t'[k] != s[0];
        }
        SumRSupport(s', t', f);
      } else {
        forall k | 0 <= k < |t|
          ensures t[k] in s'
        {
          assert t[k] in s && t[k] != s[0];
        }
        SumRSupport(s', t, f);
      }
    }
  }
}
