/** Types shared by every part of the model. */
module Base {
  /** Block hashes and addresses are Go strings; the empty string is Go's zero value. */
  type Hash = string
  type Addr = string

  /** Unsigned 64-bit arithmetic wraps modulo this number. */
  const TWO_64: nat := 0x1_0000_0000_0000_0000

  datatype Option<+T> = None | Some(value: T)

  /** What the slashing manager remembers of a validator's standing. */
  datatype Status = ActiveStatus | JailedStatus | SlashedStatus

  function Pow(base: nat, k: nat): nat {
    if k == 0 then 1 else base * Pow(base, k - 1)
  }

  function AddU64(a: nat, b: nat): nat {
    (a + b) % TWO_64
  }

  /** Go's unsigned subtraction: wraps when b exceeds a. */
  function SubU64(a: nat, b: nat): nat
    requires b <= TWO_64
  {
    (a + (TWO_64 - b)) % TWO_64
  }
}

/** Sums of natural weights over finite sets, independent of any enumeration order. */
module StakeSums {

  ghost function Sum<K(!new)>(s: set<K>, w: K -> nat): nat
  {
    if s == {} then 0 else
      var x :| x in s;
      w(x) + Sum(s - {x}, w)
  }

  /** Any member may be taken out first: the sum does not depend on the choice. */
  lemma {:induction false} SumRemove<K(!new)>(s: set<K>, w: K -> nat, x: K)
    requires x in s
    ensures Sum(s, w) == w(x) + Sum(s - {x}, w)
    decreases s
  {
    var y :| y in s && Sum(s, w) == w(y) + Sum(s - {y}, w);
    if y != x {
      SumRemove(s - {y}, w, x);
      SumRemove(s - {x}, w, y);
      assert s - {y} - {x} == s - {x} - {y};
    }
  }

  lemma SumAdd<K(!new)>(s: set<K>, w: K -> nat, x: K)
    requires x !in s
    ensures Sum(s + {x}, w) == Sum(s, w) + w(x)
  {
    SumRemove(s + {x}, w, x);
    assert s + {x} - {x} == s;
  }

  lemma {:induction false} SumUnion<K(!new)>(s: set<K>, t: set<K>, w: K -> nat)
    requires s !! t
    ensures Sum(s + t, w) == Sum(s, w) + Sum(t, w)
    decreases t
  {
    if t == {} {
      assert s + t == s;
    } else {
      var x :| x in t;
      SumUnion(s, t - {x}, w);
      SumRemove(t, w, x);
      SumRemove(s + t, w, x);
      assert s + t - {x} == s + (t - {x});
    }
  }

  lemma SumSubset<K(!new)>(s: set<K>, t: set<K>, w: K -> nat)
    requires s <= t
    ensures Sum(s, w) <= Sum(t, w)
  {
    SumUnion(s, t - s, w);
    assert s + (t - s) == t;
  }

  lemma {:induction false} SumPointwiseLe<K(!new)>(s: set<K>, v: K -> nat, w: K -> nat)
    requires forall x | x in s :: v(x) <= w(x)
    ensures Sum(s, v) <= Sum(s, w)
    decreases s
  {
    if s != {} {
      var x :| x in s;
      SumPointwiseLe(s - {x}, v, w);
      SumRemove(s, v, x);
      SumRemove(s, w, x);
    }
  }

  lemma SumCongruent<K(!new)>(s: set<K>, v: K -> nat, w: K -> nat)
    requires forall x | x in s :: v(x) == w(x)
    ensures Sum(s, v) == Sum(s, w)
  {
    SumPointwiseLe(s, v, w);
    SumPointwiseLe(s, w, v);
  }

  lemma SumOverlap<K(!new)>(s: set<K>, t: set<K>, w: K -> nat)
    ensures Sum(s, w) + Sum(t, w) == Sum(s + t, w) + Sum(s * t, w)
  {
    SumUnion(s, t - s, w);
    assert s + (t - s) == s + t;
    SumUnion(s * t, t - s, w);
    assert s * t + (t - s) == t;
  }
}
