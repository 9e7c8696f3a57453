/** The periodicity test of the master-key guard: combinatorics on words.

    The guard repeats every prefix of at most half the key and compares.  What it finds is the
    primitive period of the key, and the other short periods are exactly its multiples.
 */
module KeyPeriod {
  import opened Options

  /** `s` repeated `k` times. */
  function Repeated(s: string, k: nat): string
  {
    if k == 0 then [] else s + Repeated(s, k - 1)
  }

  /** Characters `p` apart agree throughout. */
  predicate IsPeriod(key: string, p: nat)
  {
    forall i :: 0 <= i && i + p < |key| ==> key[i] == key[i + p]
  }

  lemma {:induction false} RepeatedLength(s: string, k: nat)
    ensures |Repeated(s, k)| == k * |s|
  {
    if k > 0 {
      RepeatedLength(s, k - 1);
      assert k * |s| == (k - 1) * |s| + |s|;
    }
  }

  lemma Enough(n: nat, p: nat)
    requires 1 <= p
    ensures n <= (n / p + 1) * p
  {
  }

  lemma ModStep(i: nat, p: nat)
    requires 1 <= p <= i
    ensures (i - p) % p == i % p
  {
    var q := i / p;
    assert i == q * p + i % p;
    assert i - p == (q - 1) * p + i % p;
    ModUnique(i - p, q - 1, i % p, p);
  }

  lemma ModUnique(x: nat, q: int, r: nat, p: nat)
    requires 1 <= p && r < p && x == q * p + r
    ensures x % p == r
  {
    var q', r' := x / p, x % p;
    assert x == q' * p + r';
    Multiple(q - q', p);
    assert (q - q') * p == q * p - q' * p;
  }

  lemma Multiple(t: int, p: nat)
    ensures t >= 1 ==> t * p >= p
    ensures t <= -1 ==> t * p <= 0 - p
    ensures t == 0 ==> t * p == 0
  {
  }

  lemma {:induction false} RepeatedAt(s: string, k: nat, i: nat)
    requires 1 <= |s| && i < |Repeated(s, k)|
    ensures Repeated(s, k)[i] == s[i % |s|]
    decreases k
  {
    if i >= |s| {
      RepeatedAt(s, k - 1, i - |s|);
      ModStep(i, |s|);
    }
  }

  lemma {:induction false} PeriodFromPrefix(key: string, p: nat, i: nat)
    requires 1 <= p <= |key| && IsPeriod(key, p) && i < |key|
    ensures key[i] == key[i % p]
  {
    if i >= p {
      PeriodFromPrefix(key, p, i - p);
      ModStep(i, p);
      assert key[i - p] == key[(i - p) + p];
    }
  }

  /** The prefix of length `p` repeated and cut to length. */
  function Filled(key: string, p: nat): (r: string)
    requires 1 <= p <= |key|
    ensures |r| == |key|
  {
    RepeatedLength(key[..p], |key| / p + 1);
    Enough(|key|, p);
    Repeated(key[..p], |key| / p + 1)[..|key|]
  }

  lemma FilledAt(key: string, p: nat, i: nat)
    requires 1 <= p <= |key| && i < |key|
    ensures Filled(key, p)[i] == key[i % p]
  {
    RepeatedLength(key[..p], |key| / p + 1);
    Enough(|key|, p);
    RepeatedAt(key[..p], |key| / p + 1, i);
  }

  lemma FilledIsPeriodic(key: string, p: nat, i: nat)
    requires 1 <= p <= |key| && Filled(key, p) == key && i + p < |key|
    ensures key[i] == key[i + p]
  {
    FilledAt(key, p, i);
    FilledAt(key, p, i + p);
    ModStep(i + p, p);
  }

  /** The prefix repeated is the key exactly when characters `p` apart agree throughout. */
  lemma FilledIffPeriod(key: string, p: nat)
    requires 1 <= p <= |key|
    ensures Filled(key, p) == key <==> IsPeriod(key, p)
  {
    if IsPeriod(key, p) {
      forall i | 0 <= i < |key| ensures Filled(key, p)[i] == key[i] {
        FilledAt(key, p, i);
        PeriodFromPrefix(key, p, i);
      }
    }
    if Filled(key, p) == key {
      forall i | 0 <= i && i + p < |key| ensures key[i] == key[i + p] {
        FilledIsPeriodic(key, p, i);
      }
    }
  }

  /** Two periods that fit into the key together have their difference as a period. */
  lemma PeriodDifference(key: string, p: nat, q: nat)
    requires p < q && p + q <= |key|
    requires IsPeriod(key, p) && IsPeriod(key, q)
    ensures IsPeriod(key, q - p)
  {
    forall i | 0 <= i && i + (q - p) < |key| ensures key[i] == key[i + (q - p)] {
      if p <= i {
        assert key[i - p] == key[(i - p) + p];
        assert key[i - p] == key[(i - p) + q];
      } else {
        assert key[i] == key[i + q];
        assert key[i + (q - p)] == key[(i + (q - p)) + p];
      }
    }
  }

  ghost predicate IsLeastPeriod(key: string, p: nat)
  {
    1 <= p <= |key| / 2 && IsPeriod(key, p) && forall q :: 1 <= q < p ==> !IsPeriod(key, q)
  }

  /** The least short period divides every short period. */
  lemma {:induction false} LeastPeriodDivides(key: string, p: nat, q: nat)
    requires IsLeastPeriod(key, p) && 1 <= q <= |key| / 2 && IsPeriod(key, q)
    ensures q % p == 0
    decreases q
  {
    if q > p {
      PeriodDifference(key, p, q);
      LeastPeriodDivides(key, p, q - p);
      ModStep(q, p);
    }
  }

  /** Multiples of a period are periods. */
  lemma {:induction false} MultipleIsPeriod(key: string, p: nat, q: nat)
    requires 1 <= p && IsPeriod(key, p) && q % p == 0
    ensures IsPeriod(key, q)
    decreases q
  {
    if q >= p {
      ModStep(q, p);
      MultipleIsPeriod(key, p, q - p);
      forall i | 0 <= i && i + q < |key| ensures key[i] == key[i + q] {
        assert key[i] == key[i + (q - p)];
        assert key[i + (q - p)] == key[(i + (q - p)) + p];
      }
    }
  }

  /** The period search.  A reported period is the least one of at most half the length, and the
      periods of at most half the length are exactly its multiples. */
  method FindPeriod(key: string) returns (period: Option<nat>)
    ensures period.None? ==> forall p :: 1 <= p <= |key| / 2 ==> !IsPeriod(key, p)
    ensures period.Some? ==> IsLeastPeriod(key, period.value)
    ensures period.Some? ==> forall q :: 1 <= q <= |key| / 2 ==> (IsPeriod(key, q) <==> q % period.value == 0)
  {
    for p := 1 to |key| / 2 + 1
      invariant forall q :: 1 <= q < p ==> !IsPeriod(key, q)
    {
      FilledIffPeriod(key, p);
      if Filled(key, p) == key {
        forall q | 1 <= q <= |key| / 2 ensures IsPeriod(key, q) <==> q % p == 0 {
          if IsPeriod(key, q) {
            LeastPeriodDivides(key, p, q);
          } else if q % p == 0 {
            MultipleIsPeriod(key, p, q);
          }
        }
        return Some(p);
      }
    }
    return None;
  }
}
