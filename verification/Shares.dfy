/** How a list is divided over a pool of accounts (experiments/batch_scaling/loadgen.py, ack_pool.py):
    contiguous shares, the first `total % workers` of them one longer. */
module Shares {

  function Share(total: nat, workers: nat, i: nat): nat
    requires workers > 0
  {
    total / workers + if i < total % workers then 1 else 0
  }

  /** `sum(shares[:i])`. */
  function Start(total: nat, workers: nat, i: nat): nat
    requires workers > 0
  {
    if i == 0 then 0 else Start(total, workers, i - 1) + Share(total, workers, i - 1)
  }

  /** The shares are even: an earlier one is as long as a later one, or one longer. */
  lemma Even(total: nat, workers: nat, i: nat, j: nat)
    requires i <= j < workers
    ensures Share(total, workers, j) <= Share(total, workers, i) <= Share(total, workers, j) + 1
  {
  }

  lemma {:induction false} StartClosed(q: nat, r: nat, total: nat, workers: nat, i: nat)
    requires workers > 0 && q == total / workers && r == total % workers
    ensures Start(total, workers, i) == i * q + if i < r then i else r
  {
    if i != 0 {
      StartClosed(q, r, total, workers, i - 1);
      assert i * q == (i - 1) * q + q;
    }
  }

  lemma StartEnd(total: nat, workers: nat)
    requires workers > 0
    ensures Start(total, workers, workers) == total
  {
    StartClosed(total / workers, total % workers, total, workers, workers);
  }

  lemma {:induction false} StartMono(total: nat, workers: nat, i: nat, j: nat)
    requires workers > 0 && i <= j
    ensures Start(total, workers, i) <= Start(total, workers, j)
    decreases j - i
  {
    if i < j {
      StartMono(total, workers, i, j - 1);
    }
  }

  lemma {:induction false} OwnerBelow(total: nat, workers: nat, p: nat, m: nat) returns (w: nat)
    requires workers > 0 && p < Start(total, workers, m)
    ensures w < m && Start(total, workers, w) <= p < Start(total, workers, w + 1)
  {
    if Start(total, workers, m - 1) <= p {
      w := m - 1;
    } else {
      w := OwnerBelow(total, workers, p, m - 1);
    }
  }

  ghost predicate Owns(total: nat, workers: nat, w: nat, p: nat) {
    w < workers && Start(total, workers, w) <= p < Start(total, workers, w + 1)
  }

  /** Every position belongs to exactly one worker. */
  lemma OneOwner(total: nat, workers: nat, p: nat) returns (w: nat)
    requires workers > 0 && p < total
    ensures Owns(total, workers, w, p)
    ensures forall v: nat :: Owns(total, workers, v, p) ==> v == w
  {
    StartEnd(total, workers);
    w := OwnerBelow(total, workers, p, workers);
    forall v: nat | Owns(total, workers, v, p) ensures v == w {
      if v < w {
        StartMono(total, workers, v + 1, w);
      } else if w < v {
        StartMono(total, workers, w + 1, v);
      }
    }
  }
}
