/** The two searches for the largest batch that fits: experiments/migration_cost/find_recv_ceiling.py and
    experiments/batch_scaling/find_relay_ceiling.py. */
module Bisection {
  import opened Wrappers

  const RPC_MAX_BODY_BYTES := 1_000_000
  const TX_MAX_SIZE := 131_072

  /** Length in base64, section 4 of RFC 4648. */
  function Base64Length(raw: nat): nat {
    (raw + 2) / 3 * 4
  }

  /** Four characters for each three bytes, the last three padded. */
  lemma Base64Is(raw: nat)
    ensures Base64Length(raw) % 4 == 0 && 4 * raw <= 3 * Base64Length(raw) < 4 * raw + 12
  {
  }

  /** Three quarters of the body is exactly what may be sent. */
  lemma Base64Fits(raw: nat)
    ensures raw <= RPC_MAX_BODY_BYTES * 3 / 4 <==> Base64Length(raw) <= RPC_MAX_BODY_BYTES
    ensures Base64Length(raw) <= RPC_MAX_BODY_BYTES <==> raw <= 750_000
  {
  }

  /** Measured sizes, kept so that no batch is measured twice. `size` says what measuring a batch gives;
      a batch not in it cannot be measured. */
  class Probes {
    ghost const size: map<nat, nat>
    var cache: map<nat, nat>
    ghost var measured: seq<nat>

    ghost predicate Valid()
      reads this
    {
      && (forall n :: n in cache ==> n in size && cache[n] == size[n])
      && (forall n :: n in measured <==> n in cache)
      && forall i, j :: 0 <= i < j < |measured| ==> measured[i] != measured[j]
    }

    constructor (ghost size: map<nat, nat>)
      ensures Valid() && this.size == size && cache == map[]
    {
      this.size := size;
      cache := map[];
      measured := [];
    }

    /** `outcome` is what measuring gives, if it comes to that. */
    method SizeAt(n: nat, outcome: Option<nat>) returns (r: Option<nat>)
      requires Valid() && outcome == (if n in size then Some(size[n]) else None)
      modifies this
      ensures Valid() && r == outcome
      ensures cache == if r.Some? then old(cache)[n := r.value] else old(cache)
    {
      if n !in cache {
        if outcome.None? {
          return None;
        }
        cache := cache[n := outcome.value];
        measured := measured + [n];
      }
      return Some(cache[n]);
    }
  }

  function Measure(size: map<nat, nat>, n: nat): Option<nat> {
    if n in size then Some(size[n]) else None
  }

  datatype Ceiling = Ceiling(n: nat, exact: bool) | CouldNotSize(n: nat) | LowExceeds

  ghost predicate Monotone(size: map<nat, nat>) {
    forall a, b :: a in size && b in size && a <= b ==> size[a] <= size[b]
  }

  /** Of the sizes between lo and hi exactly those up to n fit. */
  ghost predicate Largest(size: map<nat, nat>, lo: nat, hi: nat, limit: nat, n: nat) {
    forall m :: m in size && lo <= m <= hi ==> (size[m] <= limit <==> m <= n)
  }

  lemma LargestFitting(size: map<nat, nat>, lo: nat, hi: nat, limit: nat, n: nat)
    requires n in size && n + 1 in size && size[n] <= limit < size[n + 1]
    ensures Monotone(size) ==> Largest(size, lo, hi, limit, n)
  {
    if Monotone(size) {
      forall m | m in size && lo <= m <= hi ensures size[m] <= limit <==> m <= n {
        assert if m <= n then size[m] <= size[n] else size[n + 1] <= size[m];
      }
    }
  }

  lemma AllFit(size: map<nat, nat>, lo: nat, hi: nat, limit: nat)
    requires hi in size && size[hi] <= limit
    ensures Monotone(size) ==> Largest(size, lo, hi, limit, hi)
  {
  }

  /** For any sizes whatever, the result fits and, when exact, the next one up does not; both were
      measured. With sizes that do not shrink it is the largest that fits. */
  method BisectCeiling(probes: Probes, size: map<nat, nat>, lo0: nat, hi0: nat, limit: nat) returns (r: Ceiling)
    requires probes.Valid() && probes.size == size && lo0 <= hi0
    modifies probes
    ensures probes.Valid()
    ensures r.Ceiling? ==> lo0 <= r.n <= hi0 && r.n in probes.cache && r.n in size && size[r.n] <= limit
    ensures r.Ceiling? && !r.exact ==> r.n == hi0
    ensures r.Ceiling? && r.exact ==>
              r.n + 1 <= hi0 && r.n + 1 in probes.cache && r.n + 1 in size && size[r.n + 1] > limit
    ensures r.Ceiling? && Monotone(size) ==> Largest(size, lo0, hi0, limit, r.n)
    ensures r.LowExceeds? ==> lo0 in size && size[lo0] > limit
    ensures r.CouldNotSize? ==> r.n !in size && lo0 <= r.n <= hi0
  {
    var lo, hi := lo0, hi0;
    var s := probes.SizeAt(hi, Measure(size, hi));
    if s.None? { return CouldNotSize(hi); }
    if s.value <= limit {
      AllFit(size, lo, hi, limit);
      return Ceiling(hi, false);
    }
    s := probes.SizeAt(lo, Measure(size, lo));
    if s.None? { return CouldNotSize(lo); }
    if s.value > limit { return LowExceeds; }
    while hi - lo > 1
      invariant lo0 <= lo < hi <= hi0 && probes.Valid() && lo in probes.cache && hi in probes.cache
      invariant lo in size && size[lo] <= limit && hi in size && size[hi] > limit
      decreases hi - lo
    {
      var mid := (lo + hi) / 2;
      s := probes.SizeAt(mid, Measure(size, mid));
      if s.None? { return CouldNotSize(mid); }
      if s.value <= limit {
        lo := mid;
      } else {
        hi := mid;
      }
    }
    LargestFitting(size, lo0, hi0, limit, lo);
    return Ceiling(lo, true);
  }

  ghost predicate Over(cache: map<nat, nat>, n: nat) {
    n in cache && Base64Length(cache[n]) > RPC_MAX_BODY_BYTES
  }

  /** The loop that steps down from a ceiling whose base64 form is too long. None is the exception on a
      size that was not measured. */
  method StepDown(cache: map<nat, nat>, start: nat) returns (r: Option<nat>)
    ensures r.Some? ==> r.value <= start && (r.value <= 1 || (r.value in cache && !Over(cache, r.value)))
    ensures r.Some? ==> forall m :: r.value < m <= start ==> Over(cache, m)
    ensures r.None? ==> exists m :: 1 < m <= start && m !in cache && forall k :: m < k <= start ==> Over(cache, k)
  {
    var n: nat := start;
    while n > 1
      invariant n <= start && forall m :: n < m <= start ==> Over(cache, m)
    {
      if n !in cache {
        return None;
      }
      if Base64Length(cache[n]) <= RPC_MAX_BODY_BYTES {
        break;
      }
      n := n - 1;
    }
    return Some(n);
  }

  /** Of the sizes between lo and hi exactly those up to n fit the body in base64. */
  ghost predicate LargestInBase64(size: map<nat, nat>, lo: nat, hi: nat, n: nat) {
    forall m :: m in size && lo <= m <= hi ==> (Base64Length(size[m]) <= RPC_MAX_BODY_BYTES <==> m <= n)
  }

  lemma LargestBody(size: map<nat, nat>, lo: nat, hi: nat, n: nat)
    requires Largest(size, lo, hi, RPC_MAX_BODY_BYTES * 3 / 4, n)
    ensures LargestInBase64(size, lo, hi, n)
  {
    forall m | m in size && lo <= m <= hi ensures Base64Length(size[m]) <= RPC_MAX_BODY_BYTES <==> m <= n {
      Base64Fits(size[m]);
    }
  }

  /** The broadcast ceiling: stepping down from it leaves it as it is, because what fits three quarters of
      the body fits in base64. With sizes that do not shrink it is the largest that does. */
  method BroadcastCeiling(probes: Probes, size: map<nat, nat>, hi: nat) returns (r: Ceiling, stepped: Option<nat>)
    requires probes.Valid() && probes.size == size && 1 <= hi
    modifies probes
    ensures probes.Valid()
    ensures r.Ceiling? ==> stepped == Some(r.n) && r.n in size && Base64Length(size[r.n]) <= RPC_MAX_BODY_BYTES
    ensures r.Ceiling? && r.exact ==> r.n + 1 in size && Base64Length(size[r.n + 1]) > RPC_MAX_BODY_BYTES
    ensures r.Ceiling? && Monotone(size) ==> LargestInBase64(size, 1, hi, r.n)
  {
    stepped := None;
    r := BisectCeiling(probes, size, 1, hi, RPC_MAX_BODY_BYTES * 3 / 4);
    if r.Ceiling? {
      Base64Fits(size[r.n]);
      if r.exact {
        Base64Fits(size[r.n + 1]);
      }
      assert !Over(probes.cache, r.n);
      stepped := StepDown(probes.cache, r.n);
      if Monotone(size) {
        LargestBody(size, 1, hi, r.n);
      }
    }
  }

  lemma NextTo(size: map<nat, nat>, count: nat, lo: nat)
    requires 1 <= lo <= count + 1
    requires lo > 1 ==> lo - 1 in size && size[lo - 1] < TX_MAX_SIZE
    requires lo <= count ==> lo in size && size[lo] >= TX_MAX_SIZE
    ensures Monotone(size) ==> Largest(size, 1, count, TX_MAX_SIZE - 1, lo - 1)
  {
    if Monotone(size) {
      forall m | m in size && 1 <= m <= count ensures size[m] <= TX_MAX_SIZE - 1 <==> m <= lo - 1 {
        assert if m <= lo - 1 then size[m] <= size[lo - 1] else size[lo] <= size[m];
      }
    }
  }

  /** The relay search. For any sizes whatever, what fits and what does not end up next to each other;
      with sizes that do not shrink the best is the largest that fits. */
  method RelayCeiling(probes: Probes, size: map<nat, nat>, count: nat)
      returns (best: Option<nat>, firstOver: Option<nat>, failed: bool)
    requires probes.Valid() && probes.size == size
    modifies probes
    ensures probes.Valid()
    ensures failed ==> exists n :: 1 <= n <= count && n !in size
    ensures best.Some? ==> 1 <= best.value <= count && best.value in size && size[best.value] < 131_072
    ensures firstOver.Some? ==> 1 <= firstOver.value <= count
    ensures firstOver.Some? ==> firstOver.value in size && size[firstOver.value] >= 131_072
    ensures !failed && best.Some? && firstOver.Some? ==> firstOver.value == best.value + 1
    ensures !failed && best.None? ==> count == 0 || firstOver == Some(1)
    ensures !failed && firstOver.None? ==> count == 0 || best == Some(count)
    ensures !failed && Monotone(size) ==>
              Largest(size, 1, count, TX_MAX_SIZE - 1, if best.Some? then best.value else 0)
  {
    var lo, hi := 1, count;
    best, firstOver, failed := None, None, false;
    while lo <= hi
      invariant probes.Valid() && 1 <= lo && hi <= count && lo <= hi + 1
      invariant best == if lo == 1 then None else Some(lo - 1)
      invariant firstOver == if hi == count then None else Some(hi + 1)
      invariant lo > 1 ==> lo - 1 in size && size[lo - 1] < TX_MAX_SIZE
      invariant hi < count ==> hi + 1 in size && size[hi + 1] >= TX_MAX_SIZE
      decreases hi - lo
    {
      var mid := (lo + hi) / 2;
      var res := probes.SizeAt(mid, Measure(size, mid));
      if res.None? {
        failed := true;
        return;
      }
      if res.value < TX_MAX_SIZE {
        best, lo := Some(mid), mid + 1;
      } else {
        firstOver, hi := Some(mid), mid - 1;
      }
    }
    NextTo(size, count, lo);
  }
}
