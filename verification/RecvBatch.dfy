/** How many receive messages go in one transaction (experiments/migration_cost/relay-recv-batch.js), in
    exact arithmetic. */
module RecvBatch {
  import opened Radix
  import opened Chunking
  import opened Wrappers

  // ----- how many messages fit in one transaction

  /** The next candidate after one that was too large. */
  function Shrunk(n: nat, target: nat, got: nat): (r: nat)
    requires got > target
    ensures r >= 1
  {
    var q := n * target / got;
    if q < 2 then 1 else q - 1
  }

  /** What the loop returns: `size[k]` is the encoded size of the first k messages, and `left` probes
      remain. */
  function Search(size: seq<nat>, target: nat, n: nat, left: nat): (r: nat)
    requires 1 <= n < |size|
    ensures 1 <= r <= n
    decreases left
  {
    if left == 0 || n == 1 || size[n] <= target then n
    else
      ShrunkSmaller(n, target, size[n]);
      Search(size, target, Shrunk(n, target, size[n]), left - 1)
  }

  lemma DivAtMost(x: nat, n: nat, d: nat)
    requires d > 0 && x < n * d
    ensures x / d < n
  {
    DivBounds(x, d);
    if x / d >= n {
      MulMono(n, x / d, d);
    }
  }

  /** A failed probe takes away two messages at least, down to one. */
  lemma ShrunkSmaller(n: nat, target: nat, got: nat)
    requires n > 1 && got > target
    ensures Shrunk(n, target, got) <= n - 2 || Shrunk(n, target, got) == 1
    ensures Shrunk(n, target, got) < n
  {
    MulMono(target + 1, got, n);
    assert (target + 1) * n == n * target + n && got * n == n * got;
    DivAtMost(n * target, n, got);
  }

  /** The first candidate, scaled from the size of all the messages. */
  function First(len: nat, target: nat, full: nat): (r: nat)
    requires len > 0 && full > target
    ensures r >= 1
  {
    var q := target * len / full;
    if q < 1 then 1 else q
  }

  lemma FirstSmaller(len: nat, target: nat, full: nat)
    requires len > 0 && full > target
    ensures First(len, target, full) < len || First(len, target, full) == 1
    ensures First(len, target, full) <= len
  {
    MulMono(target + 1, full, len);
    assert (target + 1) * len == target * len + len && full * len == len * full;
    DivAtMost(target * len, len, full);
  }

  const PROBES := 6
  const SIGNATURE_ROOM := 16_000

  /** The whole choice, for `|size| - 1` messages. */
  function ChunkSize(size: seq<nat>, target: nat, jsonBytes: nat): (r: nat)
    requires size != []
    ensures r < |size| && (r == 0 <==> |size| == 1)
  {
    var len := |size| - 1;
    if len == 0 then 0
    else if jsonBytes != 0 && jsonBytes + SIGNATURE_ROOM <= target then len
    else if size[len] <= target then len
    else
      FirstSmaller(len, target, size[len]);
      Search(size, target, First(len, target, size[len]), PROBES)
  }

  /** The candidates the loop measures, in order. */
  function Probed(size: seq<nat>, target: nat, n: nat, left: nat): (r: seq<nat>)
    requires 1 <= n < |size|
    ensures |r| <= left
    decreases left
  {
    if left == 0 || n == 1 then []
    else if size[n] <= target then [n]
    else
      ShrunkSmaller(n, target, size[n]);
      [n] + Probed(size, target, Shrunk(n, target, size[n]), left - 1)
  }

  /** Every batch whose encoded size is measured: all the messages once, if the JSON does not settle it, and
      then the candidates. */
  function Measured(size: seq<nat>, target: nat, jsonBytes: nat): (r: seq<nat>)
    requires size != []
    ensures |r| <= 1 + PROBES
  {
    var len := |size| - 1;
    if len == 0 || (jsonBytes != 0 && jsonBytes + SIGNATURE_ROOM <= target) then []
    else if size[len] <= target then [len]
    else
      FirstSmaller(len, target, size[len]);
      [len] + Probed(size, target, First(len, target, size[len]), PROBES)
  }

  method ComputeChunkSize(size: seq<nat>, target: nat, jsonBytes: nat) returns (r: nat, measured: seq<nat>)
    requires size != []
    ensures r == ChunkSize(size, target, jsonBytes)
    ensures measured == Measured(size, target, jsonBytes)
  {
    var len := |size| - 1;
    if len == 0 {
      return 0, [];
    }
    if jsonBytes != 0 && jsonBytes + SIGNATURE_ROOM <= target {
      return len, [];
    }
    var full := size[len];
    if full <= target {
      return len, [len];
    }
    FirstSmaller(len, target, full);
    var probed;
    r, probed := Shrink(size, target, First(len, target, full), PROBES);
    measured := [len] + probed;
  }

  lemma SearchStep(size: seq<nat>, target: nat, n: nat, left: nat)
    requires 1 < n < |size| && left > 0 && size[n] > target
    ensures var m := Shrunk(n, target, size[n]);
            && 1 <= m < n && Search(size, target, n, left) == Search(size, target, m, left - 1)
            && Probed(size, target, n, left) == [n] + Probed(size, target, m, left - 1)
  {
    ShrunkSmaller(n, target, size[n]);
  }

  /** The loop. */
  method Shrink(size: seq<nat>, target: nat, first: nat, limit: nat) returns (n: nat, probed: seq<nat>)
    requires 1 <= first < |size|
    ensures n == Search(size, target, first, limit) && probed == Probed(size, target, first, limit)
  {
    n, probed := first, [];
    var i := 0;
    while i < limit && n > 1
      invariant 0 <= i <= limit && 1 <= n < |size|
      invariant Search(size, target, first, limit) == Search(size, target, n, limit - i)
      invariant Probed(size, target, first, limit) == probed + Probed(size, target, n, limit - i)
    {
      var got := size[n];
      if got <= target {
        return n, probed + [n];
      }
      SearchStep(size, target, n, limit - i);
      var m := Shrunk(n, target, got);
      ghost var rest := Probed(size, target, m, limit - i - 1);
      assert probed + ([n] + rest) == probed + [n] + rest;
      probed := probed + [n];
      n, i := m, i + 1;
    }
    assert probed + [] == probed;
  }

  /** The loop gives up two messages for each probe, down to one. */
  lemma {:induction false} SearchFits(size: seq<nat>, target: nat, n: nat, left: nat)
    requires 1 <= n < |size|
    ensures var r := Search(size, target, n, left);
            r == 1 || size[r] <= target || r + 2 * left <= n
    decreases left
  {
    if !(left == 0 || n == 1 || size[n] <= target) {
      ShrunkSmaller(n, target, size[n]);
      SearchFits(size, target, Shrunk(n, target, size[n]), left - 1);
    }
  }

  /** A chunk of one message is returned without a measurement, unless it is all there is. */
  lemma {:induction false} OneIsNotProbed(size: seq<nat>, target: nat, n: nat, left: nat)
    requires 1 <= n < |size|
    ensures 1 !in Probed(size, target, n, left)
    decreases left
  {
    if !(left == 0 || n == 1 || size[n] <= target) {
      ShrunkSmaller(n, target, size[n]);
      OneIsNotProbed(size, target, Shrunk(n, target, size[n]), left - 1);
    }
  }

  lemma OneIsNotMeasured(size: seq<nat>, target: nat, jsonBytes: nat)
    requires |size| > 2
    ensures 1 !in Measured(size, target, jsonBytes)
  {
    var len := |size| - 1;
    if size[len] > target {
      FirstSmaller(len, target, size[len]);
      OneIsNotProbed(size, target, First(len, target, size[len]), PROBES);
    }
  }

  // ----- when six probes are enough

  /** More messages take more bytes. */
  ghost predicate Increasing(size: seq<nat>) {
    forall i, j :: 0 <= i < j < |size| ==> size[i] < size[j]
  }

  /** For n messages of any sizes and for any target, the chunk chosen fits or is one message. */
  ghost predicate AlwaysFits(n: nat) {
    forall size: seq<nat>, target: nat :: |size| == n + 1 && Increasing(size) ==> FitsOrOne(size, target)
  }

  ghost predicate FitsOrOne(size: seq<nat>, target: nat)
    requires size != []
  {
    var r := ChunkSize(size, target, 0);
    r <= 1 || size[r] <= target
  }

  lemma FewFit(size: seq<nat>, target: nat)
    requires 1 <= |size| <= 15
    ensures FitsOrOne(size, target)
  {
    var len := |size| - 1;
    if len > 0 && size[len] > target {
      FirstSmaller(len, target, size[len]);
      SearchFits(size, target, First(len, target, size[len]), PROBES);
    }
  }

  /** Sizes just above a target so large that scaling takes away no more than one message. */
  function Flat(n: nat): (r: seq<nat>)
    ensures |r| == n + 1 && Increasing(r)
  {
    seq(n + 1, k requires 0 <= k < n + 1 => n * n + k)
  }

  lemma ScaledByOne(m: nat, n: nat, t: nat)
    requires 1 <= m <= n && t == n * n
    ensures m * t / (t + m) == m - 1
  {
    assert (m - 1) * (t + m) + (t + m - m * m) == m * t by {
      Expand(m, -1, t + m);
      Expand(t, m, m);
    }
    assert m * m <= t by {
      MulMono(m, n, m);
      MulMono(m, n, n);
    }
    assert t + m - m * m < t + m;
    ModUnique(m * t, m - 1, t + m - m * m, t + m);
  }

  lemma {:induction false} FlatSearch(n: nat, m: nat, left: nat)
    requires 2 * left + 2 <= m <= n
    ensures Search(Flat(n), n * n, m, left) == m - 2 * left
    decreases left
  {
    if left > 0 {
      var t := n * n;
      assert Flat(n)[m] == t + m;
      ScaledByOne(m, n, t);
      assert Shrunk(m, t, t + m) == m - 2;
      FlatSearch(n, m - 2, left - 1);
    }
  }

  lemma FlatUnfit(n: nat)
    requires n >= 15
    ensures ChunkSize(Flat(n), n * n, 0) == n - 13 && !FitsOrOne(Flat(n), n * n)
  {
    var t := n * n;
    assert Flat(n)[n] == t + n;
    ScaledByOne(n, n, t);
    assert t * n == n * t;
    assert First(n, t, t + n) == n - 1;
    FlatSearch(n, n - 1, PROBES);
    assert Flat(n)[n - 13] == t + (n - 13);
  }

  lemma FewAlwaysFit(n: nat)
    requires n <= 14
    ensures AlwaysFits(n)
  {
    forall size: seq<nat>, target: nat | |size| == n + 1 && Increasing(size) ensures FitsOrOne(size, target) {
      FewFit(size, target);
    }
  }

  lemma OneUnfit(n: nat, size: seq<nat>, target: nat)
    requires |size| == n + 1 && Increasing(size) && !FitsOrOne(size, target)
    ensures !AlwaysFits(n)
  {
  }

  lemma ManyMayNotFit(n: nat)
    requires n >= 15
    ensures !AlwaysFits(n)
  {
    FlatUnfit(n);
    OneUnfit(n, Flat(n), n * n);
  }

  /** The promise that the chunk was measured to fit holds for every list of up to fourteen messages, and
      for no greater number. */
  lemma FitsUpToFourteen(n: nat)
    ensures AlwaysFits(n) <==> n <= 14
  {
    if n <= 14 {
      FewAlwaysFit(n);
    } else {
      ManyMayNotFit(n);
    }
  }

  /** More than one message all go in one transaction exactly when they fit, or the JSON and room for a signature
      do; in the second case nothing is measured. */
  lemma AllWhenTheyFit(size: seq<nat>, target: nat, jsonBytes: nat)
    requires |size| > 2
    ensures ChunkSize(size, target, jsonBytes) == |size| - 1 <==>
              size[|size| - 1] <= target || (jsonBytes > 0 && jsonBytes + 16_000 <= target)
    ensures Measured(size, target, jsonBytes) == [] <==> jsonBytes > 0 && jsonBytes + 16_000 <= target
  {
    var len := |size| - 1;
    if size[len] > target {
      FirstSmaller(len, target, size[len]);
    }
  }

  /** One message, or none, is never split. */
  lemma OneWhenOne(size: seq<nat>, target: nat, jsonBytes: nat)
    requires 1 <= |size| <= 2
    ensures ChunkSize(size, target, jsonBytes) == |size| - 1
  {
  }

  // ----- sizes that grow by a fixed amount per message

  ghost predicate Linear(size: seq<nat>, a: nat, b: nat) {
    b > 0 && forall k :: 0 <= k < |size| ==> size[k] == a + b * k
  }

  /** With overhead a and b per message, the first candidate is over by no more than the overhead. */
  lemma FirstNear(len: nat, target: nat, a: nat, b: nat, n: nat)
    requires len > 0 && b > 0 && a + b * len > target && n == target * len / (a + b * len)
    ensures b * n <= target
  {
    var full := a + b * len;
    DivBounds(target * len, full);
    // n * full <= target * len, so n * b * len <= target * len
    assert n * full == n * a + n * (b * len);
    assert n * (b * len) == (b * n) * len;
    assert (target + 1) * len == target * len + len;
    if b * n > target {
      MulMono(target + 1, b * n, len);
    }
  }

  /** Scaling a candidate that is over by the overhead at most gives one that fits. */
  lemma SecondFits(target: nat, a: nat, b: nat, n: nat, m: nat)
    requires b > 0 && b * n <= target < a + b * n && a * a <= b * target
    requires m >= 1 && m + 1 == n * target / (a + b * n)
    ensures a + b * m <= target
  {
    var got := a + b * n;
    DivBounds(n * target, got);
    Scaled(target, a, b, n, m, got);
  }

  lemma Regroup(x: int, y: int, b: int)
    ensures x * y * b == (b * x) * y
  {
  }

  lemma Spread(t: int, a: int, b: int, g: int)
    ensures (t + 1 - a + b) * g == t * g + g - a * g + b * g
    ensures (g - a) * t == t * g - a * t
    ensures (a + t) * a == a * a + a * t
  {
  }

  lemma Scaled(t: nat, a: nat, b: nat, n: nat, m: nat, got: nat)
    requires b > 0 && b * n <= t < got == a + b * n && a * a <= b * t && (m + 1) * got <= n * t
    ensures a + b * m <= t
  {
    var p, bn := b * (m + 1), b * n;
    assert p == b * m + b;
    MulMono((m + 1) * got, n * t, b);
    Regroup(m + 1, got, b);
    Regroup(n, t, b);
    TooMuch(p, t, a, b, bn, got);
  }

  lemma TooMuch(p: int, t: nat, a: nat, b: nat, bn: nat, got: nat)
    requires bn <= t < got == a + bn && a * a <= b * t && p * got <= bn * t
    ensures p < t + 1 - a + b
  {
    var q := t + 1 - a + b;
    Spread(t, a, b, got);
    MulMono(got, a + t, a);
    MulMono(t, got, b);
    var tg, ag, bg, at, aa, bt := t * got, a * got, b * got, a * t, a * a, b * t;
    assert q * got == tg + got - ag + bg && bn * t == tg - at && ag <= aa + at && bt <= bg && aa <= bt;
    if q <= p {
      MulMono(q, p, got);
    }
  }

  /** Scaling down from a candidate that is too large does not go below the largest that fits. */
  lemma ScaledNear(n: nat, target: nat, a: nat, b: nat, k: nat)
    requires b > 0 && a + b * k <= target < a + b * n
    ensures k < n && k <= n * target / (a + b * n)
  {
    var got := a + b * n;
    if n <= k {
      MulMono(n, k, b);
    }
    // k * got == k * a + k * b * n <= n * a + n * b * k <= n * target
    MulMono(k, n, a);
    MulMono(a + b * k, target, n);
    assert k * got == k * a + k * (b * n) by { assert got * k == a * k + (b * n) * k; }
    assert (a + b * k) * n == a * n + b * k * n;
    assert k * (b * n) == b * k * n;
    QuotientAtLeast(n * target, got, k);
  }

  lemma {:induction false} SearchNear(size: seq<nat>, target: nat, a: nat, b: nat, n: nat, left: nat, k: nat)
    requires 1 <= n < |size| && Linear(size, a, b) && k < |size| && size[k] <= target && k <= n + 1
    ensures k <= Search(size, target, n, left) + 1
    decreases left
  {
    if !(left == 0 || n == 1 || size[n] <= target) {
      ScaledNear(n, target, a, b, k);
      ShrunkSmaller(n, target, size[n]);
      SearchNear(size, target, a, b, Shrunk(n, target, size[n]), left - 1, k);
    }
  }

  /** With sizes that grow by a fixed amount, the result is at most one message short of the most that fit. */
  lemma NearLargest(size: seq<nat>, target: nat, a: nat, b: nat, jsonBytes: nat, k: nat)
    requires Linear(size, a, b) && k < |size| && size[k] <= target
    ensures k <= ChunkSize(size, target, jsonBytes) + 1
  {
    var len := |size| - 1;
    if len > 0 && size[len] > target {
      ScaledNear(len, target, a, b, k);
      assert target * len == len * target;
      FirstSmaller(len, target, size[len]);
      SearchNear(size, target, a, b, First(len, target, size[len]), PROBES, k);
    }
  }

  /** If the size is a + b * k and a * a is at most b * target, the result fits or is one message, after two
      probes at most. */
  lemma TwoProbes(size: seq<nat>, target: nat, a: nat, b: nat, jsonBytes: nat)
    requires |size| > 1 && Linear(size, a, b) && a * a <= b * target
    ensures FitsOrOne(size, target) && |Measured(size, target, jsonBytes)| <= 1 + 2
  {
    var len := |size| - 1;
    if size[len] > target {
      FirstSmaller(len, target, size[len]);
      var n := First(len, target, size[len]);
      if n > 1 && size[n] > target {
        FirstNear(len, target, a, b, n);
        var m := Shrunk(n, target, size[n]);
        ShrunkSmaller(n, target, size[n]);
        if m > 1 {
          SecondFits(target, a, b, n, m);
        }
        assert |Probed(size, target, m, PROBES - 1)| <= 1;
      }
    }
  }

  /** Cutting the messages by the chunk size gives them back in order, no chunk longer than that. */
  method Split<T>(msgs: seq<T>, perChunk: nat) returns (chunks: seq<seq<T>>)
    requires perChunk == 0 ==> msgs == []
    ensures Flatten(chunks) == msgs
    ensures forall i :: 0 <= i < |chunks| ==> 0 < |chunks[i]| <= perChunk
    ensures forall i :: 0 <= i < |chunks| - 1 ==> |chunks[i]| == perChunk
  {
    chunks := [];
    var i := 0;
    while i < |msgs|
      invariant 0 <= i && Flatten(chunks) == msgs[..Min(i, |msgs|)]
      invariant forall j :: 0 <= j < |chunks| ==> 0 < |chunks[j]| <= perChunk
      invariant forall j :: 0 <= j < |chunks| - 1 ==> |chunks[j]| == perChunk
      invariant chunks != [] && i < |msgs| ==> |chunks[|chunks| - 1]| == perChunk
      decreases |msgs| - i
    {
      var chunk := msgs[i..Min(i + perChunk, |msgs|)];
      FlattenSnoc(chunks, chunk);
      assert msgs[..i] + chunk == msgs[..Min(i + perChunk, |msgs|)];
      chunks := chunks + [chunk];
      i := i + perChunk;
    }
    assert msgs[..|msgs|] == msgs;
  }
}
