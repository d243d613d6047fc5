/** The chain storage simulator (tools/storage_sim/main.go). The random message of each step is an input,
    and so is the account growth curve. */
module StorageSim {
  import Radix

  datatype Msg = Recv | Transfer | Stake | Gov

  const TX_ENVELOPE_OVERHEAD := 110
  const ACCOUNT_STATE_OVERHEAD := 100

  datatype Scheme = Scheme(pubKeySize: nat, sigSize: nat)

  const SECP256K1 := Scheme(33, 64)
  const MLDSA65 := Scheme(1952, 3309)

  function BodySize(m: Msg): nat {
    match m
    case Recv => 4513
    case Transfer => 112
    case Stake => 95
    case Gov => 55
  }

  ghost predicate Total(g: imap<nat, nat>) {
    forall n: nat :: n in g
  }

  /** How many accounts have signed after n user transactions: any curve whatever. */
  type Growth = g: imap<nat, nat> | Total(g) ghost witness Flat()

  ghost predicate Counts(n: nat) {
    n >= 0
  }

  ghost function Flat(): (g: imap<nat, nat>)
    ensures Total(g)
  {
    imap n: nat | Counts(n) :: 0
  }

  datatype Sim = Sim(txCount: nat, userTxCount: nat, totalTxBytes: nat, totalStateBytes: nat,
                     uniqueAccounts: nat, userAccounts: nat, recvAccounts: nat, relayerStored: bool)

  const ORIGIN := Sim(0, 0, 0, 0, 0, 0, 0, false)

  // ----- what a step does

  function Receive(k: Scheme, s: Sim): Sim {
    var relayer := if s.relayerStored then 0 else 1;
    s.(recvAccounts := s.recvAccounts + 1, uniqueAccounts := s.uniqueAccounts + relayer + 1, relayerStored := true,
       totalStateBytes := s.totalStateBytes + relayer * (ACCOUNT_STATE_OVERHEAD + k.pubKeySize) +
         ACCOUNT_STATE_OVERHEAD)
  }

  function Sign(k: Scheme, s: Sim, target: nat): Sim {
    var delta := if target > s.userAccounts then target - s.userAccounts else 0;
    s.(userTxCount := s.userTxCount + 1,
       userAccounts := s.userAccounts + delta, uniqueAccounts := s.uniqueAccounts + delta,
       totalStateBytes := s.totalStateBytes + delta * (ACCOUNT_STATE_OVERHEAD + k.pubKeySize))
  }

  function Next(k: Scheme, g: Growth, s: Sim, m: Msg): Sim {
    var t := s.(txCount := s.txCount + 1,
                totalTxBytes := s.totalTxBytes + TX_ENVELOPE_OVERHEAD + BodySize(m) + k.pubKeySize + k.sigSize);
    if m.Recv? then Receive(k, t) else Sign(k, t, g[t.userTxCount + 1])
  }

  function After(k: Scheme, g: Growth, msgs: seq<Msg>): Sim {
    if msgs == [] then ORIGIN else Next(k, g, After(k, g, msgs[..|msgs| - 1]), msgs[|msgs| - 1])
  }

  /** The accounts that hold a public key: the users' and the relayer's. */
  function Keyed(s: Sim): nat {
    s.userAccounts + if s.relayerStored then 1 else 0
  }

  /** The state if every account made by a migration had signed once. */
  function AfterFirstSignature(k: Scheme, s: Sim): nat {
    s.totalStateBytes + s.recvAccounts * k.pubKeySize
  }

  ghost predicate Consistent(k: Scheme, s: Sim) {
    && s.uniqueAccounts == Keyed(s) + s.recvAccounts
    && s.totalStateBytes == s.uniqueAccounts * ACCOUNT_STATE_OVERHEAD + Keyed(s) * k.pubKeySize
  }

  lemma NextConsistent(k: Scheme, g: Growth, s: Sim, m: Msg)
    requires Consistent(k, s)
    ensures Consistent(k, Next(k, g, s, m))
  {
    var r := Next(k, g, s, m);
    if m.Recv? {
      Radix.Expand(Keyed(s), Keyed(r) - Keyed(s), k.pubKeySize);
    } else {
      SignedBytes(s.uniqueAccounts, Keyed(s), r.userAccounts - s.userAccounts, ACCOUNT_STATE_OVERHEAD, k.pubKeySize);
    }
  }

  lemma SignedBytes(accounts: int, keyed: int, delta: int, overhead: int, key: int)
    ensures accounts * overhead + keyed * key + delta * (overhead + key)
         == (accounts + delta) * overhead + (keyed + delta) * key
  {
    Radix.Expand(accounts, delta, overhead);
    Radix.Expand(keyed, delta, key);
    Radix.Expand(overhead, key, delta);
  }

  /** After any messages, the state is the accounts' overhead and a key for each account that holds one. */
  lemma {:induction false} StateBytes(k: Scheme, g: Growth, msgs: seq<Msg>)
    ensures Consistent(k, After(k, g, msgs))
  {
    if msgs != [] {
      StateBytes(k, g, msgs[..|msgs| - 1]);
      NextConsistent(k, g, After(k, g, msgs[..|msgs| - 1]), msgs[|msgs| - 1]);
    }
  }

  /** Had every account signed, the state would be a key for each account. */
  lemma EveryAccountSigned(k: Scheme, s: Sim)
    requires Consistent(k, s)
    ensures AfterFirstSignature(k, s) == s.uniqueAccounts * (ACCOUNT_STATE_OVERHEAD + k.pubKeySize)
  {
    Radix.Expand(Keyed(s), s.recvAccounts, k.pubKeySize);
  }

  /** Everything but the bytes. */
  function Accounts(s: Sim): Sim {
    s.(totalTxBytes := 0, totalStateBytes := 0)
  }

  lemma {:induction false} SameAccounts(j: Scheme, k: Scheme, g: Growth, msgs: seq<Msg>)
    ensures Accounts(After(j, g, msgs)) == Accounts(After(k, g, msgs))
  {
    if msgs != [] {
      SameAccounts(j, k, g, msgs[..|msgs| - 1]);
    }
  }

  lemma {:induction false} AllRecv(k: Scheme, g: Growth, msgs: seq<Msg>)
    requires forall i :: 0 <= i < |msgs| ==> msgs[i].Recv?
    ensures var s := After(k, g, msgs); s.userAccounts == 0 && (s.relayerStored <==> msgs != [])
  {
    if msgs != [] {
      AllRecv(k, g, msgs[..|msgs| - 1]);
    }
  }

  lemma ConsistentDiffer(j: Scheme, k: Scheme, a: Sim, b: Sim)
    requires Consistent(j, a) && Consistent(k, b) && Accounts(a) == Accounts(b)
    ensures a.totalStateBytes - b.totalStateBytes == Keyed(a) * (j.pubKeySize - k.pubKeySize)
  {
    assert Keyed(a) == Keyed(Accounts(a)) == Keyed(b);
    assert a.uniqueAccounts == Accounts(a).uniqueAccounts == b.uniqueAccounts;
    Radix.Expand(j.pubKeySize - k.pubKeySize, k.pubKeySize, Keyed(a));
  }

  /** Two runs on the same messages differ in state by the difference of the keys for each account that holds
      one: a single key when all the messages are migrations. */
  lemma SchemesDiffer(j: Scheme, k: Scheme, g: Growth, msgs: seq<Msg>)
    ensures var a := After(j, g, msgs);
            var b := After(k, g, msgs);
            && Accounts(a) == Accounts(b)
            && a.totalStateBytes - b.totalStateBytes == Keyed(a) * (j.pubKeySize - k.pubKeySize)
            && ((forall i :: 0 <= i < |msgs| ==> msgs[i].Recv?) && msgs != [] ==> Keyed(a) == 1)
  {
    StateBytes(j, g, msgs);
    StateBytes(k, g, msgs);
    SameAccounts(j, k, g, msgs);
    ConsistentDiffer(j, k, After(j, g, msgs), After(k, g, msgs));
    if forall i :: 0 <= i < |msgs| ==> msgs[i].Recv? {
      AllRecv(j, g, msgs);
    }
  }

  /** What the post-quantum keys cost: 1919 bytes for each account that holds one. */
  lemma PostQuantumCost(g: Growth, msgs: seq<Msg>)
    ensures var a := After(MLDSA65, g, msgs);
            a.totalStateBytes - After(SECP256K1, g, msgs).totalStateBytes == 1919 * Keyed(a)
  {
    SchemesDiffer(MLDSA65, SECP256K1, g, msgs);
  }

  // ----- every counter in closed form

  function Count(msgs: seq<Msg>, m: Msg): nat {
    if msgs == [] then 0 else Count(msgs[..|msgs| - 1], m) + if msgs[|msgs| - 1] == m then 1 else 0
  }

  lemma {:induction false} CountsAll(msgs: seq<Msg>)
    ensures |msgs| == Count(msgs, Recv) + Count(msgs, Transfer) + Count(msgs, Stake) + Count(msgs, Gov)
  {
    if msgs != [] {
      CountsAll(msgs[..|msgs| - 1]);
    }
  }

  lemma {:induction false} Counters(k: Scheme, g: Growth, msgs: seq<Msg>)
    ensures var s := After(k, g, msgs);
            && s.txCount == |msgs| && s.recvAccounts == Count(msgs, Recv)
            && s.userTxCount == |msgs| - Count(msgs, Recv) && (s.relayerStored <==> Count(msgs, Recv) > 0)
  {
    if msgs != [] {
      Counters(k, g, msgs[..|msgs| - 1]);
    }
  }

  /** The user accounts are as many as the growth curve's highest value up to now. */
  lemma {:induction false} UserAccounts(k: Scheme, g: Growth, msgs: seq<Msg>)
    ensures var s := After(k, g, msgs);
            && (forall n: nat :: 1 <= n <= s.userTxCount ==> g[n] <= s.userAccounts)
            && (s.userAccounts == 0 || exists n: nat :: 1 <= n <= s.userTxCount && g[n] == s.userAccounts)
  {
    if msgs != [] {
      UserAccounts(k, g, msgs[..|msgs| - 1]);
      var s, r := After(k, g, msgs[..|msgs| - 1]), After(k, g, msgs);
      if r.userAccounts != s.userAccounts {
        assert g[r.userTxCount] == r.userAccounts;
      }
    }
  }

  /** Every transaction carries the envelope, its body, a public key and a signature. */
  function TxBytes(k: Scheme, msgs: seq<Msg>): int {
    |msgs| * (110 + k.pubKeySize + k.sigSize)
    + 4513 * Count(msgs, Recv) + 112 * Count(msgs, Transfer) + 95 * Count(msgs, Stake) + 55 * Count(msgs, Gov)
  }

  lemma {:induction false} TransactionBytes(k: Scheme, g: Growth, msgs: seq<Msg>)
    ensures After(k, g, msgs).totalTxBytes == TxBytes(k, msgs)
  {
    if msgs != [] {
      TransactionBytes(k, g, msgs[..|msgs| - 1]);
      Radix.Expand(|msgs| - 1, 1, 110 + k.pubKeySize + k.sigSize);
    }
  }

  /** What a sample says, after any messages. */
  lemma SampleIs(k: Scheme, g: Growth, msgs: seq<Msg>)
    ensures var s, x := After(k, g, msgs), Snapshot(k, After(k, g, msgs));
            && x.txCount == |msgs| && x.totalTxBytes == TxBytes(k, msgs)
            && x.uniqueAccounts == s.userAccounts + Count(msgs, Recv) + (if Count(msgs, Recv) > 0 then 1 else 0)
            && x.totalStateBytes == 100 * x.uniqueAccounts + (x.uniqueAccounts - Count(msgs, Recv)) * k.pubKeySize
            && x.stateBytesAfterFirstSignature == x.uniqueAccounts * (100 + k.pubKeySize)
  {
    Counters(k, g, msgs);
    TransactionBytes(k, g, msgs);
    StateBytes(k, g, msgs);
    EveryAccountSigned(k, After(k, g, msgs));
  }

  // ----- the simulator

  datatype Sample = Sample(txCount: nat, totalStateBytes: nat, totalTxBytes: nat, uniqueAccounts: nat,
      stateBytesAfterFirstSignature: nat)

  function Snapshot(k: Scheme, s: Sim): Sample {
    Sample(s.txCount, s.totalStateBytes, s.totalTxBytes, s.uniqueAccounts, AfterFirstSignature(k, s))
  }

  ghost predicate Increasing(points: seq<int>) {
    forall i, j :: 0 <= i < j < |points| ==> points[i] < points[j]
  }

  function Clamp(p: int, max: int): int {
    if p < 1 then 1 else if p > max then max else p
  }

  method Insert(points: seq<int>, p: int) returns (r: seq<int>)
    requires Increasing(points)
    ensures Increasing(r) && forall x :: x in r <==> x in points || x == p
  {
    var i := 0;
    while i < |points| && points[i] < p
      invariant 0 <= i <= |points| && forall j :: 0 <= j < i ==> points[j] < p
    {
      i := i + 1;
    }
    if i < |points| && points[i] == p {
      return points;
    }
    r := points[..i] + [p] + points[i..];
    assert points == points[..i] + points[i..];
  }

  /** The checkpoints: increasing, between 1 and max, with max the last. `powers` are the rounded powers of
      max that space them, and can be any numbers. */
  method LogSamplePoints(max: int, n: int, powers: seq<int>) returns (r: seq<int>)
    ensures Increasing(r) && (max <= 0 ==> r == []) && (max > 0 ==> max in r)
    ensures forall p :: p in r ==> 1 <= p <= max
    ensures 0 < max <= n ==> r == seq(max, i => i + 1)
    ensures max > n && max > 0 ==>
      forall p :: p in r <==> p == max || exists i :: 0 <= i < |powers| && p == Clamp(powers[i], max)
    ensures max > n && max > 0 ==> forall i :: 0 <= i < |powers| && 1 <= powers[i] <= max ==> powers[i] in r
  {
    if max <= 0 {
      return [];
    }
    if max <= n {
      r := seq(max, i => i + 1);
      assert r[max - 1] == max;
      return;
    }
    r := [];
    for i := 0 to |powers|
      invariant Increasing(r)
      invariant forall p :: p in r <==> exists j :: 0 <= j < i && p == Clamp(powers[j], max)
    {
      r := Insert(r, Clamp(powers[i], max));
    }
    r := Insert(r, max);
  }

  lemma AfterSnoc(k: Scheme, g: Growth, msgs: seq<Msg>, i: nat)
    requires i < |msgs|
    ensures After(k, g, msgs[..i + 1]) == Next(k, g, After(k, g, msgs[..i]), msgs[i])
  {
    assert msgs[..i + 1][..i] == msgs[..i];
  }

  /** The samples taken at the points, after the one at the origin. */
  ghost predicate Sampled(k: Scheme, g: Growth, msgs: seq<Msg>, points: seq<int>, out: seq<Sample>) {
    && |out| == |points| + 1 && out[0] == Snapshot(k, ORIGIN)
    && forall i :: 0 <= i < |points| ==>
         0 <= points[i] <= |msgs| && out[i + 1] == Snapshot(k, After(k, g, msgs[..points[i]]))
  }

  lemma SampledSnoc(k: Scheme, g: Growth, msgs: seq<Msg>, points: seq<int>, out: seq<Sample>, p: nat, s: Sim)
    requires Sampled(k, g, msgs, points, out) && p <= |msgs| && s == After(k, g, msgs[..p])
    ensures Sampled(k, g, msgs, points + [p], out + [Snapshot(k, s)])
  {
  }

  class Simulator {
    const scheme: Scheme
    const growth: Growth
    var txCount: nat
    var userTxCount: nat
    var totalTxBytes: nat
    var totalStateBytes: nat
    var uniqueAccounts: nat
    var userAccounts: nat
    var recvAccounts: nat
    var relayerStored: bool

    function View(): Sim
      reads this
    {
      Sim(txCount, userTxCount, totalTxBytes, totalStateBytes, uniqueAccounts, userAccounts, recvAccounts,
        relayerStored)
    }

    constructor (scheme: Scheme, growth: Growth)
      ensures View() == ORIGIN && this.scheme == scheme && this.growth == growth
    {
      this.scheme, this.growth := scheme, growth;
      txCount, userTxCount, totalTxBytes, totalStateBytes := 0, 0, 0, 0;
      uniqueAccounts, userAccounts, recvAccounts, relayerStored := 0, 0, 0, false;
    }

    method Step(msg: Msg)
      modifies this
      ensures View() == Next(scheme, growth, old(View()), msg)
    {
      totalTxBytes := totalTxBytes + TX_ENVELOPE_OVERHEAD + BodySize(msg) + scheme.pubKeySize + scheme.sigSize;
      txCount := txCount + 1;
      if msg.Recv? {
        if !relayerStored {
          relayerStored := true;
          uniqueAccounts := uniqueAccounts + 1;
          totalStateBytes := totalStateBytes + ACCOUNT_STATE_OVERHEAD + scheme.pubKeySize;
        }
        recvAccounts := recvAccounts + 1;
        uniqueAccounts := uniqueAccounts + 1;
        totalStateBytes := totalStateBytes + ACCOUNT_STATE_OVERHEAD;
        return;
      }
      userTxCount := userTxCount + 1;
      var target := growth[userTxCount];
      if target > userAccounts {
        var delta := target - userAccounts;
        userAccounts := target;
        uniqueAccounts := uniqueAccounts + delta;
        totalStateBytes := totalStateBytes + delta * (ACCOUNT_STATE_OVERHEAD + scheme.pubKeySize);
      }
    }

    /** A step on the next of the messages. */
    method StepOn(msgs: seq<Msg>)
      requires txCount < |msgs| && View() == After(scheme, growth, msgs[..txCount])
      modifies this
      ensures txCount == old(txCount) + 1 && View() == After(scheme, growth, msgs[..txCount])
    {
      AfterSnoc(scheme, growth, msgs, txCount);
      Step(msgs[txCount]);
    }

    /** Takes the samples due now. */
    method Emit(ghost msgs: seq<Msg>, points: seq<int>, pIdx: nat, out: seq<Sample>)
        returns (pIdx': nat, out': seq<Sample>)
      requires Increasing(points) && pIdx <= |points| && (pIdx < |points| ==> points[pIdx] >= txCount)
      requires txCount <= |msgs| && View() == After(scheme, growth, msgs[..txCount])
      requires Sampled(scheme, growth, msgs, points[..pIdx], out)
      ensures pIdx' <= |points| && (pIdx' < |points| ==> points[pIdx'] > txCount)
      ensures Sampled(scheme, growth, msgs, points[..pIdx'], out')
    {
      pIdx', out' := pIdx, out;
      while pIdx' < |points| && txCount == points[pIdx']
        invariant pIdx' <= |points| && (pIdx' < |points| ==> points[pIdx'] >= txCount)
        invariant Sampled(scheme, growth, msgs, points[..pIdx'], out')
      {
        SampledSnoc(scheme, growth, msgs, points[..pIdx'], out', txCount, View());
        assert points[..pIdx' + 1] == points[..pIdx'] + [txCount];
        out' := out' + [Snapshot(scheme, View())];
        pIdx' := pIdx' + 1;
      }
    }

    /** One sample at the origin, and one at each checkpoint, in order, of the state after that many
        messages. */
    method Run(msgs: seq<Msg>, points: seq<int>) returns (out: seq<Sample>)
      requires View() == ORIGIN && Increasing(points) && forall i :: 0 <= i < |points| ==> 1 <= points[i] <= |msgs|
      modifies this
      ensures View() == After(scheme, growth, msgs)
      ensures Sampled(scheme, growth, msgs, points, out)
    {
      out := [Sample(0, 0, 0, 0, 0)];
      var pIdx: nat := 0;
      while txCount < |msgs|
        invariant txCount <= |msgs| && View() == After(scheme, growth, msgs[..txCount])
        invariant pIdx <= |points| && Sampled(scheme, growth, msgs, points[..pIdx], out)
        invariant pIdx < |points| ==> points[pIdx] > txCount
        decreases |msgs| - txCount
      {
        StepOn(msgs);
        pIdx, out := Emit(msgs, points, pIdx, out);
      }
      assert pIdx == |points|;
      assert msgs[..|msgs|] == msgs && points[..|points|] == points;
    }
  }
}
