/** The bridge's packet protocol between the two chains: transfers and redemptions in both directions,
    finality, client updates, receipts, acknowledgements and replays. The handlers on the chains are
    external; their guards are those of docs/architecture.md and of the step scripts. A packet
    commitment stands for the packet it determines (see Ics24). */
module Bridge {
  import opened Wrappers

  datatype Chain = Ethereum | Cosmos

  type User = nat

  /** A token, native to its home chain and a voucher on the other. */
  datatype Asset = Asset(home: Chain, id: nat)

  datatype Holding = Holding(asset: Asset, user: User)

  datatype Transfer = Transfer(asset: Asset, amount: nat, sender: User, receiver: User)

  datatype Issue = Issue(holding: Holding, amount: nat)

  /** What a proof against one block can show: the commitments and the acknowledgements stored there. */
  datatype Block = Block(commitments: map<nat, Transfer>, acks: set<nat>)

  /** `issued`, `sent`, `credited` and `acked` are logs: they only grow, and no guard reads them. */
  datatype Side = Side(
    balances: map<Holding, nat>,
    escrow: map<Asset, nat>,
    commitments: map<nat, Transfer>,
    receipts: set<nat>,
    acks: set<nat>,
    blocks: seq<Block>,
    finalized: nat,
    trusted: set<nat>,
    issued: seq<Issue>,
    sent: seq<Transfer>,
    credited: seq<nat>,
    acked: seq<nat>)

  datatype State = State(ethereum: Side, cosmos: Side) {
    function At(c: Chain): Side {
      if c.Ethereum? then ethereum else cosmos
    }

    function With(c: Chain, x: Side): State {
      if c.Ethereum? then this.(ethereum := x) else this.(cosmos := x)
    }
  }

  datatype Action =
    | Mint(issue: Issue)
    | Send(transfer: Transfer)
    | Advance
    | Finalize(height: nat)
    | UpdateClient(height: nat)
    | Receive(sequence: nat, transfer: Transfer, height: nat)
    | Acknowledge(sequence: nat, height: nat)

  datatype Outcome = Done | NoOp | Rejected

  datatype Reply = Reply(side: Side, outcome: Outcome)

  const GENESIS := Side(map[], map[], map[], {}, {}, [], 0, {}, [], [], [], [])
  const INIT := State(GENESIS, GENESIS)

  function Other(c: Chain): Chain {
    if c.Ethereum? then Cosmos else Ethereum
  }

  function Of<K>(m: map<K, nat>, k: K): nat {
    if k in m then m[k] else 0
  }

  // ----- the handlers

  /** The token contract mints without restriction, and only the token's own chain holds it. */
  function DoMint(c: Chain, x: Side, i: Issue): Reply {
    if i.holding.asset.home != c then Reply(x, Rejected)
    else Reply(x.(balances := x.balances[i.holding := Of(x.balances, i.holding) + i.amount],
                  issued := x.issued + [i]), Done)
  }

  /** A native token goes into escrow, a voucher returning to its source is burned; either way the next
      sequence number's commitment is written. */
  function DoSend(c: Chain, x: Side, t: Transfer): Reply {
    var from := Holding(t.asset, t.sender);
    if Of(x.balances, from) < t.amount then Reply(x, Rejected)
    else Reply(x.(
      balances := x.balances[from := Of(x.balances, from) - t.amount],
      escrow := if t.asset.home == c then x.escrow[t.asset := Of(x.escrow, t.asset) + t.amount] else x.escrow,
      commitments := x.commitments[|x.sent| := t],
      sent := x.sent + [t]), Done)
  }

  function DoAdvance(x: Side): Reply {
    Reply(x.(blocks := x.blocks + [Block(x.commitments, x.acks)]), Done)
  }

  /** Finality covers every block below the given height, and never retreats. */
  function DoFinalize(x: Side, height: nat): Reply {
    if x.finalized <= height <= |x.blocks| then Reply(x.(finalized := height), Done) else Reply(x, Rejected)
  }

  /** A light client stores the consensus state of a finalized block of the chain it follows. */
  function DoUpdate(x: Side, other: Side, height: nat): Reply {
    if height < other.finalized then Reply(x.(trusted := x.trusted + {height}), Done) else Reply(x, Rejected)
  }

  predicate CommitmentProved(x: Side, other: Side, n: nat, t: Transfer, height: nat) {
    && height in x.trusted && height < |other.blocks|
    && n in other.blocks[height].commitments && other.blocks[height].commitments[n] == t
  }

  /** The receipt is looked at first, so a replay is a no-op whatever its proof. Then the proof. Then the
      token goes out of escrow on its home chain, or its voucher is minted. */
  function DoReceive(c: Chain, x: Side, other: Side, n: nat, t: Transfer, height: nat): Reply {
    var to := Holding(t.asset, t.receiver);
    if n in x.receipts then Reply(x, NoOp)
    else if !CommitmentProved(x, other, n, t, height) then Reply(x, Rejected)
    else if t.asset.home == c && Of(x.escrow, t.asset) < t.amount then Reply(x, Rejected)
    else Reply(x.(
      balances := x.balances[to := Of(x.balances, to) + t.amount],
      escrow := if t.asset.home == c then x.escrow[t.asset := Of(x.escrow, t.asset) - t.amount] else x.escrow,
      receipts := x.receipts + {n},
      acks := x.acks + {n},
      credited := x.credited + [n]), Done)
  }

  predicate AckProved(x: Side, other: Side, n: nat, height: nat) {
    height in x.trusted && height < |other.blocks| && n in other.blocks[height].acks
  }

  /** The commitment is cleared; with none left there is nothing to do. */
  function DoAcknowledge(x: Side, other: Side, n: nat, height: nat): Reply {
    if n !in x.commitments then Reply(x, NoOp)
    else if !AckProved(x, other, n, height) then Reply(x, Rejected)
    else Reply(x.(commitments := x.commitments - {n}, acked := x.acked + [n]), Done)
  }

  function Handle(c: Chain, x: Side, other: Side, a: Action): Reply {
    match a
    case Mint(i) => DoMint(c, x, i)
    case Send(t) => DoSend(c, x, t)
    case Advance => DoAdvance(x)
    case Finalize(h) => DoFinalize(x, h)
    case UpdateClient(h) => DoUpdate(x, other, h)
    case Receive(n, t, h) => DoReceive(c, x, other, n, t, h)
    case Acknowledge(n, h) => DoAcknowledge(x, other, n, h)
  }

  /** One transaction on one chain; a relayer may submit anything at any time. */
  function Step(s: State, c: Chain, a: Action): State {
    s.With(c, Handle(c, s.At(c), s.At(Other(c)), a).side)
  }

  function Run(run: seq<(Chain, Action)>): State {
    if run == [] then INIT else Step(Run(run[..|run| - 1]), run[|run| - 1].0, run[|run| - 1].1)
  }

  // ----- sums

  /** What all users of a chain hold of an asset. */
  ghost function Held(m: map<Holding, nat>, a: Asset): nat {
    if m == map[] then 0
    else
      var k :| k in m;
      (if k.asset == a then m[k] else 0) + Held(m - {k}, a)
  }

  lemma {:induction false} HeldSplit(m: map<Holding, nat>, k: Holding, a: Asset)
    requires k in m
    ensures Held(m, a) == (if k.asset == a then m[k] else 0) + Held(m - {k}, a)
    decreases m
  {
    var j :| j in m && Held(m, a) == (if j.asset == a then m[j] else 0) + Held(m - {j}, a);
    if j != k {
      HeldSplit(m - {j}, k, a);
      HeldSplit(m - {k}, j, a);
      assert m - {j} - {k} == m - {k} - {j};
    }
  }

  lemma HeldPut(m: map<Holding, nat>, k: Holding, v: nat, a: Asset)
    ensures Held(m[k := v], a) == Held(m, a) + if k.asset == a then v - Of(m, k) else 0
  {
    HeldSplit(m[k := v], k, a);
    assert m[k := v] - {k} == m - {k};
    if k in m {
      HeldSplit(m, k, a);
    } else {
      assert m - {k} == m;
    }
  }

  function Share(t: Transfer, a: Asset): nat {
    if t.asset == a then t.amount else 0
  }

  /** What the packets that the other side has not received carry of an asset. */
  ghost function InFlight(sent: seq<Transfer>, receipts: set<nat>, a: Asset): nat {
    if sent == [] then 0
    else
      var n := |sent| - 1;
      InFlight(sent[..n], receipts, a) + if n in receipts then 0 else Share(sent[n], a)
  }

  lemma InFlightSend(sent: seq<Transfer>, t: Transfer, receipts: set<nat>, a: Asset)
    requires |sent| !in receipts
    ensures InFlight(sent + [t], receipts, a) == InFlight(sent, receipts, a) + Share(t, a)
  {
    assert (sent + [t])[..|sent|] == sent;
  }

  lemma {:induction false} InFlightReceive(sent: seq<Transfer>, receipts: set<nat>, n: nat, a: Asset)
    requires n !in receipts
    ensures InFlight(sent, receipts, a)
         == InFlight(sent, receipts + {n}, a) + if n < |sent| then Share(sent[n], a) else 0
  {
    if sent != [] {
      InFlightReceive(sent[..|sent| - 1], receipts, n, a);
    }
  }

  ghost function Supply(issued: seq<Issue>, a: Asset): nat {
    if issued == [] then 0
    else
      var i := issued[|issued| - 1];
      Supply(issued[..|issued| - 1], a) + if i.holding.asset == a then i.amount else 0
  }

  ghost function IssuedTo(issued: seq<Issue>, k: Holding): nat {
    if issued == [] then 0
    else
      var i := issued[|issued| - 1];
      IssuedTo(issued[..|issued| - 1], k) + if i.holding == k then i.amount else 0
  }

  ghost function SentBy(sent: seq<Transfer>, k: Holding): nat {
    if sent == [] then 0
    else
      var t := sent[|sent| - 1];
      SentBy(sent[..|sent| - 1], k) + if Holding(t.asset, t.sender) == k then t.amount else 0
  }

  ghost function CreditedTo(credited: seq<nat>, sent: seq<Transfer>, k: Holding): nat
    requires forall i :: 0 <= i < |credited| ==> credited[i] < |sent|
  {
    if credited == [] then 0
    else
      var t := sent[credited[|credited| - 1]];
      CreditedTo(credited[..|credited| - 1], sent, k) + if Holding(t.asset, t.receiver) == k then t.amount else 0
  }

  lemma {:induction false} CreditedToSend(credited: seq<nat>, sent: seq<Transfer>, t: Transfer, k: Holding)
    requires forall i :: 0 <= i < |credited| ==> credited[i] < |sent|
    ensures CreditedTo(credited, sent + [t], k) == CreditedTo(credited, sent, k)
  {
    if credited != [] {
      CreditedToSend(credited[..|credited| - 1], sent, t, k);
    }
  }

  // ----- what every run keeps

  /** The commitments are among the packets sent. */
  ghost predicate Genuine(commitments: map<nat, Transfer>, sent: seq<Transfer>) {
    forall n :: n in commitments ==> n < |sent| && commitments[n] == sent[n]
  }

  /** A consensus state that `to` holds covers the commitment of packet n of `from`. */
  ghost predicate Covered(from: Side, to: Side, n: nat) {
    n < |from.sent| && exists h :: CommitmentProved(to, from, n, from.sent[n], h)
  }

  /** The sending side: a packet sent is either still committed or acknowledged, and not twice. */
  ghost predicate Sending(from: Side) {
    && Genuine(from.commitments, from.sent)
    && (forall h :: 0 <= h < |from.blocks| ==> Genuine(from.blocks[h].commitments, from.sent))
    && (forall n: nat :: n < |from.sent| ==> (n in from.commitments <==> n !in from.acked))
    && (forall n :: n in from.acked ==> n < |from.sent|)
    && Distinct(from.acked)
  }

  /** The receiving side: one credit, one receipt and one acknowledgement for each packet received. */
  ghost predicate Receiving(to: Side) {
    && (forall n :: n in to.credited <==> n in to.receipts)
    && Distinct(to.credited)
    && to.acks == to.receipts
    && (forall h :: 0 <= h < |to.blocks| ==> to.blocks[h].acks <= to.receipts)
  }

  /** The packets of `from`, as `to` sees them. */
  ghost predicate Linked(from: Side, to: Side) {
    && (forall h :: h in to.trusted ==> h < from.finalized)
    && from.finalized <= |from.blocks|
    && (forall n :: n in to.receipts ==> Covered(from, to, n))
    && (forall n :: n in from.acked ==> n in to.receipts)
  }

  ghost predicate Protocol(x: Side, other: Side) {
    && Sending(x) && Receiving(x) && Linked(x, other)
    && Sending(other) && Receiving(other) && Linked(other, x)
  }

  /** Escrow backs the vouchers held on the other chain and the packets under way in both directions, and
      with the users' holdings makes up the supply. */
  ghost predicate Backed(home: Side, away: Side, a: Asset) {
    && Of(home.escrow, a) == Held(away.balances, a) + InFlight(home.sent, away.receipts, a) +
      InFlight(away.sent, home.receipts, a)
    && Held(home.balances, a) + Of(home.escrow, a) == Supply(home.issued, a)
  }

  /** Every balance is what was issued and credited to the holder less what they sent. */
  ghost predicate Accounted(x: Side, other: Side, k: Holding) {
    && (forall i :: 0 <= i < |x.credited| ==> x.credited[i] < |other.sent|)
    && Of(x.balances, k) + SentBy(x.sent, k) == IssuedTo(x.issued, k) + CreditedTo(x.credited, other.sent, k)
  }

  /** The backing of one asset, on whichever side is its home. */
  ghost predicate BackedAt(c: Chain, x: Side, other: Side, a: Asset) {
    if a.home == c then Backed(x, other, a) else Backed(other, x, a)
  }

  ghost predicate Backing(c: Chain, x: Side, other: Side) {
    forall a: Asset :: BackedAt(c, x, other, a)
  }

  ghost predicate Accounts(x: Side, other: Side) {
    forall k: Holding :: Accounted(x, other, k)
  }

  ghost predicate Safe(s: State) {
    && Protocol(s.ethereum, s.cosmos)
    && Backing(Ethereum, s.ethereum, s.cosmos)
    && Accounts(s.ethereum, s.cosmos) && Accounts(s.cosmos, s.ethereum)
  }

  // ----- every handler keeps the protocol's invariant

  lemma CoveredKept(from: Side, to: Side, from': Side, to': Side)
    requires from.sent <= from'.sent && from.blocks <= from'.blocks && to.trusted <= to'.trusted
    ensures forall n: nat :: Covered(from, to, n) ==> Covered(from', to', n)
  {
    forall n: nat | Covered(from, to, n) ensures Covered(from', to', n) {
      var h :| CommitmentProved(to, from, n, from.sent[n], h);
      assert CommitmentProved(to', from', n, from'.sent[n], h);
    }
  }

  lemma SendKeepsSending(c: Chain, x: Side, t: Transfer)
    requires Sending(x)
    ensures Sending(DoSend(c, x, t).side)
  {
    var y := DoSend(c, x, t).side;
    if y != x {
      assert |x.sent| !in x.acked;
      forall h | 0 <= h < |y.blocks| ensures Genuine(y.blocks[h].commitments, y.sent) {
        assert Genuine(x.blocks[h].commitments, x.sent);
      }
    }
  }

  lemma SendKeepsProtocol(c: Chain, x: Side, other: Side, t: Transfer)
    requires Protocol(x, other)
    ensures Protocol(DoSend(c, x, t).side, other)
  {
    var y := DoSend(c, x, t).side;
    SendKeepsSending(c, x, t);
    CoveredKept(x, other, y, other);
    CoveredKept(other, x, other, y);
    assert Receiving(y);
  }

  lemma AdvanceKeepsProtocol(x: Side, other: Side)
    requires Protocol(x, other)
    ensures Protocol(DoAdvance(x).side, other)
  {
    var y := DoAdvance(x).side;
    CoveredKept(x, other, y, other);
    CoveredKept(other, x, other, y);
  }

  lemma QuietKeepsProtocol(x: Side, other: Side, y: Side)
    requires Protocol(x, other) && y == x.(balances := y.balances, issued := y.issued, finalized := y.finalized,
      trusted := y.trusted)
    requires x.finalized <= y.finalized <= |y.blocks| && x.trusted <= y.trusted
    requires forall h :: h in y.trusted ==> h < other.finalized
    ensures Protocol(y, other)
  {
    CoveredKept(x, other, y, other);
    CoveredKept(other, x, other, y);
  }

  lemma ReceiveKeepsReceiving(c: Chain, x: Side, other: Side, n: nat, t: Transfer, height: nat)
    requires Receiving(x)
    ensures Receiving(DoReceive(c, x, other, n, t, height).side)
  {
  }

  lemma ReceiveKeepsProtocol(c: Chain, x: Side, other: Side, n: nat, t: Transfer, height: nat)
    requires Protocol(x, other)
    ensures Protocol(DoReceive(c, x, other, n, t, height).side, other)
  {
    var y := DoReceive(c, x, other, n, t, height).side;
    ReceiveKeepsReceiving(c, x, other, n, t, height);
    CoveredKept(x, other, y, other);
    CoveredKept(other, x, other, y);
    if y != x {
      assert CommitmentProved(y, other, n, other.sent[n], height);
    }
  }

  lemma AcknowledgeKeepsSending(x: Side, other: Side, n: nat, height: nat)
    requires Sending(x)
    ensures Sending(DoAcknowledge(x, other, n, height).side)
  {
  }

  lemma AcknowledgeKeepsProtocol(x: Side, other: Side, n: nat, height: nat)
    requires Protocol(x, other)
    ensures Protocol(DoAcknowledge(x, other, n, height).side, other)
  {
    var y := DoAcknowledge(x, other, n, height).side;
    AcknowledgeKeepsSending(x, other, n, height);
    CoveredKept(x, other, y, other);
    CoveredKept(other, x, other, y);
  }

  lemma MintKeepsProtocol(c: Chain, x: Side, other: Side, i: Issue)
    requires Protocol(x, other)
    ensures Protocol(DoMint(c, x, i).side, other)
  {
    QuietKeepsProtocol(x, other, DoMint(c, x, i).side);
  }

  lemma FinalizeKeepsProtocol(x: Side, other: Side, h: nat)
    requires Protocol(x, other)
    ensures Protocol(DoFinalize(x, h).side, other)
  {
    QuietKeepsProtocol(x, other, DoFinalize(x, h).side);
  }

  lemma UpdateKeepsProtocol(x: Side, other: Side, h: nat)
    requires Protocol(x, other)
    ensures Protocol(DoUpdate(x, other, h).side, other)
  {
    QuietKeepsProtocol(x, other, DoUpdate(x, other, h).side);
  }

  lemma HandleKeepsProtocol(c: Chain, x: Side, other: Side, a: Action)
    requires Protocol(x, other)
    ensures Protocol(Handle(c, x, other, a).side, other)
  {
    match a
    case Mint(i) => MintKeepsProtocol(c, x, other, i);
    case Send(t) => SendKeepsProtocol(c, x, other, t);
    case Advance => AdvanceKeepsProtocol(x, other);
    case Finalize(h) => FinalizeKeepsProtocol(x, other, h);
    case UpdateClient(h) => UpdateKeepsProtocol(x, other, h);
    case Receive(n, t, h) => ReceiveKeepsProtocol(c, x, other, n, t, h);
    case Acknowledge(n, h) => AcknowledgeKeepsProtocol(x, other, n, h);
  }

  // ----- every handler keeps the money

  lemma FreshSequence(x: Side, other: Side)
    requires Protocol(x, other)
    ensures |x.sent| !in other.receipts
  {
    assert forall n :: n in other.receipts ==> Covered(x, other, n);
  }

  lemma ProvedWasSent(x: Side, other: Side, n: nat, t: Transfer, height: nat)
    requires Sending(other) && CommitmentProved(x, other, n, t, height)
    ensures n < |other.sent| && other.sent[n] == t
  {
    assert Genuine(other.blocks[height].commitments, other.sent);
  }

  /** Blocks, finality, client updates and acknowledgements move no money. */
  ghost predicate Still(x: Side, y: Side) {
    y == x.(commitments := y.commitments, blocks := y.blocks, finalized := y.finalized, trusted := y.trusted,
      acked := y.acked)
  }

  lemma StillKeepsMoney(c: Chain, x: Side, other: Side, y: Side)
    requires Still(x, y)
    ensures Backing(c, x, other) ==> Backing(c, y, other)
    ensures Accounts(x, other) ==> Accounts(y, other)
    ensures Accounts(other, x) ==> Accounts(other, y)
  {
    forall a: Asset | Backing(c, x, other) ensures BackedAt(c, y, other, a) {
      assert BackedAt(c, x, other, a);
    }
    forall k: Holding | Accounts(x, other) ensures Accounted(y, other, k) {
      assert Accounted(x, other, k);
    }
    forall k: Holding | Accounts(other, x) ensures Accounted(other, y, k) {
      assert Accounted(other, x, k);
    }
  }

  lemma SupplySnoc(issued: seq<Issue>, i: Issue, a: Asset)
    ensures Supply(issued + [i], a) == Supply(issued, a) + if i.holding.asset == a then i.amount else 0
  {
    assert (issued + [i])[..|issued|] == issued;
  }

  lemma HeldAdd(m: map<Holding, nat>, k: Holding, amount: nat, a: Asset)
    ensures Held(m[k := Of(m, k) + amount], a) == Held(m, a) + if k.asset == a then amount else 0
  {
    HeldPut(m, k, Of(m, k) + amount, a);
  }

  lemma MintKeepsBacked(c: Chain, x: Side, other: Side, i: Issue, a: Asset)
    requires DoMint(c, x, i).outcome.Done? && BackedAt(c, x, other, a)
    ensures BackedAt(c, DoMint(c, x, i).side, other, a)
  {
    HeldAdd(x.balances, i.holding, i.amount, a);
    SupplySnoc(x.issued, i, a);
  }

  lemma MintKeepsBacking(c: Chain, x: Side, other: Side, i: Issue)
    requires DoMint(c, x, i).outcome.Done? && Backing(c, x, other)
    ensures Backing(c, DoMint(c, x, i).side, other)
  {
    var y := DoMint(c, x, i).side;
    forall a: Asset ensures BackedAt(c, y, other, a) {
      MintKeepsBacked(c, x, other, i, a);
    }
  }

  lemma SendMoves(c: Chain, x: Side, t: Transfer, a: Asset)
    requires DoSend(c, x, t).outcome.Done?
    ensures Held(DoSend(c, x, t).side.balances, a) == Held(x.balances, a) - Share(t, a)
  {
    var from := Holding(t.asset, t.sender);
    HeldPut(x.balances, from, Of(x.balances, from) - t.amount, a);
  }

  lemma SendKeepsBacked(c: Chain, x: Side, other: Side, t: Transfer, a: Asset)
    requires DoSend(c, x, t).outcome.Done? && |x.sent| !in other.receipts && BackedAt(c, x, other, a)
    ensures BackedAt(c, DoSend(c, x, t).side, other, a)
  {
    SendMoves(c, x, t, a);
    InFlightSend(x.sent, t, other.receipts, a);
  }

  lemma SendKeepsBacking(c: Chain, x: Side, other: Side, t: Transfer)
    requires DoSend(c, x, t).outcome.Done? && |x.sent| !in other.receipts && Backing(c, x, other)
    ensures Backing(c, DoSend(c, x, t).side, other)
  {
    var y := DoSend(c, x, t).side;
    forall a: Asset ensures BackedAt(c, y, other, a) {
      SendKeepsBacked(c, x, other, t, a);
    }
  }

  lemma ReceiveMoves(c: Chain, x: Side, other: Side, n: nat, t: Transfer, height: nat, a: Asset)
    requires DoReceive(c, x, other, n, t, height).outcome.Done?
    ensures Held(DoReceive(c, x, other, n, t, height).side.balances, a) == Held(x.balances, a) + Share(t, a)
  {
    HeldAdd(x.balances, Holding(t.asset, t.receiver), t.amount, a);
  }

  lemma ReceiveKeepsBacked(c: Chain, x: Side, other: Side, n: nat, t: Transfer, height: nat, a: Asset)
    requires DoReceive(c, x, other, n, t, height).outcome.Done? && n < |other.sent| && other.sent[n] == t
    requires BackedAt(c, x, other, a)
    ensures BackedAt(c, DoReceive(c, x, other, n, t, height).side, other, a)
  {
    ReceiveMoves(c, x, other, n, t, height, a);
    InFlightReceive(other.sent, x.receipts, n, a);
  }

  lemma ReceiveKeepsBacking(c: Chain, x: Side, other: Side, n: nat, t: Transfer, height: nat)
    requires DoReceive(c, x, other, n, t, height).outcome.Done? && n < |other.sent| && other.sent[n] == t
    requires Backing(c, x, other)
    ensures Backing(c, DoReceive(c, x, other, n, t, height).side, other)
  {
    var y := DoReceive(c, x, other, n, t, height).side;
    forall a: Asset ensures BackedAt(c, y, other, a) {
      ReceiveKeepsBacked(c, x, other, n, t, height, a);
    }
  }

  lemma Unmoved(c: Chain, x: Side, other: Side, act: Action)
    requires act.Advance? || act.Finalize? || act.UpdateClient? || act.Acknowledge?
    ensures Still(x, Handle(c, x, other, act).side)
  {
  }

  lemma SentKeepsBacking(c: Chain, x: Side, other: Side, t: Transfer)
    requires Protocol(x, other) && Backing(c, x, other)
    ensures Backing(c, DoSend(c, x, t).side, other)
  {
    if DoSend(c, x, t).outcome.Done? {
      FreshSequence(x, other);
      SendKeepsBacking(c, x, other, t);
    }
  }

  lemma ReceivedKeepsBacking(c: Chain, x: Side, other: Side, n: nat, t: Transfer, height: nat)
    requires Protocol(x, other) && Backing(c, x, other)
    ensures Backing(c, DoReceive(c, x, other, n, t, height).side, other)
  {
    if DoReceive(c, x, other, n, t, height).outcome.Done? {
      ProvedWasSent(x, other, n, t, height);
      ReceiveKeepsBacking(c, x, other, n, t, height);
    }
  }

  lemma MintedKeepsBacking(c: Chain, x: Side, other: Side, i: Issue)
    requires Backing(c, x, other)
    ensures Backing(c, DoMint(c, x, i).side, other)
  {
    if DoMint(c, x, i).outcome.Done? {
      MintKeepsBacking(c, x, other, i);
    }
  }

  lemma HandleKeepsBacking(c: Chain, x: Side, other: Side, act: Action)
    requires Protocol(x, other) && Backing(c, x, other)
    ensures Backing(c, Handle(c, x, other, act).side, other)
  {
    match act
    case Mint(i) => MintedKeepsBacking(c, x, other, i);
    case Send(t) => SentKeepsBacking(c, x, other, t);
    case Receive(n, t, h) => ReceivedKeepsBacking(c, x, other, n, t, h);
    case _ =>
      Unmoved(c, x, other, act);
      StillKeepsMoney(c, x, other, Handle(c, x, other, act).side);
  }

  lemma MintKeepsAccounts(c: Chain, x: Side, other: Side, i: Issue)
    requires DoMint(c, x, i).outcome.Done? && Accounts(x, other) && Accounts(other, x)
    ensures Accounts(DoMint(c, x, i).side, other) && Accounts(other, DoMint(c, x, i).side)
  {
    var y := DoMint(c, x, i).side;
    forall k: Holding ensures Accounted(y, other, k) && Accounted(other, y, k) {
      assert y.issued[..|x.issued|] == x.issued;
      assert Accounted(x, other, k) && Accounted(other, x, k);
    }
  }

  lemma SendKeepsAccounts(c: Chain, x: Side, other: Side, t: Transfer)
    requires DoSend(c, x, t).outcome.Done? && Accounts(x, other) && Accounts(other, x)
    ensures Accounts(DoSend(c, x, t).side, other) && Accounts(other, DoSend(c, x, t).side)
  {
    var y := DoSend(c, x, t).side;
    forall k: Holding ensures Accounted(y, other, k) && Accounted(other, y, k) {
      assert y.sent[..|x.sent|] == x.sent;
      assert Accounted(x, other, k) && Accounted(other, x, k);
      CreditedToSend(other.credited, x.sent, t, k);
    }
  }

  lemma ReceiveKeepsAccounts(c: Chain, x: Side, other: Side, n: nat, t: Transfer, height: nat)
    requires DoReceive(c, x, other, n, t, height).outcome.Done? && n < |other.sent| && other.sent[n] == t
    requires Accounts(x, other) && Accounts(other, x)
    ensures Accounts(DoReceive(c, x, other, n, t, height).side, other)
    ensures Accounts(other, DoReceive(c, x, other, n, t, height).side)
  {
    var y := DoReceive(c, x, other, n, t, height).side;
    forall k: Holding ensures Accounted(y, other, k) && Accounted(other, y, k) {
      assert y.credited[..|x.credited|] == x.credited;
      assert Accounted(x, other, k) && Accounted(other, x, k);
    }
  }

  /** Every account on both sides. */
  ghost predicate AllAccounts(x: Side, other: Side) {
    Accounts(x, other) && Accounts(other, x)
  }

  lemma ReceivedKeepsAccounts(c: Chain, x: Side, other: Side, n: nat, t: Transfer, height: nat)
    requires Sending(other) && AllAccounts(x, other)
    ensures AllAccounts(DoReceive(c, x, other, n, t, height).side, other)
  {
    if DoReceive(c, x, other, n, t, height).outcome.Done? {
      ProvedWasSent(x, other, n, t, height);
      ReceiveKeepsAccounts(c, x, other, n, t, height);
    }
  }

  lemma SentKeepsAccounts(c: Chain, x: Side, other: Side, t: Transfer)
    requires AllAccounts(x, other)
    ensures AllAccounts(DoSend(c, x, t).side, other)
  {
    if DoSend(c, x, t).outcome.Done? {
      SendKeepsAccounts(c, x, other, t);
    }
  }

  lemma MintedKeepsAccounts(c: Chain, x: Side, other: Side, i: Issue)
    requires AllAccounts(x, other)
    ensures AllAccounts(DoMint(c, x, i).side, other)
  {
    if DoMint(c, x, i).outcome.Done? {
      MintKeepsAccounts(c, x, other, i);
    }
  }

  lemma HandleKeepsAccounts(c: Chain, x: Side, other: Side, act: Action)
    requires Protocol(x, other) && AllAccounts(x, other)
    ensures AllAccounts(Handle(c, x, other, act).side, other)
  {
    match act
    case Mint(i) => MintedKeepsAccounts(c, x, other, i);
    case Send(t) => SentKeepsAccounts(c, x, other, t);
    case Receive(n, t, h) => ReceivedKeepsAccounts(c, x, other, n, t, h);
    case _ =>
      Unmoved(c, x, other, act);
      StillKeepsMoney(c, x, other, Handle(c, x, other, act).side);
  }

  // ----- every run

  lemma Stepped(s: State, c: Chain, a: Action)
    ensures Step(s, c, a).At(c) == Handle(c, s.At(c), s.At(Other(c)), a).side
    ensures Step(s, c, a).At(Other(c)) == s.At(Other(c))
  {
  }

  /** The invariant as one of the chains sees it. */
  ghost predicate SafeAt(c: Chain, x: Side, other: Side) {
    Protocol(x, other) && Backing(c, x, other) && AllAccounts(x, other)
  }

  lemma BackingTurned(c: Chain, x: Side, other: Side)
    requires Backing(c, x, other)
    ensures Backing(Other(c), other, x)
  {
    forall a: Asset ensures BackedAt(Other(c), other, x, a) {
      assert BackedAt(c, x, other, a);
    }
  }

  lemma SafeFrom(s: State, c: Chain)
    requires Safe(s)
    ensures SafeAt(c, s.At(c), s.At(Other(c)))
  {
    BackingTurned(Ethereum, s.ethereum, s.cosmos);
  }

  lemma SafeTo(s: State, c: Chain)
    requires SafeAt(c, s.At(c), s.At(Other(c)))
    ensures Safe(s)
  {
    BackingTurned(c, s.At(c), s.At(Other(c)));
  }

  lemma HandleKeepsSafe(c: Chain, x: Side, other: Side, act: Action)
    requires SafeAt(c, x, other)
    ensures SafeAt(c, Handle(c, x, other, act).side, other)
  {
    HandleKeepsProtocol(c, x, other, act);
    HandleKeepsBacking(c, x, other, act);
    HandleKeepsAccounts(c, x, other, act);
  }

  lemma StepKeepsSafe(s: State, c: Chain, act: Action)
    requires Safe(s)
    ensures Safe(Step(s, c, act))
  {
    SafeFrom(s, c);
    HandleKeepsSafe(c, s.At(c), s.At(Other(c)), act);
    Stepped(s, c, act);
    SafeTo(Step(s, c, act), c);
  }

  /** For any number of packets, blocks, client updates and replays. */
  lemma {:induction false} RunSafe(run: seq<(Chain, Action)>)
    ensures Safe(Run(run))
  {
    if run != [] {
      RunSafe(run[..|run| - 1]);
      StepKeepsSafe(Run(run[..|run| - 1]), run[|run| - 1].0, run[|run| - 1].1);
    }
  }

  // ----- consequences

  /** In every reachable state a proved packet that was not received yet is received: its amount is still
      in escrow. */
  lemma EscrowNeverShort(run: seq<(Chain, Action)>, c: Chain, n: nat, t: Transfer, height: nat)
    requires var s := Run(run); n !in s.At(c).receipts && CommitmentProved(s.At(c), s.At(Other(c)), n, t, height)
    ensures var s := Run(run); DoReceive(c, s.At(c), s.At(Other(c)), n, t, height).outcome.Done?
  {
    var s := Run(run);
    var x, other := s.At(c), s.At(Other(c));
    RunSafe(run);
    SafeFrom(s, c);
    if t.asset.home == c {
      assert BackedAt(c, x, other, t.asset);
      ProvedWasSent(x, other, n, t, height);
      InFlightReceive(other.sent, x.receipts, n, t.asset);
    }
  }

  lemma RunStep(run: seq<(Chain, Action)>, c: Chain, a: Action)
    ensures Run(run + [(c, a)]) == Step(Run(run), c, a)
  {
    assert (run + [(c, a)])[..|run|] == run;
  }

  lemma HandleKeepsReceipts(c: Chain, x: Side, other: Side, a: Action)
    ensures x.receipts <= Handle(c, x, other, a).side.receipts
  {
  }

  lemma {:induction false} ReceiptsStay(run: seq<(Chain, Action)>, more: seq<(Chain, Action)>, c: Chain)
    ensures Run(run).At(c).receipts <= Run(run + more).At(c).receipts
    decreases |more|
  {
    if more == [] {
      assert run + more == run;
    } else {
      ReceiptsStay(run, more[..|more| - 1], c);
      var step := more[|more| - 1];
      var s := Run(run + more[..|more| - 1]);
      RunStep(run + more[..|more| - 1], step.0, step.1);
      assert run + more == run + more[..|more| - 1] + [(step.0, step.1)];
      HandleKeepsReceipts(step.0, s.At(step.0), s.At(Other(step.0)), step.1);
    }
  }

  /** Once received, a packet can be submitted again at any later point, with any proof and any contents:
      nothing changes, and it is not an error. */
  lemma ReplayIsNoOp(run: seq<(Chain, Action)>, more: seq<(Chain, Action)>, c: Chain, n: nat, t: Transfer, height: nat)
    requires n in Run(run).At(c).receipts
    ensures var s := Run(run + more);
            && Handle(c, s.At(c), s.At(Other(c)), Receive(n, t, height)).outcome == NoOp
            && Step(s, c, Receive(n, t, height)) == s
  {
    ReceiptsStay(run, more, c);
  }

  /** The block, the finality and the client update that make a proof at the next height possible. */
  function Expose(s: State, from: Chain): seq<(Chain, Action)> {
    var h := |s.At(from).blocks|;
    [(from, Advance), (from, Finalize(h + 1)), (Other(from), UpdateClient(h))]
  }

  /** The side followed, after the new block is final. */
  function Final(x: Side): Side {
    x.(blocks := x.blocks + [Block(x.commitments, x.acks)], finalized := |x.blocks| + 1)
  }

  /** The side following, after the client update. */
  function Following(y: Side, height: nat): Side {
    y.(trusted := y.trusted + {height})
  }

  lemma ExposedSteps(s: State, from: Chain, h: nat)
    requires h == |s.At(from).blocks| && s.At(from).finalized <= h
    ensures var r := Step(Step(Step(s, from, Advance), from, Finalize(h + 1)), Other(from), UpdateClient(h));
            r.At(from) == Final(s.At(from)) && r.At(Other(from)) == Following(s.At(Other(from)), h)
  {
    var s1 := Step(s, from, Advance);
    var s2 := Step(s1, from, Finalize(h + 1));
    Stepped(s, from, Advance);
    Stepped(s1, from, Finalize(h + 1));
    Stepped(s2, Other(from), UpdateClient(h));
  }

  lemma ExposeRuns(run: seq<(Chain, Action)>, s: State, from: Chain, h: nat)
    requires s == Run(run) && h == |s.At(from).blocks|
    ensures Run(run + Expose(s, from))
         == Step(Step(Step(s, from, Advance), from, Finalize(h + 1)), Other(from), UpdateClient(h))
  {
    RunStep(run, from, Advance);
    RunStep(run + [(from, Advance)], from, Finalize(h + 1));
    RunStep(run + [(from, Advance)] + [(from, Finalize(h + 1))], Other(from), UpdateClient(h));
    assert run + [(from, Advance)] + [(from, Finalize(h + 1))] + [(Other(from), UpdateClient(h))] ==
      run + Expose(s, from);
  }

  lemma Exposed(run: seq<(Chain, Action)>, from: Chain)
    ensures var s := Run(run);
            var r := Run(run + Expose(s, from));
            && r.At(from) == Final(s.At(from))
            && r.At(Other(from)) == Following(s.At(Other(from)), |s.At(from).blocks|)
  {
    var s := Run(run);
    var h := |s.At(from).blocks|;
    assert s.At(from).finalized <= h by {
      RunSafe(run);
      SafeFrom(s, from);
    }
    ExposeRuns(run, s, from, h);
    ExposedSteps(s, from, h);
  }

  /** A packet not received yet is still committed; one received was sent, and is committed until it is
      acknowledged. */
  lemma CommittedUntilAcknowledged(run: seq<(Chain, Action)>, from: Chain, n: nat)
    requires var s := Run(run);
             if n in s.At(Other(from)).receipts then n !in s.At(from).acked else n < |s.At(from).sent|
    ensures var x := Run(run).At(from); n < |x.sent| && n in x.commitments && x.commitments[n] == x.sent[n]
  {
    var s := Run(run);
    RunSafe(run);
    SafeFrom(s, from);
    if n in s.At(Other(from)).receipts {
      assert Covered(s.At(from), s.At(Other(from)), n);
    }
  }

  // ----- what a step does, on the fields a user can see

  /** Only the holding k has changed, by the amount. */
  ghost predicate Moved<K(!new)>(before: map<K, nat>, after: map<K, nat>, k: K, delta: int) {
    Of(after, k) == Of(before, k) + delta && forall j: K :: j != k ==> Of(after, j) == Of(before, j)
  }

  ghost predicate SameAmounts<K(!new)>(before: map<K, nat>, after: map<K, nat>) {
    forall k: K :: Of(after, k) == Of(before, k)
  }

  /** The sender has paid, into escrow on the token's own chain and out of existence elsewhere. */
  ghost predicate Paid(c: Chain, x: Side, y: Side, t: Transfer) {
    && Moved(x.balances, y.balances, Holding(t.asset, t.sender), 0 - t.amount)
    && (t.asset.home == c ==> Moved(x.escrow, y.escrow, t.asset, t.amount))
    && (t.asset.home != c ==> SameAmounts(x.escrow, y.escrow))
  }

  /** The receiver has been paid, out of escrow on the token's own chain and in new vouchers elsewhere. */
  ghost predicate PaidOut(c: Chain, x: Side, y: Side, t: Transfer) {
    && Moved(x.balances, y.balances, Holding(t.asset, t.receiver), t.amount)
    && (t.asset.home == c ==> Moved(x.escrow, y.escrow, t.asset, 0 - t.amount))
    && (t.asset.home != c ==> SameAmounts(x.escrow, y.escrow))
  }

  /** The packet is recorded under the next sequence number, and everything recorded before stays. */
  ghost predicate Recorded(x: Side, y: Side, t: Transfer) {
    && y.sent == x.sent + [t] && |x.sent| in y.commitments && y.commitments[|x.sent|] == t
    && forall n: nat :: n != |x.sent| ==>
         (n in y.commitments <==> n in x.commitments) && (n in x.commitments ==> y.commitments[n] == x.commitments[n])
  }

  /** A send goes through exactly when the sender has the amount, of a native token or of a voucher; then the
      sender pays and the packet is committed. Otherwise nothing happens. */
  lemma SendSucceedsIff(c: Chain, x: Side, other: Side, t: Transfer)
    ensures var r := Handle(c, x, other, Send(t));
            && (r.outcome == Done <==> Of(x.balances, Holding(t.asset, t.sender)) >= t.amount)
            && (r.outcome == Done ==> Paid(c, x, r.side, t) && Recorded(x, r.side, t))
            && (r.outcome != Done ==> r.side == x)
  {
  }

  /** Minting goes through exactly on the token's own chain, and then the holder has that much more. */
  lemma MintSucceedsIff(c: Chain, x: Side, other: Side, i: Issue)
    ensures var r := Handle(c, x, other, Mint(i));
            && (r.outcome == Done <==> i.holding.asset.home == c)
            && (r.outcome == Done ==> Moved(x.balances, r.side.balances, i.holding, i.amount))
            && SameAmounts(x.escrow, r.side.escrow) && (r.outcome != Done ==> r.side == x)
  {
  }

  /** An acknowledgement clears exactly its own commitment when it is proved, does nothing when there is none left,
      and is rejected otherwise. */
  lemma AcknowledgeSucceedsIff(c: Chain, x: Side, other: Side, n: nat, height: nat)
    ensures var r := Handle(c, x, other, Acknowledge(n, height));
            && (r.outcome == NoOp <==> n !in x.commitments)
            && (r.outcome == Done <==>
                  && n in x.commitments && height in x.trusted && height < |other.blocks|
                  && n in other.blocks[height].acks)
            && (r.outcome != Done ==> r.side == x)
            && (r.outcome == Done ==>
                  && r.side.acked == x.acked + [n] && n !in r.side.commitments
                  && forall m: nat :: m != n ==>
                       && (m in r.side.commitments <==> m in x.commitments)
                       && (m in x.commitments ==> r.side.commitments[m] == x.commitments[m]))
  {
  }

  /** Finality moves to any height there are blocks for, but never back; a client update is for any finalized block,
      and holds its consensus state from then on. */
  lemma FinalitySucceedsIff(c: Chain, x: Side, other: Side, height: nat)
    ensures var r := Handle(c, x, other, Finalize(height));
            && (r.outcome == Done <==> x.finalized <= height <= |x.blocks|)
            && r.side == if r.outcome == Done then x.(finalized := height) else x
    ensures var r := Handle(c, x, other, UpdateClient(height));
            && (r.outcome == Done <==> height < other.finalized)
            && r.side == if r.outcome == Done then x.(trusted := x.trusted + {height}) else x
  {
  }

  /** A receive is a no-op exactly for a packet already received, and rejected exactly when the commitment is not
      proved at a height held or, on the token's own chain, the escrow is short. */
  lemma ReceiveSucceedsIff(c: Chain, x: Side, other: Side, n: nat, t: Transfer, height: nat)
    ensures var r := Handle(c, x, other, Receive(n, t, height));
            && (r.outcome == NoOp <==> n in x.receipts)
            && (r.outcome == Done <==>
                  && n !in x.receipts && height in x.trusted && height < |other.blocks|
                  && n in other.blocks[height].commitments && other.blocks[height].commitments[n] == t
                  && (t.asset.home == c ==> t.amount <= Of(x.escrow, t.asset)))
            && (r.outcome != Done ==> r.side == x)
            && (r.outcome == Done ==> PaidOut(c, x, r.side, t) && r.side.receipts == x.receipts + {n})
  {
  }

  lemma ReceiveStep(s: State, to: Chain, n: nat, t: Transfer, h: nat)
    requires n !in s.At(to).receipts && DoReceive(to, s.At(to), s.At(Other(to)), n, t, h).outcome.Done?
    ensures var r := Step(s, to, Receive(n, t, h));
            n in r.At(to).receipts && PaidOut(to, s.At(to), r.At(to), t) && r.At(Other(to)) == s.At(Other(to))
  {
    Stepped(s, to, Receive(n, t, h));
  }

  /** The four steps that deliver packet n. */
  function Deliver(s: State, from: Chain, n: nat): seq<(Chain, Action)>
    requires n < |s.At(from).sent|
  {
    Expose(s, from) + [(Other(from), Receive(n, s.At(from).sent[n], |s.At(from).blocks|))]
  }

  /** From every reachable state, every packet sent and not yet received can be delivered, in four steps
      that pay its receiver its amount and nobody else anything. */
  lemma Deliverable(run: seq<(Chain, Action)>, from: Chain, n: nat)
    requires n < |Run(run).At(from).sent| && n !in Run(run).At(Other(from)).receipts
    ensures var s := Run(run);
            var r := Run(run + Deliver(s, from, n));
            && n in r.At(Other(from)).receipts
            && PaidOut(Other(from), s.At(Other(from)), r.At(Other(from)), s.At(from).sent[n])
            && r.At(from) == Final(s.At(from))
  {
    var s := Run(run);
    var t := s.At(from).sent[n];
    var h := |s.At(from).blocks|;
    Exposed(run, from);
    CommittedUntilAcknowledged(run, from, n);
    var next := run + Expose(s, from);
    EscrowNeverShort(next, Other(from), n, t, h);
    ReceiveStep(Run(next), Other(from), n, t, h);
    RunStep(next, Other(from), Receive(n, t, h));
    assert run + Deliver(s, from, n) == next + [(Other(from), Receive(n, t, h))];
  }

  // ----- there and back

  lemma SendStep(run: seq<(Chain, Action)>, from: Chain, t: Transfer)
    requires Of(Run(run).At(from).balances, Holding(t.asset, t.sender)) >= t.amount
    ensures var s := Run(run);
            var r := Run(run + [(from, Send(t))]);
            && Paid(from, s.At(from), r.At(from), t) && r.At(from).sent == s.At(from).sent + [t]
            && r.At(Other(from)) == s.At(Other(from)) && |s.At(from).sent| !in r.At(Other(from)).receipts
  {
    var s := Run(run);
    RunStep(run, from, Send(t));
    Stepped(s, from, Send(t));
    SendSucceedsIff(from, s.At(from), s.At(Other(from)), t);
    RunSafe(run);
    SafeFrom(s, from);
    FreshSequence(s.At(from), s.At(Other(from)));
  }

  /** Where a transfer has been sent and delivered. */
  ghost predicate Crossed(from: Chain, s: State, r: State, t: Transfer) {
    Paid(from, s.At(from), r.At(from), t) && PaidOut(Other(from), s.At(Other(from)), r.At(Other(from)), t)
  }

  /** From every reachable state, whoever has an amount can send it across. */
  lemma Crosses(run: seq<(Chain, Action)>, from: Chain, t: Transfer) returns (more: seq<(Chain, Action)>)
    requires Of(Run(run).At(from).balances, Holding(t.asset, t.sender)) >= t.amount
    ensures Crossed(from, Run(run), Run(run + more), t)
  {
    var n := |Run(run).At(from).sent|;
    SendStep(run, from, t);
    var sent := run + [(from, Send(t))];
    Deliverable(sent, from, n);
    var rest := Deliver(Run(sent), from, n);
    more := [(from, Send(t))] + rest;
    assert sent + rest == run + more;
  }

  /** The same transfer the other way. */
  function Back(t: Transfer): Transfer {
    Transfer(t.asset, t.amount, t.receiver, t.sender)
  }

  /** All that was moved is back where it was, and so are all balances and escrow accounts. */
  lemma CrossedBack(from: Chain, s: State, m: State, r: State, t: Transfer)
    requires Crossed(from, s, m, t) && Crossed(Other(from), m, r, Back(t))
    ensures SameAmounts(s.At(from).balances, r.At(from).balances)
    ensures SameAmounts(s.At(Other(from)).balances, r.At(Other(from)).balances)
    ensures SameAmounts(s.At(from).escrow, r.At(from).escrow)
    ensures SameAmounts(s.At(Other(from)).escrow, r.At(Other(from)).escrow)
  {
  }

  /** From every reachable state, whoever has an amount, of a native token or of a voucher, can send it across,
      and its receiver can send it back; then every balance and every escrow account is as it was. */
  lemma ThereAndBack(run: seq<(Chain, Action)>, from: Chain, t: Transfer)
      returns (there: seq<(Chain, Action)>, back: seq<(Chain, Action)>)
    requires Of(Run(run).At(from).balances, Holding(t.asset, t.sender)) >= t.amount
    ensures Crossed(from, Run(run), Run(run + there), t)
    ensures Crossed(Other(from), Run(run + there), Run(run + there + back), Back(t))
    ensures var s := Run(run);
            var r := Run(run + there + back);
            && SameAmounts(s.ethereum.balances, r.ethereum.balances)
            && SameAmounts(s.cosmos.balances, r.cosmos.balances)
            && SameAmounts(s.ethereum.escrow, r.ethereum.escrow) && SameAmounts(s.cosmos.escrow, r.cosmos.escrow)
  {
    there := Crosses(run, from, t);
    back := Crosses(run + there, Other(from), Back(t));
    CrossedBack(from, Run(run), Run(run + there), Run(run + there + back), t);
  }

  lemma AcknowledgeStep(s: State, from: Chain, n: nat, h: nat)
    requires n in s.At(from).commitments && AckProved(s.At(from), s.At(Other(from)), n, h)
    ensures var r := Step(s, from, Acknowledge(n, h));
            n !in r.At(from).commitments && r.At(from).acked == s.At(from).acked + [n]
  {
    Stepped(s, from, Acknowledge(n, h));
  }

  lemma ReceivedHasAck(run: seq<(Chain, Action)>, to: Chain, n: nat)
    requires n in Run(run).At(to).receipts
    ensures n in Run(run).At(to).acks
  {
    RunSafe(run);
    SafeFrom(Run(run), to);
  }

  /** And every packet received and not yet acknowledged can be acknowledged, which clears its
      commitment. */
  lemma Acknowledgeable(run: seq<(Chain, Action)>, from: Chain, n: nat)
    requires n in Run(run).At(Other(from)).receipts && n !in Run(run).At(from).acked
    ensures var s := Run(run);
            var r := Run(run + Expose(s, Other(from)) + [(from, Acknowledge(n, |s.At(Other(from)).blocks|))]);
            n !in r.At(from).commitments && r.At(from).acked == s.At(from).acked + [n]
  {
    var s := Run(run);
    var h := |s.At(Other(from)).blocks|;
    var next := run + Expose(s, Other(from));
    ReceivedHasAck(run, Other(from), n);
    CommittedUntilAcknowledged(run, from, n);
    Exposed(run, Other(from));
    AcknowledgeStep(Run(next), from, n, h);
    RunStep(next, from, Acknowledge(n, h));
  }
}
