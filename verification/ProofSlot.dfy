/** Which consensus state a batch of packets is proved against
    (experiments/migration_cost/relay-recv-batch.js, devnet/step-native-recv.js), and the one state that a
    whole wave of flows shares (experiments/migration_cost/measure_data.py). */
module ProofSlot {
  import opened Wrappers

  /** A finalized header: its beacon slot and its execution block. */
  datatype Header = Header(slot: nat, block: nat)

  datatype Phase = All | Prepare | Deliver

  /** The execution block of every beacon slot there is a block for. */
  type Blocks = map<nat, nat>

  ghost predicate Monotone(blocks: Blocks) {
    forall s, t :: s in blocks && t in blocks && s <= t ==> blocks[s] <= blocks[t]
  }

  /** Polls until finality covers the block, or the deadline. */
  method AwaitFinality(polls: seq<Header>, sendBlock: nat) returns (r: Option<Header>)
    ensures r.None? <==> forall i :: 0 <= i < |polls| ==> polls[i].block < sendBlock
    ensures r.Some? ==> exists i :: 0 <= i < |polls| && polls[i] == r.value && polls[i].block >= sendBlock
                                    && forall j :: 0 <= j < i ==> polls[j].block < sendBlock
  {
    for i := 0 to |polls|
      invariant forall j :: 0 <= j < i ==> polls[j].block < sendBlock
    {
      if polls[i].block >= sendBlock {
        return Some(polls[i]);
      }
    }
    return None;
  }

  /** The largest slot held at or after `from`. */
  ghost predicate NewestFrom(have: seq<nat>, from: nat, slot: nat) {
    slot in have && slot >= from && forall s :: s in have && s >= from ==> s <= slot
  }

  /** The largest slot held whose block is at or after `block`. */
  ghost predicate NewestCovering(have: seq<nat>, blocks: Blocks, block: nat, slot: nat) {
    && slot in have && slot in blocks && blocks[slot] >= block
    && forall s :: s in have && s in blocks && blocks[s] >= block ==> s <= slot
  }

  /** The slot to prove at. A pinned one has only to be held. A delivery takes the newest state that covers
      its own batch; otherwise the newest at or after the finalized header just seen. */
  method ChooseSlot(phase: Phase, pinned: Option<nat>, have: seq<nat>, blocks: Blocks, header: Option<Header>,
      sendBlock: nat)
    returns (r: Option<nat>)
    requires forall s :: s in have ==> s in blocks
    requires phase.Deliver? || header.Some?
    ensures pinned.Some? ==> r == if pinned.value in have then pinned else None
    ensures pinned.None? && phase.Deliver? ==>
              if r.Some? then NewestCovering(have, blocks, sendBlock, r.value)
              else forall s :: s in have ==> blocks[s] < sendBlock
    ensures pinned.None? && !phase.Deliver? ==>
              if r.Some? then NewestFrom(have, header.value.slot, r.value)
              else forall s :: s in have ==> s < header.value.slot
  {
    if pinned.Some? {
      return if pinned.value in have then pinned else None;
    }
    r := None;
    for i := 0 to |have|
      invariant r.None? ==> forall j :: 0 <= j < i ==>
                  if phase.Deliver? then blocks[have[j]] < sendBlock else have[j] < header.value.slot
      invariant r.Some? ==>
                  && r.value in have
                  && (if phase.Deliver? then blocks[r.value] >= sendBlock else r.value >= header.value.slot)
                  && forall j :: 0 <= j < i ==>
                       have[j] <= r.value ||
                       if phase.Deliver? then blocks[have[j]] < sendBlock else have[j] < header.value.slot
    {
      var usable := if phase.Deliver? then blocks[have[i]] >= sendBlock else have[i] >= header.value.slot;
      if usable && (r.None? || have[i] > r.value) {
        r := Some(have[i]);
      }
    }
  }

  /** The single step script's choice: the header's own slot if held, else the least after it. */
  method ChooseNearest(have: seq<nat>, proofSlot: nat) returns (r: Option<nat>)
    ensures r.None? <==> forall s :: s in have ==> s < proofSlot
    ensures r.Some? ==> r.value in have && r.value >= proofSlot
    ensures r.Some? ==> forall s :: s in have && s >= proofSlot ==> r.value <= s
  {
    if proofSlot in have {
      return Some(proofSlot);
    }
    r := None;
    for i := 0 to |have|
      invariant r.None? ==> forall j :: 0 <= j < i ==> have[j] < proofSlot
      invariant r.Some? ==> r.value in have && r.value >= proofSlot
                            && forall j :: 0 <= j < i && have[j] >= proofSlot ==> r.value <= have[j]
    {
      if have[i] >= proofSlot && (r.None? || have[i] < r.value) {
        r := Some(have[i]);
      }
    }
  }

  /** A slot at or after a header that covers the block covers it too. */
  lemma LaterCovers(blocks: Blocks, header: Header, sendBlock: nat, slot: nat)
    requires Monotone(blocks) && header.slot in blocks && blocks[header.slot] == header.block >= sendBlock
    requires slot in blocks && slot >= header.slot
    ensures blocks[slot] >= sendBlock
  {
    assert blocks[header.slot] <= blocks[slot];
  }

  // ----- a wave of flows

  datatype Packet = Packet(committed: bool, blockNumber: nat)

  function Committed(send: seq<Packet>): seq<Packet> {
    if send == [] then []
    else
      var last := send[|send| - 1];
      Committed(send[..|send| - 1]) + if last.committed then [last] else []
  }

  lemma {:induction false} CommittedWithin(send: seq<Packet>)
    ensures |Committed(send)| <= |send|
  {
    if send != [] {
      CommittedWithin(send[..|send| - 1]);
    }
  }

  /** Exactly the packets that committed, in the order they were sent. */
  lemma {:induction false} CommittedAt(send: seq<Packet>, i: nat)
    requires i < |send| && send[i].committed
    ensures |Committed(send[..i])| < |Committed(send)| && Committed(send)[|Committed(send[..i])|] == send[i]
  {
    var n := |send| - 1;
    if i < n {
      CommittedAt(send[..n], i);
      assert send[..n][..i] == send[..i];
    }
  }

  lemma {:induction false} OnlyCommitted(send: seq<Packet>, k: nat)
    requires k < |Committed(send)|
    ensures Committed(send)[k].committed && Committed(send)[k] in send
  {
    var before := send[..|send| - 1];
    if k < |Committed(before)| {
      OnlyCommitted(before, k);
    }
  }

  /** The newest send block, if there is a packet. */
  function Newest(ps: seq<Packet>): Option<nat> {
    if ps == [] then None
    else
      var last, before := ps[|ps| - 1].blockNumber, Newest(ps[..|ps| - 1]);
      if before.Some? && before.value > last then before else Some(last)
  }

  /** No packet of the flow was sent after the block. */
  ghost predicate NoneAfter(send: seq<Packet>, block: nat) {
    forall i :: 0 <= i < |send| && send[i].committed ==> send[i].blockNumber <= block
  }

  lemma {:induction false} NewestBounds(send: seq<Packet>)
    ensures var r := Newest(Committed(send)); if r.Some? then NoneAfter(send, r.value) else NoneAfter(send, 0)
  {
    if send != [] {
      var before, last := send[..|send| - 1], send[|send| - 1];
      NewestBounds(before);
      assert (Committed(before) + [last])[..|Committed(before)|] == Committed(before);
      assert Committed(before) + [] == Committed(before);
      forall i | 0 <= i < |send| - 1 && send[i].committed ensures before[i] == send[i] {}
    }
  }

  /** The batch a run takes from the send file: exactly `count` committed packets, or an error. */
  function Batch(send: seq<Packet>, count: nat): (r: Option<seq<Packet>>)
    ensures r.Some? <==> |Committed(send)| >= count
    ensures r.Some? ==> |r.value| == count && r.value <= Committed(send)
  {
    if |Committed(send)| < count then None else Some(Committed(send)[..count])
  }

  lemma BoundGrows(send: seq<Packet>, a: nat, b: nat)
    requires a <= b && NoneAfter(send, a)
    ensures NoneAfter(send, b)
  {
  }

  function NewestSend(send: seq<Packet>): Option<nat> {
    Newest(Committed(send))
  }

  /** A flow whose newest committed send block is highest. */
  ghost predicate IsLead(sends: seq<seq<Packet>>, lead: nat) {
    && lead < |sends| && NewestSend(sends[lead]).Some?
    && forall i :: 0 <= i < |sends| ==>
         NewestSend(sends[i]).Some? && NewestSend(sends[i]).value <= NewestSend(sends[lead]).value
  }

  /** The lead flow; an exception when some flow has nothing committed. */
  method Lead(sends: seq<seq<Packet>>) returns (r: Option<nat>)
    ensures r.None? <==> sends == [] || exists i :: 0 <= i < |sends| && NewestSend(sends[i]).None?
    ensures r.Some? ==> IsLead(sends, r.value)
  {
    var lead, best := 0, 0;
    for i := 0 to |sends|
      invariant i > 0 ==> lead < i && NewestSend(sends[lead]) == Some(best)
      invariant forall j :: 0 <= j < i ==> NewestSend(sends[j]).Some? && NewestSend(sends[j]).value <= best
    {
      var newest := NewestSend(sends[i]);
      if newest.None? {
        return None;
      }
      if i == 0 || newest.value > best {
        lead, best := i, newest.value;
      }
    }
    return if sends == [] then None else Some(lead);
  }

  /** A header is of a block the map knows. */
  ghost predicate Known(blocks: Blocks, h: Header) {
    h.slot in blocks && blocks[h.slot] == h.block
  }

  /** What preparing selects for a send block: a header that covers it, and the newest state from there on. */
  ghost predicate Selected(sendBlock: nat, header: Header, have: seq<nat>, blocks: Blocks, slot: nat) {
    && header.block >= sendBlock && Monotone(blocks) && Known(blocks, header)
    && slot in blocks && NewestFrom(have, header.slot, slot)
  }

  ghost predicate AllCovered(sends: seq<seq<Packet>>, block: nat) {
    forall i :: 0 <= i < |sends| ==> NoneAfter(sends[i], block)
  }

  /** A slot selected for the newest block of the lead flow covers every packet of every flow in the wave. */
  lemma WaveCovered(sends: seq<seq<Packet>>, lead: nat, sendBlock: nat, header: Header, have: seq<nat>,
      blocks: Blocks, slot: nat)
    requires IsLead(sends, lead) && NewestSend(sends[lead]) == Some(sendBlock)
    requires Selected(sendBlock, header, have, blocks, slot)
    ensures AllCovered(sends, blocks[slot])
  {
    LaterCovers(blocks, header, sendBlock, slot);
    forall i | 0 <= i < |sends| ensures NoneAfter(sends[i], blocks[slot]) {
      NewestBounds(sends[i]);
      BoundGrows(sends[i], NewestSend(sends[i]).value, blocks[slot]);
    }
  }

  lemma {:induction false} NewestOfPrefix(ps: seq<Packet>, n: nat)
    requires 0 < n <= |ps|
    ensures Newest(ps).Some? && Newest(ps[..n]).Some? && Newest(ps[..n]).value <= Newest(ps).value
  {
    if n == |ps| {
      assert ps[..n] == ps;
    } else {
      NewestOfPrefix(ps[..|ps| - 1], n);
      assert ps[..|ps| - 1][..n] == ps[..n];
    }
  }

  lemma {:induction false} BoundIsNewest(send: seq<Packet>, block: nat)
    requires NoneAfter(send, block)
    ensures NewestSend(send).Some? ==> NewestSend(send).value <= block
  {
    if send != [] {
      var before, last := send[..|send| - 1], send[|send| - 1];
      forall i | 0 <= i < |send| - 1 ensures before[i] == send[i] {}
      BoundIsNewest(before, block);
      assert (Committed(before) + [last])[..|Committed(before)|] == Committed(before);
      assert Committed(before) + [] == Committed(before);
    }
  }

  /** Whatever was finalized and is held, the slot prepared covers the whole wave. */
  ghost predicate AlwaysCovered(sends: seq<seq<Packet>>, sendBlock: nat) {
    forall header, have, blocks, slot :: Selected(sendBlock, header, have, blocks, slot) ==>
      AllCovered(sends, blocks[slot])
  }

  /** Finality that covers the batch prepared from the lead flow covers every flow exactly when that batch, the
      first packets committed, has the lead flow's newest one. */
  lemma WaveCoveredIff(sends: seq<seq<Packet>>, n: nat, lead: nat)
    requires IsLead(sends, lead) && 0 < n <= |Committed(sends[lead])|
    ensures var newest := Newest(Committed(sends[lead])[..n]);
            newest.Some? && (AlwaysCovered(sends, newest.value) <==> newest == NewestSend(sends[lead]))
  {
    NewestOfPrefix(Committed(sends[lead]), n);
    var b := Newest(Committed(sends[lead])[..n]).value;
    if b == NewestSend(sends[lead]).value {
      forall header, have, blocks, slot | Selected(b, header, have, blocks, slot)
        ensures AllCovered(sends, blocks[slot])
      {
        WaveCovered(sends, lead, b, header, have, blocks, slot);
      }
    } else {
      var blocks := map[0 := b];
      assert Selected(b, Header(0, b), [0], blocks, 0);
      if AllCovered(sends, blocks[0]) {
        BoundIsNewest(sends[lead], b);
        assert false;
      }
    }
  }

  /** Nothing is missing: every flow has all its packets committed, some header seen covers them all, and there
      is a state at or after every header seen. */
  ghost predicate Ripe(sends: seq<seq<Packet>>, n: nat, polls: seq<Header>, have: seq<nat>) {
    && sends != [] && n > 0 && (forall i :: 0 <= i < |sends| ==> |Committed(sends[i])| >= n)
    && (exists p :: 0 <= p < |polls| && forall i :: 0 <= i < |sends| ==>
          NewestSend(sends[i]).Some? ==> NewestSend(sends[i]).value <= polls[p].block)
    && (forall p :: 0 <= p < |polls| ==> exists s :: s in have && s >= polls[p].slot)
  }

  /** What a wave pins: the slot prepared for the lead flow, or no slot at the first error. With n records in
      every flow's send file, which is what submitting n writes, it covers every committed packet of every
      flow. */
  method PrepareWave(sends: seq<seq<Packet>>, n: nat, polls: seq<Header>, have: seq<nat>, blocks: Blocks)
    returns (r: Option<nat>)
    requires Monotone(blocks) && (forall s :: s in have ==> s in blocks)
    requires forall i :: 0 <= i < |polls| ==> Known(blocks, polls[i])
    ensures Ripe(sends, n, polls, have) ==> r.Some?
    ensures r.Some? ==> r.value in have && r.value in blocks
    ensures r.Some? && (forall i :: 0 <= i < |sends| ==> |sends[i]| == n) ==> AllCovered(sends, blocks[r.value])
  {
    var lead := Lead(sends);
    if lead.None? { return None; }
    var send := sends[lead.value];
    var batch := Batch(send, n);
    if batch.None? { return None; }
    var newest := 0;
    if n > 0 {
      NewestOfPrefix(Committed(send), n);
      newest := Newest(batch.value).value;
    }
    assert Ripe(sends, n, polls, have) ==> exists p :: 0 <= p < |polls| && newest <= polls[p].block;
    var header := AwaitFinality(polls, newest);
    if header.None? { return None; }
    assert Known(blocks, header.value);
    r := ChooseSlot(Prepare, None, have, blocks, header, newest);
    CommittedWithin(send);
    if r.Some? && |Committed(send)| <= n {
      assert Committed(send)[..n] == Committed(send);
      WaveCovered(sends, lead.value, newest, header.value, have, blocks, r.value);
    }
  }

  /** A batch of its own is covered by the slot chosen for it, whatever the phase. */
  lemma BatchCovered(batch: seq<Packet>, sendBlock: nat, header: Header, have: seq<nat>, blocks: Blocks, slot: nat)
    requires Newest(batch) == Some(sendBlock) && Monotone(blocks) && slot in blocks
    requires || NewestCovering(have, blocks, sendBlock, slot)
             || (header.slot in blocks && blocks[header.slot] == header.block >= sendBlock &&
               NewestFrom(have, header.slot, slot))
    ensures NoneAfter(batch, blocks[slot])
  {
    if !NewestCovering(have, blocks, sendBlock, slot) {
      LaterCovers(blocks, header, sendBlock, slot);
    }
    NewestIsBound(batch);
  }

  lemma {:induction false} NewestBound(ps: seq<Packet>, i: nat)
    requires i < |ps|
    ensures Newest(ps).Some? && ps[i].blockNumber <= Newest(ps).value
  {
    var before := ps[..|ps| - 1];
    NewestSnoc(before, ps[|ps| - 1]);
    assert ps == before + [ps[|ps| - 1]];
    if i < |before| {
      NewestBound(before, i);
    }
  }

  lemma NewestSnoc(before: seq<Packet>, last: Packet)
    ensures var r := Newest(before + [last]);
            && r.Some? && last.blockNumber <= r.value
            && (Newest(before).Some? ==> Newest(before).value <= r.value)
  {
    assert (before + [last])[..|before|] == before;
  }

  lemma NewestIsBound(ps: seq<Packet>)
    ensures ps != [] ==> Newest(ps).Some?
    ensures ps != [] ==> forall i :: 0 <= i < |ps| ==> ps[i].blockNumber <= Newest(ps).value
  {
    forall i | 0 <= i < |ps| ensures ps[i].blockNumber <= Newest(ps).value {
      NewestBound(ps, i);
    }
  }
}
