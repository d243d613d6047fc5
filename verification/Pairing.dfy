/** Pairing an Ethereum-side client with a Cosmos-side client (devnet/create-eth-client.js), over any
    sequence of runs, each of which may stop after any step, while others add clients on both chains. */
module Pairing {
  import opened Wrappers

  type CosmosId = string
  type Address = nat
  type Verifier = nat

  /** The router numbers the clients it is not given a name for. */
  datatype ClientId = Numbered(n: nat) | Named(name: string)

  datatype EvmClient = EvmClient(address: Address, counterparty: CosmosId)

  /** `code` gives the verifier each deployed client contract was constructed with. */
  datatype World = World(
    clients: map<ClientId, EvmClient>,
    nextSeq: nat,
    code: map<Address, Verifier>,
    counterparties: map<CosmosId, ClientId>,
    deployEnv: Option<ClientId>)

  /** One invocation; `pin` is an ETH_CLIENT_ID set explicitly, which goes before the one in deploy.env. */
  datatype Job = Job(cosmosId: CosmosId, verifier: Verifier, pin: Option<ClientId>)

  datatype Pc =
    | Begin
    | Create
    | Deploy(existing: Option<ClientId>)
    | Add(existing: Option<ClientId>, address: Address)
    | Write(existing: Option<ClientId>, id: ClientId)
    | Register(id: ClientId)
    | Submit(id: ClientId)
    | Done(id: ClientId)
    | Thrown

  datatype Step = Step(world: World, pc: Pc)

  function Lookup<K, V>(m: map<K, V>, k: K): Option<V> {
    if k in m then Some(m[k]) else None
  }

  function EnvClient(w: World, job: Job): Option<ClientId> {
    if job.pin.Some? then job.pin else w.deployEnv
  }

  /** A client with live code, paired with the job's Cosmos client. */
  predicate Usable(w: World, job: Job, id: ClientId) {
    id in w.clients && w.clients[id].address in w.code && w.clients[id].counterparty == job.cosmosId
  }

  predicate Bound(w: World, job: Job, id: ClientId) {
    Usable(w, job, id) && w.code[w.clients[id].address] == job.verifier
  }

  /** Which of the reads whose failure the script takes for absence are answered: the configured client and its
      code, the counterparty before creating and before registering, and the last look at it. */
  datatype Reads = Reads(client: bool, before: bool, registered: bool, after: bool)

  const ANSWERED := Reads(true, true, true, true)

  /** One step of a run. `address` and `built` are where the deployment lands and the verifier it was built
      with, which are not the script's to choose. */
  function Next(w: World, job: Job, pc: Pc, address: Address, built: Verifier, seen: Reads): Step {
    match pc
    case Begin =>
      var e := EnvClient(w, job);
      if seen.client && e.Some? && Usable(w, job, e.value) then
        Step(w, if Bound(w, job, e.value) then Register(e.value) else Thrown)
      else Step(w, Create)
    case Create =>
      var existing := if seen.before then Lookup(w.counterparties, job.cosmosId) else None;
      Step(w, if existing.Some? && existing.value != Numbered(w.nextSeq) then Thrown else Deploy(existing))
    case Deploy(existing) =>
      if address in w.code then Step(w, Thrown)
      else Step(w.(code := w.code[address := built]), if built != job.verifier then Thrown else Add(existing, address))
    case Add(existing, addr) =>
      var id := Numbered(w.nextSeq);
      Step(w.(clients := w.clients[id := EvmClient(addr, job.cosmosId)], nextSeq := w.nextSeq + 1),
           if existing.Some? && existing.value != id then Thrown else Write(existing, id))
    case Write(_, id) =>
      Step(w.(deployEnv := Some(id)), Register(id))
    case Register(id) =>
      var existing := if seen.registered then Lookup(w.counterparties, job.cosmosId) else None;
      Step(w, if existing == Some(id) then Done(id) else if existing.Some? then Thrown else Submit(id))
    case Submit(id) =>
      if job.cosmosId in w.counterparties then Step(w, Thrown)
      else Step(w.(counterparties := w.counterparties[job.cosmosId := id]), if seen.after then Done(id) else Thrown)
    case Done(_) => Step(w, pc)
    case Thrown => Step(w, pc)
  }

  /** What happens: a run starts, takes a step, or stops; or somebody else deploys a contract, adds an
      Ethereum client, or registers a counterparty on Cosmos, which that chain allows once. */
  datatype Event =
    | Launch(job: Job)
    | Go(address: Address, built: Verifier, seen: Reads)
    | Stop
    | OtherDeploys(address: Address, verifier: Verifier)
    | OtherAdds(client: EvmClient)
    | OtherNames(name: string, client: EvmClient)
    | OtherRegisters(cosmosId: CosmosId, id: ClientId)

  datatype System = System(world: World, job: Job, pc: Pc)

  const NOBODY := Job("", 0, None)

  function Happen(s: System, e: Event): System {
    var w := s.world;
    match e
    case Launch(job) => System(w, job, Begin)
    case Go(address, built, seen) =>
      var r := Next(w, s.job, s.pc, address, built, seen);
      System(r.world, s.job, r.pc)
    case Stop => s.(pc := Thrown)
    case OtherDeploys(address, verifier) =>
      if address in w.code then s else s.(world := w.(code := w.code[address := verifier]))
    case OtherAdds(client) =>
      s.(world := w.(clients := w.clients[Numbered(w.nextSeq) := client], nextSeq := w.nextSeq + 1))
    case OtherNames(name, client) =>
      if Named(name) in w.clients then s else s.(world := w.(clients := w.clients[Named(name) := client]))
    case OtherRegisters(c, id) =>
      if c in w.counterparties then s else s.(world := w.(counterparties := w.counterparties[c := id]))
  }

  function Run(events: seq<Event>): System {
    if events == [] then System(World(map[], 0, map[], map[], None), NOBODY, Thrown)
    else Happen(Run(events[..|events| - 1]), events[|events| - 1])
  }

  lemma RunOn(events: seq<Event>, e: Event)
    ensures Run(events + [e]) == Happen(Run(events), e)
  {
    assert (events + [e])[..|events|] == events;
  }

  // ----- what every history keeps

  /** Everything in a is still in b. */
  ghost predicate Extends<K, V>(a: map<K, V>, b: map<K, V>) {
    forall k :: k in a ==> k in b && b[k] == a[k]
  }

  ghost predicate Grows(a: World, b: World) {
    Extends(a.clients, b.clients) && Extends(a.code, b.code) && Extends(a.counterparties, b.counterparties)
  }

  ghost predicate Counted(w: World) {
    forall n: nat :: Numbered(n) in w.clients ==> n < w.nextSeq
  }

  /** The two clients name each other, and the verifier is the requested one. */
  ghost predicate Paired(w: World, job: Job, id: ClientId) {
    Bound(w, job, id) && Lookup(w.counterparties, job.cosmosId) == Some(id)
  }

  /** Without an explicit pin, the client at hand is the one in deploy.env. */
  ghost predicate Recorded(s: System, id: ClientId) {
    s.job.pin == None ==> s.world.deployEnv == Some(id)
  }

  ghost predicate Inv(s: System) {
    && Counted(s.world)
    && match s.pc
       case Add(_, address) => Lookup(s.world.code, address) == Some(s.job.verifier)
       case Write(_, id) => Bound(s.world, s.job, id)
       case Register(id) => Bound(s.world, s.job, id) && Recorded(s, id)
       case Submit(id) => Bound(s.world, s.job, id) && Recorded(s, id)
       case Done(id) => Paired(s.world, s.job, id) && Recorded(s, id)
       case _ => true
  }

  lemma GoKeeps(s: System, e: Event)
    requires Inv(s) && e.Go?
    ensures Inv(Happen(s, e)) && Grows(s.world, Happen(s, e).world)
  {
    if s.pc.Add? {
      assert Numbered(s.world.nextSeq) !in s.world.clients;
    }
  }

  lemma OthersKeep(s: System, e: Event)
    requires Inv(s) && !e.Go?
    ensures Inv(Happen(s, e)) && Grows(s.world, Happen(s, e).world)
  {
    if e.OtherAdds? {
      assert Numbered(s.world.nextSeq) !in s.world.clients;
    }
  }

  lemma HappenKeeps(s: System, e: Event)
    requires Inv(s)
    ensures Inv(Happen(s, e)) && Grows(s.world, Happen(s, e).world)
  {
    if e.Go? {
      GoKeeps(s, e);
    } else {
      OthersKeep(s, e);
    }
  }

  lemma {:induction false} RunKeeps(events: seq<Event>)
    ensures Inv(Run(events))
  {
    if events != [] {
      RunKeeps(events[..|events| - 1]);
      HappenKeeps(Run(events[..|events| - 1]), events[|events| - 1]);
    }
  }

  /** Nothing on either chain is ever taken back: a Cosmos counterparty is set at most once, and a client
      keeps its contract, its counterparty and its verifier. */
  lemma {:induction false} SetOnce(events: seq<Event>, more: seq<Event>)
    ensures Grows(Run(events).world, Run(events + more).world)
    decreases |more|
  {
    if more == [] {
      assert events + more == events;
    } else {
      var m := |more| - 1;
      var before := events + more[..m];
      SetOnce(events, more[..m]);
      RunKeeps(before);
      HappenKeeps(Run(before), more[m]);
      assert events + more == before + [more[m]];
      RunOn(before, more[m]);
      GrowsOn(Run(events).world, Run(before).world, Run(events + more).world);
    }
  }

  lemma GrowsOn(a: World, b: World, c: World)
    requires Grows(a, b) && Grows(b, c)
    ensures Grows(a, c)
  {
  }

  /** The router has the client, which names the job's Cosmos client and has live code built with the job's
      verifier; and the Cosmos client names it. */
  ghost predicate Linked(w: World, job: Job, id: ClientId) {
    && id in w.clients && w.clients[id].counterparty == job.cosmosId
    && w.clients[id].address in w.code && w.code[w.clients[id].address] == job.verifier
    && job.cosmosId in w.counterparties && w.counterparties[job.cosmosId] == id
  }

  /** Every run that succeeds leaves the two clients naming each other with the requested verifier bound,
      and they stay so whatever happens later. */
  lemma SuccessPairs(events: seq<Event>, more: seq<Event>)
    requires Run(events).pc.Done?
    ensures Linked(Run(events).world, Run(events).job, Run(events).pc.id)
    ensures Linked(Run(events + more).world, Run(events).job, Run(events).pc.id)
  {
    RunKeeps(events);
    SetOnce(events, more);
  }

  // ----- a run nobody interferes with

  /** The world after the new client was added. */
  function Added(w: World, job: Job, address: Address): World {
    w.(code := w.code[address := job.verifier],
       clients := w.clients[Numbered(w.nextSeq) := EvmClient(address, job.cosmosId)], nextSeq := w.nextSeq + 1)
  }

  function Recording(w: World, id: ClientId): World {
    w.(deployEnv := Some(id))
  }

  function Rank(pc: Pc): nat {
    match pc
    case Begin => 7
    case Create => 6
    case Deploy(_) => 5
    case Add(_, _) => 4
    case Write(_, _) => 3
    case Register(_) => 2
    case Submit(_) => 1
    case _ => 0
  }

  /** The whole run, to success or exception. */
  function Alone(w: World, job: Job, pc: Pc, address: Address, built: Verifier, seen: Reads): Step
    decreases Rank(pc)
  {
    if pc.Done? || pc.Thrown? then Step(w, pc)
    else
      var r := Next(w, job, pc, address, built, seen);
      Alone(r.world, job, r.pc, address, built, seen)
  }

  /** A run that does not see the counterparty deploys, adds and records a client, and cannot register it. */
  lemma CreateUnread(w: World, job: Job, id: ClientId, address: Address, built: Verifier, seen: Reads)
    requires !seen.before && Lookup(w.counterparties, job.cosmosId) == Some(id) && id != Numbered(w.nextSeq)
    ensures var r := Alone(w, job, Create, address, built, seen);
            && r.pc == Thrown
            && r.world ==
                 if address in w.code then w
                 else if built != job.verifier then w.(code := w.code[address := built])
                 else Recording(Added(w, job, address), Numbered(w.nextSeq))
  {
    var added := Numbered(w.nextSeq);
    if address !in w.code && built == job.verifier {
      var w1 := w.(code := w.code[address := built]);
      var w2 := Added(w, job, address);
      var w3 := Recording(w2, added);
      RegisterRefused(w3, job, added, id, address, built, seen);
      assert Next(w1, job, Add(None, address), address, built, seen) == Step(w2, Write(None, added));
      assert Alone(w2, job, Write(None, added), address, built, seen) == Step(w3, Thrown);
      assert Alone(w1, job, Add(None, address), address, built, seen) == Step(w3, Thrown);
      assert Alone(w, job, Deploy(None), address, built, seen) == Step(w3, Thrown);
    } else {
      var r := Next(w, job, Deploy(None), address, built, seen);
      assert Alone(w, job, Deploy(None), address, built, seen) == Step(r.world, Thrown);
    }
    assert Next(w, job, Create, address, built, seen) == Step(w, Deploy(None));
  }

  /** A client other than the one Cosmos names is not registered, whatever is read. */
  lemma RegisterRefused(w: World, job: Job, id: ClientId, named: ClientId, address: Address, built: Verifier,
      seen: Reads)
    requires Lookup(w.counterparties, job.cosmosId) == Some(named) && id != named
    ensures Alone(w, job, Register(id), address, built, seen) == Step(w, Thrown)
  {
    assert Alone(w, job, Submit(id), address, built, seen) == Step(w, Thrown);
  }

  /** Enough is read for a rerun to stop before it deploys. */
  predicate Guarded(w: World, job: Job, address: Address, seen: Reads) {
    var e := EnvClient(w, job);
    (seen.client && e.Some? && Usable(w, job, e.value)) || seen.before || address in w.code
  }

  lemma RerunFound(w: World, job: Job, id: ClientId, address: Address, built: Verifier, seen: Reads)
    requires Paired(w, job, id) && seen.client && EnvClient(w, job).Some?
    requires Usable(w, job, EnvClient(w, job).value)
    ensures Alone(w, job, Begin, address, built, seen) ==
              Step(w, if EnvClient(w, job) == Some(id) && seen.registered then Done(id) else Thrown)
  {
    var e := EnvClient(w, job).value;
    if e != id {
      RegisterRefused(w, job, e, id, address, built, seen);
    } else if !seen.registered {
      assert Alone(w, job, Submit(id), address, built, seen) == Step(w, Thrown);
    }
    assert Next(w, job, Begin, address, built, seen) == Step(w, if Bound(w, job, e) then Register(e) else Thrown);
  }

  /** Running again when the two are paired: exactly when it changes nothing, and exactly when it succeeds.
      The pair stays in any case. */
  lemma RerunChangesNothing(w: World, job: Job, id: ClientId, address: Address, built: Verifier, seen: Reads)
    requires Counted(w) && Paired(w, job, id)
    ensures var r := Alone(w, job, Begin, address, built, seen);
            && (r.world == w <==> Guarded(w, job, address, seen))
            && r.pc == (if EnvClient(w, job) == Some(id) && seen.client && seen.registered then Done(id) else Thrown)
            && Paired(r.world, job, id) && Counted(r.world)
            && (r.world.deployEnv == w.deployEnv || r.world.deployEnv == Some(Numbered(w.nextSeq)))
  {
    var e := EnvClient(w, job);
    if seen.client && e.Some? && Usable(w, job, e.value) {
      RerunFound(w, job, id, address, built, seen);
    } else {
      assert Next(w, job, Begin, address, built, seen) == Step(w, Create);
      if seen.before {
        assert Alone(w, job, Create, address, built, seen) == Step(w, Thrown);
      } else {
        CreateUnread(w, job, id, address, built, seen);
      }
    }
  }

  /** What registers at the end. */
  lemma RegisterAlone(w: World, job: Job, id: ClientId, address: Address, built: Verifier)
    ensures var existing := Lookup(w.counterparties, job.cosmosId);
            var r := Alone(w, job, Register(id), address, built, ANSWERED);
            if existing == None || existing == Some(id)
            then r == Step(w.(counterparties := w.counterparties[job.cosmosId := id]), Done(id))
            else r == Step(w, Thrown)
  {
    var existing := Lookup(w.counterparties, job.cosmosId);
    if existing == None {
      assert Alone(w, job, Submit(id), address, built, ANSWERED) == Next(w, job, Submit(id), address, built, ANSWERED);
    } else if existing == Some(id) {
      assert w.counterparties[job.cosmosId := id] == w.counterparties;
    }
  }

  lemma CreateAlone(w: World, job: Job, address: Address, built: Verifier)
    ensures var existing := Lookup(w.counterparties, job.cosmosId);
            var id := Numbered(w.nextSeq);
            var r := Alone(w, job, Create, address, built, ANSWERED);
            && (r.pc.Done? <==>
                (existing == None || existing == Some(id)) && address !in w.code && built == job.verifier)
            && (r.pc.Done? ==> r.pc.id == id && r.world.deployEnv == Some(id) && r.world.nextSeq == w.nextSeq + 1)
            && (r.pc.Done? ==> id in r.world.clients && r.world.clients[id] == EvmClient(address, job.cosmosId))
            && (r.pc.Done? || r.pc.Thrown?)
  {
    var existing := Lookup(w.counterparties, job.cosmosId);
    var id := Numbered(w.nextSeq);
    if (existing == None || existing == Some(id)) && address !in w.code && built == job.verifier {
      var w1 := Next(w, job, Deploy(existing), address, built, ANSWERED).world;
      var w2 := Next(w1, job, Add(existing, address), address, built, ANSWERED).world;
      var w3 := w2.(deployEnv := Some(id));
      RegisterAlone(w3, job, id, address, built);
      assert Alone(w2, job, Write(existing, id), address, built, ANSWERED) ==
        Alone(w3, job, Register(id), address, built, ANSWERED);
      assert Alone(w1, job, Add(existing, address), address, built, ANSWERED) ==
        Alone(w2, job, Write(existing, id), address, built, ANSWERED);
      assert Alone(w, job, Deploy(existing), address, built, ANSWERED) ==
        Alone(w1, job, Add(existing, address), address, built, ANSWERED);
    } else if existing == None || existing == Some(id) {
      var r := Next(w, job, Deploy(existing), address, built, ANSWERED);
      assert Alone(w, job, Deploy(existing), address, built, ANSWERED) == Step(r.world, Thrown);
    }
  }

  /** Exactly when a run that nobody interferes with succeeds: with a usable configured client, when that
      has the verifier and Cosmos does not name another; without one, when Cosmos names nobody or the
      number the router will give next, and the deployment is as ordered. */
  lemma SucceedsIff(w: World, job: Job, address: Address, built: Verifier)
    ensures var e := EnvClient(w, job);
            var existing := Lookup(w.counterparties, job.cosmosId);
            Alone(w, job, Begin, address, built, ANSWERED).pc.Done? <==>
              if e.Some? && Usable(w, job, e.value)
              then Bound(w, job, e.value) && (existing == None || existing == e)
              else
                && (existing == None || existing == Some(Numbered(w.nextSeq)))
                && address !in w.code && built == job.verifier
  {
    var e := EnvClient(w, job);
    if e.Some? && Usable(w, job, e.value) {
      RegisterAlone(w, job, e.value, address, built);
    } else {
      CreateAlone(w, job, address, built);
    }
  }

  /** An undisturbed run that succeeds reuses the configured client exactly when the router has it, its address has
      code and it names the job's Cosmos client; otherwise it adds the router's next client and records it. */
  lemma ReusesIff(w: World, job: Job, address: Address, built: Verifier)
    requires Alone(w, job, Begin, address, built, ANSWERED).pc.Done?
    ensures var r := Alone(w, job, Begin, address, built, ANSWERED);
            var e := if job.pin.Some? then job.pin else w.deployEnv;
            var usable := && e.Some? && e.value in w.clients && w.clients[e.value].address in w.code
                          && w.clients[e.value].counterparty == job.cosmosId;
            if usable
            then r.pc.id == e.value && r.world == w.(counterparties := w.counterparties[job.cosmosId := e.value])
            else
              && r.pc.id == Numbered(w.nextSeq) && r.world.nextSeq == w.nextSeq + 1
              && r.world.deployEnv == Some(r.pc.id) && r.pc.id in r.world.clients
              && r.world.clients[r.pc.id] == EvmClient(address, job.cosmosId)
  {
    var e := EnvClient(w, job);
    if e.Some? && Usable(w, job, e.value) {
      RegisterAlone(w, job, e.value, address, built);
    } else {
      CreateAlone(w, job, address, built);
    }
  }

  /** After any history that ends in success, running again at once changes nothing if the configured client or
      the counterparty is read, or the deployment fails; it succeeds again, with the same client, if both reads
      are answered and ETH_CLIENT_ID is not pinned to a different one. */
  lemma RerunAfterSuccess(events: seq<Event>, address: Address, built: Verifier, seen: Reads)
    requires Run(events).pc.Done?
    ensures var s := Run(events);
            var r := Alone(s.world, s.job, Begin, address, built, seen);
            var same := s.job.pin == None || s.job.pin == Some(s.pc.id);
            && (r.world == s.world <==> Guarded(s.world, s.job, address, seen))
            && (same && seen.client ==> Guarded(s.world, s.job, address, seen))
            && r.pc == if same && seen.client && seen.registered then s.pc else Thrown
  {
    RunKeeps(events);
    var s := Run(events);
    RerunChangesNothing(s.world, s.job, s.pc.id, address, built, seen);
  }

  // ----- a rerun that reads too little

  /** The client in deploy.env is not the one that is paired, and no pin names that. */
  ghost predicate Spoilt(w: World, job: Job, id: ClientId) {
    Counted(w) && Paired(w, job, id) && job.pin == None && w.deployEnv != Some(id)
  }

  datatype Attempt = Attempt(address: Address, built: Verifier, seen: Reads)

  function Reruns(w: World, job: Job, attempts: seq<Attempt>): World {
    if attempts == [] then w
    else
      var last := attempts[|attempts| - 1];
      Alone(Reruns(w, job, attempts[..|attempts| - 1]), job, Begin, last.address, last.built, last.seen).world
  }

  lemma SpoiltStays(w: World, job: Job, id: ClientId, a: Attempt)
    requires Spoilt(w, job, id)
    ensures var r := Alone(w, job, Begin, a.address, a.built, a.seen); r.pc == Thrown && Spoilt(r.world, job, id)
  {
    RerunChangesNothing(w, job, id, a.address, a.built, a.seen);
    assert id != Numbered(w.nextSeq);
  }

  /** From then on every run of the job throws, whatever it reads. */
  lemma {:induction false} SpoiltForGood(w: World, job: Job, id: ClientId, attempts: seq<Attempt>, a: Attempt)
    requires Spoilt(w, job, id)
    ensures Spoilt(Reruns(w, job, attempts), job, id)
    ensures Alone(Reruns(w, job, attempts), job, Begin, a.address, a.built, a.seen).pc == Thrown
    decreases |attempts|
  {
    if attempts != [] {
      var last := attempts[|attempts| - 1];
      SpoiltForGood(w, job, id, attempts[..|attempts| - 1], last);
      SpoiltStays(Reruns(w, job, attempts[..|attempts| - 1]), job, id, last);
    }
    SpoiltStays(Reruns(w, job, attempts), job, id, a);
  }

  /** After a success without a pin, a rerun in which neither the client nor the counterparty is read, and whose
      deployment goes through, records a client that no later run can register. */
  lemma UnreadRerunSpoils(events: seq<Event>, address: Address, seen: Reads, attempts: seq<Attempt>, a: Attempt)
    requires var s := Run(events);
             && s.pc.Done? && s.job.pin == None && address !in s.world.code && !seen.client && !seen.before
    ensures var s := Run(events);
            var r := Alone(s.world, s.job, Begin, address, s.job.verifier, seen);
            && r.world.deployEnv == Some(Numbered(s.world.nextSeq)) && r.world.deployEnv != Some(s.pc.id)
            && Alone(Reruns(r.world, s.job, attempts), s.job, Begin, a.address, a.built, a.seen).pc == Thrown
  {
    RunKeeps(events);
    var s := Run(events);
    RerunChangesNothing(s.world, s.job, s.pc.id, address, s.job.verifier, seen);
    CreateUnread(s.world, s.job, s.pc.id, address, s.job.verifier, seen);
    var r := Alone(s.world, s.job, Begin, address, s.job.verifier, seen);
    assert r == Alone(s.world, s.job, Create, address, s.job.verifier, seen);
    SpoiltForGood(r.world, s.job, s.pc.id, attempts, a);
  }

  // ----- the failing rerun

  /** A run nobody interferes with is a history. */
  lemma {:induction false} AloneHappens(events: seq<Event>, address: Address, built: Verifier, seen: Reads)
      returns (more: seq<Event>)
    ensures var s := Run(events);
            var r := Alone(s.world, s.job, s.pc, address, built, seen);
            Run(events + more) == System(r.world, s.job, r.pc)
    decreases Rank(Run(events).pc)
  {
    var s, go := Run(events), Go(address, built, seen);
    if s.pc.Done? || s.pc.Thrown? {
      more := [];
      assert events + [] == events;
    } else {
      RunOn(events, go);
      var rest := AloneHappens(events + [go], address, built, seen);
      more := [go] + rest;
      assert events + [go] + rest == events + more;
    }
  }

  /** On fresh chains every job succeeds. */
  lemma FirstRun(job: Job) returns (events: seq<Event>)
    ensures Run(events).pc == Done(Numbered(0)) && Run(events).job == job
  {
    RunOn([], Launch(job));
    var launched := [] + [Launch(job)];
    assert Run(launched) == System(World(map[], 0, map[], map[], None), job, Begin);
    SucceedsIff(Run(launched).world, job, 0, job.verifier);
    CreateAlone(Run(launched).world, job, 0, job.verifier);
    var more := AloneHappens(launched, 0, job.verifier, ANSWERED);
    events := launched + more;
  }

  /** A job pinned to a client that is not there succeeds with another one, and its rerun throws. */
  lemma PinnedRerunThrows(address: Address, built: Verifier, seen: Reads) returns (events: seq<Event>)
    requires seen.before
    ensures Run(events).pc.Done?
    ensures var s := Run(events); Alone(s.world, s.job, Begin, address, built, seen) == Step(s.world, Thrown)
  {
    events := FirstRun(Job("08-wasm-0", 7, Some(Named("gone"))));
    RerunAfterSuccess(events, address, built, seen);
  }

  // ----- stopping, and running again

  /** The first k steps of a run nobody interferes with. */
  function Steps(w: World, job: Job, pc: Pc, address: Address, built: Verifier, k: nat): Step
    decreases k
  {
    if k == 0 then Step(w, pc)
    else
      var r := Next(w, job, pc, address, built, ANSWERED);
      Steps(r.world, job, r.pc, address, built, k - 1)
  }

  lemma {:induction false} AloneGoesOn(w: World, job: Job, pc: Pc, address: Address, built: Verifier, k: nat)
    ensures var s := Steps(w, job, pc, address, built, k);
            Alone(s.world, job, s.pc, address, built, ANSWERED) == Alone(w, job, pc, address, built, ANSWERED)
    decreases k
  {
    if k != 0 {
      var r := Next(w, job, pc, address, built, ANSWERED);
      AloneGoesOn(r.world, job, r.pc, address, built, k - 1);
    }
  }

  function Naming(w: World, job: Job, id: ClientId): World {
    w.(counterparties := w.counterparties[job.cosmosId := id])
  }

  /** Where a run from world w can have stopped before it registers: it reuses the configured client, or it
      has added one and recorded it. */
  ghost predicate Chosen(w: World, job: Job, address: Address, at: World, id: ClientId) {
    || (at == w && EnvClient(w, job) == Some(id) && Bound(w, job, id))
    || (at == Recording(Added(w, job, address), id) && id == Numbered(w.nextSeq) && Creating(w, job))
  }

  ghost predicate Creating(w: World, job: Job) {
    EnvClient(w, job).Some? ==> !Usable(w, job, EnvClient(w, job).value)
  }

  ghost predicate Along(w: World, job: Job, address: Address, s: Step) {
    var existing := Lookup(w.counterparties, job.cosmosId);
    match s.pc
    case Begin => s.world == w
    case Create => s.world == w && Creating(w, job)
    case Deploy(e) => s.world == w && Creating(w, job) && e == existing
    case Add(e, at) => s.world == w.(code := w.code[address := job.verifier]) && Creating(w, job) &&
      e == existing && at == address
    case Write(e, id) => s.world == Added(w, job, address) && Creating(w, job) && e == existing &&
      id == Numbered(w.nextSeq)
    case Register(id) => Chosen(w, job, address, s.world, id)
    case Submit(id) => Chosen(w, job, address, s.world, id) && existing == None
    case Done(id) =>
      || (Chosen(w, job, address, s.world, id) && existing == Some(id))
      || exists at :: Chosen(w, job, address, at, id) && s.world == Naming(at, job, id)
    case Thrown => true
  }

  lemma AlongNext(w: World, job: Job, address: Address, built: Verifier, s: Step)
    requires Along(w, job, address, s)
    ensures Along(w, job, address, Next(s.world, job, s.pc, address, built, ANSWERED))
  {
    var r := Next(s.world, job, s.pc, address, built, ANSWERED);
    if s.pc.Submit? && r.pc.Done? {
      assert Chosen(w, job, address, s.world, s.pc.id) && r.world == Naming(s.world, job, s.pc.id);
    }
  }

  lemma {:induction false} StepsAlong(w: World, job: Job, address: Address, built: Verifier, s: Step, k: nat)
    requires Along(w, job, address, s)
    ensures Along(w, job, address, Steps(s.world, job, s.pc, address, built, k))
    decreases k
  {
    if k != 0 {
      AlongNext(w, job, address, built, s);
      StepsAlong(w, job, address, built, Next(s.world, job, s.pc, address, built, ANSWERED), k - 1);
    }
  }

  /** The run has come as far as having a client. */
  predicate HasClient(pc: Pc) {
    pc.Write? || pc.Register? || pc.Submit? || pc.Done?
  }

  /** A world from which an undisturbed run succeeds, with its deployment at an address no client has. */
  ghost predicate Ready(w: World, job: Job, address: Address, built: Verifier) {
    && Counted(w) && Alone(w, job, Begin, address, built, ANSWERED).pc.Done?
    && forall id :: id in w.clients ==> w.clients[id].address != address
  }

  ghost predicate RerunAsStated(job: Job, s: Step, again: Address) {
    Alone(s.world, job, Begin, again, job.verifier, ANSWERED).pc.Done? <==>
      (HasClient(s.pc) ==> EnvClient(s.world, job) == Some(s.pc.id) || job.cosmosId !in s.world.counterparties)
  }

  lemma RerunEarly(w: World, job: Job, address: Address, built: Verifier, s: Step, again: Address)
    requires Ready(w, job, address, built) && Along(w, job, address, s) && !s.pc.Thrown? && !HasClient(s.pc)
    requires again !in s.world.code
    ensures RerunAsStated(job, s, again)
  {
    SucceedsIff(w, job, address, built);
    SucceedsIff(s.world, job, again, job.verifier);
  }

  lemma RerunAdded(w: World, job: Job, address: Address, built: Verifier, at: World, id: ClientId, again: Address)
    requires Ready(w, job, address, built) && Creating(w, job) && id == Numbered(w.nextSeq) && again !in at.code
    requires at == Added(w, job, address) || at == Recording(Added(w, job, address), id)
    ensures Alone(at, job, Begin, again, job.verifier, ANSWERED).pc.Done? <==>
              EnvClient(at, job) == Some(id) || job.cosmosId !in at.counterparties
  {
    SucceedsIff(w, job, address, built);
    SucceedsIff(at, job, again, job.verifier);
  }

  lemma RerunReused(w: World, job: Job, address: Address, built: Verifier, id: ClientId, again: Address)
    requires Ready(w, job, address, built) && EnvClient(w, job) == Some(id) && Bound(w, job, id) && again !in w.code
    ensures Alone(w, job, Begin, again, job.verifier, ANSWERED).pc.Done?
  {
    SucceedsIff(w, job, address, built);
    SucceedsIff(w, job, again, job.verifier);
  }

  lemma ChosenPairs(w: World, job: Job, address: Address, built: Verifier, at: World, id: ClientId)
    requires Ready(w, job, address, built) && Chosen(w, job, address, at, id)
    ensures Bound(at, job, id) && Counted(at)
  {
  }

  lemma RerunDone(w: World, job: Job, address: Address, built: Verifier, s: Step, again: Address)
    requires Ready(w, job, address, built) && Along(w, job, address, s) && s.pc.Done?
    ensures RerunAsStated(job, s, again)
  {
    var id := s.pc.id;
    var at :| Chosen(w, job, address, at, id) && (s.world == at || s.world == Naming(at, job, id));
    ChosenPairs(w, job, address, built, at, id);
    RerunChangesNothing(s.world, job, id, again, job.verifier, ANSWERED);
  }

  lemma RerunFrom(w: World, job: Job, address: Address, built: Verifier, s: Step, again: Address)
    requires Ready(w, job, address, built) && Along(w, job, address, s) && !s.pc.Thrown?
    requires again !in s.world.code
    ensures RerunAsStated(job, s, again)
  {
    if !HasClient(s.pc) {
      RerunEarly(w, job, address, built, s, again);
    } else if s.pc.Done? {
      RerunDone(w, job, address, built, s, again);
    } else if s.world == w {
      RerunReused(w, job, address, built, s.pc.id, again);
    } else {
      RerunAdded(w, job, address, built, s.world, s.pc.id, again);
    }
  }

  /** A run that would succeed, stopped after any number of steps: running again undisturbed succeeds exactly
      when it had no client yet, or the configuration names that client, or Cosmos names nobody yet. */
  lemma StopRecovers(w: World, job: Job, address: Address, built: Verifier, k: nat, again: Address)
    requires Ready(w, job, address, built)
    requires again !in Steps(w, job, Begin, address, built, k).world.code
    ensures var s := Steps(w, job, Begin, address, built, k);
            Alone(s.world, job, Begin, again, job.verifier, ANSWERED).pc.Done? <==>
              (HasClient(s.pc) ==> EnvClient(s.world, job) == Some(s.pc.id) || job.cosmosId !in s.world.counterparties)
  {
    var s := Steps(w, job, Begin, address, built, k);
    StepsAlong(w, job, address, built, Step(w, Begin), k);
    assert !s.pc.Thrown? by {
      AloneGoesOn(w, job, Begin, address, built, k);
    }
    RerunFrom(w, job, address, built, s, again);
  }

  /** Without a pin, the one stop that cannot be recovered from is between adding the client and recording it
      when Cosmos names that client already. */
  lemma StopRecoversUnpinned(w: World, job: Job, address: Address, built: Verifier, k: nat, again: Address)
    requires Ready(w, job, address, built) && job.pin == None
    requires again !in Steps(w, job, Begin, address, built, k).world.code
    ensures var s := Steps(w, job, Begin, address, built, k);
            Alone(s.world, job, Begin, again, job.verifier, ANSWERED).pc.Done? <==>
              !(s.pc.Write? && job.cosmosId in w.counterparties && w.deployEnv != Some(s.pc.id))
  {
    StepsAlong(w, job, address, built, Step(w, Begin), k);
    StopRecovers(w, job, address, built, k, again);
  }

  /** That stop is real: a Cosmos client that names the router's next client. */
  lemma UnrecoverableStop(again: Address)
    requires again != 0
    ensures var w, job := World(map[], 0, map[], map["08-wasm-0" := Numbered(0)], None), Job("08-wasm-0", 7, None);
            var s := Steps(w, job, Begin, 0, 7, 4);
            && Alone(w, job, Begin, 0, 7, ANSWERED).pc.Done? && s.pc.Write?
            && !Alone(s.world, job, Begin, again, 7, ANSWERED).pc.Done?
  {
    var w, job := World(map[], 0, map[], map["08-wasm-0" := Numbered(0)], None), Job("08-wasm-0", 7, None);
    SucceedsIff(w, job, 0, 7);
    var e := Some(Numbered(0));
    assert Steps(w, job, Deploy(e), 0, 7, 2) == Step(Added(w, job, 0), Write(e, Numbered(0)));
    assert Steps(w, job, Begin, 0, 7, 4) == Steps(w, job, Deploy(e), 0, 7, 2);
    StopRecoversUnpinned(w, job, 0, 7, 4, again);
  }

  // ----- deploy.env

  predicate Defines(line: string, key: string) {
    key + "=" <= line
  }

  /** A line defines one key at most. */
  lemma DefinesOne(line: string, a: string, b: string)
    requires Defines(line, a) && Defines(line, b) && '=' !in a && '=' !in b
    ensures a == b
  {
    assert line[|a|] == (a + "=")[|a|] == '=' && line[|b|] == (b + "=")[|b|] == '=';
    if |a| == |b| {
      assert a == (a + "=")[..|a|] == line[..|a|] == (b + "=")[..|b|] == b;
    }
  }

  /** What the file says a key is: its last definition. */
  function Value(lines: seq<string>, key: string): Option<string> {
    if lines == [] then None
    else if Defines(lines[|lines| - 1], key) then Some(lines[|lines| - 1][|key| + 1..])
    else Value(lines[..|lines| - 1], key)
  }

  function Without(lines: seq<string>, key: string): seq<string> {
    if lines == [] then []
    else
      var last := lines[|lines| - 1];
      Without(lines[..|lines| - 1], key) + if Defines(last, key) then [] else [last]
  }

  lemma ValueSnoc(lines: seq<string>, line: string, key: string)
    ensures Value(lines + [line], key) == if Defines(line, key) then Some(line[|key| + 1..]) else Value(lines, key)
  {
    assert (lines + [line])[..|lines|] == lines;
  }

  lemma {:induction false} ValueWithout(lines: seq<string>, key: string, other: string)
    requires '=' !in key && '=' !in other
    ensures Value(Without(lines, key), other) == if key == other then None else Value(lines, other)
  {
    if lines != [] {
      var before, last := lines[..|lines| - 1], lines[|lines| - 1];
      ValueWithout(before, key, other);
      ValueSnoc(Without(before, key), last, other);
      assert Without(before, key) + [] == Without(before, key);
      if Defines(last, key) && Defines(last, other) {
        DefinesOne(last, key, other);
      }
    }
  }

  /** Dropping empty lines changes no value. */
  function NonEmpty(lines: seq<string>): seq<string> {
    if lines == [] then []
    else NonEmpty(lines[..|lines| - 1]) + if lines[|lines| - 1] == "" then [] else [lines[|lines| - 1]]
  }

  lemma {:induction false} ValueNonEmpty(lines: seq<string>, key: string)
    ensures Value(NonEmpty(lines), key) == Value(lines, key)
  {
    if lines != [] {
      var before, last := lines[..|lines| - 1], lines[|lines| - 1];
      ValueNonEmpty(before, key);
      ValueSnoc(NonEmpty(before), last, key);
      assert NonEmpty(before) + [] == NonEmpty(before);
    }
  }

  /** What the updates say a key is. */
  function Updated(updates: seq<(string, string)>, key: string): Option<string> {
    if updates == [] then None
    else if updates[|updates| - 1].0 == key then Some(updates[|updates| - 1].1)
    else Updated(updates[..|updates| - 1], key)
  }

  method Filter(lines: seq<string>, key: string) returns (r: seq<string>)
    ensures r == Without(lines, key)
  {
    r := [];
    for i := 0 to |lines|
      invariant r == Without(lines[..i], key)
    {
      assert lines[..i + 1][..i] == lines[..i];
      if !Defines(lines[i], key) {
        r := r + [lines[i]];
      }
    }
    assert lines[..|lines|] == lines;
  }

  lemma UpsertOne(lines: seq<string>, key: string, value: string, other: string)
    requires '=' !in key && '=' !in other
    ensures Value(Without(lines, key) + [key + "=" + value], other) ==
      if other == key then Some(value) else Value(lines, other)
  {
    var line := key + "=" + value;
    ValueSnoc(Without(lines, key), line, other);
    ValueWithout(lines, key, other);
    assert key + "=" <= line && line[|key| + 1..] == value;
    if Defines(line, other) {
      DefinesOne(line, key, other);
    }
  }

  /** Afterwards the file gives the updated keys their new values and every other key its old one. */
  method UpsertDeployEnv(file: seq<string>, updates: seq<(string, string)>) returns (r: seq<string>)
    requires forall i :: 0 <= i < |updates| ==> '=' !in updates[i].0
    ensures forall key :: '=' !in key ==>
              Value(r, key) == if Updated(updates, key).Some? then Updated(updates, key) else Value(file, key)
    ensures "" !in r
  {
    var lines := file;
    for i := 0 to |updates|
      invariant forall key :: '=' !in key ==>
                  Value(lines, key) ==
                    if Updated(updates[..i], key).Some? then Updated(updates[..i], key) else Value(file, key)
    {
      var (key, value) := updates[i];
      var kept := Filter(lines, key);
      forall other | '=' !in other
        ensures Value(kept + [key + "=" + value], other) == if other == key then Some(value) else Value(lines, other)
      {
        UpsertOne(lines, key, value, other);
      }
      assert updates[..i + 1][..i] == updates[..i];
      lines := kept + [key + "=" + value];
    }
    assert updates[..|updates|] == updates;
    r := [];
    for i := 0 to |lines|
      invariant r == NonEmpty(lines[..i]) && "" !in r
    {
      assert lines[..i + 1][..i] == lines[..i];
      if lines[i] != "" {
        r := r + [lines[i]];
      }
    }
    assert lines[..|lines|] == lines;
    forall key ensures Value(r, key) == Value(lines, key) {
      ValueNonEmpty(lines, key);
    }
  }
}
