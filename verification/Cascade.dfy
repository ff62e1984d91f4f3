/** client/src/main/blocks/cascade.ts with fetchBlockFromPeer and fetchFromHotPeers of protocol.ts: content
    resolution through memory (L0), disk (L1), connected peers (L2), discovered peers (L3) and server (L4).
    Every wait for the network is a point where other operations of the store may run. */
module Cascade {
  import opened Wrappers
  import opened BlockCrypto
  import opened BlockContents
  import opened ClientStore
  import opened StoreRuns
  import opened ServerStore

  /** What one peer sends back, if anything. Peers are not trusted. */
  datatype PeerReply = Silent | Reply(bytes: Bytes)

  /** The open connections (a peer may have several), and the peers in the order their requests settle. */
  datatype Swarm = Swarm(connections: seq<string>, completion: seq<string>, answer: map<string, PeerReply>)

  function ReplyOf(s: Swarm, peer: string): PeerReply { if peer in s.answer then s.answer[peer] else Silent }

  ghost predicate ValidSwarm(s: Swarm, pool: set<Block>) {
    && (forall c :: c in s.completion <==> c in s.connections)
    && (forall c :: c in s.connections ==> c in s.answer)
    && (forall c :: c in s.answer && s.answer[c].Reply? && |s.answer[c].bytes| > 0 ==> s.answer[c].bytes in pool)
  }

  /** Everything outside the two stores that one resolution depends on. The request to the server is made by
      putting the requested text into a URL. A text of 64 hex digits reaches the server as it is; what comes back for
      any other text, which the URL parser may turn into another path, is any body or none. kept is what L0 keeps, as
      in CachePut. */
  datatype Network = Network(
    nodeUp: bool,
    hot: Swarm,
    discovered: nat,
    widened: Swarm,
    signedIn: bool,
    serverReachable: bool,
    stray: Option<Block>,
    duringL2: seq<Op>,
    duringL3: seq<Op>,
    duringL4: seq<Op>,
    kept: set<Digest>)

  type ServerBlocks = map<Digest, Block>

  ghost predicate ValidOps(ops: seq<Op>, pool: set<Block>) {
    forall i :: 0 <= i < |ops| ==> ValidOp(ops[i]) && OpWithin(ops[i], pool)
  }

  ghost predicate ValidNetwork(n: Network, pool: set<Block>) {
    && ValidSwarm(n.hot, pool) && ValidSwarm(n.widened, pool)
    && ValidOps(n.duringL2, pool) && ValidOps(n.duringL3, pool) && ValidOps(n.duringL4, pool)
    && (n.stray.Some? ==> n.stray.value in pool)
  }

  ghost predicate NoKeyChange(ops: seq<Op>) {
    forall i :: 0 <= i < |ops| ==> !ops[i].SetKey?
  }

  /** The store stays unlocked while the resolution waits. */
  ghost predicate KeyStays(n: Network) {
    NoKeyChange(n.duringL2) && NoKeyChange(n.duringL3) && NoKeyChange(n.duringL4)
  }

  ghost predicate Ready(store: BlockStore, pool: set<Block>)
    reads store
  {
    && store.Valid() && store.Coherent()
    && CollisionFree(store.prim, pool) && Within(store.contents, pool)
  }

  ghost predicate Holds(store: BlockStore, data: Block)
    reads store
  {
    var h := Hash(store.prim, data);
    h in store.contents && store.contents[h].data == data
  }

  // ---- peers ----

  /** fetchBlockFromPeer: empty and mis-hashed responses are errors. */
  function FetchBlockFromPeer(p: Primitives, reply: PeerReply, h: Digest): Option<Block> {
    match reply
    case Silent => None
    case Reply(bytes) => if |bytes| > 0 && Hash(p, bytes) == h then Some(bytes) else None
  }

  /** The first request to settle with a verified block, from the k-th on. */
  function FirstVerified(p: Primitives, s: Swarm, k: nat, h: Digest): Option<Block>
    requires k <= |s.completion|
    decreases |s.completion| - k
  {
    if k == |s.completion| then None
    else
      var first := FetchBlockFromPeer(p, ReplyOf(s, s.completion[k]), h);
      if first.Some? then first else FirstVerified(p, s, k + 1, h)
  }

  /** What comes from peers is the first response, in the order they settle, that is not empty and has the
      requested hash; there is one exactly when some peer has sent one, whatever the others send. */
  lemma {:induction false} PeersAnswerExactly(p: Primitives, s: Swarm, k: nat, h: Digest)
    requires k <= |s.completion|
    ensures FirstVerified(p, s, k, h).None? <==>
      forall i :: k <= i < |s.completion| ==>
        var peer := s.completion[i];
        peer in s.answer && s.answer[peer].Reply? ==>
          |s.answer[peer].bytes| == 0 || p.sha256(s.answer[peer].bytes) != h.hex
    ensures FirstVerified(p, s, k, h).Some? ==>
      exists i :: k <= i < |s.completion| &&
        var b := FirstVerified(p, s, k, h).value;
        && s.completion[i] in s.answer && s.answer[s.completion[i]] == Reply(b) && p.sha256(b) == h.hex
        && forall j :: k <= j < i ==>
             var peer := s.completion[j];
             peer in s.answer && s.answer[peer].Reply? ==>
               |s.answer[peer].bytes| == 0 || p.sha256(s.answer[peer].bytes) != h.hex
    decreases |s.completion| - k
  {
    if k == |s.completion| {
    } else {
      PeersAnswerExactly(p, s, k + 1, h);
    }
  }

  lemma {:induction false} PeerBlockInPool(p: Primitives, s: Swarm, k: nat, h: Digest, pool: set<Block>)
    requires k <= |s.completion| && ValidSwarm(s, pool)
    ensures var r := FirstVerified(p, s, k, h); r.Some? ==> r.value in pool && Hash(p, r.value) == h
    decreases |s.completion| - k
  {
    if k == |s.completion| {
    } else {
      PeerBlockInPool(p, s, k + 1, h, pool);
    }
  }

  /** One request per peer however many connections it has. */
  method UniquePeers(connections: seq<string>) returns (unique: seq<string>)
    ensures forall c :: c in unique <==> c in connections
    ensures forall i, j :: 0 <= i < j < |unique| ==> unique[i] != unique[j]
  {
    var seen: set<string> := {};
    unique := [];
    for i := 0 to |connections|
      invariant forall c :: c in seen <==> c in unique
      invariant forall c :: c in unique <==> c in connections[..i]
      invariant forall i, j :: 0 <= i < j < |unique| ==> unique[i] != unique[j]
    {
      if connections[i] !in seen {
        seen := seen + {connections[i]};
        unique := unique + [connections[i]];
      }
    }
  }

  method FetchFromHotPeers(p: Primitives, s: Swarm, h: Digest, ghost pool: set<Block>) returns (r: Option<Block>)
    requires ValidSwarm(s, pool)
    ensures r == FirstVerified(p, s, 0, h)
    ensures r.Some? <==> exists i, b ::
      0 <= i < |s.completion| && s.answer[s.completion[i]] == Reply(b) && |b| > 0 && p.sha256(b) == h.hex
    ensures r.Some? ==> exists i :: 0 <= i < |s.completion| && s.answer[s.completion[i]] == Reply(r.value)
  {
    PeersAnswerExactly(p, s, 0, h);
    var unique := UniquePeers(s.connections);
    assert |s.completion| > 0 ==> s.completion[0] in unique;
    if |unique| == 0 {
      return None;
    }
    var k := 0;
    while k < |s.completion|
      invariant 0 <= k <= |s.completion|
      invariant FirstVerified(p, s, 0, h) == FirstVerified(p, s, k, h)
    {
      r := FetchBlockFromPeer(p, ReplyOf(s, s.completion[k]), h);
      if r.Some? {
        return;
      }
      k := k + 1;
    }
    r := None;
  }

  // ---- the answer each layer has to give ----

  ghost function LocalAnswer(c: Contents, h: Digest): Option<Block> {
    if h in c then Some(c[h].data) else None
  }

  ghost function PeersAnswer(p: Primitives, asked: bool, s: Swarm, h: Digest): Option<Block> {
    if asked then FirstVerified(p, s, 0, h) else None
  }

  /** The two rounds of asking peers. */
  ghost function HotAnswer(p: Primitives, n: Network, h: Digest): Option<Block> { PeersAnswer(p, n.nodeUp, n.hot, h) }

  ghost function WidenedAnswer(p: Primitives, n: Network, h: Digest): Option<Block> {
    PeersAnswer(p, n.nodeUp && n.discovered > 0, n.widened, h)
  }

  /** What the server sends for the text: the block it has under the lower-cased hash, or, for a text that is no hash in
      either case, whatever the request turns out to ask for. */
  ghost function ServerAnswer(server: ServerBlocks, n: Network, text: string): Option<Block> {
    if !n.signedIn || !n.serverReachable then None
    else if !IsHashText(Lower(text)) then n.stray
    else if Digest(Lower(text)) in server then Some(server[Digest(Lower(text))])
    else None
  }

  /** What a resolution on an unlocked store returns: the first layer that has the block decides. */
  ghost function Resolution(p: Primitives, c: Contents, server: ServerBlocks, n: Network, text: string): Option<Block> {
    var h := Digest(text);
    if LocalAnswer(c, h).Some? then LocalAnswer(c, h)
    else if HotAnswer(p, n, h).Some? then HotAnswer(p, n, h)
    else if WidenedAnswer(p, n, h).Some? then WidenedAnswer(p, n, h)
    else ServerAnswer(server, n, text)
  }

  /** The layer that has to answer, 5 if none can. */
  ghost function AnsweringLayer(p: Primitives, cached: bool, c: Contents, server: ServerBlocks, n: Network,
                                text: string): nat {
    var h := Digest(text);
    if cached then 0
    else if LocalAnswer(c, h).Some? then 1
    else if HotAnswer(p, n, h).Some? then 2
    else if WidenedAnswer(p, n, h).Some? then 3
    else if ServerAnswer(server, n, text).Some? then 4
    else 5
  }

  /** The block that the first layer to have it has, and that layer. */
  ghost predicate IsFirstAnswer(p: Primitives, cached: bool, c: Contents, server: ServerBlocks, n: Network,
                                text: string,
                                r: Option<Block>, layer: nat)
  {
    r == Resolution(p, c, server, n, text) && layer == AnsweringLayer(p, cached, c, server, n, text)
  }

  // ---- steps ----

  /** Other work of the process while a request is in flight: a run of the store. */
  method Wait(store: BlockStore, ops: seq<Op>, ghost pool: set<Block>)
    returns (outs: seq<Answer>, ghost trace: seq<Plainly>)
    requires Ready(store, pool) && ValidOps(ops, pool)
    modifies store
    ensures Ready(store, pool)
    ensures IsRun(store.prim, trace, ops, outs) && |trace| == |ops| + 1
    ensures trace[0] == old(State(store)) && trace[|ops|] == State(store)
    ensures NoKeyChange(ops) ==> store.unlocked == old(store.unlocked)
    ensures LeadsTo(store.prim, old(State(store)), ops, State(store))
  {
    hide LeadsTo;
    outs, trace := RunAll(store, ops, pool);
    RunLeads(store.prim, trace, ops, outs);
    if NoKeyChange(ops) {
      KeyUnchanged(store.prim, trace, ops, outs, |ops|);
    }
  }

  lemma {:induction false} KeyUnchanged(p: Primitives, trace: seq<Plainly>, ops: seq<Op>, outs: seq<Answer>, k: nat)
    requires IsRun(p, trace, ops, outs) && NoKeyChange(ops) && k <= |ops|
    ensures trace[k].unlocked == trace[0].unlocked
  {
    if k == 0 {
    } else {
      KeyUnchanged(p, trace, ops, outs, k - 1);
      assert Step(p, trace[k - 1], ops[k - 1], outs[k - 1], trace[k]);
    }
  }

  const NO_INFO := Info(None, None, None, None)

  lemma FetchedIsStored(p: Primitives, s: Plainly, op: Op, pool: set<Block>)
    requires op.Put? && OpWithin(op, pool) && CollisionFree(p, pool)
    requires Within(s.contents, pool) && WellFormed(p, s.contents)
    ensures
      var h := Hash(p, op.data);
      var c := BlockContents.Stored(s.contents, h, op.data, op.tier, op.info, op.now);
      h in c && c[h].data == op.data
  {
    var h := Hash(p, op.data);
    assert h in s.contents ==> s.contents[h].data == op.data;
  }

  /** putBlock on a block that came over the network; a locked store refuses a new one. */
  method Persist(store: BlockStore, data: Block, tier: Tier, sealing: Sealing, now: int, kept: set<Digest>,
                 ghost pool: set<Block>) returns (ok: bool)
    requires Ready(store, pool) && ValidSealing(sealing) && data in pool
    modifies store
    ensures Ready(store, pool) && store.unlocked == old(store.unlocked)
    ensures store.unlocked ==> ok
    ensures ok ==> Holds(store, data)
    ensures LeadsTo(store.prim, old(State(store)),
                    if ok then [Put(data, tier, NO_INFO, sealing, now, kept)] else [], State(store))
  {
    ContentsWellFormed(store);
    StateIs(store);
    ghost var op := Put(data, tier, NO_INFO, sealing, now, kept);
    ghost var before, cache := State(store), store.cache;
    FetchedIsStored(store.prim, before, op, pool);
    NothingLeads(store.prim, before);
    hide Step, Within, CacheAgrees, CollisionFree, WellFormed, LeadsTo;
    hide Sound, Lawful, Represents, BlockContents.Stored, CachePut;
    var r := store.PutBlock(data, tier, NO_INFO, sealing, now, kept);
    PutIsStep(store.prim, before, cache, op, r, pool);
    ok := r.Ok?;
    if ok {
      StepLeads(store.prim, before, op, Answer.Stored(r), State(store));
    }
  }

  /** Layers L2 and L3: wait, take the first verified response, keep it as warm content. */
  method TryPeers(store: BlockStore, waiting: bool, asked: bool, s: Swarm, ops: seq<Op>, h: Digest, sealing: Sealing,
                  now: int, kept: set<Digest>, ghost pool: set<Block>) returns (r: Option<Block>)
    requires Ready(store, pool) && ValidSwarm(s, pool) && ValidOps(ops, pool) && ValidSealing(sealing)
    requires asked ==> waiting
    modifies store
    ensures Ready(store, pool)
    ensures r.Some? ==> r == PeersAnswer(store.prim, asked, s, h)
    ensures r.Some? ==> Hash(store.prim, r.value) == h && Holds(store, r.value)
    ensures old(store.unlocked) && NoKeyChange(ops) ==> store.unlocked && r == PeersAnswer(store.prim, asked, s, h)
    ensures LeadsTo(store.prim, old(State(store)),
                    (if waiting then ops else []) + Keeping(r, 3, sealing, now, kept), State(store))
  {
    KeepingIs(sealing, now, kept);
    PeersAnswerIs(store.prim, s, h, pool);
    hide *;
    r := None;
    ghost var before, done := State(store), [];
    NothingLeads(store.prim, before);
    if waiting {
      var _, _ := Wait(store, ops, pool);
      done := ops;
    }
    if asked {
      var data := FetchFromHotPeers(store.prim, s, h, pool);
      if data.Some? {
        ghost var mid := State(store);
        var ok := Persist(store, data.value, P3, sealing, now, kept, pool);
        ghost var put := if ok then [Put(data.value, P3, NO_INFO, sealing, now, kept)] else [];
        LeadsOn(store.prim, before, done, mid, put, State(store));
        done := done + put;
        if ok {
          r := data;
        }
      }
    }
    assert done == (if waiting then ops else []) + Keeping(r, 3, sealing, now, kept);
  }

  /** The putBlock that follows an answer from the network. */
  ghost function Keeping(r: Option<Block>, tier: Tier, sealing: Sealing, now: int, kept: set<Digest>): seq<Op> {
    if r.Some? then [Put(r.value, tier, NO_INFO, sealing, now, kept)] else []
  }

  lemma KeepingIs(sealing: Sealing, now: int, kept: set<Digest>)
    ensures forall tier: Tier :: Keeping(None, tier, sealing, now, kept) == []
    ensures forall b, tier: Tier ::
      Keeping(Some(b), tier, sealing, now, kept) == [Put(b, tier, NO_INFO, sealing, now, kept)]
    ensures P3 == 3 && P4 == 4
  {
  }

  lemma PeersAnswerIs(p: Primitives, s: Swarm, h: Digest, pool: set<Block>)
    requires ValidSwarm(s, pool)
    ensures PeersAnswer(p, false, s, h) == None
    ensures PeersAnswer(p, true, s, h) == FirstVerified(p, s, 0, h)
    ensures var r := FirstVerified(p, s, 0, h); r.Some? ==> r.value in pool && Hash(p, r.value) == h
  {
    PeerBlockInPool(p, s, 0, h, pool);
  }

  ghost predicate ServerFits(server: ServerBlockStore, store: BlockStore, pool: set<Block>)
    reads server
  {
    server.Valid() && server.prim == store.prim && forall h :: h in server.contents ==> server.contents[h] in pool
  }

  /** The body of the response to the request for the text. */
  method Request(server: ServerBlockStore, n: Network, text: string, ghost pool: set<Block>)
    returns (body: Option<Block>)
    requires server.Valid() && n.signedIn && n.serverReachable
    requires n.stray.Some? ==> n.stray.value in pool
    requires forall h :: h in server.contents ==> server.contents[h] in pool
    ensures body == ServerAnswer(server.contents, n, text)
    ensures body.Some? ==> body.value in pool
    ensures body.Some? && IsHashText(Lower(text)) ==> Hash(server.prim, body.value) == Digest(Lower(text))
  {
    if !IsHashText(Lower(text)) {
      return n.stray;
    }
    var reply := server.GetRoute(text);
    body := if reply.Content? then Some(reply.data) else None;
  }

  /** Layer L4: the response body is stored, under its own hash, and returned as it is, without comparing that hash with
      the request. */
  method TryServer(store: BlockStore, server: ServerBlockStore, n: Network, text: string, sealing: Sealing, now: int,
                   ghost pool: set<Block>) returns (r: Option<Block>)
    requires Ready(store, pool) && ValidNetwork(n, pool) && ValidSealing(sealing) && ServerFits(server, store, pool)
    modifies store
    ensures Ready(store, pool)
    ensures r.Some? ==> r == ServerAnswer(server.contents, n, text) && Holds(store, r.value)
    ensures r.Some? && IsHashText(Lower(text)) ==> Hash(store.prim, r.value) == Digest(Lower(text))
    ensures old(store.unlocked) && NoKeyChange(n.duringL4) ==>
      store.unlocked && r == ServerAnswer(server.contents, n, text)
    ensures LeadsTo(store.prim, old(State(store)),
                    (if n.signedIn then n.duringL4 else []) + Keeping(r, 4, sealing, now, n.kept), State(store))
  {
    KeepingIs(sealing, now, n.kept);
    NetworkIs(n, pool);
    FitsIs(server, store, pool);
    ServerIsAsked(server.contents, n, text);
    hide *;
    r := None;
    ghost var before, done := State(store), [];
    NothingLeads(store.prim, before);
    if n.signedIn {
      var _, _ := Wait(store, n.duringL4, pool);
      done := n.duringL4;
      if n.serverReachable {
        var body := Request(server, n, text, pool);
        if body.Some? {
          ghost var mid := State(store);
          var ok := Persist(store, body.value, P4, sealing, now, n.kept, pool);
          ghost var put := if ok then [Put(body.value, P4, NO_INFO, sealing, now, n.kept)] else [];
          LeadsOn(store.prim, before, done, mid, put, State(store));
          done := done + put;
          if ok {
            r := body;
          }
        }
      }
    }
    assert done == (if n.signedIn then n.duringL4 else []) + Keeping(r, 4, sealing, now, n.kept);
  }

  lemma FitsIs(server: ServerBlockStore, store: BlockStore, pool: set<Block>)
    requires ServerFits(server, store, pool)
    ensures server.Valid() && server.prim == store.prim
    ensures forall h :: h in server.contents ==> server.contents[h] in pool
  {
  }

  lemma ServerIsAsked(server: ServerBlocks, n: Network, text: string)
    ensures !n.signedIn || !n.serverReachable ==> ServerAnswer(server, n, text) == None
  {
  }

  /** What resolveBlock promises about the block r it returns from the given layer (5 stands for none): for a text
      of 64 hex digits it belongs to the lower-cased address; it belongs to the text as given exactly when that is the
      text of a hash; and whatever it is, the store holds it under its own hash. */
  ghost predicate GoodAnswer(store: BlockStore, text: string, r: Option<Block>, layer: nat)
    reads store
  {
    && (r.Some? <==> layer <= 4)
    && (r.Some? && IsHashText(Lower(text)) ==> Hash(store.prim, r.value) == Digest(Lower(text)))
    && (r.Some? && layer <= 3 ==> Hash(store.prim, r.value) == Digest(text))
    && (r.Some? ==> (Hash(store.prim, r.value) == Digest(text) <==> IsHashText(text)))
    && (r.Some? ==> Holds(store, r.value))
  }

  lemma GoodIf(store: BlockStore, text: string, r: Option<Block>, layer: nat, pool: set<Block>)
    requires Ready(store, pool) && (r.Some? <==> layer <= 4)
    requires r.Some? ==> Holds(store, r.value)
    requires r.Some? && layer <= 3 ==> Hash(store.prim, r.value) == Digest(text)
    requires r.Some? && IsHashText(Lower(text)) && layer == 4 ==> Hash(store.prim, r.value) == Digest(Lower(text))
    ensures GoodAnswer(store, text, r, layer)
  {
    if IsHashText(text) {
      HashTextIsLower(text);
    }
    if r.Some? {
      assert IsHashText(Hash(store.prim, r.value).hex);
    }
  }

  lemma NetworkIs(n: Network, pool: set<Block>)
    requires ValidNetwork(n, pool)
    ensures ValidSwarm(n.hot, pool) && ValidSwarm(n.widened, pool)
    ensures ValidOps(n.duringL2, pool) && ValidOps(n.duringL3, pool) && ValidOps(n.duringL4, pool)
    ensures KeyStays(n) <==> NoKeyChange(n.duringL2) && NoKeyChange(n.duringL3) && NoKeyChange(n.duringL4)
  {
    hide ValidOps, NoKeyChange;
  }

  /** The block comes from the first of L2, L3 and L4 to have it. */
  ghost predicate FromNetwork(p: Primitives, server: ServerBlocks, n: Network, text: string, r: Option<Block>,
                              layer: nat) {
    && (r.Some? <==> layer <= 4)
    && (layer == 2 ==> r == HotAnswer(p, n, Digest(text)))
    && (layer >= 3 ==> HotAnswer(p, n, Digest(text)).None?)
    && (layer == 3 ==> r == WidenedAnswer(p, n, Digest(text)))
    && (layer >= 4 ==> WidenedAnswer(p, n, Digest(text)).None? && r == ServerAnswer(server, n, text))
  }

  lemma FromNetworkIf(p: Primitives, server: ServerBlocks, n: Network, text: string, r: Option<Block>, layer: nat)
    requires r.Some? <==> layer <= 4
    requires layer == 2 ==> r == PeersAnswer(p, n.nodeUp, n.hot, Digest(text))
    requires layer >= 3 ==> PeersAnswer(p, n.nodeUp, n.hot, Digest(text)).None?
    requires layer == 3 ==> r == PeersAnswer(p, n.nodeUp && n.discovered > 0, n.widened, Digest(text))
    requires layer >= 4 ==>
      && PeersAnswer(p, n.nodeUp && n.discovered > 0, n.widened, Digest(text)).None?
      && r == ServerAnswer(server, n, text)
    ensures FromNetwork(p, server, n, text, r, layer)
  {
    hide PeersAnswer, ServerAnswer;
  }

  /** An answer from the first layer that has the block is the right one. */
  lemma FirstLayerIsRight(p: Primitives, cached: bool, c: Contents, server: ServerBlocks, n: Network, text: string,
                          r: Option<Block>, layer: nat)
    requires (r.Some? <==> layer <= 4) && layer <= 5 && (layer == 0 <==> cached)
    requires var l1 := LocalAnswer(c, Digest(text)); if layer <= 1 then r == l1 else l1.None?
    requires layer >= 2 ==> FromNetwork(p, server, n, text, r, layer)
    ensures IsFirstAnswer(p, cached, c, server, n, text, r, layer)
  {
    hide LocalAnswer, HotAnswer, WidenedAnswer, ServerAnswer;
  }

  const LAYERS: seq<string> := ["L0", "L1", "L2", "L3", "L4"]

  lemma ProgressNames()
    ensures |LAYERS| == 5 && LAYERS[..1] == ["L0"] && LAYERS[..2] == ["L0", "L1"] == ["L0"] + ["L1"]
    ensures LAYERS[2..3] == ["L2"] && LAYERS[2..4] == ["L2"] + ["L3"] && LAYERS[2..5] == ["L2"] + ["L3"] + ["L4"]
    ensures forall k :: 3 <= k <= 5 ==> LAYERS[..2] + LAYERS[2..k] == LAYERS[..k]
    ensures LAYERS[..5] == LAYERS
  {
  }

  ghost predicate Knows(store: BlockStore, h: Digest)
    reads store
  {
    h in store.cache || (store.unlocked && h in store.contents)
  }

  /** L0 and L1. Both find the block that the store holds. */
  method TryLocal(store: BlockStore, h: Digest, now: int, kept: set<Digest>, ghost pool: set<Block>)
    returns (r: Option<Block>, layer: nat)
    requires Ready(store, pool)
    modifies store
    ensures Ready(store, pool) && store.unlocked == old(store.unlocked)
    ensures r.Some? <==> old(Knows(store, h))
    ensures r.Some? ==> r == LocalAnswer(old(store.contents), h)
    ensures r.Some? ==> Hash(store.prim, r.value) == h && Holds(store, r.value)
    ensures layer == if h in old(store.cache) then 0 else if r.Some? then 1 else 5
    ensures LeadsTo(store.prim, old(State(store)), [Get(h, now, kept)], State(store))
  {
    layer := if h in store.cache then 0 else 1;
    ContentsWellFormed(store);
    ghost var before, cache := State(store), store.cache;
    ghost var op := Get(h, now, kept);
    assert h in cache ==> cache[h] == before.contents[h].data;
    hide Step, Within, CollisionFree, WellFormed, Sound, Lawful, Represents, CachePut, LeadsTo;
    r := store.GetLocalBlock(h, now, kept);
    GetIsStep(store.prim, before, cache, op, r, pool);
    StepLeads(store.prim, before, op, Found(r), State(store));
    if r.None? {
      layer := 5;
    }
  }

  /** What becomes of the store between L1 and the answer r of the given layer. */
  ghost function NetworkOps(n: Network, r: Option<Block>, layer: nat, sealing: Sealing, now: int): seq<Op> {
    if layer == 2 then n.duringL2 + Keeping(r, 3, sealing, now, n.kept)
    else if layer == 3 then n.duringL2 + n.duringL3 + Keeping(r, 3, sealing, now, n.kept)
    else
      (if n.nodeUp then n.duringL2 + n.duringL3 else []) + (if n.signedIn then n.duringL4 else [])
      + Keeping(r, 4, sealing, now, n.kept)
  }

  lemma OpsOfLayerTwo(n: Network, r: Option<Block>, sealing: Sealing, now: int) returns (ops: seq<Op>)
    requires r.Some? ==> n.nodeUp
    ensures ops == (if n.nodeUp then n.duringL2 else []) + Keeping(r, 3, sealing, now, n.kept)
    ensures ops == if r.Some? then NetworkOps(n, r, 2, sealing, now) else if n.nodeUp then n.duringL2 else []
  {
    ops := (if n.nodeUp then n.duringL2 else []) + Keeping(r, 3, sealing, now, n.kept);
  }

  lemma OpsOfLayerThree(n: Network, r: Option<Block>, before: seq<Op>, sealing: Sealing, now: int)
    returns (ops: seq<Op>)
    requires before == (if n.nodeUp then n.duringL2 else []) && (r.Some? ==> n.nodeUp)
    ensures ops == (if n.nodeUp then n.duringL3 else []) + Keeping(r, 3, sealing, now, n.kept)
    ensures before + ops ==
      if r.Some? then NetworkOps(n, r, 3, sealing, now) else if n.nodeUp then n.duringL2 + n.duringL3 else []
  {
    ops := (if n.nodeUp then n.duringL3 else []) + Keeping(r, 3, sealing, now, n.kept);
  }

  lemma OpsOfLayerFour(n: Network, r: Option<Block>, before: seq<Op>, sealing: Sealing, now: int)
    returns (ops: seq<Op>)
    requires before == if n.nodeUp then n.duringL2 + n.duringL3 else []
    ensures ops == (if n.signedIn then n.duringL4 else []) + Keeping(r, 4, sealing, now, n.kept)
    ensures forall layer :: layer >= 4 ==> before + ops == NetworkOps(n, r, layer, sealing, now)
  {
    ops := (if n.signedIn then n.duringL4 else []) + Keeping(r, 4, sealing, now, n.kept);
  }

  /** A block found locally has been read; one that came over the network has been put, as warm content from a peer
      and altruistic from the server, after whatever else happened while it was awaited. */
  lemma OpsAre(n: Network, text: string, r: Option<Block>, layer: nat, sealing: Sealing, now: int)
    requires 2 <= layer <= 5 && (r.Some? <==> layer <= 4)
    ensures var done := [Get(Digest(text), now, n.kept)] + NetworkOps(n, r, layer, sealing, now);
      && (layer == 2 ==> done == [Get(Digest(text), now, n.kept)] + n.duringL2
                                 + [Put(r.value, 3, NO_INFO, sealing, now, n.kept)])
      && (layer == 3 ==> done == [Get(Digest(text), now, n.kept)] + n.duringL2 + n.duringL3
                                 + [Put(r.value, 3, NO_INFO, sealing, now, n.kept)])
      && (layer >= 4 ==>
            done == [Get(Digest(text), now, n.kept)]
                    + (if n.nodeUp then n.duringL2 + n.duringL3 else []) + (if n.signedIn then n.duringL4 else [])
                    + (if layer == 4 then [Put(r.value, 4, NO_INFO, sealing, now, n.kept)] else []))
  {
  }

  /** The rest of both functions after L1, with the layers that one of them announces. */
  method TryNetwork(store: BlockStore, server: ServerBlockStore, text: string, n: Network, sealing: Sealing, now: int,
                    ghost pool: set<Block>)
    returns (r: Option<Block>, layer: nat, announced: seq<string>, ghost done: seq<Op>)
    requires Ready(store, pool) && ValidNetwork(n, pool) && ValidSealing(sealing) && ServerFits(server, store, pool)
    modifies store
    ensures Ready(store, pool) && GoodAnswer(store, text, r, layer) && 2 <= layer <= 5
    ensures old(store.unlocked) && KeyStays(n) ==>
      store.unlocked && FromNetwork(store.prim, server.contents, n, text, r, layer)
    ensures announced == LAYERS[2..if layer <= 4 then layer + 1 else 5]
    ensures LeadsTo(store.prim, old(State(store)), done, State(store))
    ensures done == NetworkOps(n, r, layer, sealing, now)
  {
    hide *;
    NobodyAsked(store.prim, n, text);
    NetworkIs(n, pool);
    ProgressNames();
    ghost var start, more := State(store), [];
    ghost var calm := store.unlocked && KeyStays(n);
    var h, wide := Digest(text), n.nodeUp && n.discovered > 0;
    announced := ["L2"];
    r := TryPeers(store, n.nodeUp, n.nodeUp, n.hot, n.duringL2, h, sealing, now, n.kept, pool);
    layer := 2;
    done := OpsOfLayerTwo(n, r, sealing, now);
    if r.None? {
      ghost var mid := State(store);
      announced := announced + ["L3"];
      r := TryPeers(store, n.nodeUp, wide, n.widened, n.duringL3, h, sealing, now, n.kept, pool);
      layer := 3;
      more := OpsOfLayerThree(n, r, done, sealing, now);
      LeadsOn(store.prim, start, done, mid, more, State(store));
      done := done + more;
    }
    if r.None? {
      ghost var mid := State(store);
      announced := announced + ["L4"];
      r := TryServer(store, server, n, text, sealing, now, pool);
      layer := if r.Some? then 4 else 5;
      more := OpsOfLayerFour(n, r, done, sealing, now);
      LeadsOn(store.prim, start, done, mid, more, State(store));
      done := done + more;
    }
    GoodIf(store, text, r, layer, pool);
    if calm {
      FromNetworkIf(store.prim, server.contents, n, text, r, layer);
    }
  }

  /** A layer whose peers are not asked has no answer from them. */
  lemma NobodyAsked(p: Primitives, n: Network, text: string)
    ensures PeersAnswer(p, n.nodeUp, n.hot, Digest(text)).Some? ==> n.nodeUp
    ensures PeersAnswer(p, n.nodeUp && n.discovered > 0, n.widened, Digest(text)).Some? ==> n.nodeUp
  {
  }

  /** In terms of the replies themselves: a block that is not stored comes from the connected peers exactly when one of
      them sends it, else from the widened circle exactly when one of those does, else from the server if it can. */
  lemma LayersAreExact(p: Primitives, cached: bool, c: Contents, server: ServerBlocks, n: Network, text: string,
                       r: Option<Block>, layer: nat, pool: set<Block>)
    requires IsFirstAnswer(p, cached, c, server, n, text, r, layer) && ValidSwarm(n.hot, pool)
    requires ValidSwarm(n.widened, pool)
    ensures cached ==> layer == 0
    ensures !cached && Digest(text) in c ==> layer == 1
    ensures Digest(text) in c ==> r == Some(c[Digest(text)].data)
    ensures !cached && Digest(text) !in c ==>
      && (layer == 2 <==>
            && n.nodeUp
            && exists i, b :: 0 <= i < |n.hot.completion| && n.hot.answer[n.hot.completion[i]] == Reply(b)
                              && |b| > 0 && p.sha256(b) == text)
      && (layer == 3 <==>
            && layer != 2 && n.nodeUp && n.discovered > 0
            && exists i, b :: 0 <= i < |n.widened.completion| && n.widened.answer[n.widened.completion[i]] == Reply(b)
                              && |b| > 0 && p.sha256(b) == text)
      && (layer == 4 && IsHashText(Lower(text)) ==>
            Digest(Lower(text)) in server && r == Some(server[Digest(Lower(text))]))
      && (layer == 5 && IsHashText(Lower(text)) ==>
            !n.signedIn || !n.serverReachable || Digest(Lower(text)) !in server)
  {
    PeersAnswerExactly(p, n.hot, 0, Digest(text));
    PeersAnswerExactly(p, n.widened, 0, Digest(text));
    hide FirstVerified;
  }

  method ResolveBlock(store: BlockStore, server: ServerBlockStore, text: string, n: Network, sealing: Sealing, now: int,
                      ghost pool: set<Block>)
    returns (r: Option<Block>, layer: nat, ghost done: seq<Op>)
    requires Ready(store, pool) && ValidNetwork(n, pool) && ValidSealing(sealing) && ServerFits(server, store, pool)
    modifies store
    ensures Ready(store, pool) && GoodAnswer(store, text, r, layer)
    ensures layer == 0 <==> Digest(text) in old(store.cache)
    ensures Digest(text) in old(store.cache) || (old(store.unlocked) && Digest(text) in old(store.contents)) ==>
      layer <= 1 && Digest(text) in old(store.contents) && r == Some(old(store.contents)[Digest(text)].data)
    ensures old(store.unlocked) && KeyStays(n) ==>
      var cached := Digest(text) in old(store.cache);
      store.unlocked && IsFirstAnswer(store.prim, cached, old(store.contents), server.contents, n, text, r, layer)
    ensures old(store.unlocked) && KeyStays(n) && Digest(text) !in old(store.contents) ==>
      && (layer == 2 <==>
            && n.nodeUp
            && exists i, b :: 0 <= i < |n.hot.completion| && n.hot.answer[n.hot.completion[i]] == Reply(b)
                              && |b| > 0 && store.prim.sha256(b) == text)
      && (layer == 3 <==>
            && layer != 2 && n.nodeUp && n.discovered > 0
            && exists i, b :: 0 <= i < |n.widened.completion| && n.widened.answer[n.widened.completion[i]] == Reply(b)
                              && |b| > 0 && store.prim.sha256(b) == text)
      && (layer == 4 && IsHashText(Lower(text)) ==>
            Digest(Lower(text)) in server.contents && r == Some(server.contents[Digest(Lower(text))]))
      && (layer == 5 && IsHashText(Lower(text)) ==>
            !n.signedIn || !n.serverReachable || Digest(Lower(text)) !in server.contents)
    ensures r.Some? ==>
      Digest(store.prim.sha256(r.value)) in store.contents
      && store.contents[Digest(store.prim.sha256(r.value))].data == r.value
    ensures r.Some? && layer <= 3 ==> store.prim.sha256(r.value) == text
    ensures r.Some? && IsHashText(Lower(text)) ==> store.prim.sha256(r.value) == Lower(text)
    ensures LeadsTo(store.prim, old(State(store)), done, State(store))
    ensures layer <= 1 ==> done == [Get(Digest(text), now, n.kept)]
    ensures layer == 2 ==>
      done == [Get(Digest(text), now, n.kept)] + n.duringL2 + [Put(r.value, 3, NO_INFO, sealing, now, n.kept)]
    ensures layer == 3 ==>
      done == [Get(Digest(text), now, n.kept)] + n.duringL2 + n.duringL3
              + [Put(r.value, 3, NO_INFO, sealing, now, n.kept)]
    ensures layer >= 4 ==>
      done == [Get(Digest(text), now, n.kept)]
              + (if n.nodeUp then n.duringL2 + n.duringL3 else []) + (if n.signedIn then n.duringL4 else [])
              + (if layer == 4 then [Put(r.value, 4, NO_INFO, sealing, now, n.kept)] else [])
  {
    hide *;
    NetworkIs(n, pool);
    ReadyIs(store, pool);
    KnowsIs(store, Digest(text));
    ghost var calm, cached, c := store.unlocked && KeyStays(n), Digest(text) in store.cache, store.contents;
    r, layer := TryLocal(store, Digest(text), now, n.kept, pool);
    done := [Get(Digest(text), now, n.kept)];
    if r.Some? {
      GoodIf(store, text, r, layer, pool);
      GoodIs(store, text, r, layer);
    } else {
      ghost var before, mid, more := old(State(store)), State(store), [];
      var unannounced;
      r, layer, unannounced, more := TryNetwork(store, server, text, n, sealing, now, pool);
      LeadsOn(store.prim, before, done, mid, more, State(store));
      done := done + more;
      GoodIs(store, text, r, layer);
      OpsAre(n, text, r, layer, sealing, now);
    }
    if calm {
      FirstLayerIsRight(store.prim, cached, c, server.contents, n, text, r, layer);
      LayersAreExact(store.prim, cached, c, server.contents, n, text, r, layer, pool);
    }
  }

  lemma ReadyIs(store: BlockStore, pool: set<Block>)
    requires Ready(store, pool)
    ensures store.Valid()
  {
  }

  lemma KnowsIs(store: BlockStore, h: Digest)
    requires store.Valid()
    ensures h in store.cache ==> h in store.contents
    ensures Knows(store, h) <==> h in store.cache || (store.unlocked && h in store.contents)
    ensures Knows(store, h) ==> LocalAnswer(store.contents, h) == Some(store.contents[h].data)
    ensures store.unlocked && !Knows(store, h) ==> LocalAnswer(store.contents, h).None?
    ensures h in store.cache ==> Knows(store, h)
  {
  }

  lemma GoodIs(store: BlockStore, text: string, r: Option<Block>, layer: nat)
    requires GoodAnswer(store, text, r, layer)
    ensures r.Some? <==> layer <= 4
    ensures r.Some? ==>
      Digest(store.prim.sha256(r.value)) in store.contents
      && store.contents[Digest(store.prim.sha256(r.value))].data == r.value
    ensures r.Some? && layer <= 3 ==> store.prim.sha256(r.value) == text
    ensures r.Some? && IsHashText(Lower(text)) ==> store.prim.sha256(r.value) == Lower(text)
  {
  }

  /** The variant with progress: the same answer from the same layer, and it announces exactly the layers
      it tried, in order, down to the one that answered. */
  method ResolveBlockWithProgress(store: BlockStore, server: ServerBlockStore, text: string, n: Network,
                                  sealing: Sealing, now: int, ghost pool: set<Block>)
    returns (r: Option<Block>, layer: nat, progress: seq<string>, ghost done: seq<Op>)
    requires Ready(store, pool) && ValidNetwork(n, pool) && ValidSealing(sealing) && ServerFits(server, store, pool)
    modifies store
    ensures Ready(store, pool) && GoodAnswer(store, text, r, layer)
    ensures layer == 0 <==> Digest(text) in old(store.cache)
    ensures Digest(text) in old(store.cache) || (old(store.unlocked) && Digest(text) in old(store.contents)) ==>
      layer <= 1 && Digest(text) in old(store.contents) && r == Some(old(store.contents)[Digest(text)].data)
    ensures old(store.unlocked) && KeyStays(n) ==>
      var cached := Digest(text) in old(store.cache);
      store.unlocked && IsFirstAnswer(store.prim, cached, old(store.contents), server.contents, n, text, r, layer)
    ensures old(store.unlocked) && KeyStays(n) && Digest(text) !in old(store.contents) ==>
      && (layer == 2 <==>
            && n.nodeUp
            && exists i, b :: 0 <= i < |n.hot.completion| && n.hot.answer[n.hot.completion[i]] == Reply(b)
                              && |b| > 0 && store.prim.sha256(b) == text)
      && (layer == 3 <==>
            && layer != 2 && n.nodeUp && n.discovered > 0
            && exists i, b :: 0 <= i < |n.widened.completion| && n.widened.answer[n.widened.completion[i]] == Reply(b)
                              && |b| > 0 && store.prim.sha256(b) == text)
      && (layer == 4 && IsHashText(Lower(text)) ==>
            Digest(Lower(text)) in server.contents && r == Some(server.contents[Digest(Lower(text))]))
      && (layer == 5 && IsHashText(Lower(text)) ==>
            !n.signedIn || !n.serverReachable || Digest(Lower(text)) !in server.contents)
    ensures r.Some? ==>
      Digest(store.prim.sha256(r.value)) in store.contents
      && store.contents[Digest(store.prim.sha256(r.value))].data == r.value
    ensures r.Some? && layer <= 3 ==> store.prim.sha256(r.value) == text
    ensures r.Some? && IsHashText(Lower(text)) ==> store.prim.sha256(r.value) == Lower(text)
    ensures LeadsTo(store.prim, old(State(store)), done, State(store))
    ensures layer <= 1 ==> done == [Get(Digest(text), now, n.kept)]
    ensures layer == 2 ==>
      done == [Get(Digest(text), now, n.kept)] + n.duringL2 + [Put(r.value, 3, NO_INFO, sealing, now, n.kept)]
    ensures layer == 3 ==>
      done == [Get(Digest(text), now, n.kept)] + n.duringL2 + n.duringL3
              + [Put(r.value, 3, NO_INFO, sealing, now, n.kept)]
    ensures layer >= 4 ==>
      done == [Get(Digest(text), now, n.kept)]
              + (if n.nodeUp then n.duringL2 + n.duringL3 else []) + (if n.signedIn then n.duringL4 else [])
              + (if layer == 4 then [Put(r.value, 4, NO_INFO, sealing, now, n.kept)] else [])
    ensures progress == ["L0", "L1", "L2", "L3", "L4"][..if layer <= 4 then layer + 1 else 5]
  {
    hide *;
    NetworkIs(n, pool);
    ReadyIs(store, pool);
    KnowsIs(store, Digest(text));
    ProgressNames();
    ghost var calm, cached, c := store.unlocked && KeyStays(n), Digest(text) in store.cache, store.contents;
    progress := ["L0"];
    r, layer := TryLocal(store, Digest(text), now, n.kept, pool);
    if layer != 0 {
      progress := progress + ["L1"];
    }
    done := [Get(Digest(text), now, n.kept)];
    if r.Some? {
      GoodIf(store, text, r, layer, pool);
      GoodIs(store, text, r, layer);
    } else {
      ghost var before, mid, more := old(State(store)), State(store), [];
      var announced;
      r, layer, announced, more := TryNetwork(store, server, text, n, sealing, now, pool);
      LeadsOn(store.prim, before, done, mid, more, State(store));
      done := done + more;
      progress := progress + announced;
      GoodIs(store, text, r, layer);
      OpsAre(n, text, r, layer, sealing, now);
    }
    if calm {
      FirstLayerIsRight(store.prim, cached, c, server.contents, n, text, r, layer);
      LayersAreExact(store.prim, cached, c, server.contents, n, text, r, layer, pool);
    }
  }

  // ---- consequences ----

  /** What a caller needs who resolves more than once. */
  method ResolveAnswer(store: BlockStore, server: ServerBlockStore, text: string, n: Network, sealing: Sealing,
                       now: int,
                       ghost pool: set<Block>)
    returns (r: Option<Block>, layer: nat)
    requires Ready(store, pool) && ValidNetwork(n, pool) && ValidSealing(sealing) && ServerFits(server, store, pool)
    modifies store
    ensures Ready(store, pool) && GoodAnswer(store, text, r, layer)
    ensures old(Knows(store, Digest(text))) ==> layer <= 1 && r == LocalAnswer(old(store.contents), Digest(text))
    ensures old(store.unlocked) && KeyStays(n) ==>
      var cached := Digest(text) in old(store.cache);
      store.unlocked && IsFirstAnswer(store.prim, cached, old(store.contents), server.contents, n, text, r, layer)
  {
    hide *;
    ReadyIs(store, pool);
    KnowsIs(store, Digest(text));
    ghost var done;
    r, layer, done := ResolveBlock(store, server, text, n, sealing, now, pool);
  }

  /** Whatever was resolved is held, under its own hash, when the run in between begins. After a resolution of the
      text of a hash, and through any run that spares the block and ends unlocked, the next resolution ends at L0 or
      L1 with the same bytes; and a run of harmless operations is such a run. */
  method ResolveTwice(store: BlockStore, server: ServerBlockStore, text: string, n: Network, between: seq<Op>,
                      m: Network, sealing: Sealing, now: int, ghost pool: set<Block>)
    returns (first: Option<Block>, second: Option<Block>, layer: nat, outs: seq<Answer>, ghost trace: seq<Plainly>)
    requires Ready(store, pool) && ValidNetwork(n, pool) && ValidNetwork(m, pool) && ValidOps(between, pool)
    requires ValidSealing(sealing) && ServerFits(server, store, pool)
    modifies store
    ensures Ready(store, pool)
    ensures IsRun(store.prim, trace, between, outs)
    ensures first.Some? ==>
      Digest(store.prim.sha256(first.value)) in trace[0].contents
      && trace[0].contents[Digest(store.prim.sha256(first.value))].data == first.value
    ensures old(store.unlocked) && KeyStays(n) ==>
      && trace[0].unlocked
      && first == Resolution(store.prim, old(store.contents), server.contents, n, text)
    ensures first.Some? && IsHashText(text) && SparedAlong(trace, between, 0, |between|, Digest(text)) ==>
      (trace[|between|].unlocked ==> layer <= 1 && second == first)
    ensures old(store.unlocked) && KeyStays(n) && first.Some? && IsHashText(text) ==>
      (forall i :: 0 <= i < |between| ==>
         between[i] != Delete(Digest(text)) && !between[i].Sweep? && !between[i].Ttl? && !between[i].SetKey?) ==>
        layer <= 1 && second == first
    ensures trace[|between|].unlocked && KeyStays(m) ==>
      second == Resolution(store.prim, trace[|between|].contents, server.contents, m, text)
  {
    hide *;
    ghost var cached0 := Digest(text) in store.cache;
    first, layer := ResolveAnswer(store, server, text, n, sealing, now, pool);
    ghost var layer0 := layer;
    ResolvedIsHeld(store, text, first, layer);
    outs, trace := Wait(store, between, pool);
    ghost var h, end := Digest(text), |between|;
    if trace[0].unlocked && forall i :: 0 <= i < |between| ==>
         between[i] != Delete(h) && !between[i].Sweep? && !between[i].Ttl? && !between[i].SetKey? {
      HarmlessSpares(store.prim, trace, between, outs, h);
    }
    if first.Some? && IsHashText(text) && SparedAlong(trace, between, 0, end, h) {
      SparedIsKept(store.prim, trace, between, outs, 0, end, h);
      KeptIsKnown(store, h, trace[end]);
    }
    StateIs(store);
    ghost var cached1 := Digest(text) in store.cache;
    second, layer := ResolveAnswer(store, server, text, m, sealing, now, pool);
    if old(store.unlocked) && KeyStays(n) {
      FirstAnswerIs(store.prim, cached0, old(store.contents), server.contents, n, text, first, layer0);
    }
    if trace[end].unlocked && KeyStays(m) {
      FirstAnswerIs(store.prim, cached1, trace[end].contents, server.contents, m, text, second, layer);
    }
  }

  lemma FirstAnswerIs(p: Primitives, cached: bool, c: Contents, server: ServerBlocks, n: Network, text: string,
                      r: Option<Block>, layer: nat)
    requires IsFirstAnswer(p, cached, c, server, n, text, r, layer)
    ensures r == Resolution(p, c, server, n, text)
  {
  }

  lemma ResolvedIsHeld(store: BlockStore, text: string, r: Option<Block>, layer: nat)
    requires GoodAnswer(store, text, r, layer)
    ensures State(store).unlocked == store.unlocked
    ensures r.Some? ==>
      Digest(store.prim.sha256(r.value)) in State(store).contents
      && State(store).contents[Digest(store.prim.sha256(r.value))].data == r.value
    ensures r.Some? && IsHashText(text) ==>
      Digest(text) in State(store).contents && State(store).contents[Digest(text)].data == r.value
  {
  }

  lemma StateIs(store: BlockStore)
    ensures State(store) == Plainly(store.contents, store.unlocked)
  {
  }

  lemma HarmlessSpares(p: Primitives, trace: seq<Plainly>, ops: seq<Op>, outs: seq<Answer>, h: Digest)
    requires IsRun(p, trace, ops, outs) && trace[0].unlocked
    requires forall i :: 0 <= i < |ops| ==>
      ops[i] != Delete(h) && !ops[i].Sweep? && !ops[i].Ttl? && !ops[i].SetKey?
    ensures SparedAlong(trace, ops, 0, |ops|, h) && trace[|ops|].unlocked
  {
    KeyUnchanged(p, trace, ops, outs, |ops|);
  }

  lemma KeptIsKnown(store: BlockStore, h: Digest, s: Plainly)
    requires s == State(store) && h in s.contents
    ensures store.unlocked ==> Knows(store, h)
    ensures s.unlocked == store.unlocked
    ensures LocalAnswer(store.contents, h) == Some(s.contents[h].data)
  {
  }

  /** The block that a resolution returns has the requested address exactly when the request was the text of a hash: 64
      lower-case hex digits. Any other request is never found in memory, on disk or at peers, even right after it was
      answered: it always goes to the server, and the client does not hash what comes back. */
  lemma AddressRightIff(p: Primitives, c: Contents, server: ServerBlocks, n: Network, text: string)
    requires Lawful(p) && WellFormed(p, c) && forall h :: h in server ==> p.sha256(server[h]) == h.hex
    ensures var r := Resolution(p, c, server, n, text);
      r.Some? ==> (Hash(p, r.value) == Digest(text) <==> IsHashText(text))
    ensures !IsHashText(text) ==>
      && Digest(text) !in c
      && Resolution(p, c, server, n, text) == ServerAnswer(server, n, text)
      && AnsweringLayer(p, false, c, server, n, text) >= 4
  {
    PeersAnswerExactly(p, n.hot, 0, Digest(text));
    PeersAnswerExactly(p, n.widened, 0, Digest(text));
    assert forall data: Block :: IsHashText(Hash(p, data).hex);
    if IsHashText(text) {
      HashTextIsLower(text);
    }
  }

  /** For any lawful primitives, any block and any lie that does not hash to it: on an empty store, of a peer that lies
      first and one that does not, the block comes from L2; another store without peers has it from the server; and
      asked again, each answers by itself. */
  method FromPeerAndFromServer(p: Primitives, key: Key, data: Block, lie: Block, sealing: Sealing, nonce: Bytes,
                               now: int)
    returns (peer: nat, again: nat, server: nat)
    requires Lawful(p) && |sealing.nonce| == (if sealing.algorithm == AesGcm then 12 else 24)
    requires |nonce| == 12 && p.sha256(lie) != p.sha256(data)
    ensures peer == 2 && again <= 1 && server == 4
  {
    ghost var pool := {data, lie};
    var text := p.sha256(data);
    var liars := Swarm(["liar", "peer"], ["liar", "peer"], map["liar" := Reply(lie), "peer" := Reply(data)]);
    var n := Network(true, liars, 0, Swarm([], [], map[]), false, false, None, [], [], [], {});
    var blocks := new ServerBlockStore(p);
    var store := new BlockStore(p, key);
    assert ValidNetwork(n, pool) && KeyStays(n);
    assert ServerFits(blocks, store, pool) && Ready(store, pool);
    assert n.hot.answer[n.hot.completion[1]] == Reply(data);
    var r;
    ghost var done;
    r, peer, done := ResolveBlock(store, blocks, text, n, sealing, now, pool);
    assert Digest(text) in store.contents by {
      assert p.sha256(r.value) == text;
    }
    r, again, done := ResolveBlock(store, blocks, text, n, sealing, now, pool);
    server := FromServer(p, key, data, sealing, nonce, now);
  }

  method FromServer(p: Primitives, key: Key, data: Block, sealing: Sealing, nonce: Bytes, now: int)
    returns (layer: nat)
    requires Lawful(p) && |sealing.nonce| == (if sealing.algorithm == AesGcm then 12 else 24)
    requires |nonce| == 12
    ensures layer == 4
  {
    ghost var pool := {data};
    var text := p.sha256(data);
    HashTextIsLower(text);
    var blocks := new ServerBlockStore(p);
    var accepted := blocks.PutBlock(Digest(text), data, None, 30, nonce, now);
    var store := new BlockStore(p, key);
    var n := ServerOnly(None);
    assert ValidNetwork(n, pool) && KeyStays(n);
    assert ServerFits(blocks, store, pool) && Ready(store, pool);
    var r;
    ghost var done;
    r, layer, done := ResolveBlock(store, blocks, text, n, sealing, now, pool);
  }

  /** A toy cipher and a constant hash, enough to exhibit one run. */
  function ToyPrimitives(): Primitives {
    Primitives(
      (d: Bytes) => seq(64, _ => 'a'),
      (h: Digest) => [],
      (a: Algorithm, k: Key, n: Bytes, d: Bytes) => d + seq(TAG_SIZE, _ => 0),
      (a: Algorithm, k: Key, n: Bytes, c: Bytes) => if |c| < TAG_SIZE then None else Some(c[..|c| - TAG_SIZE]))
  }

  lemma ToyIsLawful()
    ensures Lawful(ToyPrimitives())
  {
    var p := ToyPrimitives();
    forall a: Algorithm, k: Key, n: Bytes, d: Bytes
      ensures p.open(a, k, n, p.seal(a, k, n, d)) == Some(d)
    {
      assert (d + seq(TAG_SIZE, _ => 0))[..|d|] == d;
    }
  }

  /** No peers, a server that answers, and what it sends for texts that are no hash. */
  function ServerOnly(stray: Option<Block>): Network {
    var nobody := Swarm([], [], map[]);
    Network(false, nobody, 0, nobody, true, true, stray, [], [], [], {})
  }

  /** An upper-case request that only the server can answer comes back with a block of another address. */
  lemma UpperCaseRequestIsMislabelled()
    ensures
      var p, text := ToyPrimitives(), seq(64, _ => 'A');
      && Lawful(p)
      && Resolution(p, map[], map[Hash(p, [7]) := [7]], ServerOnly(None), text) == Some([7])
      && Hash(p, [7]) != Digest(text)
  {
    ToyIsLawful();
    var p, text := ToyPrimitives(), seq(64, _ => 'A');
    assert Lower(text) == seq(64, _ => 'a');
    assert text[0] == 'A' && Hash(p, [7]).hex[0] == 'a';
  }

  /** So does a lower-case one that is no hash: with a question mark after it, the text of a stored hash asks for that
      block, and the block returned does not hash to the text. */
  lemma LowerCaseIsNotEnough()
    ensures
      var p, text := ToyPrimitives(), seq(64, _ => 'a') + "?";
      && Lawful(p) && Lower(text) == text
      && Resolution(p, map[], map[Hash(p, [7]) := [7]], ServerOnly(Some([7])), text) == Some([7])
      && Hash(p, [7]) != Digest(text)
  {
    ToyIsLawful();
    var p, text := ToyPrimitives(), seq(64, _ => 'a') + "?";
    assert Lower(text) == text;
    assert |text| == 65 && |Hash(p, [7]).hex| == 64;
  }
}
