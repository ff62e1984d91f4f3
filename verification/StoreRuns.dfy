/** Every run of the client block store: what the cache, the sweeps and the TTL pass can never change. */
module StoreRuns {
  import opened Wrappers
  import opened BlockCrypto
  import opened BlockContents
  import opened ClientStore
  import opened Eviction

  datatype Op =
    | Put(data: Block, tier: Tier, info: Info, sealing: Sealing, now: int, kept: set<Digest>)
    | Get(h: Digest, now: int, kept: set<Digest>)
    | Delete(h: Digest)
    | Upgrade(h: Digest, tier: Tier)
    | Touch(h: Digest, now: int)
    | Sweep(budget: int)
    | Ttl(days: int, now: int)
    | DropCached(kept: set<Digest>)
    | SetKey(unlocked: bool)

  datatype Answer = Done | Stored(hash: Result<Digest, StoreError>) | Found(block: Option<Block>)

  /** A store as its callers may think of it: plaintext blocks and a key, no files and no cache. */
  datatype Plainly = Plainly(contents: Contents, unlocked: bool)

  ghost predicate Step(p: Primitives, s: Plainly, op: Op, out: Answer, t: Plainly) {
    match op
    case Put(data, tier, info, _, now, _) =>
      var h := Hash(p, data);
      if s.unlocked || h in s.contents
      then out == Stored(Ok(h)) && t == s.(contents := BlockContents.Stored(s.contents, h, data, tier, info, now))
      else out == Stored(Err(KeyUnavailable)) && t == s
    case Get(h, now, _) =>
      // A locked store may still answer from memory; it never answers anything else.
      if h in s.contents && (s.unlocked || out != Found(None))
      then out == Found(Some(s.contents[h].data)) && t == s.(contents := Touched(s.contents, h, now))
      else out == Found(None) && t == s
    case Delete(h) => out == Done && t == s.(contents := s.contents - {h})
    case Upgrade(h, tier) => out == Done && t == s.(contents := Upgraded(s.contents, h, tier))
    case Touch(h, now) => out == Done && t == s.(contents := Touched(s.contents, h, now))
    case Sweep(budget) => out == Done && Swept(s.contents, t.contents, budget) && t.unlocked == s.unlocked
    case Ttl(days, now) => out == Done && t == s.(contents := WithoutExpired(s.contents, days, now))
    case DropCached(_) => out == Done && t == s
    case SetKey(u) => out == Done && t == s.(unlocked := u)
  }

  ghost predicate IsRun(p: Primitives, trace: seq<Plainly>, ops: seq<Op>, outs: seq<Answer>) {
    && |trace| == |ops| + 1 && |outs| == |ops|
    && forall i :: 0 <= i < |ops| ==> Step(p, trace[i], ops[i], outs[i], trace[i + 1])
  }

  ghost predicate ValidOp(op: Op) {
    op.Put? ==> ValidSealing(op.sealing)
  }

  /** All blocks a store holds, and all an operation brings, belong to the pool. */
  ghost predicate Within(c: Contents, pool: set<Block>) {
    forall h :: h in c ==> c[h].data in pool
  }

  ghost predicate OpWithin(op: Op, pool: set<Block>) {
    op.Put? ==> op.data in pool
  }

  ghost function State(store: BlockStore): Plainly
    reads store
  {
    Plainly(store.contents, store.unlocked)
  }

  lemma StillCoherent(cache: map<Digest, Block>, cache': map<Digest, Block>, c: Contents, c': Contents,
                      pool: set<Block>)
    requires Within(c, pool) && CacheFollows(cache, cache', c')
    requires forall h :: h in c' ==> h in c && c'[h].data == c[h].data
    requires forall h :: h in cache && h in c ==> cache[h] == c[h].data
    ensures Within(c', pool)
    ensures CacheAgrees(cache', c')
  {
  }

  lemma PutIsStep(p: Primitives, s: Plainly, cache: map<Digest, Block>, op: Op, r: Result<Digest, StoreError>,
                  pool: set<Block>)
    requires op.Put? && OpWithin(op, pool) && CollisionFree(p, pool) && Within(s.contents, pool)
    requires WellFormed(p, s.contents) && CacheAgrees(cache, s.contents)
    requires r == if s.unlocked || Hash(p, op.data) in s.contents then Ok(Hash(p, op.data)) else Err(KeyUnavailable)
    ensures
      var h := Hash(p, op.data);
      var c := if r.Ok? then BlockContents.Stored(s.contents, h, op.data, op.tier, op.info, op.now) else s.contents;
      && Step(p, s, op, Answer.Stored(r), Plainly(c, s.unlocked))
      && Within(c, pool)
      && CacheAgrees(if r.Ok? then CachePut(cache, h, op.data, op.kept) else cache, c)
  {
    assert Hash(p, op.data) in s.contents ==> s.contents[Hash(p, op.data)].data == op.data;
  }

  lemma GetIsStep(p: Primitives, s: Plainly, cache: map<Digest, Block>, op: Op, r: Option<Block>, pool: set<Block>)
    requires op.Get? && Within(s.contents, pool) && CacheAgrees(cache, s.contents)
    requires r.Some? ==> op.h in s.contents && r.value == s.contents[op.h].data
    requires r.None? ==> !(s.unlocked && op.h in s.contents)
    ensures
      var c := if r.Some? then Touched(s.contents, op.h, op.now) else s.contents;
      && Step(p, s, op, Found(r), Plainly(c, s.unlocked))
      && Within(c, pool)
      && CacheAgrees(if r.Some? && op.h !in cache then CachePut(cache, op.h, r.value, op.kept) else cache, c)
  {
  }

  lemma RowUpdateIsStep(p: Primitives, s: Plainly, cache: map<Digest, Block>, op: Op, pool: set<Block>)
    requires (op.Upgrade? || op.Touch?) && Within(s.contents, pool) && CacheAgrees(cache, s.contents)
    ensures
      var c := if op.Upgrade? then Upgraded(s.contents, op.h, op.tier) else Touched(s.contents, op.h, op.now);
      Step(p, s, op, Done, Plainly(c, s.unlocked)) && Within(c, pool) && CacheAgrees(cache, c)
  {
  }

  lemma ContentsWellFormed(store: BlockStore)
    requires store.Valid()
    ensures WellFormed(store.prim, store.contents)
    ensures forall h :: h in store.cache ==> h in store.contents
  {
  }

  method ApplyPut(store: BlockStore, op: Op, ghost pool: set<Block>) returns (out: Answer)
    requires store.Valid() && store.Coherent() && op.Put? && ValidOp(op) && OpWithin(op, pool)
    requires CollisionFree(store.prim, pool) && Within(store.contents, pool)
    modifies store
    ensures store.Valid() && store.Coherent() && Within(store.contents, pool)
    ensures Step(store.prim, old(State(store)), op, out, State(store))
  {
    ContentsWellFormed(store);
    hide Step, Within, CacheAgrees, CollisionFree, WellFormed, Sound, Lawful, Represents, BlockContents.Stored;
    ghost var before, cache := State(store), store.cache;
    var r := store.PutBlock(op.data, op.tier, op.info, op.sealing, op.now, op.kept);
    PutIsStep(store.prim, before, cache, op, r, pool);
    out := Answer.Stored(r);
  }

  method ApplyGet(store: BlockStore, op: Op, ghost pool: set<Block>) returns (out: Answer)
    requires store.Valid() && store.Coherent() && op.Get?
    requires CollisionFree(store.prim, pool) && Within(store.contents, pool)
    modifies store
    ensures store.Valid() && store.Coherent() && Within(store.contents, pool)
    ensures Step(store.prim, old(State(store)), op, out, State(store))
  {
    ContentsWellFormed(store);
    hide Step, Within, CollisionFree, WellFormed, Sound, Lawful, Represents, Touched;
    ghost var before, cache := State(store), store.cache;
    var r := store.GetLocalBlock(op.h, op.now, op.kept);
    GetIsStep(store.prim, before, cache, op, r, pool);
    out := Found(r);
  }

  method ApplyDelete(store: BlockStore, op: Op, ghost pool: set<Block>) returns (out: Answer)
    requires store.Valid() && store.Coherent() && op.Delete?
    requires CollisionFree(store.prim, pool) && Within(store.contents, pool)
    modifies store
    ensures store.Valid() && store.Coherent() && Within(store.contents, pool)
    ensures Step(store.prim, old(State(store)), op, out, State(store))
  {
    store.DeleteBlock(op.h);
    out := Done;
  }

  method ApplyRowUpdate(store: BlockStore, op: Op, ghost pool: set<Block>) returns (out: Answer)
    requires store.Valid() && store.Coherent() && (op.Upgrade? || op.Touch?)
    requires CollisionFree(store.prim, pool) && Within(store.contents, pool)
    modifies store
    ensures store.Valid() && store.Coherent() && Within(store.contents, pool)
    ensures Step(store.prim, old(State(store)), op, out, State(store))
  {
    hide Step, Within, CacheAgrees, CollisionFree, Sound, Lawful, Represents, Touched, Upgraded;
    RowUpdateIsStep(store.prim, State(store), store.cache, op, pool);
    if op.Upgrade? {
      store.MaybeUpgradeTier(op.h, op.tier);
    } else {
      store.TouchAccess(op.h, op.now);
    }
    out := Done;
  }

  method ApplyEviction(store: BlockStore, op: Op, ghost pool: set<Block>) returns (out: Answer)
    requires store.Valid() && store.Coherent() && (op.Sweep? || op.Ttl?)
    requires CollisionFree(store.prim, pool) && Within(store.contents, pool)
    modifies store
    ensures store.Valid() && store.Coherent() && Within(store.contents, pool)
    ensures Step(store.prim, old(State(store)), op, out, State(store))
  {
    if op.Sweep? {
      RunEvictionSweep(store, op.budget);
    } else {
      CheckTtlExpiry(store, op.days, op.now);
    }
    StillCoherent(old(store.cache), store.cache, old(store.contents), store.contents, pool);
    out := Done;
  }

  method ApplyDropCached(store: BlockStore, op: Op, ghost pool: set<Block>) returns (out: Answer)
    requires store.Valid() && store.Coherent() && op.DropCached?
    requires CollisionFree(store.prim, pool) && Within(store.contents, pool)
    modifies store
    ensures store.Valid() && store.Coherent() && Within(store.contents, pool)
    ensures Step(store.prim, old(State(store)), op, out, State(store))
  {
    store.EvictL0(op.kept);
    out := Done;
  }

  method ApplySetKey(store: BlockStore, op: Op, ghost pool: set<Block>) returns (out: Answer)
    requires store.Valid() && store.Coherent() && op.SetKey?
    requires CollisionFree(store.prim, pool) && Within(store.contents, pool)
    modifies store
    ensures store.Valid() && store.Coherent() && Within(store.contents, pool)
    ensures Step(store.prim, old(State(store)), op, out, State(store))
  {
    store.SetUnlocked(op.unlocked);
    out := Done;
  }

  /** One operation of the real store is one step of the plain one, whatever L0 happens to hold. */
  method Apply(store: BlockStore, op: Op, ghost pool: set<Block>) returns (out: Answer)
    requires store.Valid() && store.Coherent() && ValidOp(op)
    requires CollisionFree(store.prim, pool) && Within(store.contents, pool) && OpWithin(op, pool)
    modifies store
    ensures store.Valid() && store.Coherent() && Within(store.contents, pool)
    ensures Step(store.prim, old(State(store)), op, out, State(store))
  {
    hide *;
    match op {
      case Put(_, _, _, _, _, _) => out := ApplyPut(store, op, pool);
      case Get(_, _, _) => out := ApplyGet(store, op, pool);
      case Delete(h) => out := ApplyDelete(store, op, pool);
      case Upgrade(h, tier) => out := ApplyRowUpdate(store, op, pool);
      case Touch(h, now) => out := ApplyRowUpdate(store, op, pool);
      case Sweep(budget) => out := ApplyEviction(store, op, pool);
      case Ttl(days, now) => out := ApplyEviction(store, op, pool);
      case DropCached(kept) => out := ApplyDropCached(store, op, pool);
      case SetKey(u) => out := ApplySetKey(store, op, pool);
    }
  }

  /** Cache transparency: the answers of every run are answers of a run of the plain store. */
  method RunAll(store: BlockStore, ops: seq<Op>, ghost pool: set<Block>)
    returns (outs: seq<Answer>, ghost trace: seq<Plainly>)
    requires store.Valid() && store.Coherent()
    requires CollisionFree(store.prim, pool) && Within(store.contents, pool)
    requires forall i :: 0 <= i < |ops| ==> ValidOp(ops[i]) && OpWithin(ops[i], pool)
    modifies store
    ensures store.Valid() && store.Coherent() && Within(store.contents, pool)
    ensures IsRun(store.prim, trace, ops, outs)
    ensures trace[0] == old(State(store)) && trace[|ops|] == State(store)
  {
    outs, trace := [], [State(store)];
    for i := 0 to |ops|
      invariant store.Valid() && store.Coherent() && Within(store.contents, pool)
      invariant IsRun(store.prim, trace, ops[..i], outs)
      invariant trace[0] == old(State(store)) && trace[i] == State(store)
    {
      hide *;
      var out := Apply(store, ops[i], pool);
      RunGrows(store.prim, trace, ops[..i], outs, ops[i], out, State(store));
      assert ops[..i + 1] == ops[..i] + [ops[i]];
      outs := outs + [out];
      trace := trace + [State(store)];
    }
    assert ops[..|ops|] == ops;
  }

  lemma RunGrows(p: Primitives, trace: seq<Plainly>, ops: seq<Op>, outs: seq<Answer>, op: Op, out: Answer, t: Plainly)
    requires IsRun(p, trace, ops, outs) && Step(p, trace[|ops|], op, out, t)
    ensures IsRun(p, trace + [t], ops + [op], outs + [out])
  {
  }

  /** The operations lead from the one state to the other, whatever they answer on the way. */
  ghost predicate LeadsTo(p: Primitives, s: Plainly, ops: seq<Op>, t: Plainly) {
    exists trace, outs :: IsRun(p, trace, ops, outs) && trace[0] == s && trace[|ops|] == t
  }

  lemma RunLeads(p: Primitives, trace: seq<Plainly>, ops: seq<Op>, outs: seq<Answer>)
    requires IsRun(p, trace, ops, outs)
    ensures LeadsTo(p, trace[0], ops, trace[|ops|])
  {
  }

  lemma StepLeads(p: Primitives, s: Plainly, op: Op, out: Answer, t: Plainly)
    requires Step(p, s, op, out, t)
    ensures LeadsTo(p, s, [op], t)
  {
    hide Step;
    assert IsRun(p, [s, t], [op], [out]);
  }

  lemma NothingLeads(p: Primitives, s: Plainly)
    ensures LeadsTo(p, s, [], s)
  {
    hide Step;
    assert IsRun(p, [s], [], []);
  }

  lemma LeadsOn(p: Primitives, s: Plainly, a: seq<Op>, t: Plainly, b: seq<Op>, u: Plainly)
    requires LeadsTo(p, s, a, t) && LeadsTo(p, t, b, u)
    ensures LeadsTo(p, s, a + b, u)
  {
    hide Step;
    var trace, outs :| IsRun(p, trace, a, outs) && trace[0] == s && trace[|a|] == t;
    var more, rest :| IsRun(p, more, b, rest) && more[0] == t && more[|b|] == u;
    var all := trace + more[1..];
    assert forall i :: |a| <= i <= |a| + |b| ==> all[i] == more[i - |a|];
    assert IsRun(p, all, a + b, outs + rest);
  }

  /** Such runs there are: on an empty store a read finds nothing, and after a put it finds the block, until the
      block is deleted. */
  method PutIsRead(p: Primitives, key: Key, data: Block, info: Info, sealing: Sealing, now: int)
    returns (outs: seq<Answer>)
    requires Lawful(p) && |sealing.nonce| == if sealing.algorithm == AesGcm then 12 else 24
    ensures outs ==
      [Found(None), Stored(Ok(Digest(p.sha256(data)))), Found(Some(data)), Done, Found(None)]
  {
    var store := new BlockStore(p, key);
    var h := Digest(p.sha256(data));
    var get := Get(h, now, {});
    var ops := [get, Put(data, 3, info, sealing, now, {h}), get, Delete(h), get];
    ghost var trace;
    outs, trace := RunAll(store, ops, {data});
    assert Step(p, trace[0], ops[0], outs[0], trace[1]);
    assert Step(p, trace[1], ops[1], outs[1], trace[2]);
    assert Step(p, trace[2], ops[2], outs[2], trace[3]);
    assert Step(p, trace[3], ops[3], outs[3], trace[4]);
    assert Step(p, trace[4], ops[4], outs[4], trace[5]);
  }

  // ---- what holds over whole runs ----

  /** No step but deleteBlock takes a P1 block away, changes its bytes or demotes it. */
  lemma P1SurvivesStep(p: Primitives, s: Plainly, op: Op, out: Answer, t: Plainly, h: Digest)
    requires Step(p, s, op, out, t) && h in s.contents && s.contents[h].row.tier == P1 && op != Delete(h)
    ensures h in t.contents && t.contents[h].row.tier == P1 && t.contents[h].data == s.contents[h].data
  {
  }

  lemma {:induction false} P1Retained(p: Primitives, trace: seq<Plainly>, ops: seq<Op>, outs: seq<Answer>, i: nat,
                                      j: nat, h: Digest)
    requires IsRun(p, trace, ops, outs) && i <= j <= |ops|
    requires h in trace[i].contents && trace[i].contents[h].row.tier == P1
    requires forall k :: i <= k < j ==> ops[k] != Delete(h)
    ensures h in trace[j].contents && trace[j].contents[h].row.tier == P1
    ensures trace[j].contents[h].data == trace[i].contents[h].data
    decreases j - i
  {
    if i == j {
    } else {
      P1Retained(p, trace, ops, outs, i, j - 1, h);
      P1SurvivesStep(p, trace[j - 1], ops[j - 1], outs[j - 1], trace[j], h);
    }
  }

  /** A block stored as P1 is read back byte for byte by every later read of the unlocked store, through
      any puts, reads, upgrades, sweeps, TTL passes and cache evictions, until it is deleted. */
  lemma StoredP1IsReadBack(p: Primitives, trace: seq<Plainly>, ops: seq<Op>, outs: seq<Answer>, i: nat, k: nat,
                           pool: set<Block>)
    requires IsRun(p, trace, ops, outs) && i < k < |ops|
    requires CollisionFree(p, pool) && Within(trace[i].contents, pool) && WellFormed(p, trace[i].contents)
    requires ops[i].Put? && ops[i].data in pool && ops[i].tier == P1 && outs[i] == Stored(Ok(Hash(p, ops[i].data)))
    requires forall m :: i < m < k ==> ops[m] != Delete(Hash(p, ops[i].data))
    requires ops[k].Get? && ops[k].h == Hash(p, ops[i].data) && trace[k].unlocked
    ensures outs[k] == Found(Some(ops[i].data))
  {
    var h := Hash(p, ops[i].data);
    assert Step(p, trace[i], ops[i], outs[i], trace[i + 1]);
    P1Retained(p, trace, ops, outs, i + 1, k, h);
    assert Step(p, trace[k], ops[k], outs[k], trace[k + 1]);
  }

  /** A read finds nothing on an unlocked store exactly when the block is not stored. */
  lemma ReadIsExact(p: Primitives, s: Plainly, h: Digest, now: int, kept: set<Digest>, out: Answer, t: Plainly)
    requires Step(p, s, Get(h, now, kept), out, t) && s.unlocked
    ensures out == Found(if h in s.contents then Some(s.contents[h].data) else None)
    ensures t.contents.Keys == s.contents.Keys
  {
  }

  /** The operation is not one that may take the block h away: not its delete, not a sweep over the limit that finds it
      evictable, not a TTL pass that finds it expired. */
  ghost predicate Spares(s: Plainly, op: Op, h: Digest) {
    h in s.contents ==>
      && op != Delete(h)
      && (op.Sweep? ==>
            || s.contents[h].row.tier == 1
            || TotalUsed(s.contents) <= op.budget
            || TotalUsed(s.contents) <= TierUsed(s.contents, 1))
      && (op.Ttl? ==> s.contents[h].row.tier < 3 || s.contents[h].row.createdAt + op.days * 86400 >= op.now)
  }

  ghost predicate SparedAlong(trace: seq<Plainly>, ops: seq<Op>, i: nat, j: nat, h: Digest)
    requires j <= |ops| <= |trace|
  {
    forall k :: i <= k < j ==> Spares(trace[k], ops[k], h)
  }

  lemma SparedStep(p: Primitives, s: Plainly, op: Op, out: Answer, t: Plainly, h: Digest)
    requires Step(p, s, op, out, t) && h in s.contents && Spares(s, op, h)
    ensures h in t.contents && t.contents[h].data == s.contents[h].data
  {
    if op.Sweep? {
      SweepIdleIff(s.contents, t.contents, op.budget);
    }
  }

  /** A stored block leaves the store only by deleteBlock, by a sweep over the limit that finds it evictable, or
      by a TTL pass that finds it expired. */
  lemma OnlyThreeWaysOut(p: Primitives, s: Plainly, op: Op, out: Answer, t: Plainly, h: Digest)
    requires Step(p, s, op, out, t) && h in s.contents && h !in t.contents
    ensures op == Delete(h)
         || (op.Sweep? && s.contents[h].row.tier != 1 && TotalUsed(s.contents) > op.budget
             && TotalUsed(s.contents) > TierUsed(s.contents, 1))
         || (op.Ttl? && s.contents[h].row.tier >= 3 && s.contents[h].row.createdAt + op.days * 86400 < op.now)
  {
    hide Step, TotalUsed, TierUsed;
    if Spares(s, op, h) {
      SparedStep(p, s, op, out, t, h);
    }
  }

  /** A spared block keeps its bytes. */
  lemma {:induction false} SparedIsKept(p: Primitives, trace: seq<Plainly>, ops: seq<Op>, outs: seq<Answer>, i: nat,
                                        j: nat, h: Digest)
    requires IsRun(p, trace, ops, outs) && i <= j <= |ops|
    requires h in trace[i].contents && SparedAlong(trace, ops, i, j, h)
    ensures h in trace[j].contents && trace[j].contents[h].data == trace[i].contents[h].data
    decreases j - i
  {
    if i == j {
    } else {
      SparedIsKept(p, trace, ops, outs, i, j - 1, h);
      SparedStep(p, trace[j - 1], ops[j - 1], outs[j - 1], trace[j], h);
    }
  }

  /** Whatever else happens in between, a read of the unlocked store returns the bytes that a spared block had,
      and finds nothing at an address that was free and at which nothing has been put. */
  lemma ReadsFollowTheRun(p: Primitives, trace: seq<Plainly>, ops: seq<Op>, outs: seq<Answer>, i: nat, k: nat)
    requires IsRun(p, trace, ops, outs) && i <= k < |ops| && ops[k].Get? && trace[k].unlocked
    ensures var h := ops[k].h;
      && (h in trace[i].contents && SparedAlong(trace, ops, i, k, h) ==>
            outs[k] == Found(Some(trace[i].contents[h].data)))
      && (h !in trace[i].contents
          && (forall m :: i <= m < k && ops[m].Put? ==> p.sha256(ops[m].data) != h.hex) ==>
            outs[k] == Found(None))
  {
    var h := ops[k].h;
    if h in trace[i].contents && SparedAlong(trace, ops, i, k, h) {
      SparedIsKept(p, trace, ops, outs, i, k, h);
    }
    if h !in trace[i].contents && forall m :: i <= m < k && ops[m].Put? ==> p.sha256(ops[m].data) != h.hex {
      StaysFree(p, trace, ops, outs, i, k, h);
    }
    ReadIsExact(p, trace[k], h, ops[k].now, ops[k].kept, outs[k], trace[k + 1]);
  }

  ghost predicate NotPut(p: Primitives, ops: seq<Op>, i: nat, j: nat, h: Digest)
    requires j <= |ops|
  {
    forall k :: i <= k < j && ops[k].Put? ==> Hash(p, ops[k].data) != h
  }

  lemma {:induction false} StaysFree(p: Primitives, trace: seq<Plainly>, ops: seq<Op>, outs: seq<Answer>, i: nat,
                                     j: nat, h: Digest)
    requires IsRun(p, trace, ops, outs) && i <= j <= |ops|
    requires h !in trace[i].contents && NotPut(p, ops, i, j, h)
    ensures h !in trace[j].contents
    decreases j - i
  {
    if i == j {
    } else {
      StaysFree(p, trace, ops, outs, i, j - 1, h);
      assert Step(p, trace[j - 1], ops[j - 1], outs[j - 1], trace[j]);
    }
  }

  // ---- when a block was last used ----

  /** The operation stores the block h, reads it, or marks it as used. */
  ghost predicate Uses(p: Primitives, op: Op, out: Answer, h: Digest) {
    match op
    case Put(data, _, _, _, _, _) => p.sha256(data) == h.hex && out == Stored(Ok(h))
    case Get(g, _, _) => g == h && out.Found? && out.block.Some?
    case Touch(g, _) => g == h
    case _ => false
  }

  /** Every use is recorded: of a stored block, with its time, and nothing else of the row but, by a put, the
      tier; a new block gets the row it was put with. Every other operation leaves the time of the last use, and the
      time and size the block came with never change. */
  lemma UseIsRecorded(p: Primitives, s: Plainly, op: Op, out: Answer, t: Plainly, h: Digest)
    requires Step(p, s, op, out, t)
    ensures Uses(p, op, out, h) && (h in s.contents || !op.Touch?) ==>
      h in t.contents && t.contents[h].row.lastAccessedAt == op.now
    ensures !Uses(p, op, out, h) && h in t.contents ==>
      h in s.contents && t.contents[h].row.lastAccessedAt == s.contents[h].row.lastAccessedAt
    ensures h in s.contents && h in t.contents ==>
      && t.contents[h].row.createdAt == s.contents[h].row.createdAt
      && t.contents[h].row.size == s.contents[h].row.size
      && t.contents[h].row.info == s.contents[h].row.info
    ensures h !in s.contents && h in t.contents ==>
      && op.Put? && t.contents[h].data == op.data
      && t.contents[h].row == Row(|op.data|, op.tier, op.info, op.now, op.now)
  {
  }

  /** A tier falls only to that of a put or an upgrade of the block, and never rises: it becomes the smaller of the
      two. */
  lemma TierIsBestSoFar(p: Primitives, s: Plainly, op: Op, out: Answer, t: Plainly, h: Digest)
    requires Step(p, s, op, out, t) && h in s.contents && h in t.contents
    ensures var asked := (op.Upgrade? && op.h == h) || (op.Put? && Uses(p, op, out, h));
      t.contents[h].row.tier == if asked && op.tier < s.contents[h].row.tier then op.tier else s.contents[h].row.tier
  {
  }

  /** In every run the access time of a stored block is the time of its last use. */
  lemma {:induction false} AccessTimeIsLastUse(p: Primitives, trace: seq<Plainly>, ops: seq<Op>, outs: seq<Answer>,
                                               i: nat, j: nat, h: Digest)
    requires IsRun(p, trace, ops, outs) && i < j <= |ops|
    requires Uses(p, ops[i], outs[i], h) && (h in trace[i].contents || !ops[i].Touch?)
    requires forall k :: i < k < j ==> !Uses(p, ops[k], outs[k], h)
    ensures h in trace[j].contents ==> trace[j].contents[h].row.lastAccessedAt == ops[i].now
    decreases j - i
  {
    UseIsRecorded(p, trace[j - 1], ops[j - 1], outs[j - 1], trace[j], h);
    if j == i + 1 {
    } else {
      AccessTimeIsLastUse(p, trace, ops, outs, i, j - 1, h);
    }
  }

  /** So a sweep that takes the block v and leaves the block s of the same tier took the one whose last use, i for v
      and j for s, was no later. */
  lemma SweepTakesLeastRecentlyUsed(p: Primitives, trace: seq<Plainly>, ops: seq<Op>, outs: seq<Answer>, i: nat,
                                    j: nat, k: nat, v: Digest, s: Digest)
    requires IsRun(p, trace, ops, outs) && i < k < |ops| && j < k && ops[k].Sweep?
    requires Uses(p, ops[i], outs[i], v) && (v in trace[i].contents || !ops[i].Touch?)
    requires Uses(p, ops[j], outs[j], s) && (s in trace[j].contents || !ops[j].Touch?)
    requires forall m :: i < m < k ==> !Uses(p, ops[m], outs[m], v)
    requires forall m :: j < m < k ==> !Uses(p, ops[m], outs[m], s)
    requires v in trace[k].contents && v !in trace[k + 1].contents && s in trace[k + 1].contents
    requires trace[k].contents[v].row.tier == trace[k].contents[s].row.tier
    ensures ops[i].now <= ops[j].now
  {
    assert Step(p, trace[k], ops[k], outs[k], trace[k + 1]);
    SweepPromise(trace[k].contents, trace[k + 1].contents, ops[k].budget);
    AccessTimeIsLastUse(p, trace, ops, outs, i, k, v);
    AccessTimeIsLastUse(p, trace, ops, outs, j, k, s);
  }
}
