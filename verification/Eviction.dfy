/** client/src/main/blocks/tiers.ts: the budgeted, tiered, least-recently-used sweep and the TTL pass. */
module Eviction {
  import opened Wrappers
  import opened BlockCrypto
  import opened BlockContents
  import opened ClientStore

  const SECONDS_PER_DAY := 86400

  /** The bound a sweep aims for: P1 blocks are kept even when they alone exceed the budget. */
  ghost function Limit(c: Contents, budget: int): nat {
    if budget > TierUsed(c, P1) then budget else TierUsed(c, P1)
  }

  // ---- what a sweep may do ----

  ghost predicate OnlyEvictableRemoved(before: Contents, after: Contents) {
    && (forall h :: h in after ==> h in before && after[h] == before[h])
    && (forall h :: h in before && before[h].row.tier == P1 ==> h in after)
  }

  /** Nothing of a lower-priority tier outlives an evicted block. */
  ghost predicate TierOrder(before: Contents, after: Contents) {
    forall v, s :: v in before && v !in after && s in after ==> after[s].row.tier <= before[v].row.tier
  }

  /** Within a tier, victims were accessed no later than survivors. */
  ghost predicate LruOrder(before: Contents, after: Contents) {
    forall v, s :: v in before && v !in after && s in after && after[s].row.tier == before[v].row.tier
      ==> before[v].row.lastAccessedAt <= after[s].row.lastAccessedAt
  }

  /** v was the last victim: of the best tier touched, latest accessed there, and still needed. */
  ghost predicate LastVictim(before: Contents, after: Contents, limit: nat, v: Digest) {
    && v in before && v !in after
    && TotalUsed(after) + before[v].row.size > limit
    && (forall u :: u in before && u !in after ==>
          before[v].row.tier < before[u].row.tier
          || (before[v].row.tier == before[u].row.tier && before[u].row.lastAccessedAt <= before[v].row.lastAccessedAt))
  }

  ghost predicate EvictedSoFar(before: Contents, after: Contents, limit: nat) {
    && OnlyEvictableRemoved(before, after)
    && TierOrder(before, after)
    && LruOrder(before, after)
    && (after != before ==> exists v :: LastVictim(before, after, limit, v))
  }

  /** The whole effect of one sweep. */
  ghost predicate Swept(before: Contents, after: Contents, budget: int) {
    && EvictedSoFar(before, after, Limit(before, budget))
    && TotalUsed(after) <= Limit(before, budget)
  }

  // ---- lemmas ----

  lemma P1UsageKept(before: Contents, after: Contents)
    requires OnlyEvictableRemoved(before, after)
    ensures TierUsed(after, P1) == TierUsed(before, P1)
  {
    assert TierKeys(after, P1) == TierKeys(before, P1);
    UsedFrame(before, after, TierKeys(before, P1));
  }

  /** Deleting the least recently used block of the lowest-priority tier left keeps a sweep in order. */
  lemma EvictOne(before: Contents, mid: Contents, limit: nat, v: Digest)
    requires EvictedSoFar(before, mid, limit) && TotalUsed(mid) > limit
    requires v in mid && mid[v].row.tier != P1
    requires forall s :: s in mid ==> mid[s].row.tier <= mid[v].row.tier
    requires forall s :: s in mid && mid[s].row.tier == mid[v].row.tier ==>
      mid[v].row.lastAccessedAt <= mid[s].row.lastAccessedAt
    ensures EvictedSoFar(before, mid - {v}, limit)
    ensures TotalUsed(mid - {v}) == TotalUsed(mid) - mid[v].row.size
  {
    UsedAfterDelete(mid, v);
    assert before[v] == mid[v];
    assert LastVictim(before, mid - {v}, limit, v);
  }

  lemma OnlyP1Left(c: Contents)
    requires NoTierAbove(c, 1)
    ensures TotalUsed(c) == TierUsed(c, P1)
  {
    assert c.Keys == TierKeys(c, P1);
  }

  /** A sweep removes nothing exactly when the store is already within its budget, or holds nothing but P1 blocks that
      are counted. */
  lemma SweepIdleIff(before: Contents, after: Contents, budget: int)
    requires Swept(before, after, budget)
    ensures after == before <==> TotalUsed(before) <= budget || TotalUsed(before) <= TierUsed(before, P1)
  {
    if after != before {
      var v :| LastVictim(before, after, Limit(before, budget), v);
      UsedSuperset(before, after, v);
    }
  }

  /** What one sweep does, in terms of the rows and the budget alone: it never touches P1, takes worse tiers before
      better ones and older accesses before newer ones, takes nothing from a store within the budget, stops as soon
      as the budget is met, and goes on until it is met or only P1 usage is left. */
  lemma SweepPromise(before: Contents, after: Contents, budget: int)
    requires Swept(before, after, budget)
    ensures forall h :: h in after ==> h in before && after[h] == before[h]
    ensures forall v :: v in before && v !in after ==> before[v].row.tier != 1
    ensures forall v, s :: v in before && v !in after && s in after ==>
      before[s].row.tier < before[v].row.tier
      || (before[s].row.tier == before[v].row.tier && before[v].row.lastAccessedAt <= before[s].row.lastAccessedAt)
    ensures TotalUsed(before) <= budget ==> after == before
    ensures after != before ==> exists v :: v in before && v !in after && TotalUsed(after) + before[v].row.size > budget
    ensures TotalUsed(after) <= budget || TotalUsed(after) == TierUsed(after, 1)
  {
    SweepIdleIff(before, after, budget);
    P1UsageKept(before, after);
    UsedMonotone(after, TierKeys(after, P1), after.Keys);
    if after != before {
      var v :| LastVictim(before, after, Limit(before, budget), v);
      assert v in before && v !in after && TotalUsed(after) + before[v].row.size > budget;
    }
  }

  /** Running the sweep again with the same budget does nothing. */
  lemma SecondSweepIdle(a: Contents, b: Contents, c: Contents, budget: int)
    requires Swept(a, b, budget) && Swept(b, c, budget)
    ensures c == b
  {
    P1UsageKept(a, b);
    SweepIdleIff(b, c, budget);
  }

  /** What a sweep leaves fits the budget, or is no more than the P1 blocks alone. */
  lemma SweepBound(before: Contents, after: Contents, budget: int)
    requires Swept(before, after, budget)
    ensures TotalUsed(after) <= if budget > TierUsed(after, P1) then budget else TierUsed(after, P1)
  {
    P1UsageKept(before, after);
  }

  /** No two evictable blocks tie for eviction. */
  ghost predicate NoTies(c: Contents) {
    forall a, b :: a in c && b in c && c[a].row.tier == c[b].row.tier != P1 ==>
      a == b || c[a].row.lastAccessedAt != c[b].row.lastAccessedAt
  }

  lemma UsedMonotone(c: Contents, a: set<Digest>, b: set<Digest>)
    requires a <= b <= c.Keys
    ensures Used(c, a) <= Used(c, b)
  {
    assert a + (b - a) == b;
    UsedUnion(c, a, b - a);
  }

  lemma LastVictimSurvives(before: Contents, x: Contents, y: Contents, limit: nat, v: Digest)
    requires NoTies(before) && EvictedSoFar(before, x, limit) && EvictedSoFar(before, y, limit)
    requires y.Keys < x.Keys && LastVictim(before, y, limit, v)
    ensures v in x
  {
    var w :| w in x && w !in y;
  }

  lemma UsedSuperset(x: Contents, y: Contents, v: Digest)
    requires y.Keys <= x.Keys && v in x && v !in y
    requires forall h :: h in y ==> y[h] == x[h]
    ensures TotalUsed(x) >= TotalUsed(y) + x[v].row.size
  {
    UsedMonotone(x, y.Keys + {v}, x.Keys);
    UsedUnion(x, y.Keys, {v});
    UsedFrame(x, y, y.Keys);
    UsedRemove(x, {v}, v);
  }

  lemma LastVictimWasNeeded(before: Contents, x: Contents, y: Contents, budget: int)
    requires NoTies(before) && Swept(before, x, budget) && Swept(before, y, budget) && y.Keys <= x.Keys
    ensures y == x
  {
    if y.Keys != x.Keys {
      var v :| LastVictim(before, y, Limit(before, budget), v);
      LastVictimSurvives(before, x, y, Limit(before, budget), v);
      UsedSuperset(x, y, v);
    }
  }

  lemma TimesDiffer(before: Contents)
    requires forall a, b :: a in before && b in before && a != b && before[a].row.tier == before[b].row.tier != 1 ==>
      before[a].row.lastAccessedAt != before[b].row.lastAccessedAt
    ensures NoTies(before)
  {
  }

  /** One sweep cannot evict strictly more than another: its last victim would not have been needed. */
  lemma NoExtraVictims(before: Contents, x: Contents, y: Contents, budget: int)
    requires Swept(before, x, budget) && Swept(before, y, budget) && y.Keys <= x.Keys
    requires forall a, b :: a in before && b in before && a != b && before[a].row.tier == before[b].row.tier != 1 ==>
      before[a].row.lastAccessedAt != before[b].row.lastAccessedAt
    ensures y == x
  {
    hide *;
    TimesDiffer(before);
    LastVictimWasNeeded(before, x, y, budget);
  }

  /** Without ties, the four clauses of Swept leave exactly one possible result. */
  lemma SweepDetermined(before: Contents, x: Contents, y: Contents, budget: int)
    requires Swept(before, x, budget) && Swept(before, y, budget)
    requires forall a, b :: a in before && b in before && a != b && before[a].row.tier == before[b].row.tier != 1 ==>
      before[a].row.lastAccessedAt != before[b].row.lastAccessedAt
    ensures x == y
  {
    TimesDiffer(before);
    hide NoTies, OnlyEvictableRemoved, TierOrder, LruOrder, LastVictim, Limit;
    if x.Keys <= y.Keys {
      LastVictimWasNeeded(before, y, x, budget);
    } else {
      var a :| a in x && a !in y;
      forall b | b in y ensures b in x {
        NoSwap(before, x, y, a, b);
      }
      LastVictimWasNeeded(before, x, y, budget);
    }
  }

  /** Two blocks cannot each outlive the other. */
  lemma NoSwap(before: Contents, x: Contents, y: Contents, a: Digest, b: Digest)
    requires NoTies(before) && OnlyEvictableRemoved(before, x) && OnlyEvictableRemoved(before, y)
    requires TierOrder(before, x) && LruOrder(before, x) && TierOrder(before, y) && LruOrder(before, y)
    requires a in x && a !in y && b in y
    ensures b in x
  {
  }

  // ---- the sweep itself ----

  /** rows lists, oldest access first, exactly the blocks of hs. */
  ghost predicate LruListing(meta: map<Digest, Row>, hs: set<Digest>, rows: seq<Digest>) {
    && (forall h :: h in hs <==> h in rows)
    && (forall h :: h in rows ==> h in meta)
    && (forall i, j :: 0 <= i < j < |rows| ==>
          rows[i] != rows[j] && meta[rows[i]].lastAccessedAt <= meta[rows[j]].lastAccessedAt)
  }

  lemma ListingGrows(meta: map<Digest, Row>, hs: set<Digest>, rows: seq<Digest>, h: Digest)
    requires LruListing(meta, hs, rows) && h in meta && h !in hs
    requires forall g :: g in hs ==> meta[g].lastAccessedAt <= meta[h].lastAccessedAt
    ensures LruListing(meta, hs + {h}, rows + [h])
  {
    assert forall i :: 0 <= i < |rows| ==> rows[i] in hs;
  }

  /** Some row of a non-empty set is the least recently accessed. */
  lemma {:induction false} OldestExists(meta: map<Digest, Row>, hs: set<Digest>)
    requires hs <= meta.Keys && hs != {}
    ensures exists h :: h in hs && forall g :: g in hs ==> meta[h].lastAccessedAt <= meta[g].lastAccessedAt
    decreases |hs|
  {
    var x :| x in hs;
    if hs - {x} != {} {
      OldestExists(meta, hs - {x});
      var y :| y in hs - {x} && forall g :: g in hs - {x} ==> meta[y].lastAccessedAt <= meta[g].lastAccessedAt;
      var h := if meta[x].lastAccessedAt <= meta[y].lastAccessedAt then x else y;
      assert h in hs && forall g :: g in hs ==> meta[h].lastAccessedAt <= meta[g].lastAccessedAt;
    } else {
      assert hs == {x};
    }
  }

  /** SELECT hash ... WHERE tier = t ORDER BY last_accessed_at ASC; ties come in any order. */
  method QueryTier(store: BlockStore, t: Tier) returns (rows: seq<Digest>)
    requires store.Valid()
    ensures LruBlocks(store.contents, t, rows)
  {
    rows := QueryLru(store.meta, t);
  }

  method QueryLru(meta: map<Digest, Row>, t: Tier) returns (rows: seq<Digest>)
    ensures LruListing(meta, (set h | h in meta && meta[h].tier == t), rows)
  {
    ghost var all := set h | h in meta && meta[h].tier == t;
    var todo := set h | h in meta && meta[h].tier == t;
    rows := [];
    while todo != {}
      invariant todo <= all
      invariant LruListing(meta, all - todo, rows)
      invariant forall g, h :: g in all - todo && h in todo ==> meta[g].lastAccessedAt <= meta[h].lastAccessedAt
      decreases |todo|
    {
      OldestExists(meta, todo);
      var h :| h in todo && forall g :: g in todo ==> meta[h].lastAccessedAt <= meta[g].lastAccessedAt;
      ListingGrows(meta, all - todo, rows, h);
      assert all - todo + {h} == all - (todo - {h});
      rows := rows + [h];
      todo := todo - {h};
    }
    assert all - todo == all;
  }

  /** L0 after deletions: what was cached of the blocks that remain. */
  ghost predicate CacheFollows(oldCache: map<Digest, Block>, cache: map<Digest, Block>, c: Contents) {
    && (forall h :: h in cache <==> h in oldCache && h in c)
    && (forall h :: h in cache ==> cache[h] == oldCache[h])
  }

  lemma CacheFollowsDelete(oldCache: map<Digest, Block>, cache: map<Digest, Block>, c: Contents, h: Digest)
    requires CacheFollows(oldCache, cache, c)
    ensures CacheFollows(oldCache, cache - {h}, c - {h})
  {
  }

  lemma OneMoreDeleted(c: Contents, gone: set<Digest>, h: Digest)
    ensures c - gone - {h} == c - (gone + {h})
  {
  }

  lemma NoVictims(c: Contents, cache: map<Digest, Block>, budget: int)
    requires TotalUsed(c) <= Limit(c, budget) && forall h :: h in cache ==> h in c
    ensures Swept(c, c, budget) && CacheFollows(cache, cache, c)
  {
  }

  lemma TiersSwept(before: Contents, after: Contents, budget: int)
    requires EvictedSoFar(before, after, Limit(before, budget))
    requires TotalUsed(after) <= Limit(before, budget) || TotalUsed(after) == TierUsed(after, P1)
    ensures Swept(before, after, budget)
  {
    P1UsageKept(before, after);
  }

  method RunEvictionSweep(store: BlockStore, budgetBytes: int)
    requires store.Valid()
    modifies store
    ensures store.Valid() && store.unlocked == old(store.unlocked)
    ensures Swept(old(store.contents), store.contents, budgetBytes)
    ensures forall h :: h in store.contents ==> h in old(store.contents) && store.contents[h] == old(store.contents)[h]
    ensures forall v :: v in old(store.contents) && v !in store.contents ==> old(store.contents)[v].row.tier != 1
    ensures forall v, s :: v in old(store.contents) && v !in store.contents && s in store.contents ==>
      var victim, survivor := old(store.contents)[v].row, old(store.contents)[s].row;
      survivor.tier < victim.tier
      || (survivor.tier == victim.tier && victim.lastAccessedAt <= survivor.lastAccessedAt)
    ensures old(TotalUsed(store.contents)) <= budgetBytes ==> store.contents == old(store.contents)
    ensures store.contents != old(store.contents) ==>
      exists v :: v in old(store.contents) && v !in store.contents &&
        TotalUsed(store.contents) + old(store.contents)[v].row.size > budgetBytes
    ensures TotalUsed(store.contents) <= budgetBytes || TotalUsed(store.contents) == TierUsed(store.contents, 1)
    ensures CacheFollows(old(store.cache), store.cache, store.contents)
    ensures forall h :: h in store.cache ==> h in old(store.cache) && store.cache[h] == old(store.cache)[h]
  {
    var total, byTier := store.GetStorageUsage();
    var p1Usage := byTier[P1];
    var evictableBudget := if budgetBytes - p1Usage > 0 then budgetBytes - p1Usage else 0;
    var evictableUsage := total - p1Usage;
    if evictableUsage <= evictableBudget {
      NoVictims(store.contents, store.cache, budgetBytes);
    } else {
      EvictTiers(store, evictableUsage - evictableBudget, Limit(store.contents, budgetBytes));
      TiersSwept(old(store.contents), store.contents, budgetBytes);
    }
    SweepPromise(old(store.contents), store.contents, budgetBytes);
  }

  /** The loop over the tiers 4, 3, 2. */
  method EvictTiers(store: BlockStore, need: int, ghost limit: nat)
    requires store.Valid() && need > 0 && need == TotalUsed(store.contents) - limit
    modifies store
    ensures store.Valid() && store.unlocked == old(store.unlocked)
    ensures EvictedSoFar(old(store.contents), store.contents, limit)
    ensures CacheFollows(old(store.cache), store.cache, store.contents)
    ensures TotalUsed(store.contents) <= limit || TotalUsed(store.contents) == TierUsed(store.contents, P1)
  {
    hide *;
    var toFree := need;
    var tier: int := 4;
    SweepStarts(store, limit);
    while tier >= 2 && toFree > 0
      invariant 1 <= tier <= 4
      invariant store.Valid() && store.unlocked == old(store.unlocked)
      invariant CacheFollows(old(store.cache), store.cache, store.contents)
      invariant EvictedSoFar(old(store.contents), store.contents, limit)
      invariant toFree == TotalUsed(store.contents) - limit
      invariant toFree > 0 ==> NoTierAbove(store.contents, tier)
    {
      ghost var cache, contents := store.cache, store.contents;
      toFree := EvictTier(store, tier, toFree, old(store.contents), limit);
      CacheFollowsTrans(old(store.cache), cache, store.cache, contents, store.contents);
      tier := tier - 1;
    }
    if toFree > 0 {
      OnlyP1Left(store.contents);
    }
  }

  ghost predicate NoTierAbove(c: Contents, t: int) {
    forall h :: h in c ==> c[h].row.tier <= t
  }

  /** blocks is a least-recently-used listing of tier t. */
  ghost predicate LruBlocks(c: Contents, t: int, blocks: seq<Digest>) {
    && (forall h :: h in blocks <==> h in c && c[h].row.tier == t)
    && (forall i, j :: 0 <= i < j < |blocks| ==>
          blocks[i] != blocks[j] && c[blocks[i]].row.lastAccessedAt <= c[blocks[j]].row.lastAccessedAt)
  }

  /** c is start without the first i listed blocks. */
  ghost predicate Unlisted(start: Contents, c: Contents, blocks: seq<Digest>, i: nat) {
    && i <= |blocks|
    && (forall h :: h in c ==> h in start && c[h] == start[h])
    && (forall h :: h in start && h !in blocks ==> h in c)
    && (forall k :: 0 <= k < |blocks| ==> (blocks[k] in c <==> i <= k))
  }

  lemma NothingDeletedYet(store: BlockStore, t: int, blocks: seq<Digest>)
    requires store.Valid() && LruBlocks(store.contents, t, blocks)
    ensures Unlisted(store.contents, store.contents, blocks, 0)
  {
  }

  lemma SweepStarts(store: BlockStore, limit: nat)
    requires store.Valid()
    ensures EvictedSoFar(store.contents, store.contents, limit)
    ensures NoTierAbove(store.contents, 4)
    ensures CacheFollows(store.cache, store.cache, store.contents)
  {
  }

  lemma CacheFollowsTrans(a: map<Digest, Block>, b: map<Digest, Block>, c: map<Digest, Block>, x: Contents, y: Contents)
    requires CacheFollows(a, b, x) && CacheFollows(b, c, y) && y.Keys <= x.Keys
    ensures CacheFollows(a, c, y)
  {
  }

  lemma ListedNext(start: Contents, c: Contents, blocks: seq<Digest>, i: nat, t: int)
    requires LruBlocks(start, t, blocks) && Unlisted(start, c, blocks, i) && i < |blocks|
    ensures blocks[i] in c && c[blocks[i]].row.tier == t
    ensures forall s :: s in c && c[s].row.tier == t ==> c[blocks[i]].row.lastAccessedAt <= c[s].row.lastAccessedAt
    ensures Unlisted(start, c - {blocks[i]}, blocks, i + 1)
  {
  }

  lemma AllListed(start: Contents, c: Contents, blocks: seq<Digest>, t: int)
    requires LruBlocks(start, t, blocks) && Unlisted(start, c, blocks, |blocks|) && NoTierAbove(start, t)
    ensures NoTierAbove(c, t - 1)
  {
  }

  /** The blocks of one tier, oldest access first, until enough is freed. */
  method EvictTier(store: BlockStore, tier: Tier, need: int, ghost before: Contents, ghost limit: nat)
    returns (toFree: int)
    requires store.Valid() && tier >= 2
    requires need > 0 && need == TotalUsed(store.contents) - limit
    requires EvictedSoFar(before, store.contents, limit) && NoTierAbove(store.contents, tier)
    modifies store
    ensures store.Valid() && store.unlocked == old(store.unlocked)
    ensures CacheFollows(old(store.cache), store.cache, store.contents)
    ensures store.contents.Keys <= old(store.contents).Keys
    ensures EvictedSoFar(before, store.contents, limit)
    ensures toFree == TotalUsed(store.contents) - limit
    ensures toFree > 0 ==> NoTierAbove(store.contents, tier - 1)
  {
    hide *;
    var blocks := QueryTier(store, tier);
    ghost var start := store.contents;
    NothingDeletedYet(store, tier, blocks);
    SweepStarts(store, limit);
    toFree := need;
    var i := 0;
    while i < |blocks| && toFree > 0
      invariant 0 <= i <= |blocks|
      invariant store.Valid() && store.unlocked == old(store.unlocked)
      invariant CacheFollows(old(store.cache), store.cache, store.contents)
      invariant Unlisted(start, store.contents, blocks, i) && NoTierAbove(store.contents, tier)
      invariant store.contents.Keys <= start.Keys
      invariant EvictedSoFar(before, store.contents, limit)
      invariant toFree == TotalUsed(store.contents) - limit
    {
      ListedNext(start, store.contents, blocks, i, tier);
      CacheFollowsDelete(old(store.cache), store.cache, store.contents, blocks[i]);
      toFree := EvictBlock(store, tier, blocks[i], toFree, before, limit);
      i := i + 1;
    }
    if toFree > 0 {
      AllListed(start, store.contents, blocks, tier);
    }
  }

  /** deleteBlock(block.hash); toFree -= block.size */
  method EvictBlock(store: BlockStore, ghost tier: Tier, h: Digest, need: int, ghost before: Contents, ghost limit: nat)
    returns (toFree: int)
    requires store.Valid() && tier >= 2
    requires need > 0 && need == TotalUsed(store.contents) - limit
    requires EvictedSoFar(before, store.contents, limit) && NoTierAbove(store.contents, tier)
    requires h in store.contents && store.contents[h].row.tier == tier
    requires forall s :: s in store.contents && store.contents[s].row.tier == tier ==>
      store.contents[h].row.lastAccessedAt <= store.contents[s].row.lastAccessedAt
    modifies store
    ensures store.Valid() && store.unlocked == old(store.unlocked)
    ensures store.contents == old(store.contents) - {h} && store.cache == old(store.cache) - {h}
    ensures EvictedSoFar(before, store.contents, limit) && NoTierAbove(store.contents, tier)
    ensures toFree == TotalUsed(store.contents) - limit
  {
    EvictOne(before, store.contents, limit, h);
    var size := store.meta[h].size;
    store.DeleteBlock(h);
    toFree := need - size;
  }

  // ---- the TTL pass ----

  predicate Expired(r: Row, ttlDays: int, now: int) {
    r.createdAt + ttlDays * SECONDS_PER_DAY < now
  }

  /** The store without its expired warm and altruistic blocks. */
  function WithoutExpired(c: Contents, ttlDays: int, now: int): Contents {
    map h | h in c && !(c[h].row.tier >= P3 && Expired(c[h].row, ttlDays, now)) :: c[h]
  }

  function ExpiredIn(c: Contents, tier: Tier, ttlDays: int, now: int): set<Digest> {
    set h | h in c && c[h].row.tier == tier && Expired(c[h].row, ttlDays, now)
  }

  function Downgraded(c: Contents, hs: set<Digest>): Contents {
    map h | h in c :: if h in hs then c[h].(row := c[h].row.(tier := P4)) else c[h]
  }

  lemma OneMoreDowngraded(c: Contents, hs: set<Digest>, h: Digest)
    requires h in c && h !in hs
    ensures Downgraded(c, hs).Keys == c.Keys
    ensures var d := Downgraded(c, hs);
            Downgraded(c, hs + {h}) == d[h := d[h].(row := d[h].row.(tier := P4))]
  {
  }

  lemma NoneDowngraded(c: Contents)
    ensures Downgraded(c, {}) == c
  {
  }

  /** Moving the expired warm blocks to the altruistic tier and then deleting every expired altruistic
      block, those just moved included, removes exactly the expired blocks of the two tiers. */
  lemma TtlPassRemovesExpired(c: Contents, ttlDays: int, now: int)
    ensures
      var d := Downgraded(c, ExpiredIn(c, P3, ttlDays, now));
      d - ExpiredIn(d, P4, ttlDays, now) == WithoutExpired(c, ttlDays, now)
  {
    var d := Downgraded(c, ExpiredIn(c, P3, ttlDays, now));
    var e := d - ExpiredIn(d, P4, ttlDays, now);
    forall h
      ensures h in e <==> h in WithoutExpired(c, ttlDays, now)
      ensures h in e ==> e[h] == c[h]
    {
    }
  }

  method CheckTtlExpiry(store: BlockStore, warmTtlDays: int, now: int)
    requires store.Valid()
    modifies store
    ensures store.Valid() && store.unlocked == old(store.unlocked)
    ensures store.contents == WithoutExpired(old(store.contents), warmTtlDays, now)
    ensures forall h :: h in old(store.contents) ==>
      var row := old(store.contents)[h].row;
      h !in store.contents <==> row.tier >= 3 && row.createdAt + warmTtlDays * 86400 < now
    ensures forall h :: h in store.contents ==> h in old(store.contents) && store.contents[h] == old(store.contents)[h]
    ensures CacheFollows(old(store.cache), store.cache, store.contents)
  {
    var warm := SelectExpired(store, P3, warmTtlDays, now);
    Downgrade(store, warm);
    var expired := SelectExpired(store, P4, warmTtlDays, now);
    DeleteAll(store, expired);
    TtlPassRemovesExpired(old(store.contents), warmTtlDays, now);
  }

  method SelectExpired(store: BlockStore, tier: Tier, ttlDays: int, now: int) returns (hs: set<Digest>)
    requires store.Valid()
    ensures hs == ExpiredIn(store.contents, tier, ttlDays, now)
  {
    hs := set h | h in store.meta && store.meta[h].tier == tier && Expired(store.meta[h], ttlDays, now);
  }

  /** UPDATE block_meta SET tier = 4 for the blocks hs. */
  method Downgrade(store: BlockStore, hs: set<Digest>)
    requires store.Valid() && hs <= store.contents.Keys
    modifies store
    ensures store.Valid() && store.unlocked == old(store.unlocked) && store.cache == old(store.cache)
    ensures store.contents == Downgraded(old(store.contents), hs)
  {
    hide *;
    var todo := hs;
    ghost var done: set<Digest> := {};
    NoneDowngraded(store.contents);
    while todo != {}
      invariant store.Valid() && store.unlocked == old(store.unlocked) && store.cache == old(store.cache)
      invariant done + todo == hs && done !! todo
      invariant store.contents == Downgraded(old(store.contents), done)
      decreases |todo|
    {
      var h :| h in todo;
      OneMoreDowngraded(old(store.contents), done, h);
      SetTier(store, h, P4);
      todo := todo - {h};
      done := done + {h};
    }
    assert done == hs;
  }

  method SetTier(store: BlockStore, h: Digest, tier: Tier)
    requires store.Valid() && h in store.contents
    modifies store
    ensures store.Valid() && store.unlocked == old(store.unlocked) && store.cache == old(store.cache)
    ensures var e := old(store.contents)[h];
      store.contents == old(store.contents)[h := e.(row := e.row.(tier := tier))]
  {
    store.SetRow(h, store.meta[h].(tier := tier));
  }

  method DeleteAll(store: BlockStore, hs: set<Digest>)
    requires store.Valid()
    modifies store
    ensures store.Valid() && store.unlocked == old(store.unlocked)
    ensures store.contents == old(store.contents) - hs
    ensures CacheFollows(old(store.cache), store.cache, store.contents)
  {
    var todo := hs;
    ghost var gone: set<Digest> := {};
    while todo != {}
      invariant store.Valid() && store.unlocked == old(store.unlocked)
      invariant gone + todo == hs
      invariant store.contents == old(store.contents) - gone
      invariant CacheFollows(old(store.cache), store.cache, store.contents)
      decreases |todo|
    {
      var h :| h in todo;
      OneMoreDeleted(old(store.contents), gone, h);
      CacheFollowsDelete(old(store.cache), store.cache, store.contents, h);
      store.DeleteBlock(h);
      todo := todo - {h};
      gone := gone + {h};
    }
    assert gone == hs;
  }
}
