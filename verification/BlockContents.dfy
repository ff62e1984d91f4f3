/** What a block store holds, as a value: the meaning of the operations of
    client/src/main/blocks/store.ts without encryption, files or cache. */
module BlockContents {
  import opened Wrappers
  import opened BlockCrypto

  /** 1 never evict, 2 hot, 3 warm, 4 altruistic */
  type Tier = t: int | 1 <= t <= 4 witness 4

  const P1: Tier := 1
  const P2: Tier := 2
  const P3: Tier := 3
  const P4: Tier := 4

  datatype Info = Info(mimeType: Option<string>, width: Option<nat>, height: Option<nat>, filename: Option<string>)

  /** A row of block_meta. Times are seconds. */
  datatype Row = Row(size: nat, tier: Tier, info: Info, createdAt: int, lastAccessedAt: int)

  datatype Entry = Entry(data: Block, row: Row)

  type Contents = map<Digest, Entry>

  /** Every entry sits under its own hash and records its own length. */
  ghost predicate WellFormed(p: Primitives, c: Contents) {
    forall h :: h in c ==> Hash(p, c[h].data) == h && c[h].row.size == |c[h].data|
  }

  // ---- the operations ----

  function Touched(c: Contents, h: Digest, now: int): Contents {
    if h in c then c[h := c[h].(row := c[h].row.(lastAccessedAt := now))] else c
  }

  function Upgraded(c: Contents, h: Digest, tier: Tier): Contents {
    if h in c && c[h].row.tier > tier then c[h := c[h].(row := c[h].row.(tier := tier))] else c
  }

  function Stored(c: Contents, h: Digest, data: Block, tier: Tier, info: Info, now: int): Contents {
    if h in c then Touched(Upgraded(c, h, tier), h, now)
    else c[h := Entry(data, Row(|data|, tier, info, now, now))]
  }

  /** Storing a new block gives it the row it came with; storing a known one gives it the better of the two tiers and
      the time of the store, and nothing else. */
  lemma StoredIs(c: Contents, h: Digest, data: Block, tier: Tier, info: Info, now: int)
    ensures var d := Stored(c, h, data, tier, info, now);
      && d.Keys == c.Keys + {h} && d - {h} == c - {h}
      && (h !in c ==> d[h] == Entry(data, Row(|data|, tier, info, now, now)))
      && (h in c ==> d == Touched(Upgraded(c, h, tier), h, now))
      && (h in c ==> d[h].row == c[h].row.(tier := if tier < c[h].row.tier then tier else c[h].row.tier,
                                          lastAccessedAt := now))
      && (h in c ==> d[h].data == c[h].data)
  {
  }

  // ---- storage usage ----

  /** The sum of the recorded sizes of the blocks hs. */
  ghost function Used(c: Contents, hs: set<Digest>): nat
    requires hs <= c.Keys
  {
    if hs == {} then 0
    else var h :| h in hs; c[h].row.size + Used(c, hs - {h})
  }

  ghost function TotalUsed(c: Contents): nat {
    Used(c, c.Keys)
  }

  ghost function TierKeys(c: Contents, t: int): set<Digest> {
    set h | h in c && c[h].row.tier == t
  }

  ghost function TierUsed(c: Contents, t: int): nat {
    Used(c, TierKeys(c, t))
  }

  lemma TierUsedIs(c: Contents, t: int)
    ensures TierKeys(c, t) <= c.Keys && TierUsed(c, t) == Used(c, TierKeys(c, t))
  {
  }

  lemma NothingUsed(c: Contents)
    ensures Used(c, {}) == 0
  {
  }

  lemma {:induction false} UsedRemove(c: Contents, hs: set<Digest>, h: Digest)
    requires hs <= c.Keys && h in hs
    ensures Used(c, hs) == c[h].row.size + Used(c, hs - {h})
    decreases |hs|
  {
    var g :| g in hs && Used(c, hs) == c[g].row.size + Used(c, hs - {g});
    if g != h {
      UsedRemove(c, hs - {g}, h);
      UsedRemove(c, hs - {h}, g);
      assert hs - {g} - {h} == hs - {h} - {g};
    }
  }

  /** Usage depends on the sizes alone. */
  lemma {:induction false} UsedFrame(c: Contents, d: Contents, hs: set<Digest>)
    requires hs <= c.Keys && hs <= d.Keys
    requires forall h :: h in hs ==> c[h].row.size == d[h].row.size
    ensures Used(c, hs) == Used(d, hs)
    decreases |hs|
  {
    if hs == {} {
    } else {
      var h :| h in hs;
      UsedRemove(c, hs, h);
      UsedRemove(d, hs, h);
      UsedFrame(c, d, hs - {h});
    }
  }

  lemma {:induction false} UsedUnion(c: Contents, a: set<Digest>, b: set<Digest>)
    requires a <= c.Keys && b <= c.Keys && a !! b
    ensures Used(c, a + b) == Used(c, a) + Used(c, b)
    decreases |a|
  {
    if a == {} {
      assert a + b == b;
    } else {
      var h :| h in a;
      UsedRemove(c, a + b, h);
      UsedRemove(c, a, h);
      assert a + b - {h} == (a - {h}) + b;
      UsedUnion(c, a - {h}, b);
    }
  }

  /** The per-tier figures always add up to the total of the stored sizes. */
  lemma UsageSplitsByTier(c: Contents)
    ensures TotalUsed(c) == TierUsed(c, 1) + TierUsed(c, 2) + TierUsed(c, 3) + TierUsed(c, 4)
  {
    var t1, t2, t3, t4 := TierKeys(c, 1), TierKeys(c, 2), TierKeys(c, 3), TierKeys(c, 4);
    UsedUnion(c, t1, t2);
    UsedUnion(c, t1 + t2, t3);
    UsedUnion(c, t1 + t2 + t3, t4);
    assert t1 + t2 + t3 + t4 == c.Keys;
  }

  /** Deleting a block frees exactly its size. */
  lemma UsedAfterDelete(c: Contents, h: Digest)
    requires h in c
    ensures TotalUsed(c - {h}) == TotalUsed(c) - c[h].row.size
  {
    var d := c - {h};
    assert d.Keys == c.Keys - {h};
    UsedRemove(c, c.Keys, h);
    UsedFrame(c, d, d.Keys);
  }
}
