/** client/src/main/blocks/store.ts: encrypted files, a metadata table and an in-memory cache (L0). */
module ClientStore {
  import opened Wrappers
  import opened BlockCrypto
  import opened BlockContents

  datatype StoreError = KeyUnavailable

  /** The random choices of one encryption. */
  datatype Sealing = Sealing(algorithm: Algorithm, nonce: Bytes)

  predicate ValidSealing(s: Sealing) {
    |s.nonce| == NonceSize(s.algorithm)
  }

  /** The file and the row of h are those of the entry e, which hashes to h. */
  ghost predicate Represents(p: Primitives, key: Key, h: Digest, file: Bytes, row: Row, e: Entry) {
    && DecryptBlock(p, key, file) == Some(e.data)
    && Hash(p, e.data) == h
    && e.row == row
    && row.size == |e.data|
  }

  /** The table and the files hold exactly the contents c. */
  ghost predicate Sound(p: Primitives, key: Key, meta: map<Digest, Row>, files: map<Digest, Bytes>, c: Contents) {
    && (forall h :: h in meta <==> h in c)
    && (forall h :: h in files <==> h in c)
    && (forall h :: h in c ==> Represents(p, key, h, files[h], meta[h], c[h]))
  }

  ghost predicate CacheAgrees(cache: map<Digest, Block>, c: Contents) {
    forall h :: h in cache && h in c ==> cache[h] == c[h].data
  }

  lemma RowReplaced(p: Primitives, key: Key, meta: map<Digest, Row>, files: map<Digest, Bytes>, c: Contents,
                    h: Digest, row: Row)
    requires Sound(p, key, meta, files, c) && h in c && row.size == c[h].row.size
    ensures Sound(p, key, meta[h := row], files, c[h := c[h].(row := row)])
  {
  }

  lemma BlockGained(p: Primitives, key: Key, meta: map<Digest, Row>, files: map<Digest, Bytes>, c: Contents,
                    data: Block, row: Row,
                    sealing: Sealing)
    requires Lawful(p) && ValidSealing(sealing) && Sound(p, key, meta, files, c) && row.size == |data|
    ensures var h := Hash(p, data);
      var file := EncryptBlock(p, sealing.algorithm, key, sealing.nonce, data);
      Sound(p, key, meta[h := row], files[h := file], c[h := Entry(data, row)])
  {
    ClientLayoutRoundTrip(p, sealing.algorithm, key, sealing.nonce, data);
    hide Lawful, EncryptBlock, DecryptBlock;
  }

  lemma FileIs(p: Primitives, sealing: Sealing, key: Key, data: Block)
    requires Lawful(p) && ValidSealing(sealing)
    ensures EncryptBlock(p, sealing.algorithm, key, sealing.nonce, data)
      == [if sealing.algorithm == AesGcm then 1 else 2] + sealing.nonce
         + p.seal(sealing.algorithm, key, sealing.nonce, data)
  {
    ClientLayoutRoundTrip(p, sealing.algorithm, key, sealing.nonce, data);
  }

  lemma RowsAreEntries(p: Primitives, key: Key, meta: map<Digest, Row>, files: map<Digest, Bytes>, c: Contents, t: Tier)
    requires Sound(p, key, meta, files, c)
    ensures forall h :: h in meta <==> h in c
    ensures forall h :: h in meta ==> meta[h].size == c[h].row.size
    ensures (set h | h in meta && meta[h].tier == t) == TierKeys(c, t)
  {
    hide DecryptBlock;
  }

  /** cache.set, after which L0 holds any part of what it would with unlimited room: kept is what lru-cache has
      not evicted or refused as too large; with no cache at all, it is empty. */
  function CachePut(cache: map<Digest, Block>, h: Digest, data: Block, kept: set<Digest>): map<Digest, Block> {
    map g | g in cache[h := data] && g in kept :: cache[h := data][g]
  }

  lemma CachePutIs(cache: map<Digest, Block>, h: Digest, data: Block, kept: set<Digest>)
    ensures var after := CachePut(cache, h, data, kept);
      && (forall g :: g in after <==> g in kept && (g == h || g in cache))
      && (forall g :: g in after ==> after[g] == if g == h then data else cache[g])
  {
  }

  lemma AddressIs(p: Primitives, key: Key, meta: map<Digest, Row>, files: map<Digest, Bytes>, c: Contents, data: Block)
    requires Sound(p, key, meta, files, c)
    ensures Hash(p, data).hex == p.sha256(data)
    ensures Hash(p, data) in meta <==> Hash(p, data) in c
  {
  }

  class BlockStore {
    const prim: Primitives
    /** The key derived from the passphrase and the store's salt; available only while unlocked. */
    const storeKey: Key
    var unlocked: bool
    /** block_meta */
    var meta: map<Digest, Row>
    /** {userData}/blocks */
    var files: map<Digest, Bytes>
    /** L0. A store without a cache is one whose cache never keeps anything. */
    var cache: map<Digest, Block>
    /** The plaintext meaning of meta and files. */
    ghost var contents: Contents

    ghost predicate Valid()
      reads this
    {
      && Lawful(prim)
      && Sound(prim, storeKey, meta, files, contents)
      && (forall h :: h in cache ==> h in contents && Hash(prim, cache[h]) == h)
    }

    /** Every cached block is the block in the file. */
    ghost predicate Coherent()
      reads this
    {
      CacheAgrees(cache, contents)
    }

    constructor (prim: Primitives, storeKey: Key)
      requires Lawful(prim)
      ensures Valid() && Coherent() && contents == map[] && cache == map[] && unlocked
      ensures this.prim == prim && this.storeKey == storeKey
    {
      this.prim, this.storeKey, unlocked := prim, storeKey, true;
      meta, files, cache, contents := map[], map[], map[], map[];
    }

    method PutBlock(data: Block, tier: Tier, info: Info, sealing: Sealing, now: int, kept: set<Digest>)
      returns (r: Result<Digest, StoreError>)
      requires Valid() && ValidSealing(sealing)
      modifies this
      ensures Valid() && unlocked == old(unlocked)
      ensures r ==
        if old(unlocked) || Hash(prim, data) in old(contents) then Ok(Hash(prim, data)) else Err(KeyUnavailable)
      ensures contents ==
        if r.Ok? then Stored(old(contents), Hash(prim, data), data, tier, info, now) else old(contents)
      ensures cache == if r.Ok? then CachePut(old(cache), Hash(prim, data), data, kept) else old(cache)
      ensures r.Ok? ==> r.value.hex == prim.sha256(data)
      ensures r.Ok? ==>
        var h := r.value;
        && contents.Keys == old(contents).Keys + {h} && contents - {h} == old(contents) - {h}
        && (h !in old(contents) ==> contents[h] == Entry(data, Row(|data|, tier, info, now, now)))
        && (h in old(contents) ==>
              var row := old(contents)[h].row;
              && contents[h].data == old(contents)[h].data
              && contents[h].row.tier == (if tier < row.tier then tier else row.tier)
              && contents[h].row.lastAccessedAt == now
              && contents[h].row.(tier := row.tier, lastAccessedAt := row.lastAccessedAt) == row)
        && (forall g :: g in cache <==> g in kept && (g == h || g in old(cache)))
        && (forall g :: g in cache ==> cache[g] == if g == h then data else old(cache)[g])
      ensures r.Ok? && r.value !in old(contents) ==>
        r.value in files
        && files[r.value]
           == [if sealing.algorithm == AesGcm then 1 else 2] + sealing.nonce
              + prim.seal(sealing.algorithm, storeKey, sealing.nonce, data)
      ensures !(r.Ok? && r.value !in old(contents)) ==> files == old(files)
    {
      AddressIs(prim, storeKey, meta, files, contents, data);
      StoredIs(contents, Hash(prim, data), data, tier, info, now);
      CachePutIs(cache, Hash(prim, data), data, kept);
      hide Valid, Sound, Lawful, ValidSealing, CachePut, EncryptBlock, Hash;
      var hash := Hash(prim, data);
      if hash in meta {
        hide Stored;
        MaybeUpgradeTier(hash, tier);
        TouchAccess(hash, now);
      } else if unlocked {
        WriteNew(data, tier, info, sealing, now);
      } else {
        return Err(KeyUnavailable);
      }
      CacheSet(hash, data, kept);
      r := Ok(hash);
    }

    /** Encrypt, write the file, insert the row. */
    method WriteNew(data: Block, tier: Tier, info: Info, sealing: Sealing, now: int)
      requires Valid() && ValidSealing(sealing) && unlocked && Hash(prim, data) !in contents
      modifies this
      ensures Valid() && cache == old(cache) && unlocked == old(unlocked)
      ensures contents == old(contents)[Hash(prim, data) := Entry(data, Row(|data|, tier, info, now, now))]
      ensures var file := [if sealing.algorithm == AesGcm then 1 else 2] + sealing.nonce
                          + prim.seal(sealing.algorithm, storeKey, sealing.nonce, data);
        files == old(files)[Hash(prim, data) := file]
    {
      var hash := Hash(prim, data);
      var row := Row(|data|, tier, info, now, now);
      var encrypted := EncryptBlock(prim, sealing.algorithm, storeKey, sealing.nonce, data);
      BlockGained(prim, storeKey, meta, files, contents, data, row, sealing);
      FileIs(prim, sealing, storeKey, data);
      hide Sound, EncryptBlock, ValidSealing, Lawful, Hash;
      files := files[hash := encrypted];
      meta := meta[hash := row];
      contents := contents[hash := Entry(data, row)];
    }

    /** cache.set */
    method CacheSet(hash: Digest, data: Block, kept: set<Digest>)
      requires Valid() && hash in contents && Hash(prim, data) == hash
      modifies this
      ensures Valid() && contents == old(contents) && unlocked == old(unlocked) && files == old(files)
      ensures cache == CachePut(old(cache), hash, data, kept)
    {
      hide Sound, Lawful;
      cache := CachePut(cache, hash, data, kept);
    }

    method GetLocalBlock(h: Digest, now: int, kept: set<Digest>) returns (r: Option<Block>)
      requires Valid()
      modifies this
      ensures Valid() && unlocked == old(unlocked)
      ensures r.Some? == (h in old(cache) || (old(unlocked) && h in old(contents)))
      ensures r.Some? ==> r.value == if h in old(cache) then old(cache)[h] else old(contents)[h].data
      ensures r.Some? ==> Hash(prim, r.value) == h
      ensures contents == if r.Some? then Touched(old(contents), h, now) else old(contents)
      ensures cache == if r.Some? && h !in old(cache) then CachePut(old(cache), h, r.value, kept) else old(cache)
      ensures r.None? ==> contents == old(contents)
      ensures r.Some? ==>
        h in old(contents) && contents == old(contents)[h := old(contents)[h].(row := contents[h].row)]
        && contents[h].row == old(contents)[h].row.(lastAccessedAt := now)
      ensures files == old(files)
    {
      if h in cache {
        r := Some(cache[h]);
      } else {
        r := ReadFile(h);
        if r.None? {
          return;
        }
        CacheSet(h, r.value, kept);
      }
      TouchAccess(h, now);
    }

    /** Look up the row, then read and decrypt the file. */
    method ReadFile(h: Digest) returns (r: Option<Block>)
      requires Valid()
      ensures r.Some? == (unlocked && h in contents)
      ensures r.Some? ==> r.value == contents[h].data && Hash(prim, r.value) == h
    {
      if h !in meta {
        return None;
      }
      if h !in files || !unlocked {
        return None;
      }
      assert Represents(prim, storeKey, h, files[h], meta[h], contents[h]);
      r := Some(DecryptBlock(prim, storeKey, files[h]).value);
    }

    /** True exactly when GetLocalBlock would find the block on an unlocked store. */
    predicate HasBlock(h: Digest)
      requires Valid()
      reads this
      ensures HasBlock(h) <==> h in contents
    {
      h in meta
    }

    method DeleteBlock(h: Digest)
      requires Valid()
      modifies this
      ensures Valid() && unlocked == old(unlocked)
      ensures contents == old(contents) - {h} && files == old(files) - {h}
      ensures cache == old(cache) - {h}
    {
      cache := cache - {h};
      files := files - {h};
      meta := meta - {h};
      contents := contents - {h};
    }

    method TouchAccess(h: Digest, now: int)
      requires Valid()
      modifies this
      ensures Valid() && contents == Touched(old(contents), h, now) && cache == old(cache) && unlocked == old(unlocked)
      ensures contents.Keys == old(contents).Keys && contents - {h} == old(contents) - {h} && files == old(files)
      ensures h in contents ==> contents[h].row == old(contents)[h].row.(lastAccessedAt := now)
      ensures h in contents ==> contents[h].data == old(contents)[h].data
    {
      if h in meta {
        SetRow(h, meta[h].(lastAccessedAt := now));
      }
    }

    method MaybeUpgradeTier(h: Digest, tier: Tier)
      requires Valid()
      modifies this
      ensures Valid() && contents == Upgraded(old(contents), h, tier)
      ensures cache == old(cache) && unlocked == old(unlocked)
      ensures contents.Keys == old(contents).Keys && contents - {h} == old(contents) - {h} && files == old(files)
      ensures h in contents ==>
        var row := old(contents)[h].row;
        contents[h].row == row.(tier := if tier < row.tier then tier else row.tier)
      ensures h in contents ==> contents[h].data == old(contents)[h].data
    {
      if h in meta && meta[h].tier > tier {
        SetRow(h, meta[h].(tier := tier));
      }
    }

    /** UPDATE block_meta ... WHERE hash = h */
    method SetRow(h: Digest, row: Row)
      requires Valid() && h in contents && row.size == contents[h].row.size
      modifies this
      ensures Valid() && cache == old(cache) && unlocked == old(unlocked) && files == old(files)
      ensures contents == old(contents)[h := old(contents)[h].(row := row)]
    {
      RowReplaced(prim, storeKey, meta, files, contents, h, row);
      meta := meta[h := row];
      contents := contents[h := contents[h].(row := row)];
    }

    /** lru-cache dropping entries: any part of L0 may vanish at any time. */
    method EvictL0(kept: set<Digest>)
      requires Valid()
      modifies this
      ensures Valid() && contents == old(contents) && unlocked == old(unlocked)
      ensures cache == map h | h in old(cache) && h in kept :: old(cache)[h]
    {
      cache := map h | h in cache && h in kept :: cache[h];
    }

    /** Deriving the block-store key on unlock, zeroing it on lock. */
    method SetUnlocked(u: bool)
      requires Valid()
      modifies this
      ensures Valid() && unlocked == u && cache == old(cache) && contents == old(contents)
    {
      unlocked := u;
    }

    /** SELECT SUM(size) over the rows of one tier. */
    method SumTier(t: Tier) returns (sum: nat)
      requires Valid()
      ensures sum == TierUsed(contents, t)
    {
      RowsAreEntries(prim, storeKey, meta, files, contents, t);
      TierUsedIs(contents, t);
      hide *;
      var rows := meta;
      ghost var c := contents;
      var todo := set h | h in rows && rows[h].tier == t;
      sum := 0;
      while todo != {}
        invariant todo <= rows.Keys && todo <= c.Keys
        invariant sum + Used(c, todo) == TierUsed(c, t)
        decreases |todo|
      {
        var h :| h in todo;
        UsedRemove(c, todo, h);
        sum := sum + rows[h].size;
        todo := todo - {h};
      }
      NothingUsed(c);
    }

    method GetStorageUsage() returns (total: nat, byTier: map<Tier, nat>)
      requires Valid()
      ensures total == TotalUsed(contents)
      ensures byTier.Keys == {P1, P2, P3, P4}
      ensures forall t :: t in byTier ==> byTier[t] == TierUsed(contents, t)
      ensures total == byTier[P1] + byTier[P2] + byTier[P3] + byTier[P4]
    {
      hide Used;
      var u1 := SumTier(P1);
      var u2 := SumTier(P2);
      var u3 := SumTier(P3);
      var u4 := SumTier(P4);
      byTier := map[P1 := u1, P2 := u2, P3 := u3, P4 := u4];
      total := u1 + u2 + u3 + u4;
      UsageSplitsByTier(contents);
    }
  }
}
