/** server/src/blocks/store.rs and routes.rs: the server's own encrypted copy of blocks. */
module ServerStore {
  import opened Wrappers
  import opened BlockCrypto

  datatype ServerRow = ServerRow(size: nat, encryptedSize: nat, channelId: Option<string>, expiresAt: int)

  datatype HttpReply = Created | Content(data: Bytes) | BadRequest | PayloadTooLarge | NotFound | ServerError

  const SECONDS_PER_DAY := 86400

  /** str::to_lowercase on the letters that can occur in a hash. */
  function LowerChar(c: char): char {
    if 'A' <= c <= 'Z' then (c as int + 32) as char else c
  }

  function Lower(s: string): (r: string)
    ensures |r| == |s|
    ensures forall i :: 0 <= i < |s| ==> r[i] == if 'A' <= s[i] <= 'Z' then s[i] - 'A' + 'a' else s[i]
  {
    seq(|s|, i requires 0 <= i < |s| => LowerChar(s[i]))
  }

  lemma HashTextIsLower(h: string)
    requires IsHashText(h)
    ensures Lower(h) == h
  {
  }

  /** The file of h decrypts, under the key derived from h itself, to data that hashes to h. */
  ghost predicate ServerRepresents(p: Primitives, h: Digest, file: Bytes, row: ServerRow, data: Block) {
    && ServerDecrypt(p, h, file) == Ok(data)
    && Hash(p, data) == h
    && row.size == |data|
    && row.encryptedSize == |file|
  }

  /** Every row has its file. A file may outlive its row. */
  ghost predicate ServerSound(p: Primitives, rows: map<Digest, ServerRow>, files: map<Digest, Bytes>, c: map<Digest,
                              Block>) {
    && (forall h :: h in rows <==> h in c)
    && (forall h :: h in rows ==> h in files && ServerRepresents(p, h, files[h], rows[h], c[h]))
  }

  lemma ServerGains(p: Primitives, rows: map<Digest, ServerRow>, files: map<Digest, Bytes>, c: map<Digest, Block>,
                    nonce: Bytes, data: Block, row: ServerRow)
    requires Lawful(p) && |nonce| == AES_GCM_NONCE_SIZE && ServerSound(p, rows, files, c)
    requires row.size == |data| && row.encryptedSize == |ServerEncrypt(p, Hash(p, data), nonce, data)|
    ensures var h := Hash(p, data);
            ServerSound(p, rows[h := row], files[h := ServerEncrypt(p, h, nonce, data)], c[h := data])
  {
    ServerLayoutRoundTrip(p, Hash(p, data), nonce, data);
  }

  lemma ServerLoses(p: Primitives, rows: map<Digest, ServerRow>, files: map<Digest, Bytes>, c: map<Digest, Block>,
                    gone: set<Digest>)
    requires ServerSound(p, rows, files, c)
    ensures ServerSound(p, rows - gone, files - gone, c - gone)
  {
  }

  function ExpiredRows(rows: map<Digest, ServerRow>, now: int): set<Digest> {
    set h | h in rows && rows[h].expiresAt < now
  }

  function Unexpired(rows: map<Digest, ServerRow>, now: int): map<Digest, ServerRow> {
    map h | h in rows && rows[h].expiresAt >= now :: rows[h]
  }

  /** The blocks whose rows are there. */
  ghost function OfRows(c: map<Digest, Block>, rows: map<Digest, ServerRow>): map<Digest, Block> {
    map h | h in c && h in rows :: c[h]
  }

  lemma ExpiryKeepsTheRest(p: Primitives, rows: map<Digest, ServerRow>, files: map<Digest, Bytes>, c: map<Digest,
                           Block>, now: int)
    requires ServerSound(p, rows, files, c)
    ensures
      var gone := ExpiredRows(rows, now);
      && ServerSound(p, rows - gone, files - gone, c - gone)
      && rows - gone == Unexpired(rows, now)
      && c - gone == OfRows(c, Unexpired(rows, now))
      && gone == rows.Keys - Unexpired(rows, now).Keys
  {
    ServerLoses(p, rows, files, c, ExpiredRows(rows, now));
  }

  lemma ServerFileIs(p: Primitives, h: Digest, nonce: Bytes, data: Bytes)
    ensures ServerEncrypt(p, h, nonce, data) == nonce + p.seal(AesGcm, p.hkdf(h), nonce, data)
    ensures SECONDS_PER_DAY == 86400
  {
  }

  lemma OfRowsIs(c: map<Digest, Block>, rows: map<Digest, ServerRow>)
    ensures forall h :: h in OfRows(c, rows) <==> h in c && h in rows
    ensures forall h :: h in OfRows(c, rows) ==> OfRows(c, rows)[h] == c[h]
  {
  }

  lemma ExpiryIs(rows: map<Digest, ServerRow>, now: int)
    ensures forall h :: h in Unexpired(rows, now) <==> h in rows && rows[h].expiresAt >= now
    ensures forall h :: h in Unexpired(rows, now) ==> Unexpired(rows, now)[h] == rows[h]
    ensures forall h :: h in ExpiredRows(rows, now) <==> h in rows && rows[h].expiresAt < now
  {
  }

  class ServerBlockStore {
    const prim: Primitives
    /** the blocks table */
    var rows: map<Digest, ServerRow>
    /** {data_dir}/blocks */
    var files: map<Digest, Bytes>
    ghost var contents: map<Digest, Block>

    ghost predicate Valid()
      reads this
    {
      Lawful(prim) && ServerSound(prim, rows, files, contents)
    }

    constructor (prim: Primitives)
      requires Lawful(prim)
      ensures Valid() && contents == map[] && this.prim == prim
    {
      this.prim := prim;
      rows, files, contents := map[], map[], map[];
    }

    predicate HasBlock(h: Digest)
      requires Valid()
      reads this
      ensures HasBlock(h) <==> h in contents
    {
      h in rows
    }

    method PutBlock(h: Digest, data: Block, channelId: Option<string>, retentionDays: nat, nonce: Bytes, now: int)
      returns (r: Result<(), string>)
      requires Valid() && |nonce| == AES_GCM_NONCE_SIZE
      modifies this
      ensures Valid()
      ensures r.Ok? == (prim.sha256(data) == h.hex)
      ensures contents == if r.Ok? && h !in old(contents) then old(contents)[h := data] else old(contents)
      ensures rows == if r.Ok? && h !in old(contents) then old(rows)[h := rows[h]] else old(rows)
      ensures r.Ok? && h !in old(contents) ==>
        && files == old(files)[h := nonce + prim.seal(AesGcm, prim.hkdf(h), nonce, data)]
        && rows[h] == ServerRow(|data|, |files[h]|, channelId, now + retentionDays * 86400)
      ensures !(r.Ok? && h !in old(contents)) ==> files == old(files)
    {
      if Hash(prim, data) != h {
        return Err("Hash mismatch");
      }
      if HasBlock(h) {
        return Ok(());
      }
      hide *;
      var encrypted := ServerEncrypt(prim, h, nonce, data);
      ServerFileIs(prim, h, nonce, data);
      var row := ServerRow(|data|, |encrypted|, channelId, now + retentionDays * SECONDS_PER_DAY);
      StoreRow(h, data, nonce, row, encrypted);
      r := Ok(());
    }

    /** Write the encrypted file, then insert the row. */
    method StoreRow(h: Digest, data: Block, nonce: Bytes, row: ServerRow, encrypted: Bytes)
      requires Valid() && |nonce| == AES_GCM_NONCE_SIZE && Hash(prim, data) == h
      requires encrypted == ServerEncrypt(prim, h, nonce, data)
      requires row.size == |data| && row.encryptedSize == |encrypted|
      modifies this
      ensures Valid() && contents == old(contents)[h := data] && rows == old(rows)[h := row]
      ensures files == old(files)[h := encrypted]
    {
      ServerGains(prim, rows, files, contents, nonce, data, row);
      files := files[h := encrypted];
      rows := rows[h := row];
      contents := contents[h := data];
    }

    method GetBlock(h: Digest) returns (r: Result<Option<Block>, string>)
      requires Valid()
      ensures r == Ok(if h in contents then Some(contents[h]) else None)
    {
      if !HasBlock(h) {
        return Ok(None);
      }
      assert ServerRepresents(prim, h, files[h], rows[h], contents[h]);
      var plaintext := ServerDecrypt(prim, h, files[h]);
      r := Ok(Some(plaintext.value));
    }

    method DeleteBlock(h: Digest)
      requires Valid()
      modifies this
      ensures Valid() && contents == old(contents) - {h} && rows == old(rows) - {h} && files == old(files) - {h}
    {
      ServerLoses(prim, rows, files, contents, {h});
      files := files - {h};
      rows := rows - {h};
      contents := contents - {h};
    }

    /** Removes exactly the rows that expired before now, and their blocks, and counts them. */
    method DeleteExpiredBlocks(now: int) returns (purged: nat)
      requires Valid()
      modifies this
      ensures Valid()
      ensures forall h :: h in rows <==> h in old(rows) && old(rows)[h].expiresAt >= now
      ensures forall h :: h in rows ==> rows[h] == old(rows)[h]
      ensures contents == OfRows(old(contents), rows)
      ensures forall h :: h in contents <==> h in old(contents) && h in rows
      ensures forall h :: h in contents ==> contents[h] == old(contents)[h]
      ensures files == old(files) - (old(rows).Keys - rows.Keys)
      ensures purged == |old(rows).Keys - rows.Keys|
    {
      ExpiryKeepsTheRest(prim, rows, files, contents, now);
      ExpiryIs(rows, now);
      OfRowsIs(contents, Unexpired(rows, now));
      hide *;
      var expired := ExpiredRows(rows, now);
      RemoveFiles(expired);
      rows := rows - expired;
      contents := contents - expired;
      purged := |expired|;
    }

    /** The loop that unlinks the files, before any row goes. */
    method RemoveFiles(gone: set<Digest>)
      modifies this
      ensures files == old(files) - gone && rows == old(rows) && contents == old(contents)
    {
      var todo := gone;
      while todo != {}
        invariant todo <= gone && rows == old(rows) && contents == old(contents)
        invariant files == old(files) - (gone - todo)
        decreases |todo|
      {
        var h :| h in todo;
        files := files - {h};
        todo := todo - {h};
      }
      assert gone - todo == gone;
    }

    /** GET /api/blocks/{hash}: the hash is lower-cased and checked before the lookup. */
    method GetRoute(hashText: string) returns (reply: HttpReply)
      requires Valid()
      ensures reply == if !IsHashText(Lower(hashText)) then BadRequest
                       else if Digest(Lower(hashText)) in contents then Content(contents[Digest(Lower(hashText))])
                       else NotFound
      ensures reply == BadRequest <==>
        |hashText| != 64
        || exists i :: 0 <= i < |hashText| &&
             !('0' <= hashText[i] <= '9' || 'a' <= hashText[i] <= 'f' || 'A' <= hashText[i] <= 'F')
      ensures reply.Content? ==> prim.sha256(reply.data) == Lower(hashText)
    {
      var hashHex := Lower(hashText);
      if !IsHashText(hashHex) {
        return BadRequest;
      }
      var r := GetBlock(Digest(hashHex));
      match r {
        case Ok(Some(data)) => reply := Content(data);
        case Ok(None) => reply := NotFound;
        case Err(_) => reply := ServerError;
      }
    }
  }
}
