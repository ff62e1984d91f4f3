/** The server's identity tables as the handlers update them: server/src/identity/rotation.rs and registration.rs,
    server/src/auth/jwt.rs. Each method is what one handler does under one lock of the database. */
module Identity {
  import opened Wrappers
  import opened RotationChain
  import opened Sessions

  class IdentityTables {
    const ed25519: Ed25519
    /** users and rotation_records */
    var db: Db
    /** refresh_tokens */
    var tokens: map<Hash, Token>

    constructor (ed25519: Ed25519)
      ensures Consistent(ed25519, db) && this.ed25519 == ed25519 && db == Db(map[], []) && tokens == map[]
    {
      this.ed25519, db, tokens := ed25519, Db(map[], []), map[];
    }

    /** register: the checks in order, then the user, its genesis record and its first refresh token. invite is
        the outcome of consuming the invite code, if the request has one; owner says that the setup token was right.
        */
    method Register(user: nat, fp: Fingerprint, key: Bytes, signature: Bytes, nameBlank: bool, inviteOnly: bool,
                    owner: bool,
                    invite: Option<Status>, nameTaken: bool, hash: Hash, now: int)
      returns (status: Status)
      requires Consistent(ed25519, db) && user !in db.users && hash !in tokens
      modifies this
      ensures Consistent(ed25519, db)
      ensures status == if nameBlank || |key| != KEY_SIZE || !ed25519.validKey(key) then BadRequest
                        else if inviteOnly && !owner && invite.None? then Forbidden
                        else if invite.Some? && invite.value != Okay then invite.value
                        else if Registered(old(db).users, fp) || nameTaken then Conflict
                        else Okay
      ensures db == if status == Okay then AfterRegister(old(db), user, fp, key, signature, now) else old(db)
      ensures status == Okay ==>
        && |key| == 32 && (forall u :: u in old(db).users ==> old(db).users[u].fingerprint != fp)
        && db.users == old(db).users[user := User(fp, key)]
        && db.records == old(db).records + [Genesis(fp, key, signature, now)]
        && tokens == old(tokens)[hash := Token(user, now + 7 * 24 * 3600)]
      ensures status != Okay ==> tokens == old(tokens)
    {
      hide *;
      if nameBlank || |key| != KEY_SIZE || !ed25519.validKey(key) {
        return BadRequest;
      }
      if inviteOnly && !owner && invite.None? {
        return Forbidden;
      }
      if invite.Some? && invite.value != Okay {
        return invite.value;
      }
      if Registered(db.users, fp) {
        return Conflict;
      }
      if nameTaken {
        return Conflict;
      }
      RegisterKeepsConsistent(ed25519, db, user, fp, key, signature, now);
      RegisterWrites(db, user, fp, key, signature, now);
      StoreWrites(tokens, hash, user, now);
      db := db.(users := db.users[user := User(fp, key)]);
      db := db.(records := db.records + [Genesis(fp, key, signature, now)]);
      tokens := tokens[hash := Token(user, now + TOKEN_LIFETIME)];
      return Okay;
    }

    /** rotate_key */
    method RotateKey(user: nat, req: RotateRequest, now: int) returns (status: Status)
      requires Consistent(ed25519, db)
      modifies this
      ensures Consistent(ed25519, db)
      ensures status == RotateStatus(ed25519, old(db), user, req, now)
      ensures db == AfterRotate(ed25519, old(db), user, req, now)
      ensures tokens == if status == Okay then Revoked(old(tokens), user) else old(tokens)
      ensures status == Okay ==>
        var payload := Utf8("rotate:") + req.prevKey + Utf8(":") + req.newKey + Utf8(":") + Utf8(req.reason);
        && ed25519.verifies(req.prevKey, payload, req.signatureOld)
        && ed25519.verifies(req.newKey, payload, req.signatureNew)
        && user in old(db).users && old(db).users[user].publicKey == req.prevKey
        && var u := old(db).users[user];
           && db.users == old(db).users[user := u.(publicKey := req.newKey)]
           && db.records == old(db).records
                + [Rotation(u.fingerprint, req.prevKey, req.newKey, req.reason, req.signatureOld, req.signatureNew,
                            now, now + 72 * 3600, false)]
           && (forall h :: h in tokens <==> h in old(tokens) && old(tokens)[h].user != user)
           && (forall h :: h in tokens ==> tokens[h] == old(tokens)[h])
      ensures status != Okay ==> db == old(db) && tokens == old(tokens)
    {
      RotateStatusIs(ed25519, db, user, req, now);
      NewRotationIs(db, user, req, now);
      RevokedIs(tokens, user);
      hide *;
      RotateKeepsConsistent(ed25519, db, user, req, now);
      RotateWrites(ed25519, db, user, req, now);
      status := RequestStatus(ed25519, req);
      if status != Okay {
        return;
      }
      if user !in db.users {
        return NotFound;
      }
      var current := db.users[user];
      if current.publicKey != req.prevKey {
        return BadRequest;
      }
      if LatestPending(db.records, current.fingerprint, now).Some? {
        return Conflict;
      }
      var row := NewRotation(current.fingerprint, req, now);
      db := db.(records := db.records + [row]);
      db := db.(users := db.users[user := current.(publicKey := req.newKey)]);
      tokens := Revoked(tokens, user);
    }

    /** cancel_rotation */
    method CancelRotation(user: nat, signature: Bytes, now: int) returns (status: Status)
      requires Consistent(ed25519, db) && user in db.users
      modifies this
      ensures Consistent(ed25519, db)
      ensures status == CancelStatus(ed25519, old(db), user, signature, now)
      ensures db == AfterCancel(ed25519, old(db), user, signature, now)
      ensures tokens == if status == Okay then Revoked(old(tokens), user) else old(tokens)
      ensures status == Okay ==>
        exists i :: 0 <= i < |old(db).records| && old(db).records[i].Rotation? &&
          var row, u := old(db).records[i], old(db).users[user];
          && row.fingerprint == u.fingerprint && !row.cancelled && row.deadline > now
          && ed25519.verifies(row.prevKey, Utf8("cancel_rotation:") + Utf8(u.fingerprint.text), signature)
          && db.users == old(db).users[user := u.(publicKey := row.prevKey)]
          && db.records == old(db).records[i := row.(cancelled := true)]
          && (forall h :: h in tokens <==> h in old(tokens) && old(tokens)[h].user != user)
          && (forall h :: h in tokens ==> tokens[h] == old(tokens)[h])
      ensures status != Okay ==> db == old(db) && tokens == old(tokens)
    {
      hide *;
      CancelMeans(ed25519, db, user, signature, now);
      RevokedIs(tokens, user);
      CancelKeepsConsistent(ed25519, db, user, signature, now);
      CancelWrites(ed25519, db, user, signature, now);
      var current := db.users[user];
      var found := LatestPending(db.records, current.fingerprint, now);
      if found.None? {
        return NotFound;
      }
      var prevKey := db.records[found.value].prevKey;
      status := VerifySignature(ed25519, prevKey, CancelPayload(current.fingerprint), signature);
      if status != Okay {
        return;
      }
      db := db.(records := Cancelled(db.records, found.value));
      db := db.(users := db.users[user := current.(publicKey := prevKey)]);
      tokens := Revoked(tokens, user);
    }

    /** store_refresh_token: false is the UNIQUE constraint's error. */
    method StoreRefreshToken(user: nat, hash: Hash, now: int) returns (ok: bool)
      modifies this
      ensures db == old(db)
      ensures ok == (hash !in old(tokens)) && tokens == Stored(old(tokens), hash, user, now)
      ensures tokens == if ok then old(tokens)[hash := Token(user, now + 7 * 24 * 3600)] else old(tokens)
    {
      ok := hash !in tokens;
      if ok {
        tokens := tokens[hash := Token(user, now + TOKEN_LIFETIME)];
      }
    }

    /** validate_and_consume_refresh_token */
    method ConsumeRefreshToken(hash: Hash, now: int) returns (user: Option<nat>)
      modifies this
      ensures db == old(db)
      ensures user ==
        if hash in old(tokens) && old(tokens)[hash].expires > now then Some(old(tokens)[hash].user) else None
      ensures tokens == Consumed(old(tokens), hash, now)
      ensures tokens == if user.Some? then old(tokens) - {hash} else old(tokens)
    {
      user := None;
      if hash in tokens && tokens[hash].expires > now {
        user := Some(tokens[hash].user);
        tokens := tokens - {hash};
      }
    }
  }

  datatype Call =
    | Enrol(user: nat, fp: Fingerprint, key: Bytes, signature: Bytes, nameBlank: bool, inviteOnly: bool, owner: bool,
            invite: Option<Status>, nameTaken: bool, hash: Hash, now: int)
    | Change(user: nat, req: RotateRequest, now: int)
    | TakeBack(user: nat, signature: Bytes, now: int)

  /** The requests of a run, one after another: the tables hold what the run of the accepted ones leads to. User ids and
      token hashes are never drawn twice, so a registration with one that is there does not come up. */
  method HandleAll(tables: IdentityTables, calls: seq<Call>) returns (ghost ops: seq<Op>)
    requires tables.db == Db(map[], []) && Consistent(tables.ed25519, tables.db)
    modifies tables
    ensures tables.db == RunAll(tables.ed25519, ops) && |ops| <= |calls|
  {
    ops := [];
    for i := 0 to |calls|
      invariant Consistent(tables.ed25519, tables.db)
      invariant tables.db == RunAll(tables.ed25519, ops) && |ops| <= i
    {
      ghost var done := Handle(tables, calls[i]);
      assert |done| == 1 ==> (ops + done)[..|ops|] == ops;
      assert done == [] ==> ops + done == ops;
      hide Consistent, RotationChain.Apply;
      ops := ops + done;
    }
  }

  method Handle(tables: IdentityTables, call: Call) returns (ghost done: seq<Op>)
    requires Consistent(tables.ed25519, tables.db)
    modifies tables
    ensures Consistent(tables.ed25519, tables.db) && |done| <= 1
    ensures tables.db ==
      if done == [] then old(tables.db) else RotationChain.Apply(tables.ed25519, old(tables.db), done[0])
  {
    hide Consistent, AfterRegister, AfterRotate, AfterCancel, RotateStatus, CancelStatus;
    done := [];
    match call {
      case Enrol(user, fp, key, signature, nameBlank, inviteOnly, owner, invite, nameTaken, hash, now) =>
        if user !in tables.db.users && hash !in tables.tokens {
          var status := tables.Register(user, fp, key, signature, nameBlank, inviteOnly, owner, invite, nameTaken, hash,
                                        now);
          if status == Okay {
            done := [Op.Register(user, fp, key, signature, now)];
          }
        }
      case Change(user, req, now) =>
        var status := tables.RotateKey(user, req, now);
        done := [Rotate(user, req, now)];
      case TakeBack(user, signature, now) =>
        if user in tables.db.users {
          var status := tables.CancelRotation(user, signature, now);
          done := [Cancel(user, signature, now)];
        }
    }
  }

  // ---- what the statements of each handler add up to ----

  lemma NewRotationIs(db: Db, user: nat, req: RotateRequest, now: int)
    ensures user in db.users ==>
      var fp := db.users[user].fingerprint;
      NewRotation(fp, req, now)
        == Rotation(fp, req.prevKey, req.newKey, req.reason, req.signatureOld, req.signatureNew, now,
                    now + 72 * 3600, false)
  {
  }

  /** An accepted cancellation takes back a pending rotation whose old key has signed for it. */
  lemma CancelMeans(e: Ed25519, db: Db, user: nat, signature: Bytes, now: int)
    requires user in db.users
    ensures var after := AfterCancel(e, db, user, signature, now);
      CancelStatus(e, db, user, signature, now) == Okay ==>
        exists i :: 0 <= i < |db.records| && db.records[i].Rotation? &&
          var row, u := db.records[i], db.users[user];
          && row.fingerprint == u.fingerprint && !row.cancelled && row.deadline > now
          && e.verifies(row.prevKey, Utf8("cancel_rotation:") + Utf8(u.fingerprint.text), signature)
          && after.users == db.users[user := u.(publicKey := row.prevKey)]
          && after.records == db.records[i := row.(cancelled := true)]
  {
    CancelStatusIs(e, db, user, signature, now);
    hide LatestPending, CancelStatus, Utf8;
  }

  lemma RevokedIs(tokens: map<Hash, Token>, user: nat)
    ensures forall h :: h in Revoked(tokens, user) <==> h in tokens && tokens[h].user != user
    ensures forall h :: h in Revoked(tokens, user) ==> Revoked(tokens, user)[h] == tokens[h]
  {
  }

  lemma RegisterWrites(db: Db, user: nat, fp: Fingerprint, key: Bytes, signature: Bytes, now: int)
    requires user !in db.users && !Registered(db.users, fp)
    ensures AfterRegister(db, user, fp, key, signature, now) ==
      Db(db.users[user := User(fp, key)], db.records + [Genesis(fp, key, signature, now)])
    ensures forall u :: u in db.users ==> db.users[u].fingerprint != fp
    ensures KEY_SIZE == 32 && TOKEN_LIFETIME == 7 * 24 * 3600
  {
  }

  lemma StoreWrites(tokens: map<Hash, Token>, hash: Hash, user: nat, now: int)
    requires hash !in tokens
    ensures Stored(tokens, hash, user, now) == tokens[hash := Token(user, now + TOKEN_LIFETIME)]
  {
  }

  lemma RotateWrites(e: Ed25519, db: Db, user: nat, req: RotateRequest, now: int)
    ensures RequestStatus(e, req) != Okay ==> RotateStatus(e, db, user, req, now) == RequestStatus(e, req)
    ensures RequestStatus(e, req) == Okay && user !in db.users ==> RotateStatus(e, db, user, req, now) == NotFound
    ensures RequestStatus(e, req) == Okay && user in db.users ==>
      RotateStatus(e, db, user, req, now) ==
        if db.users[user].publicKey != req.prevKey then BadRequest
        else if LatestPending(db.records, db.users[user].fingerprint, now).Some? then Conflict
        else Okay
    ensures RotateStatus(e, db, user, req, now) != Okay ==> AfterRotate(e, db, user, req, now) == db
    ensures RotateStatus(e, db, user, req, now) == Okay ==>
      && user in db.users
      && AfterRotate(e, db, user, req, now) ==
         Db(db.users[user := db.users[user].(publicKey := req.newKey)],
            db.records + [NewRotation(db.users[user].fingerprint, req, now)])
  {
    hide RequestStatus, LatestPending, NewRotation;
  }

  lemma CancelWrites(e: Ed25519, db: Db, user: nat, signature: Bytes, now: int)
    requires user in db.users
    ensures var found := LatestPending(db.records, db.users[user].fingerprint, now);
      && (found.None? ==> CancelStatus(e, db, user, signature, now) == NotFound)
      && (found.Some? ==>
            && db.records[found.value].Rotation?
            && CancelStatus(e, db, user, signature, now) ==
               VerifySignature(e, db.records[found.value].prevKey, CancelPayload(db.users[user].fingerprint),
                               signature))
      && (CancelStatus(e, db, user, signature, now) != Okay ==> AfterCancel(e, db, user, signature, now) == db)
      && (CancelStatus(e, db, user, signature, now) == Okay ==>
            && found.Some?
            && AfterCancel(e, db, user, signature, now) ==
               Db(db.users[user := db.users[user].(publicKey := db.records[found.value].prevKey)],
                  Cancelled(db.records, found.value)))
  {
    hide LatestPending, VerifySignature, CancelPayload, Cancelled;
  }
}
