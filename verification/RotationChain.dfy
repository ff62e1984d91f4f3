/** server/src/identity/rotation.rs and the genesis record of registration.rs: the rows behind an identity's key, as
    values. The server that updates them in place is in Identity. */
module RotationChain {
  import opened Wrappers

  /** 72 hours, in the unit of every time stamp here. */
  const CANCELLATION_WINDOW := 72 * 3600
  const KEY_SIZE := 32
  const SIGNATURE_SIZE := 64

  datatype Fingerprint = Fingerprint(text: string)

  datatype User = User(fingerprint: Fingerprint, publicKey: Bytes)

  datatype Record =
    | Genesis(fingerprint: Fingerprint, newKey: Bytes, signature: Bytes, created: int)
    | Rotation(fingerprint: Fingerprint, prevKey: Bytes, newKey: Bytes, reason: string,
               signatureOld: Bytes, signatureNew: Bytes, created: int, deadline: int, cancelled: bool)

  datatype Status = Okay | BadRequest | Unauthorized | Forbidden | NotFound | Conflict

  // ---- signatures ----

  datatype Ed25519 = Ed25519(validKey: Bytes -> bool, verifies: (Bytes, Bytes, Bytes) -> bool)

  /** verify_signature */
  function VerifySignature(e: Ed25519, key: Bytes, payload: Bytes, signature: Bytes): Status {
    if |key| != KEY_SIZE || !e.validKey(key) || |signature| != SIGNATURE_SIZE then BadRequest
    else if e.verifies(key, payload, signature) then Okay
    else Unauthorized
  }

  /** The bytes of a text; every text signed here is ASCII except possibly the fingerprint. */
  function Utf8(s: string): (r: Bytes)
    ensures |r| == |s|
    ensures forall i :: 0 <= i < |s| ==> r[i] == s[i] as int % 256
  {
    seq(|s|, i requires 0 <= i < |s| => s[i] as int % 256)
  }

  function RotationPayload(prevKey: Bytes, newKey: Bytes, reason: string): Bytes {
    Utf8("rotate:") + prevKey + Utf8(":") + newKey + Utf8(":") + Utf8(reason)
  }

  function CancelPayload(fingerprint: Fingerprint): Bytes {
    Utf8("cancel_rotation:") + Utf8(fingerprint.text)
  }

  predicate KnownReason(reason: string) {
    reason == "compromise" || reason == "scheduled" || reason == "device_loss"
  }

  lemma CancelNames(f: Fingerprint)
    ensures |CancelPayload(f)| >= 16 && CancelPayload(f)[16..] == Utf8(f.text)
  {
  }

  /** A signature over a rotation says exactly which rotation, one over a cancellation says whose, and neither is ever
      the other. */
  lemma PayloadIsUnambiguous(p: Bytes, n: Bytes, reason: string, q: Bytes, m: Bytes, other: string, f: Fingerprint,
                             g: Fingerprint)
    requires |p| == |n| == |q| == |m| == 32
    requires reason in {"compromise", "scheduled", "device_loss"} && other in {"compromise", "scheduled", "device_loss"}
    ensures RotationPayload(p, n, reason) == RotationPayload(q, m, other) ==> p == q && n == m && reason == other
    ensures RotationPayload(p, n, reason) != CancelPayload(f)
    ensures CancelPayload(f) == CancelPayload(g) ==> Utf8(f.text) == Utf8(g.text)
  {
    CancelNames(f);
    CancelNames(g);
    var a, b := RotationPayload(p, n, reason), RotationPayload(q, m, other);
    assert a[0] == 'r' as int && CancelPayload(f)[0] == 'c' as int;
    assert a[7..39] == p && b[7..39] == q && a[40..72] == n && b[40..72] == m;
    assert |a| == 73 + |reason| && |b| == 73 + |other|;
  }

  // ---- the rows of one fingerprint ----

  predicate IsLive(r: Record, fp: Fingerprint) { r.Rotation? && r.fingerprint == fp && !r.cancelled }

  predicate IsPending(r: Record, fp: Fingerprint, now: int) { IsLive(r, fp) && r.deadline > now }

  /** The non-cancelled rotations, in insertion order. */
  function Live(rs: seq<Record>, fp: Fingerprint): (live: seq<Record>)
    ensures forall k :: 0 <= k < |live| ==> IsLive(live[k], fp) && live[k] in rs
  {
    if rs == [] then []
    else
      var last := rs[|rs| - 1];
      Live(rs[..|rs| - 1], fp) + if IsLive(last, fp) then [last] else []
  }

  function GenesisKey(rs: seq<Record>, fp: Fingerprint): Option<Bytes> {
    if rs == [] then None
    else
      var last := rs[|rs| - 1];
      if last.Genesis? && last.fingerprint == fp then Some(last.newKey) else GenesisKey(rs[..|rs| - 1], fp)
  }

  /** Following the links from a key; nothing if one does not start where the one before it ended. */
  function Replay(key: Bytes, links: seq<Record>): Option<Bytes>
    requires forall k :: 0 <= k < |links| ==> links[k].Rotation?
  {
    if links == [] then Some(key)
    else
      var last := links[|links| - 1];
      if Replay(key, links[..|links| - 1]) == Some(last.prevKey) then Some(last.newKey) else None
  }

  /** No window opens before the one before it has closed. */
  ghost predicate Spaced(links: seq<Record>) {
    && (forall k :: 0 <= k < |links| ==>
          links[k].Rotation? && links[k].deadline == links[k].created + CANCELLATION_WINDOW)
    && forall i, j :: 0 <= i < j < |links| ==> links[i].deadline <= links[j].created
  }

  // ---- which row a query finds ----

  /** SELECT ... AND cancellation_deadline > now ORDER BY created_at DESC LIMIT 1: the row's position. */
  function LatestPending(rs: seq<Record>, fp: Fingerprint, now: int): (i: Option<nat>)
    ensures i.Some? ==> i.value < |rs| && IsPending(rs[i.value], fp, now)
    ensures i.Some? ==> forall j :: 0 <= j < |rs| && IsPending(rs[j], fp, now) ==> rs[j].created <= rs[i.value].created
    ensures i.None? ==> forall j :: 0 <= j < |rs| ==> !IsPending(rs[j], fp, now)
  {
    if rs == [] then None
    else
      var n := |rs| - 1;
      var before := LatestPending(rs[..n], fp, now);
      assert forall j :: 0 <= j < n ==> rs[..n][j] == rs[j];
      if IsPending(rs[n], fp, now) && (before.None? || rs[n].created > rs[before.value].created) then Some(n)
      else before
  }

  function LastLive(rs: seq<Record>, fp: Fingerprint): (i: Option<nat>)
    ensures i.Some? ==> i.value < |rs| && IsLive(rs[i.value], fp)
  {
    if rs == [] then None
    else if IsLive(rs[|rs| - 1], fp) then Some(|rs| - 1)
    else LastLive(rs[..|rs| - 1], fp)
  }

  lemma {:induction false} LastLiveEndsTheChain(rs: seq<Record>, fp: Fingerprint)
    ensures LastLive(rs, fp).None? <==> Live(rs, fp) == []
    ensures LastLive(rs, fp).Some? ==> Live(rs, fp)[|Live(rs, fp)| - 1] == rs[LastLive(rs, fp).value]
  {
    if rs != [] && !IsLive(rs[|rs| - 1], fp) {
      LastLiveEndsTheChain(rs[..|rs| - 1], fp);
    }
  }

  lemma {:induction false} LiveAt(rs: seq<Record>, fp: Fingerprint, j: nat)
    requires j < |rs| && IsLive(rs[j], fp)
    ensures rs[j] in Live(rs, fp)
  {
    if j < |rs| - 1 {
      assert rs[..|rs| - 1][j] == rs[j];
      LiveAt(rs[..|rs| - 1], fp, j);
    }
  }

  /** Although it looks for the latest creation time, the query finds the chain's last link or nothing. */
  lemma LatestPendingIsLast(rs: seq<Record>, fp: Fingerprint, now: int)
    requires Spaced(Live(rs, fp))
    ensures var live := Live(rs, fp);
      && LatestPending(rs, fp, now).Some? == (live != [] && live[|live| - 1].deadline > now)
      && (LatestPending(rs, fp, now).Some? ==> LatestPending(rs, fp, now) == LastLive(rs, fp))
  {
    var live := Live(rs, fp);
    LastLiveEndsTheChain(rs, fp);
    match LatestPending(rs, fp, now)
    case None =>
    case Some(i) =>
      LiveAt(rs, fp, i);
      OnlyLastIsLatest(rs, fp, now, i);
  }

  lemma {:induction false} OnlyLastIsLatest(rs: seq<Record>, fp: Fingerprint, now: int, i: nat)
    requires Spaced(Live(rs, fp)) && i < |rs| && IsPending(rs[i], fp, now)
    requires forall j :: 0 <= j < |rs| && IsPending(rs[j], fp, now) ==> rs[j].created <= rs[i].created
    ensures LastLive(rs, fp) == Some(i)
  {
    var n := |rs| - 1;
    var live := Live(rs, fp);
    if IsLive(rs[n], fp) {
      if i < n {
        LaterLinkIsPending(rs, fp, now, i);
      }
    } else {
      assert forall j :: 0 <= j < n ==> rs[..n][j] == rs[j];
      assert Live(rs[..n], fp) == live;
      OnlyLastIsLatest(rs[..n], fp, now, i);
    }
  }

  lemma LaterLinkIsPending(rs: seq<Record>, fp: Fingerprint, now: int, i: nat)
    requires Spaced(Live(rs, fp)) && i < |rs| - 1 && IsPending(rs[i], fp, now) && IsLive(rs[|rs| - 1], fp)
    ensures IsPending(rs[|rs| - 1], fp, now) && rs[i].created < rs[|rs| - 1].created
  {
    var n := |rs| - 1;
    var live, before := Live(rs, fp), Live(rs[..n], fp);
    assert rs[..n][i] == rs[i];
    LiveAt(rs[..n], fp, i);
    var k :| 0 <= k < |before| && before[k] == rs[i];
    assert live[k] == rs[i] && live[|before|] == rs[n];
  }

  // ---- how the updates change the chain ----

  lemma LiveAppend(rs: seq<Record>, r: Record, fp: Fingerprint)
    ensures Live(rs + [r], fp) == Live(rs, fp) + if IsLive(r, fp) then [r] else []
    ensures GenesisKey(rs + [r], fp) ==
      if r.Genesis? && r.fingerprint == fp then Some(r.newKey) else GenesisKey(rs, fp)
  {
    assert (rs + [r])[..|rs|] == rs;
  }

  function Cancelled(rs: seq<Record>, i: nat): seq<Record>
    requires i < |rs| && rs[i].Rotation?
  {
    rs[i := rs[i].(cancelled := true)]
  }

  /** Cancelling the last live row takes the last link off its own chain and leaves every other chain alone. */
  lemma {:induction false} CancelDropsLast(rs: seq<Record>, i: nat, fp: Fingerprint, other: Fingerprint)
    requires LastLive(rs, fp) == Some(i)
    ensures Live(rs, fp) != []
    ensures Live(Cancelled(rs, i), fp) == Live(rs, fp)[..|Live(rs, fp)| - 1]
    ensures other != fp ==> Live(Cancelled(rs, i), other) == Live(rs, other)
    ensures GenesisKey(Cancelled(rs, i), other) == GenesisKey(rs, other)
  {
    var n := |rs| - 1;
    var c := Cancelled(rs, i);
    if i == n {
      assert c[..n] == rs[..n];
    } else {
      assert c[..n] == Cancelled(rs[..n], i);
      CancelDropsLast(rs[..n], i, fp, other);
    }
  }

  lemma {:induction false} NothingRecorded(rs: seq<Record>, fp: Fingerprint)
    requires forall r :: r in rs ==> r.fingerprint != fp
    ensures Live(rs, fp) == [] && GenesisKey(rs, fp) == None
  {
    if rs == [] {
    } else {
      NothingRecorded(rs[..|rs| - 1], fp);
    }
  }

  // ---- the whole database ----

  datatype Db = Db(users: map<nat, User>, records: seq<Record>)

  ghost predicate Signed(e: Ed25519, r: Record) {
    r.Rotation? ==>
      && |r.prevKey| == 32 && |r.newKey| == 32 && |r.signatureOld| == 64 && |r.signatureNew| == 64
      && e.validKey(r.prevKey) && e.validKey(r.newKey)
      && e.verifies(r.prevKey, RotationPayload(r.prevKey, r.newKey, r.reason), r.signatureOld)
      && e.verifies(r.newKey, RotationPayload(r.prevKey, r.newKey, r.reason), r.signatureNew)
  }

  predicate Registered(users: map<nat, User>, fp: Fingerprint) {
    exists u :: u in users && users[u].fingerprint == fp
  }

  /** From the genesis key the live rows lead, link by link, to the key the user has now. */
  ghost predicate ChainHolds(rs: seq<Record>, fp: Fingerprint, key: Bytes) {
    && Spaced(Live(rs, fp))
    && GenesisKey(rs, fp).Some?
    && Replay(GenesisKey(rs, fp).value, Live(rs, fp)) == Some(key)
  }

  ghost predicate AllSigned(e: Ed25519, db: Db) {
    forall r :: r in db.records ==> Registered(db.users, r.fingerprint) && Signed(e, r)
  }

  ghost predicate OneGenesis(rs: seq<Record>) {
    forall r, q :: r in rs && q in rs && r.Genesis? && q.Genesis? && r.fingerprint == q.fingerprint ==> r == q
  }

  ghost predicate UniqueFingerprints(users: map<nat, User>) {
    forall u, v :: u in users && v in users && u != v ==> users[u].fingerprint != users[v].fingerprint
  }

  ghost predicate AllChains(db: Db) {
    forall u :: u in db.users ==> ChainHolds(db.records, db.users[u].fingerprint, db.users[u].publicKey)
  }

  ghost predicate Consistent(e: Ed25519, db: Db) {
    && UniqueFingerprints(db.users)
    && AllChains(db)
    && AllSigned(e, db)
    && OneGenesis(db.records)
  }

  // ---- the three requests ----

  datatype RotateRequest = RotateRequest(prevKey: Bytes, newKey: Bytes, reason: string, signatureOld: Bytes,
                                         signatureNew: Bytes)

  /** The checks of rotate_key that come before the database is locked. */
  function RequestStatus(e: Ed25519, req: RotateRequest): Status {
    var payload := RotationPayload(req.prevKey, req.newKey, req.reason);
    if !KnownReason(req.reason) || |req.newKey| != KEY_SIZE || !e.validKey(req.newKey) then BadRequest
    else if VerifySignature(e, req.prevKey, payload, req.signatureOld) != Okay then
      VerifySignature(e, req.prevKey, payload, req.signatureOld)
    else VerifySignature(e, req.newKey, payload, req.signatureNew)
  }

  function RotateStatus(e: Ed25519, db: Db, user: nat, req: RotateRequest, now: int): Status {
    if RequestStatus(e, req) != Okay then RequestStatus(e, req)
    else if user !in db.users then NotFound
    else if db.users[user].publicKey != req.prevKey then BadRequest
    else if LatestPending(db.records, db.users[user].fingerprint, now).Some? then Conflict
    else Okay
  }

  /** When a rotation is accepted, and when it is answered Unauthorized, in terms of the request and the rows. */
  lemma RotateStatusIs(e: Ed25519, db: Db, user: nat, req: RotateRequest, now: int)
    ensures var status := RotateStatus(e, db, user, req, now);
      var payload := Utf8("rotate:") + req.prevKey + Utf8(":") + req.newKey + Utf8(":") + Utf8(req.reason);
      var formed :=
        && (req.reason == "compromise" || req.reason == "scheduled" || req.reason == "device_loss")
        && |req.newKey| == 32 && e.validKey(req.newKey) && |req.prevKey| == 32 && e.validKey(req.prevKey)
        && |req.signatureOld| == 64;
      var signed :=
        && |req.signatureNew| == 64
        && e.verifies(req.prevKey, payload, req.signatureOld) && e.verifies(req.newKey, payload, req.signatureNew);
      var pending := user in db.users && exists r ::
        r in db.records && r.Rotation? && r.fingerprint == db.users[user].fingerprint && !r.cancelled
        && r.deadline > now;
      && (status == Okay <==>
            formed && signed && user in db.users && db.users[user].publicKey == req.prevKey && !pending)
      && (status == Unauthorized <==>
            && formed
            && (!e.verifies(req.prevKey, payload, req.signatureOld)
                || (|req.signatureNew| == 64 && !e.verifies(req.newKey, payload, req.signatureNew))))
      && (status == NotFound <==> formed && signed && user !in db.users)
      && (status == Conflict <==>
            formed && signed && user in db.users && db.users[user].publicKey == req.prevKey && pending)
  {
    hide Utf8;
    var payload := Utf8("rotate:") + req.prevKey + Utf8(":") + req.newKey + Utf8(":") + Utf8(req.reason);
    assert payload == RotationPayload(req.prevKey, req.newKey, req.reason);
    if user in db.users {
      PendingIs(db.records, db.users[user].fingerprint, now);
    }
    hide LatestPending, RotationPayload;
  }

  lemma PendingIs(rs: seq<Record>, fp: Fingerprint, now: int)
    ensures LatestPending(rs, fp, now).Some? <==>
      exists r :: r in rs && r.Rotation? && r.fingerprint == fp && !r.cancelled && r.deadline > now
  {
    var found := LatestPending(rs, fp, now);
    if found.Some? {
      assert rs[found.value] in rs && IsPending(rs[found.value], fp, now);
    } else {
      forall r | r in rs ensures !IsPending(r, fp, now) {
        var j :| 0 <= j < |rs| && rs[j] == r;
      }
    }
  }

  function NewRotation(fp: Fingerprint, req: RotateRequest, now: int): Record {
    Rotation(fp, req.prevKey, req.newKey, req.reason, req.signatureOld, req.signatureNew,
             now, now + CANCELLATION_WINDOW, false)
  }

  function AfterRotate(e: Ed25519, db: Db, user: nat, req: RotateRequest, now: int): Db {
    if RotateStatus(e, db, user, req, now) != Okay then db
    else
      var u := db.users[user];
      Db(db.users[user := u.(publicKey := req.newKey)], db.records + [NewRotation(u.fingerprint, req, now)])
  }

  function CancelStatus(e: Ed25519, db: Db, user: nat, signature: Bytes, now: int): Status
    requires user in db.users
  {
    var fp := db.users[user].fingerprint;
    match LatestPending(db.records, fp, now)
    case None => NotFound
    case Some(i) => VerifySignature(e, db.records[i].prevKey, CancelPayload(fp), signature)
  }

  /** When a cancellation is accepted and when not: whatever row it takes back is one of the pending ones, no other of
      them is later, and the signature is by the key from before that rotation, over the identity's own text. */
  lemma CancelStatusIs(e: Ed25519, db: Db, user: nat, signature: Bytes, now: int)
    requires user in db.users
    ensures var fp, found := db.users[user].fingerprint, LatestPending(db.records, db.users[user].fingerprint, now);
      var status := CancelStatus(e, db, user, signature, now);
      && (found.None? <==> forall r ::
            r in db.records && r.Rotation? && r.fingerprint == fp && !r.cancelled ==> r.deadline <= now)
      && (status == NotFound <==> found.None?)
      && (found.Some? ==>
            && found.value < |db.records|
            && var row := db.records[found.value];
               && row.Rotation? && row.fingerprint == fp && !row.cancelled && row.deadline > now
               && (forall r :: r in db.records && r.Rotation? && r.fingerprint == fp && !r.cancelled ==>
                     r.deadline <= now || r.created <= row.created)
               && var payload := Utf8("cancel_rotation:") + Utf8(fp.text);
                  var formed := |row.prevKey| == 32 && e.validKey(row.prevKey) && |signature| == 64;
                  && (status == Okay <==> formed && e.verifies(row.prevKey, payload, signature))
                  && (status == Unauthorized <==> formed && !e.verifies(row.prevKey, payload, signature)))
  {
    hide Utf8;
    var fp := db.users[user].fingerprint;
    PendingIs(db.records, fp, now);
    assert CancelPayload(fp) == Utf8("cancel_rotation:") + Utf8(fp.text);
    hide CancelPayload;
    forall r | r in db.records && IsPending(r, fp, now)
      ensures r.created <= db.records[LatestPending(db.records, fp, now).value].created
    {
      var j :| 0 <= j < |db.records| && db.records[j] == r;
    }
    hide LatestPending;
  }

  function AfterCancel(e: Ed25519, db: Db, user: nat, signature: Bytes, now: int): Db
    requires user in db.users
  {
    if CancelStatus(e, db, user, signature, now) != Okay then db
    else
      var u := db.users[user];
      var i := LatestPending(db.records, u.fingerprint, now).value;
      Db(db.users[user := u.(publicKey := db.records[i].prevKey)], Cancelled(db.records, i))
  }

  /** register, as far as these two tables go; the checks that do not read them are made before. */
  function AfterRegister(db: Db, user: nat, fp: Fingerprint, key: Bytes, signature: Bytes, now: int): Db
    requires user !in db.users
  {
    if Registered(db.users, fp) then db
    else Db(db.users[user := User(fp, key)], db.records + [Genesis(fp, key, signature, now)])
  }

  // ---- every request keeps the chain ----

  lemma SpacedLinks(links: seq<Record>, r: Record)
    requires Spaced(links) && r.Rotation? && r.deadline == r.created + CANCELLATION_WINDOW
    requires links != [] ==> links[|links| - 1].deadline <= r.created
    ensures Spaced(links + [r])
  {
    var all := links + [r];
    forall i, j | 0 <= i < j < |all| ensures all[i].deadline <= all[j].created {
      if j == |links| && i < |links| - 1 {
        assert links[i].deadline <= links[|links| - 1].created;
      }
    }
  }

  /** A new link may be added once no window is open, and then follows every window of the chain. */
  lemma ExtendChain(rs: seq<Record>, fp: Fingerprint, key: Bytes, r: Record)
    requires ChainHolds(rs, fp, key) && IsLive(r, fp) && r.prevKey == key
    requires r.deadline == r.created + CANCELLATION_WINDOW && LatestPending(rs, fp, r.created).None?
    ensures ChainHolds(rs + [r], fp, r.newKey) && Live(rs + [r], fp) == Live(rs, fp) + [r]
  {
    var live := Live(rs, fp);
    LiveAppend(rs, r, fp);
    LatestPendingIsLast(rs, fp, r.created);
    hide Live, GenesisKey, LatestPending, LastLive;
    SpacedLinks(live, r);
    assert (live + [r])[..|live|] == live;
  }

  lemma OtherChain(rs: seq<Record>, fp: Fingerprint, key: Bytes, r: Record)
    requires ChainHolds(rs, fp, key) && r.fingerprint != fp
    ensures ChainHolds(rs + [r], fp, key)
  {
    LiveAppend(rs, r, fp);
    hide Live, GenesisKey, Replay, Spaced;
    assert Live(rs + [r], fp) == Live(rs, fp);
  }

  lemma ShortenChain(rs: seq<Record>, fp: Fingerprint, key: Bytes, now: int)
    requires ChainHolds(rs, fp, key) && LatestPending(rs, fp, now).Some?
    ensures var i := LatestPending(rs, fp, now).value; var live := Live(rs, fp);
      && LastLive(rs, fp) == Some(i) && live != [] && live[|live| - 1] == rs[i]
      && Live(Cancelled(rs, i), fp) == live[..|live| - 1]
      && ChainHolds(Cancelled(rs, i), fp, rs[i].prevKey)
      && Replay(GenesisKey(rs, fp).value, live[..|live| - 1]) == Some(rs[i].prevKey)
  {
    var live := Live(rs, fp);
    var i := LatestPending(rs, fp, now).value;
    LatestPendingIsLast(rs, fp, now);
    LastLiveEndsTheChain(rs, fp);
    CancelDropsLast(rs, i, fp, fp);
    hide Live, GenesisKey, LatestPending, LastLive, Cancelled;
    assert Spaced(live[..|live| - 1]);
  }

  lemma RotateExtendsChain(e: Ed25519, db: Db, user: nat, req: RotateRequest, now: int)
    requires Consistent(e, db) && RotateStatus(e, db, user, req, now) == Okay
    ensures var u := db.users[user]; var r := NewRotation(u.fingerprint, req, now);
      var after := AfterRotate(e, db, user, req, now);
      && after == Db(db.users[user := u.(publicKey := req.newKey)], db.records + [r])
      && Live(after.records, u.fingerprint) == Live(db.records, u.fingerprint) + [r]
      && ChainHolds(after.records, u.fingerprint, req.newKey)
  {
    var u := db.users[user];
    assert ChainHolds(db.records, u.fingerprint, u.publicKey);
    hide RequestStatus, Live, ChainHolds, GenesisKey, LatestPending, AllSigned, OneGenesis;
    ExtendChain(db.records, u.fingerprint, u.publicKey, NewRotation(u.fingerprint, req, now));
  }

  lemma NewRotationIsSigned(e: Ed25519, fp: Fingerprint, req: RotateRequest, now: int)
    requires RequestStatus(e, req) == Okay
    ensures Signed(e, NewRotation(fp, req, now))
  {
    hide RotationPayload, KnownReason;
  }

  lemma SignedAppend(e: Ed25519, db: Db, r: Record, users: map<nat, User>)
    requires AllSigned(e, db) && Signed(e, r) && Registered(users, r.fingerprint)
    requires forall u :: u in db.users ==> u in users && users[u].fingerprint == db.users[u].fingerprint
    ensures AllSigned(e, Db(users, db.records + [r]))
  {
    hide Signed;
    KeepsRegistered(db.users, users);
  }

  lemma RotateKeepsConsistent(e: Ed25519, db: Db, user: nat, req: RotateRequest, now: int)
    requires Consistent(e, db)
    ensures Consistent(e, AfterRotate(e, db, user, req, now))
  {
    hide RequestStatus, Live, ChainHolds, GenesisKey, LatestPending, AllSigned, Signed;
    if RotateStatus(e, db, user, req, now) == Okay {
      RotateExtendsChain(e, db, user, req, now);
      var fp := db.users[user].fingerprint;
      var r := NewRotation(fp, req, now);
      var after := AfterRotate(e, db, user, req, now);
      forall v | v in db.users && v != user
        ensures ChainHolds(after.records, db.users[v].fingerprint, db.users[v].publicKey)
      {
        OtherChain(db.records, db.users[v].fingerprint, db.users[v].publicKey, r);
      }
      assert after.users[user].fingerprint == fp;
      NewRotationIsSigned(e, fp, req, now);
      SignedAppend(e, db, r, after.users);
    }
  }

  lemma KeepsRegistered(users: map<nat, User>, after: map<nat, User>)
    requires forall u :: u in users ==> u in after && after[u].fingerprint == users[u].fingerprint
    ensures forall fp :: Registered(users, fp) ==> Registered(after, fp)
  {
    forall fp | Registered(users, fp) ensures Registered(after, fp) {
      var u :| u in users && users[u].fingerprint == fp;
      assert u in after && after[u].fingerprint == fp;
    }
  }

  /** The row that is cancelled is the chain's last link, and going back to its old key is the same as following the
      chain without it. */
  lemma CancelUndoesTheLastLink(e: Ed25519, db: Db, user: nat, signature: Bytes, now: int)
    requires Consistent(e, db) && user in db.users && CancelStatus(e, db, user, signature, now) == Okay
    ensures var fp := db.users[user].fingerprint; var after := AfterCancel(e, db, user, signature, now);
      var live := Live(db.records, fp);
      && live != []
      && LatestPending(db.records, fp, now) == LastLive(db.records, fp)
      && Live(after.records, fp) == live[..|live| - 1]
      && GenesisKey(db.records, fp).Some?
      && Replay(GenesisKey(db.records, fp).value, live[..|live| - 1]) == Some(after.users[user].publicKey)
      && ChainHolds(after.records, fp, after.users[user].publicKey)
  {
    var u := db.users[user];
    assert ChainHolds(db.records, u.fingerprint, u.publicKey);
    hide CancelPayload, VerifySignature, Live, GenesisKey, LatestPending;
    hide LastLive, AllSigned, OneGenesis, Replay, Spaced;
    ShortenChain(db.records, u.fingerprint, u.publicKey, now);
  }

  lemma SignedCancel(e: Ed25519, db: Db, i: nat, users: map<nat, User>)
    requires AllSigned(e, db) && OneGenesis(db.records) && i < |db.records| && db.records[i].Rotation?
    requires forall u :: u in db.users ==> u in users && users[u].fingerprint == db.users[u].fingerprint
    ensures AllSigned(e, Db(users, Cancelled(db.records, i))) && OneGenesis(Cancelled(db.records, i))
  {
    hide RotationPayload, VerifySignature;
    KeepsRegistered(db.users, users);
    var c := db.records[i].(cancelled := true);
    assert db.records[i] in db.records;
    assert forall r :: r in Cancelled(db.records, i) ==> r in db.records || r == c;
  }

  lemma CancelKeepsConsistent(e: Ed25519, db: Db, user: nat, signature: Bytes, now: int)
    requires Consistent(e, db) && user in db.users
    ensures Consistent(e, AfterCancel(e, db, user, signature, now))
  {
    hide CancelPayload, VerifySignature, Live, GenesisKey, ChainHolds, AllSigned, OneGenesis, Replay, Cancelled;
    if CancelStatus(e, db, user, signature, now) == Okay {
      CancelUndoesTheLastLink(e, db, user, signature, now);
      var after := AfterCancel(e, db, user, signature, now);
      var fp := db.users[user].fingerprint;
      var i := LastLive(db.records, fp).value;
      forall v | v in db.users && v != user
        ensures ChainHolds(after.records, db.users[v].fingerprint, db.users[v].publicKey)
      {
        OtherChainKept(db.records, fp, i, db.users[v].fingerprint, db.users[v].publicKey);
      }
      SignedCancel(e, db, i, after.users);
    }
  }

  lemma OtherChainKept(rs: seq<Record>, fp: Fingerprint, i: nat, other: Fingerprint, key: Bytes)
    requires LastLive(rs, fp) == Some(i) && other != fp && ChainHolds(rs, other, key)
    ensures ChainHolds(Cancelled(rs, i), other, key)
  {
    CancelDropsLast(rs, i, fp, other);
  }

  lemma NewChain(rs: seq<Record>, fp: Fingerprint, r: Record)
    requires r.Genesis? && r.fingerprint == fp && forall q :: q in rs ==> q.fingerprint != fp
    ensures ChainHolds(rs + [r], fp, r.newKey)
  {
    NothingRecorded(rs, fp);
    LiveAppend(rs, r, fp);
  }

  lemma RegisterKeepsConsistent(e: Ed25519, db: Db, user: nat, fp: Fingerprint, key: Bytes, signature: Bytes, now: int)
    requires Consistent(e, db) && user !in db.users
    ensures Consistent(e, AfterRegister(db, user, fp, key, signature, now))
  {
    if !Registered(db.users, fp) {
      var users := db.users[user := User(fp, key)];
      var r := Genesis(fp, key, signature, now);
      NewUser(e, db, user, fp, key);
      GenesisAppend(db.records, r);
      AddUser(db.users, user, fp, key);
      AddChain(db, user, fp, key, r);
      hide Live, GenesisKey, Signed, Registered, ChainHolds, AllSigned, OneGenesis, UniqueFingerprints, AllChains;
      SignedAppend(e, db, r, users);
    }
  }

  lemma AddUser(users: map<nat, User>, user: nat, fp: Fingerprint, key: Bytes)
    requires UniqueFingerprints(users) && user !in users && forall v :: v in users ==> users[v].fingerprint != fp
    ensures UniqueFingerprints(users[user := User(fp, key)])
  {
  }

  lemma AddChain(db: Db, user: nat, fp: Fingerprint, key: Bytes, r: Record)
    requires AllChains(db) && r.Genesis? && r.fingerprint == fp && r.newKey == key
    requires forall q :: q in db.records ==> q.fingerprint != fp
    requires forall v :: v in db.users ==> db.users[v].fingerprint != fp
    ensures AllChains(Db(db.users[user := User(fp, key)], db.records + [r]))
  {
    NewChain(db.records, fp, r);
    OtherChains(db, r);
    hide ChainHolds;
  }

  lemma OtherChains(db: Db, r: Record)
    requires forall u :: u in db.users ==> ChainHolds(db.records, db.users[u].fingerprint, db.users[u].publicKey)
    requires forall u :: u in db.users ==> db.users[u].fingerprint != r.fingerprint
    ensures forall u :: u in db.users ==> ChainHolds(db.records + [r], db.users[u].fingerprint, db.users[u].publicKey)
  {
    hide ChainHolds;
    forall v | v in db.users
      ensures ChainHolds(db.records + [r], db.users[v].fingerprint, db.users[v].publicKey)
    {
      OtherChain(db.records, db.users[v].fingerprint, db.users[v].publicKey, r);
    }
  }

  lemma GenesisAppend(rs: seq<Record>, r: Record)
    requires OneGenesis(rs) && forall q :: q in rs ==> q.fingerprint != r.fingerprint
    ensures OneGenesis(rs + [r])
  {
  }

  lemma NewUser(e: Ed25519, db: Db, user: nat, fp: Fingerprint, key: Bytes)
    requires AllSigned(e, db) && user !in db.users && !Registered(db.users, fp)
    ensures forall q :: q in db.records ==> q.fingerprint != fp
    ensures forall v :: v in db.users ==> db.users[v].fingerprint != fp
    ensures Registered(db.users[user := User(fp, key)], fp)
  {
    hide Signed;
    assert db.users[user := User(fp, key)][user].fingerprint == fp;
  }

  // ---- whole runs ----

  datatype Op =
    | Register(user: nat, fp: Fingerprint, key: Bytes, signature: Bytes, now: int)
    | Rotate(user: nat, req: RotateRequest, now: int)
    | Cancel(user: nat, signature: Bytes, now: int)

  /** User ids are fresh UUIDs; the claims of a request name a registered user. */
  function Apply(e: Ed25519, db: Db, op: Op): Db {
    match op
    case Register(user, fp, key, signature, now) =>
      if user in db.users then db else AfterRegister(db, user, fp, key, signature, now)
    case Rotate(user, req, now) => AfterRotate(e, db, user, req, now)
    case Cancel(user, signature, now) =>
      if user in db.users then AfterCancel(e, db, user, signature, now) else db
  }

  function RunAll(e: Ed25519, ops: seq<Op>): Db {
    if ops == [] then Db(map[], []) else Apply(e, RunAll(e, ops[..|ops| - 1]), ops[|ops| - 1])
  }

  /** After any requests at any times, in any order, every user's key is the end of an unbroken, signed chain. */
  lemma {:induction false} EveryRunIsConsistent(e: Ed25519, ops: seq<Op>)
    ensures Consistent(e, RunAll(e, ops))
  {
    if ops == [] {
    } else {
      var db := RunAll(e, ops[..|ops| - 1]);
      EveryRunIsConsistent(e, ops[..|ops| - 1]);
      hide Consistent, AfterRotate, AfterCancel, AfterRegister;
      match ops[|ops| - 1]
      case Register(user, fp, key, signature, now) =>
        if user !in db.users {
          RegisterKeepsConsistent(e, db, user, fp, key, signature, now);
        }
      case Rotate(user, req, now) => RotateKeepsConsistent(e, db, user, req, now);
      case Cancel(user, signature, now) =>
        if user in db.users {
          CancelKeepsConsistent(e, db, user, signature, now);
        }
    }
  }

  /** At no moment are two rotations of one identity inside their windows. */
  lemma AtMostOnePending(e: Ed25519, ops: seq<Op>, user: nat, i: nat, j: nat, t: int)
    requires user in RunAll(e, ops).users
    requires var live := Live(RunAll(e, ops).records, RunAll(e, ops).users[user].fingerprint);
      && i < |live| && live[i].created <= t < live[i].deadline
      && j < |live| && live[j].created <= t < live[j].deadline
    ensures i == j
  {
    EveryRunIsConsistent(e, ops);
    var db := RunAll(e, ops);
    assert ChainHolds(db.records, db.users[user].fingerprint, db.users[user].publicKey);
    hide RunAll, Live, GenesisKey, Replay, AllSigned;
  }

  /** A rotation cancelled inside its window leaves every key as it was and the identity's chain as it was. */
  lemma RotateThenCancel(e: Ed25519, db: Db, user: nat, req: RotateRequest, now: int, signature: Bytes, later: int)
    requires Consistent(e, db) && RotateStatus(e, db, user, req, now) == Okay && later < now + CANCELLATION_WINDOW
    requires |signature| == 64 && e.verifies(req.prevKey, CancelPayload(db.users[user].fingerprint), signature)
    ensures var rotated := AfterRotate(e, db, user, req, now); var fp := db.users[user].fingerprint;
      && user in rotated.users
      && CancelStatus(e, rotated, user, signature, later) == Okay
      && AfterCancel(e, rotated, user, signature, later) ==
         Db(db.users, db.records + [NewRotation(fp, req, now).(cancelled := true)])
      && Live(AfterCancel(e, rotated, user, signature, later).records, fp) == Live(db.records, fp)
  {
    var u := db.users[user];
    var r := NewRotation(u.fingerprint, req, now);
    RotateStatusIs(e, db, user, req, now);
    assert VerifySignature(e, req.prevKey, CancelPayload(u.fingerprint), signature) == Okay;
    RotateExtendsChain(e, db, user, req, now);
    CurrentKey(e, db, user, req, now);
    IsNew(u.fingerprint, req, now);
    CancelNewest(db.records, u.fingerprint, r, req.newKey, later);
    hide *;
    var rotated := AfterRotate(e, db, user, req, now);
    assert (db.records + [r])[|db.records|] == r;
    CancelFinds(e, rotated, user, signature, later, |db.records|);
    RestoreUser(db.users, user, req.newKey);
  }

  lemma IsNew(fp: Fingerprint, req: RotateRequest, now: int)
    ensures var r := NewRotation(fp, req, now);
      IsLive(r, fp) && r.deadline == now + CANCELLATION_WINDOW && r.prevKey == req.prevKey
  {
  }

  lemma CancelFinds(e: Ed25519, db: Db, user: nat, signature: Bytes, now: int, i: nat)
    requires user in db.users && LatestPending(db.records, db.users[user].fingerprint, now) == Some(i)
    requires VerifySignature(e, db.records[i].prevKey, CancelPayload(db.users[user].fingerprint), signature) == Okay
    ensures CancelStatus(e, db, user, signature, now) == Okay
    ensures AfterCancel(e, db, user, signature, now) ==
      Db(db.users[user := db.users[user].(publicKey := db.records[i].prevKey)], Cancelled(db.records, i))
  {
    hide LatestPending, VerifySignature, Cancelled, CancelPayload;
  }

  lemma RestoreUser(users: map<nat, User>, user: nat, key: Bytes)
    requires user in users
    ensures var u := users[user];
      users[user := u.(publicKey := key)][user := u.(publicKey := key).(publicKey := u.publicKey)] == users
  {
    assert users[user].(publicKey := key).(publicKey := users[user].publicKey) == users[user];
  }

  lemma CancelAtEnd(rs: seq<Record>, r: Record)
    requires r.Rotation?
    ensures Cancelled(rs + [r], |rs|) == rs + [r.(cancelled := true)]
  {
  }

  lemma CancelNewest(rs: seq<Record>, fp: Fingerprint, r: Record, key: Bytes, later: int)
    requires IsLive(r, fp) && later < r.deadline && ChainHolds(rs + [r], fp, key)
    requires Live(rs + [r], fp) == Live(rs, fp) + [r]
    ensures LatestPending(rs + [r], fp, later) == Some(|rs|)
    ensures Cancelled(rs + [r], |rs|) == rs + [r.(cancelled := true)]
    ensures Live(Cancelled(rs + [r], |rs|), fp) == Live(rs, fp)
  {
    LatestPendingIsLast(rs + [r], fp, later);
    ShortenChain(rs + [r], fp, key, later);
    CancelAtEnd(rs, r);
    hide Live, GenesisKey, LatestPending, ChainHolds, Replay, Spaced, Cancelled, LastLive;
    assert (Live(rs, fp) + [r])[..|Live(rs, fp)|] == Live(rs, fp);
  }

  lemma CurrentKey(e: Ed25519, db: Db, user: nat, req: RotateRequest, now: int)
    requires RotateStatus(e, db, user, req, now) == Okay
    ensures user in db.users && db.users[user].publicKey == req.prevKey
  {
  }

  // ---- what get_rotation_chain shows ----

  /** WHERE fingerprint = fp ORDER BY created_at ASC, ties in any order. */
  ghost predicate IsListing(out: seq<Record>, rs: seq<Record>, fp: Fingerprint) {
    && (forall r :: multiset(out)[r] == if r.fingerprint == fp then multiset(rs)[r] else 0)
    && ByTime(out)
  }

  lemma {:induction false} LiveCount(rs: seq<Record>, fp: Fingerprint, r: Record)
    ensures multiset(Live(rs, fp))[r] == if IsLive(r, fp) then multiset(rs)[r] else 0
  {
    if rs == [] {
    } else {
      LiveCount(rs[..|rs| - 1], fp, r);
      assert rs == rs[..|rs| - 1] + [rs[|rs| - 1]];
    }
  }

  lemma {:induction false} LiveIsOrdered(rs: seq<Record>, fp: Fingerprint)
    requires ByTime(rs)
    ensures ByTime(Live(rs, fp))
  {
    if rs == [] {
    } else {
      var n := |rs| - 1;
      var before := Live(rs[..n], fp);
      LiveIsOrdered(rs[..n], fp);
      forall i | 0 <= i < |before| ensures before[i].created <= rs[n].created {
        var k :| 0 <= k < n && rs[..n][k] == before[i];
        assert rs[k] == before[i];
      }
    }
  }

  ghost predicate ByTime(a: seq<Record>) {
    forall i, j :: 0 <= i < j < |a| ==> a[i].created <= a[j].created
  }

  ghost predicate StrictlyByTime(a: seq<Record>) {
    forall i, j :: 0 <= i < j < |a| ==> a[i].created < a[j].created
  }

  lemma LastAgree(a: seq<Record>, b: seq<Record>)
    requires multiset(a) == multiset(b) && b != [] && |a| == |b| && ByTime(a) && StrictlyByTime(b)
    ensures a[|a| - 1] == b[|b| - 1]
    ensures ByTime(a[..|a| - 1]) && StrictlyByTime(b[..|b| - 1])
  {
    var n := |b| - 1;
    assert a[n] in multiset(a) && b[n] in multiset(b);
    var k :| 0 <= k < |a| && a[k] == b[n];
    var m :| 0 <= m < |b| && b[m] == a[n];
    assert a[k].created <= a[n].created || k == n;
  }

  lemma SameLength<T>(a: seq<T>, b: seq<T>)
    requires multiset(a) == multiset(b)
    ensures |a| == |b|
  {
    assert |multiset(a)| == |a| && |multiset(b)| == |b|;
  }

  lemma WithoutLast<T>(a: seq<T>)
    requires a != []
    ensures a == a[..|a| - 1] + [a[|a| - 1]]
    ensures multiset(a[..|a| - 1]) == multiset(a) - multiset{a[|a| - 1]}
  {
    assert a == a[..|a| - 1] + [a[|a| - 1]];
    assert multiset(a) == multiset(a[..|a| - 1]) + multiset{a[|a| - 1]};
  }

  /** Rows with distinct times can be sorted in one way only. */
  lemma {:induction false} OneWayToOrder(a: seq<Record>, b: seq<Record>)
    requires multiset(a) == multiset(b) && ByTime(a) && StrictlyByTime(b)
    ensures a == b
  {
    hide *;
    SameLength(a, b);
    if b == [] {
    } else {
      LastAgree(a, b);
      WithoutLast(a);
      WithoutLast(b);
      OneWayToOrder(a[..|a| - 1], b[..|b| - 1]);
    }
  }

  /** The genesis key is the recorded one, wherever the row stands. */
  lemma {:induction false} GenesisKeyIsRecorded(rs: seq<Record>, fp: Fingerprint)
    ensures GenesisKey(rs, fp).Some? ==>
      exists r :: r in rs && r.Genesis? && r.fingerprint == fp && r.newKey == GenesisKey(rs, fp).value
    ensures GenesisKey(rs, fp).None? ==> forall r :: r in rs ==> !(r.Genesis? && r.fingerprint == fp)
  {
    if rs == [] {
    } else {
      var last := rs[|rs| - 1];
      assert rs == rs[..|rs| - 1] + [last];
      if !(last.Genesis? && last.fingerprint == fp) {
        GenesisKeyIsRecorded(rs[..|rs| - 1], fp);
      }
    }
  }

  lemma SameRows(out: seq<Record>, rs: seq<Record>, fp: Fingerprint)
    requires IsListing(out, rs, fp)
    ensures forall r :: r in out <==> r in rs && r.fingerprint == fp
  {
    forall r ensures r in out <==> r in rs && r.fingerprint == fp {
      assert r in out <==> multiset(out)[r] > 0;
      assert r in rs <==> multiset(rs)[r] > 0;
    }
  }

  lemma SameGenesis(out: seq<Record>, rs: seq<Record>, fp: Fingerprint)
    requires OneGenesis(rs) && forall r :: r in out <==> r in rs && r.fingerprint == fp
    ensures GenesisKey(out, fp) == GenesisKey(rs, fp)
  {
    GenesisKeyIsRecorded(out, fp);
    GenesisKeyIsRecorded(rs, fp);
  }

  lemma SameLive(out: seq<Record>, rs: seq<Record>, fp: Fingerprint)
    requires IsListing(out, rs, fp) && Spaced(Live(rs, fp))
    ensures Live(out, fp) == Live(rs, fp)
  {
    forall r ensures multiset(Live(out, fp))[r] == multiset(Live(rs, fp))[r] {
      LiveCount(out, fp, r);
      LiveCount(rs, fp, r);
    }
    LiveIsOrdered(out, fp);
    hide Live;
    OneWayToOrder(Live(out, fp), Live(rs, fp));
  }

  /** Following a chain to a key means that every link starts where the one before it ended. */
  lemma {:induction false} ReplayIs(key: Bytes, links: seq<Record>)
    requires (forall k :: 0 <= k < |links| ==> links[k].Rotation?) && Replay(key, links).Some?
    ensures links == [] ==> Replay(key, links) == Some(key)
    ensures links != [] ==> links[0].prevKey == key && Replay(key, links) == Some(links[|links| - 1].newKey)
    ensures forall k :: 0 < k < |links| ==> links[k].prevKey == links[k - 1].newKey
  {
    if links == [] {
    } else {
      var n := |links| - 1;
      var before := links[..n];
      assert forall k :: 0 <= k < n ==> before[k] == links[k];
      ReplayIs(key, before);
      assert forall k :: 0 < k < n ==> before[k].prevKey == before[k - 1].newKey;
    }
  }

  lemma ListingLeadsToKey(e: Ed25519, db: Db, user: nat, out: seq<Record>)
    requires Consistent(e, db) && user in db.users && IsListing(out, db.records, db.users[user].fingerprint)
    ensures
      var fp, key := db.users[user].fingerprint, db.users[user].publicKey;
      var links := Live(out, fp);
      && (exists r :: r in out && r.Genesis? && GenesisKey(out, fp) == Some(r.newKey))
      && Replay(GenesisKey(out, fp).value, links) == Some(key)
      && (links == [] ==> key == GenesisKey(out, fp).value)
      && (links != [] ==> links[0].prevKey == GenesisKey(out, fp).value && links[|links| - 1].newKey == key)
      && (forall k :: 0 < k < |links| ==> links[k].prevKey == links[k - 1].newKey)
      && (forall r :: r in links <==> r in out && r.Rotation? && !r.cancelled)
    ensures forall r :: r in out && r.Rotation? ==>
      var payload := RotationPayload(r.prevKey, r.newKey, r.reason);
      && e.verifies(r.prevKey, payload, r.signatureOld) && e.verifies(r.newKey, payload, r.signatureNew)
      && e.validKey(r.prevKey) && e.validKey(r.newKey) && |r.signatureOld| == 64 && |r.signatureNew| == 64
  {
    GenesisKeyIsRecorded(out, db.users[user].fingerprint);
    var fp := db.users[user].fingerprint;
    assert ChainHolds(db.records, fp, db.users[user].publicKey);
    hide Live, GenesisKey, OneGenesis, RotationPayload;
    SameRows(out, db.records, fp);
    SameGenesis(out, db.records, fp);
    SameLive(out, db.records, fp);
    ReplayIs(GenesisKey(out, fp).value, Live(out, fp));
    LiveRows(out, fp);
  }

  /** Whoever reads an identity's listing, drops the cancelled rows and follows the rest from the genesis key arrives at
      the user's current key, over links signed by both keys; sorting by time cannot lead anywhere else. */
  lemma ListingProvesTheKey(e: Ed25519, db: Db, user: nat, out: seq<Record>)
    requires Consistent(e, db) && user in db.users
    requires forall r ::
      multiset(out)[r] == if r.fingerprint == db.users[user].fingerprint then multiset(db.records)[r] else 0
    requires forall i, j :: 0 <= i < j < |out| ==> out[i].created <= out[j].created
    ensures
      var fp, key := db.users[user].fingerprint, db.users[user].publicKey;
      var links := Live(out, fp);
      && (exists r :: r in out && r.Genesis? && GenesisKey(out, fp) == Some(r.newKey))
      && Replay(GenesisKey(out, fp).value, links) == Some(key)
      && (links == [] ==> key == GenesisKey(out, fp).value)
      && (links != [] ==> links[0].prevKey == GenesisKey(out, fp).value && links[|links| - 1].newKey == key)
      && (forall k :: 0 < k < |links| ==> links[k].prevKey == links[k - 1].newKey)
      && (forall r :: r in links <==> r in out && r.Rotation? && !r.cancelled)
    ensures forall r :: r in out && r.Rotation? ==>
      var payload := RotationPayload(r.prevKey, r.newKey, r.reason);
      && e.verifies(r.prevKey, payload, r.signatureOld) && e.verifies(r.newKey, payload, r.signatureNew)
      && e.validKey(r.prevKey) && e.validKey(r.newKey) && |r.signatureOld| == 64 && |r.signatureNew| == 64
  {
    hide *;
    ListingIs(out, db.records, db.users[user].fingerprint);
    ListingLeadsToKey(e, db, user, out);
  }

  lemma ListingIs(out: seq<Record>, rs: seq<Record>, fp: Fingerprint)
    requires forall r :: multiset(out)[r] == if r.fingerprint == fp then multiset(rs)[r] else 0
    requires forall i, j :: 0 <= i < j < |out| ==> out[i].created <= out[j].created
    ensures IsListing(out, rs, fp)
  {
  }

  lemma LiveRows(out: seq<Record>, fp: Fingerprint)
    requires forall r :: r in out ==> r.fingerprint == fp
    ensures forall r :: r in Live(out, fp) <==> r in out && r.Rotation? && !r.cancelled
  {
    forall r ensures r in Live(out, fp) <==> r in out && r.Rotation? && !r.cancelled {
      LiveCount(out, fp, r);
      assert r in Live(out, fp) <==> multiset(Live(out, fp))[r] > 0;
      assert r in out <==> multiset(out)[r] > 0;
    }
  }
}
