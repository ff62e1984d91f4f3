/** client/src/main/ipc/provisioning.ts: transferring an identity between two devices over a TCP stream that may be
    cut into chunks anywhere. */
module Provisioning {
  import opened Wrappers

  const IV_SIZE := 12
  const AUTH_TAG_SIZE := 16
  const X25519_PUB_SIZE := 32
  const HMAC_SIZE := 32
  const LENGTH_PREFIX_SIZE := 4

  /** X25519, HKDF, AES-256-GCM, HMAC-SHA256 and JSON.parse, as far as the protocol depends on them. */
  datatype Suite = Suite(
    publicKey: Bytes -> Bytes,
    diffieHellman: (Bytes, Bytes) -> Bytes,
    hkdf: Bytes -> Bytes,
    gcm: (Bytes, Bytes, Bytes) -> (Bytes, Bytes),
    gcmOpen: (Bytes, Bytes, Bytes, Bytes) -> Option<Bytes>,
    hmac: (Bytes, Bytes) -> Bytes,
    parses: Bytes -> bool)

  /** deriveEncryptionKey of the shared secret */
  function SessionKey(s: Suite, priv: Bytes, pub: Bytes): Bytes { s.hkdf(s.diffieHellman(priv, pub)) }

  /** iv || tag || ciphertext */
  function AesGcmEncrypt(s: Suite, key: Bytes, iv: Bytes, plain: Bytes): Bytes {
    var (ciphertext, tag) := s.gcm(key, iv, plain);
    iv + tag + ciphertext
  }

  function AesGcmDecrypt(s: Suite, key: Bytes, data: Bytes): Option<Bytes> {
    if |data| < IV_SIZE + AUTH_TAG_SIZE then None
    else s.gcmOpen(key, data[..IV_SIZE], data[IV_SIZE..IV_SIZE + AUTH_TAG_SIZE], data[IV_SIZE + AUTH_TAG_SIZE..])
  }

  ghost predicate Lawful(s: Suite) {
    && (forall a :: |s.publicKey(a)| == X25519_PUB_SIZE)
    && (forall a, b :: s.diffieHellman(a, s.publicKey(b)) == s.diffieHellman(b, s.publicKey(a)))
    && (forall k, iv, d :: |s.gcm(k, iv, d).1| == AUTH_TAG_SIZE)
    && (forall k, iv, d :: s.gcmOpen(k, iv, s.gcm(k, iv, d).1, s.gcm(k, iv, d).0) == Some(d))
    && (forall k, d :: |s.hmac(k, d)| == HMAC_SIZE)
  }

  lemma GcmRoundTrip(s: Suite, key: Bytes, iv: Bytes, plain: Bytes)
    requires Lawful(s) && |iv| == IV_SIZE
    ensures AesGcmDecrypt(s, key, AesGcmEncrypt(s, key, iv, plain)) == Some(plain)
  {
    var (c, tag) := s.gcm(key, iv, plain);
    var e := AesGcmEncrypt(s, key, iv, plain);
    assert |s.gcm(key, iv, plain).1| == AUTH_TAG_SIZE;
    assert e[..IV_SIZE] == iv && e[IV_SIZE..IV_SIZE + AUTH_TAG_SIZE] == tag && e[IV_SIZE + AUTH_TAG_SIZE..] == c;
  }

  // ---- framing ----

  /** writeUInt32BE */
  function UInt32BE(n: nat): (r: Bytes)
    requires n < 0x1_0000_0000
    ensures |r| == LENGTH_PREFIX_SIZE
  {
    [n / 256 / 256 / 256, n / 256 / 256 % 256, n / 256 % 256, n % 256]
  }

  /** readUInt32BE(0) */
  function ReadUInt32BE(b: Bytes): nat
    requires |b| >= LENGTH_PREFIX_SIZE
  {
    var b0: int, b1: int, b2: int, b3: int := b[0], b[1], b[2], b[3];
    ((b0 * 256 + b1) * 256 + b2) * 256 + b3
  }

  lemma UInt32RoundTrip(n: nat, rest: Bytes)
    requires n < 0x1_0000_0000
    ensures ReadUInt32BE(UInt32BE(n) + rest) == n
  {
    var b := UInt32BE(n) + rest;
    assert b[0] == n / 256 / 256 / 256 && b[1] == n / 256 / 256 % 256 && b[2] == n / 256 % 256 && b[3] == n % 256;
  }

  predicate Framable(s: Suite, key: Bytes, iv: Bytes, payload: Bytes) {
    |AesGcmEncrypt(s, key, iv, payload)| < 0x1_0000_0000
  }

  function Frame(s: Suite, key: Bytes, iv: Bytes, payload: Bytes): Bytes
    requires Framable(s, key, iv, payload)
  {
    var encrypted := AesGcmEncrypt(s, key, iv, payload);
    UInt32BE(|encrypted|) + encrypted
  }

  // ---- what each side has to do with a stream, however it arrives ----

  /** The sender's reply to the stream bytes it has received: the frame, under the private key held when the
      receiver's key was complete; nothing if there was none by then. */
  ghost function SenderOutput(s: Suite, held: Option<Bytes>, iv: Bytes, payload: Bytes, stream: Bytes): Bytes
    requires forall key :: Framable(s, key, iv, payload)
  {
    if |stream| >= X25519_PUB_SIZE && held.Some?
    then Frame(s, SessionKey(s, held.value, stream[..X25519_PUB_SIZE]), iv, payload)
    else []
  }

  /** The sender's decision on the confirmation, once all of it has arrived. */
  ghost function SenderVerdict(s: Suite, held: Option<Bytes>, payload: Bytes, stream: Bytes): Option<bool> {
    if |stream| < X25519_PUB_SIZE + HMAC_SIZE || held.None? then None
    else
      var key := SessionKey(s, held.value, stream[..X25519_PUB_SIZE]);
      Some(stream[X25519_PUB_SIZE..X25519_PUB_SIZE + HMAC_SIZE] == s.hmac(key, payload))
  }

  datatype Outcome = Received(payload: Bytes) | Rejected

  ghost function ReceiverOutcome(s: Suite, key: Bytes, stream: Bytes): Option<Outcome> {
    if |stream| < LENGTH_PREFIX_SIZE then None
    else
      var length := ReadUInt32BE(stream);
      if |stream| < LENGTH_PREFIX_SIZE + length then None
      else
        match AesGcmDecrypt(s, key, stream[LENGTH_PREFIX_SIZE..LENGTH_PREFIX_SIZE + length])
        case Some(d) => Some(if s.parses(d) then Received(d) else Rejected)
        case None => Some(Rejected)
  }

  ghost function ReceiverOutput(s: Suite, key: Bytes, stream: Bytes): Bytes {
    match ReceiverOutcome(s, key, stream)
    case Some(Received(d)) => s.hmac(key, d)
    case _ => []
  }

  /** What more bytes can do: the key in them is answered once, the confirmation decided once. */
  lemma SenderStep(s: Suite, held: Option<Bytes>, iv: Bytes, payload: Bytes, stream: Bytes, data: Bytes)
    requires forall key :: Framable(s, key, iv, payload)
    ensures |stream| >= X25519_PUB_SIZE ==>
      && (stream + data)[..X25519_PUB_SIZE] == stream[..X25519_PUB_SIZE]
      && SenderOutput(s, held, iv, payload, stream + data) == SenderOutput(s, held, iv, payload, stream)
    ensures |stream| < X25519_PUB_SIZE ==> SenderOutput(s, held, iv, payload, stream) == []
    ensures |stream| < X25519_PUB_SIZE && (held.None? || |stream + data| < X25519_PUB_SIZE) ==>
      SenderOutput(s, held, iv, payload, stream + data) == []
    ensures |stream| < X25519_PUB_SIZE && |stream + data| >= X25519_PUB_SIZE && held.Some? ==>
      SenderOutput(s, held, iv, payload, stream + data)
        == Frame(s, SessionKey(s, held.value, (stream + data)[..X25519_PUB_SIZE]), iv, payload)
    ensures SenderVerdict(s, held, payload, stream).Some? ==>
      SenderVerdict(s, held, payload, stream + data) == SenderVerdict(s, held, payload, stream)
    ensures SenderVerdict(s, held, payload, stream + data) ==
      if |stream + data| < X25519_PUB_SIZE + HMAC_SIZE || held.None? then None
      else
        var key := SessionKey(s, held.value, (stream + data)[..X25519_PUB_SIZE]);
        Some((stream + data)[X25519_PUB_SIZE..X25519_PUB_SIZE + HMAC_SIZE] == s.hmac(key, payload))
  {
    hide Framable, Frame, SessionKey;
    var all := stream + data;
    if |stream| >= X25519_PUB_SIZE {
      assert all[..X25519_PUB_SIZE] == stream[..X25519_PUB_SIZE];
    }
    if |stream| >= X25519_PUB_SIZE + HMAC_SIZE {
      assert all[X25519_PUB_SIZE..X25519_PUB_SIZE + HMAC_SIZE] == stream[X25519_PUB_SIZE..X25519_PUB_SIZE + HMAC_SIZE];
    }
  }

  /** What the sender writes and decides, in terms of the primitives: under the key derived from its private key and the
      first 32 bytes received, one frame of the length in four bytes, nonce, tag and ciphertext, and its opinion on the
      32 bytes that follow. */
  lemma SenderWrites(s: Suite, held: Option<Bytes>, iv: Bytes, payload: Bytes, stream: Bytes)
    requires forall key :: Framable(s, key, iv, payload)
    ensures |stream| < 32 || held.None? ==> SenderOutput(s, held, iv, payload, stream) == []
    ensures |stream| >= 32 && held.Some? ==>
      var key := s.hkdf(s.diffieHellman(held.value, stream[..32]));
      var e := iv + s.gcm(key, iv, payload).1 + s.gcm(key, iv, payload).0;
      var out := SenderOutput(s, held, iv, payload, stream);
      && |out| == 4 + |e| && out[4..] == e
      && out[0] as int * 0x100_0000 + out[1] as int * 0x1_0000 + out[2] as int * 0x100 + out[3] as int == |e|
    ensures |stream| < 64 || held.None? ==> SenderVerdict(s, held, payload, stream) == None
    ensures |stream| >= 64 && held.Some? ==>
      var key := s.hkdf(s.diffieHellman(held.value, stream[..32]));
      SenderVerdict(s, held, payload, stream) == Some(stream[32..64] == s.hmac(key, payload))
  {
    if |stream| >= 32 && held.Some? {
      var key := s.hkdf(s.diffieHellman(held.value, stream[..32]));
      var e := AesGcmEncrypt(s, key, iv, payload);
      assert Framable(s, key, iv, payload);
      UInt32RoundTrip(|e|, []);
      assert UInt32BE(|e|) + [] == UInt32BE(|e|);
    }
  }

  /** The same for the receiver and its key. */
  lemma ReceiverDecides(s: Suite, key: Bytes, stream: Bytes)
    ensures var outcome, out := ReceiverOutcome(s, key, stream), ReceiverOutput(s, key, stream);
      var n := if |stream| < 4 then 0
               else stream[0] as int * 0x100_0000 + stream[1] as int * 0x1_0000
                    + stream[2] as int * 0x100 + stream[3] as int;
      && (outcome.None? <==> |stream| < 4 + n)
      && (outcome.Some? ==>
            var data := stream[4..4 + n];
            var plain := if n < 28 then None else s.gcmOpen(key, data[..12], data[12..28], data[28..]);
            var d := if plain.Some? && s.parses(plain.value) then plain else None;
            && outcome == Some(if d.Some? then Received(d.value) else Rejected)
            && out == if d.Some? then s.hmac(key, d.value) else [])
      && (outcome.None? ==> out == [])
  {
  }

  // ---- the sender's socket handler ----

  class SenderSession {
    const suite: Suite
    const iv: Bytes
    const payload: Bytes
    /** The module variable with the ephemeral private key. It is not the session's own: it goes with any cleanup, and
        another start replaces it. */
    var activeKey: Option<Bytes>
    var buffer: Bytes
    var sentPayload: bool
    var encryptionKey: Option<Bytes>
    var destroyed: bool
    /** What has been written to the socket, and each decision on a confirmation (end or destroy). */
    var written: Bytes
    var verdicts: seq<bool>
    ghost var stream: Bytes
    /** activeKey as it was when the receiver's key was complete, or as it is until then. */
    ghost var held: Option<Bytes>

    ghost predicate Valid()
      reads this
    {
      Lawful(suite) && (forall key :: Framable(suite, key, iv, payload)) && Answered() && Decided()
    }

    /** The receiver's key, once it is all there, has been taken and answered. */
    ghost predicate Answered()
      reads this
      requires forall key :: Framable(suite, key, iv, payload)
    {
      && (sentPayload <==> |stream| >= X25519_PUB_SIZE)
      && (!sentPayload ==> buffer == stream && encryptionKey.None? && held == activeKey && !destroyed)
      && (sentPayload ==> buffer == stream[X25519_PUB_SIZE..])
      && (sentPayload && held.None? ==> encryptionKey.None? && destroyed)
      && (sentPayload && held.Some? ==> encryptionKey == Some(SessionKey(suite, held.value, stream[..X25519_PUB_SIZE])))
      && written == SenderOutput(suite, held, iv, payload, stream)
    }

    /** The confirmation, once it is all there, has been decided on. */
    ghost predicate Decided()
      reads this
    {
      && (verdicts == [] <==> SenderVerdict(suite, held, payload, stream).None?)
      && (forall v :: v in verdicts ==> SenderVerdict(suite, held, payload, stream) == Some(v))
    }

    constructor (suite: Suite, priv: Bytes, iv: Bytes, payload: Bytes)
      requires Lawful(suite) && forall key :: Framable(suite, key, iv, payload)
      ensures Valid() && stream == [] && held == Some(priv) && !destroyed
      ensures this.suite == suite && this.iv == iv && this.payload == payload
    {
      this.suite, this.iv, this.payload := suite, iv, payload;
      activeKey, buffer, sentPayload, encryptionKey, destroyed := Some(priv), [], false, None, false;
      written, verdicts, stream, held := [], [], [], Some(priv);
    }

    /** cancelProvisioning or the five-minute timer (None), or another startProvisioning while this socket is open. */
    method ReplaceKey(key: Option<Bytes>)
      requires Valid()
      modifies this
      ensures Valid() && stream == old(stream) && destroyed == old(destroyed)
      ensures held == if |stream| < X25519_PUB_SIZE then key else old(held)
    {
      hide Lawful, Framable, Frame, SessionKey;
      activeKey := key;
      if !sentPayload {
        held := key;
      }
    }

    /** Step 2 and 3: take the key off the buffer, and answer it unless the session was cleaned up. */
    method ReadKey()
      requires forall key :: Framable(suite, key, iv, payload)
      requires !sentPayload && buffer == stream && |buffer| >= X25519_PUB_SIZE && written == [] && !destroyed
      requires encryptionKey.None? && held == activeKey
      modifies this
      ensures Answered() && stream == old(stream) && held == old(held) && verdicts == old(verdicts)
      ensures sentPayload && destroyed == held.None?
    {
      hide Framable, Frame, AesGcmEncrypt, SessionKey;
      sentPayload := true;
      var receiverPub := buffer[..X25519_PUB_SIZE];
      buffer := buffer[X25519_PUB_SIZE..];
      if activeKey.None? {
        destroyed := true;
        return;
      }
      encryptionKey := Some(SessionKey(suite, activeKey.value, receiverPub));
      written := written + Frame(suite, encryptionKey.value, iv, payload);
    }

    method TakeIn(data: Bytes)
      requires (forall key :: Framable(suite, key, iv, payload)) && Answered() && !destroyed
      modifies this
      ensures Answered() && stream == old(stream) + data && held == old(held) && verdicts == old(verdicts)
      ensures destroyed ==> held.None?
    {
      SenderStep(suite, held, iv, payload, stream, data);
      hide Framable, Frame, AesGcmEncrypt, SessionKey, SenderOutput, SenderVerdict;
      buffer := buffer + data;
      stream := stream + data;
      if !sentPayload && |buffer| >= X25519_PUB_SIZE {
        ReadKey();
      }
    }

    /** Step 6: read and check the confirmation. */
    method CheckConfirmation()
      requires (forall key :: Framable(suite, key, iv, payload)) && Answered() && !destroyed
      requires SenderVerdict(suite, held, payload, stream).None? ==> verdicts == []
      requires forall v :: v in verdicts ==> SenderVerdict(suite, held, payload, stream) == Some(v)
      modifies this
      ensures Answered() && Decided() && stream == old(stream) && held == old(held)
    {
      SenderStep(suite, held, iv, payload, stream, []);
      assert stream + [] == stream;
      hide Framable, SessionKey, SenderOutput, SenderVerdict;
      if sentPayload && encryptionKey.Some? && |buffer| >= HMAC_SIZE {
        assert buffer[..HMAC_SIZE] == stream[X25519_PUB_SIZE..X25519_PUB_SIZE + HMAC_SIZE];
        var accepted := buffer[..HMAC_SIZE] == suite.hmac(encryptionKey.value, payload);
        verdicts := verdicts + [accepted];
        destroyed := !accepted;
        activeKey := None;
      }
    }

    method OnData(data: Bytes)
      requires Valid() && !destroyed
      modifies this
      ensures Valid() && stream == old(stream) + data && held == old(held)
      ensures |stream| < 32 || held.None? ==> written == []
      ensures |stream| >= 32 && held.Some? ==>
        var key := suite.hkdf(suite.diffieHellman(held.value, stream[..32]));
        var e := iv + suite.gcm(key, iv, payload).1 + suite.gcm(key, iv, payload).0;
        && |written| == 4 + |e| && written[4..] == e
        && written[0] as int * 0x100_0000 + written[1] as int * 0x1_0000
           + written[2] as int * 0x100 + written[3] as int == |e|
      ensures |stream| < 64 || held.None? ==> verdicts == []
      ensures |stream| >= 64 && held.Some? ==>
        var key := suite.hkdf(suite.diffieHellman(held.value, stream[..32]));
        verdicts != [] && forall v :: v in verdicts ==> v == (stream[32..64] == suite.hmac(key, payload))
    {
      SenderStep(suite, held, iv, payload, stream, data);
      hide Lawful, Framable, SessionKey, SenderOutput, SenderVerdict, Answered;
      TakeIn(data);
      if !destroyed {
        CheckConfirmation();
      }
      SenderMeans(this);
    }
  }

  lemma SenderMeans(session: SenderSession)
    requires session.Valid()
    ensures var s, stream, held := session.suite, session.stream, session.held;
      && (|stream| < 32 || held.None? ==> session.written == [])
      && (|stream| >= 32 && held.Some? ==>
            var key := s.hkdf(s.diffieHellman(held.value, stream[..32]));
            var e := session.iv + s.gcm(key, session.iv, session.payload).1 + s.gcm(key, session.iv, session.payload).0;
            var out := session.written;
            && |out| == 4 + |e| && out[4..] == e
            && out[0] as int * 0x100_0000 + out[1] as int * 0x1_0000 + out[2] as int * 0x100 + out[3] as int == |e|)
      && (|stream| < 64 || held.None? ==> session.verdicts == [])
      && (|stream| >= 64 && held.Some? ==>
            var key := s.hkdf(s.diffieHellman(held.value, stream[..32]));
            && session.verdicts != []
            && forall v :: v in session.verdicts ==> v == (stream[32..64] == s.hmac(key, session.payload)))
  {
    hide Lawful, SenderOutput, SenderVerdict, Framable;
    SenderWrites(session.suite, session.held, session.iv, session.payload, session.stream);
  }

  // ---- the receiver's socket handler ----

  class ReceiverSession {
    const suite: Suite
    const encryptionKey: Bytes
    var buffer: Bytes
    var payloadLength: Option<nat>
    var resolved: bool
    var written: Bytes
    var outcome: Option<Outcome>
    ghost var stream: Bytes

    ghost predicate Valid()
      reads this
    {
      && Lawful(suite)
      && payloadLength == (if |stream| < LENGTH_PREFIX_SIZE then None else Some(ReadUInt32BE(stream)))
      && buffer == (if |stream| < LENGTH_PREFIX_SIZE then stream else stream[LENGTH_PREFIX_SIZE..])
      && resolved == outcome.Some?
      && outcome == ReceiverOutcome(suite, encryptionKey, stream)
      && written == ReceiverOutput(suite, encryptionKey, stream)
    }

    constructor (suite: Suite, priv: Bytes, senderPub: Bytes)
      requires Lawful(suite)
      ensures Valid() && stream == [] && this.suite == suite
      ensures encryptionKey == suite.hkdf(suite.diffieHellman(priv, senderPub))
    {
      this.suite, encryptionKey := suite, SessionKey(suite, priv, senderPub);
      buffer, payloadLength, resolved, written, outcome, stream := [], None, false, [], None, [];
    }

    method OnData(data: Bytes)
      requires Valid() && outcome != Some(Rejected)
      modifies this
      ensures Valid() && stream == old(stream) + data
      ensures
        var n := if |stream| < 4 then 0
                 else stream[0] as int * 0x100_0000 + stream[1] as int * 0x1_0000
                      + stream[2] as int * 0x100 + stream[3] as int;
        && (|stream| < 4 + n ==> outcome == None && written == [])
        && (|stream| >= 4 + n && |stream| >= 4 ==>
              var body := stream[4..4 + n];
              var plain := if n < 28 then None else suite.gcmOpen(encryptionKey, body[..12], body[12..28], body[28..]);
              var d := if plain.Some? && suite.parses(plain.value) then plain else None;
              && outcome == Some(if d.Some? then Received(d.value) else Rejected)
              && written == if d.Some? then suite.hmac(encryptionKey, d.value) else [])
    {
      hide *;
      Receive(data);
      ReceiverMeans(this);
    }

    /** The handler itself: the length once it is there, then the payload once it is. */
    method Receive(data: Bytes)
      requires Valid() && outcome != Some(Rejected)
      modifies this
      ensures Valid() && stream == old(stream) + data
    {
      hide Lawful, AesGcmDecrypt, ReadUInt32BE;
      LengthIsFinal(stream, data);
      OutcomeIsFinal(suite, encryptionKey, stream, data);
      buffer := buffer + data;
      stream := stream + data;
      if payloadLength.None? && |buffer| >= LENGTH_PREFIX_SIZE {
        payloadLength := Some(ReadUInt32BE(buffer));
        buffer := buffer[LENGTH_PREFIX_SIZE..];
      }
      if payloadLength.Some? && |buffer| >= payloadLength.value && !resolved {
        resolved := true;
        assert buffer[..payloadLength.value] == stream[LENGTH_PREFIX_SIZE..LENGTH_PREFIX_SIZE + payloadLength.value];
        var decrypted := AesGcmDecrypt(suite, encryptionKey, buffer[..payloadLength.value]);
        if decrypted.Some? && suite.parses(decrypted.value) {
          written := written + suite.hmac(encryptionKey, decrypted.value);
          outcome := Some(Received(decrypted.value));
        } else {
          outcome := Some(Rejected);
        }
      }
    }
  }

  lemma ReceiverMeans(session: ReceiverSession)
    requires session.Valid()
    ensures var s, key, stream := session.suite, session.encryptionKey, session.stream;
      var n := if |stream| < 4 then 0
               else stream[0] as int * 0x100_0000 + stream[1] as int * 0x1_0000
                    + stream[2] as int * 0x100 + stream[3] as int;
      && (|stream| < 4 + n ==> session.outcome == None && session.written == [])
      && (|stream| >= 4 + n && |stream| >= 4 ==>
            var body := stream[4..4 + n];
            var plain := if n < 28 then None else s.gcmOpen(key, body[..12], body[12..28], body[28..]);
            var d := if plain.Some? && s.parses(plain.value) then plain else None;
            && session.outcome == Some(if d.Some? then Received(d.value) else Rejected)
            && session.written == if d.Some? then s.hmac(key, d.value) else [])
  {
    hide Lawful, ReceiverOutcome, ReceiverOutput;
    ReceiverDecides(session.suite, session.encryptionKey, session.stream);
  }

  /** Later bytes never change a decision. */
  lemma OutcomeIsFinal(s: Suite, key: Bytes, stream: Bytes, more: Bytes)
    ensures ReceiverOutcome(s, key, stream).Some? ==>
      ReceiverOutcome(s, key, stream + more) == ReceiverOutcome(s, key, stream)
  {
    if ReceiverOutcome(s, key, stream).Some? {
      var n := LENGTH_PREFIX_SIZE + ReadUInt32BE(stream);
      assert (stream + more)[LENGTH_PREFIX_SIZE..n] == stream[LENGTH_PREFIX_SIZE..n];
    }
  }

  lemma LengthIsFinal(stream: Bytes, more: Bytes)
    ensures |stream| >= LENGTH_PREFIX_SIZE ==> ReadUInt32BE(stream + more) == ReadUInt32BE(stream)
  {
  }

  // ---- chunking does not matter, on any stream ----

  function Joined(chunks: seq<Bytes>): Bytes {
    if chunks == [] then [] else chunks[0] + Joined(chunks[1..])
  }

  lemma {:induction false} JoinedSplit(chunks: seq<Bytes>, i: nat)
    requires i <= |chunks|
    ensures Joined(chunks) == Joined(chunks[..i]) + Joined(chunks[i..])
  {
    if i == 0 {
      assert chunks[i..] == chunks;
    } else {
      JoinedSplit(chunks[1..], i - 1);
      assert chunks[..i][1..] == chunks[1..][..i - 1];
      assert chunks[1..][i - 1..] == chunks[i..];
    }
  }

  lemma JoinedNext(chunks: seq<Bytes>, i: nat)
    requires i < |chunks|
    ensures Joined(chunks[..i + 1]) == Joined(chunks[..i]) + chunks[i]
  {
    JoinedSplit(chunks[..i + 1], i);
    assert chunks[..i + 1][..i] == chunks[..i] && chunks[..i + 1][i..] == [chunks[i]];
    var one: seq<Bytes> := [chunks[i]];
    assert one[1..] == [] && Joined(one) == chunks[i];
  }

  /** Fed in chunks until it gives up, the receiver decides and replies as if the whole stream had come at once. */
  method FeedReceiver(r: ReceiverSession, chunks: seq<Bytes>)
    requires r.Valid() && r.stream == []
    modifies r
    ensures r.Valid()
    ensures r.outcome == ReceiverOutcome(r.suite, r.encryptionKey, Joined(chunks))
    ensures r.written == ReceiverOutput(r.suite, r.encryptionKey, Joined(chunks))
  {
    hide *;
    var i := 0;
    SessionMeaning(r);
    assert chunks[..0] == [];
    EmptyJoin();
    while i < |chunks| && r.outcome != Some(Rejected)
      invariant 0 <= i <= |chunks| && r.Valid() && r.stream == Joined(chunks[..i])
    {
      JoinedNext(chunks, i);
      r.OnData(chunks[i]);
      i := i + 1;
    }
    SessionMeaning(r);
    JoinedSplit(chunks, i);
    assert i == |chunks| ==> chunks[i..] == [];
    assert r.stream + [] == r.stream;
    OutcomeIsFinal(r.suite, r.encryptionKey, r.stream, Joined(chunks[i..]));
    SameOutput(r.suite, r.encryptionKey, r.stream, Joined(chunks));
  }

  lemma EmptyJoin()
    ensures Joined([]) == []
  {
  }

  lemma SessionMeaning(r: ReceiverSession)
    requires r.Valid()
    ensures r.outcome == ReceiverOutcome(r.suite, r.encryptionKey, r.stream)
    ensures r.written == ReceiverOutput(r.suite, r.encryptionKey, r.stream)
  {
  }

  lemma SameOutput(s: Suite, key: Bytes, a: Bytes, b: Bytes)
    requires ReceiverOutcome(s, key, a) == ReceiverOutcome(s, key, b)
    ensures ReceiverOutput(s, key, a) == ReceiverOutput(s, key, b)
  {
  }

  // ---- the two endpoints together ----

  /** The key in the code the receiver has scanned, the receiver's own, the sender's nonce and payload. */
  datatype Transfer = Transfer(suite: Suite, a: Bytes, b: Bytes, iv: Bytes, payload: Bytes)

  ghost predicate Honest(t: Transfer) {
    && Lawful(t.suite) && |t.iv| == IV_SIZE && t.suite.parses(t.payload)
    && (forall key :: Framable(t.suite, key, t.iv, t.payload))
    && Authenticated(t)
  }

  /** The cipher is authenticated: what was sealed under another key does not open. */
  ghost predicate Authenticated(t: Transfer) {
    forall key :: key != TheKey(t) ==>
      AesGcmDecrypt(t.suite, TheKey(t), AesGcmEncrypt(t.suite, key, t.iv, t.payload)).None?
  }

  /** What each side has received so far, and the private key that the sender's module holds, or held when the
      receiver's key was complete. */
  datatype Link = Link(toSender: Bytes, toReceiver: Bytes, held: Option<Bytes>)

  /** Everything the receiver has put on the wire: its public key on connecting, then its reply. */
  ghost function FromReceiver(t: Transfer, l: Link): Bytes {
    t.suite.publicKey(t.b) + ReceiverOutput(t.suite, SessionKey(t.suite, t.b, t.suite.publicKey(t.a)), l.toReceiver)
  }

  ghost function FromSender(t: Transfer, l: Link): Bytes
    requires Honest(t)
  {
    SenderOutput(t.suite, l.held, t.iv, t.payload, l.toSender)
  }

  ghost function ReceiverDecision(t: Transfer, l: Link): Option<Outcome> {
    ReceiverOutcome(t.suite, SessionKey(t.suite, t.b, t.suite.publicKey(t.a)), l.toReceiver)
  }

  ghost function SenderDecision(t: Transfer, l: Link): Option<bool> {
    SenderVerdict(t.suite, l.held, t.payload, l.toSender)
  }

  /** The sender's module forgets its key or starts another session with a new one, before the receiver's key is
      there. */
  ghost predicate KeyStep(l: Link, m: Link) {
    |l.toSender| < X25519_PUB_SIZE && m == l.(held := m.held) && m != l
  }

  /** The next chunk of either stream arrives, of any non-zero length, or the sender's key changes. */
  ghost predicate Step(t: Transfer, l: Link, m: Link)
    requires Honest(t)
  {
    || (m.toReceiver == l.toReceiver && m.held == l.held && l.toSender < m.toSender <= FromReceiver(t, l))
    || (m.toSender == l.toSender && m.held == l.held && l.toReceiver < m.toReceiver <= FromSender(t, l))
    || KeyStep(l, m)
  }

  ghost predicate IsRun(t: Transfer, run: seq<Link>)
    requires Honest(t)
  {
    && |run| > 0 && run[0] == Link([], [], Some(t.a))
    && forall i :: 0 <= i < |run| - 1 ==> Step(t, run[i], run[i + 1])
  }

  ghost function TheKey(t: Transfer): Bytes {
    SessionKey(t.suite, t.a, t.suite.publicKey(t.b))
  }

  ghost function HeldKey(t: Transfer, l: Link): Bytes
    requires l.held.Some?
  {
    SessionKey(t.suite, l.held.value, t.suite.publicKey(t.b))
  }

  /** The sender answers, or will, with the key that the receiver has scanned. */
  ghost predicate RightKey(t: Transfer, l: Link) { l.held.Some? && HeldKey(t, l) == TheKey(t) }

  ghost function FrameUnder(t: Transfer, key: Bytes): Bytes
    requires Honest(t)
  {
    Frame(t.suite, key, t.iv, t.payload)
  }

  /** Both streams are prefixes of the ones the protocol prescribes, and neither side speaks out of turn. */
  ghost predicate OnScript(t: Transfer, l: Link)
    requires Honest(t)
  {
    && l.toSender <= t.suite.publicKey(t.b) + t.suite.hmac(TheKey(t), t.payload)
    && (|l.toReceiver| > 0 ==>
          |l.toSender| >= X25519_PUB_SIZE && l.held.Some? && l.toReceiver <= FrameUnder(t, HeldKey(t, l)))
    && (|l.toSender| > X25519_PUB_SIZE ==> RightKey(t, l) && l.toReceiver == FrameUnder(t, TheKey(t)))
  }

  lemma KeysAgree(t: Transfer)
    requires Honest(t)
    ensures SessionKey(t.suite, t.b, t.suite.publicKey(t.a)) == TheKey(t)
    ensures |t.suite.publicKey(t.b)| == X25519_PUB_SIZE && |t.suite.hmac(TheKey(t), t.payload)| == HMAC_SIZE
  {
  }

  /** The receiver, on a prefix of a frame, waits until it is complete, and then has the payload or gives up. */
  lemma ReceiverOnFrame(t: Transfer, key: Bytes, stream: Bytes)
    requires Honest(t) && stream <= FrameUnder(t, key)
    ensures ReceiverOutcome(t.suite, TheKey(t), stream) ==
      if stream != FrameUnder(t, key) then None
      else if key == TheKey(t) then Some(Received(t.payload))
      else Some(Rejected)
  {
    var e := AesGcmEncrypt(t.suite, key, t.iv, t.payload);
    var f := FrameUnder(t, key);
    assert Framable(t.suite, key, t.iv, t.payload);
    assert f == UInt32BE(|e|) + e;
    UInt32RoundTrip(|e|, e);
    GcmRoundTrip(t.suite, key, t.iv, t.payload);
    hide AesGcmEncrypt, AesGcmDecrypt, UInt32BE, ReadUInt32BE, SessionKey;
    if |stream| >= LENGTH_PREFIX_SIZE {
      assert stream + f[|stream|..] == f;
      LengthIsFinal(stream, f[|stream|..]);
      assert f[LENGTH_PREFIX_SIZE..] == e;
    }
  }

  lemma FrameIsLong(t: Transfer, key: Bytes)
    requires Honest(t)
    ensures |FrameUnder(t, key)| >= LENGTH_PREFIX_SIZE + IV_SIZE
  {
    assert Framable(t.suite, key, t.iv, t.payload);
  }

  /** What the receiver has decided and put on the wire, in any state that is on script. */
  lemma ReceiverOnScript(t: Transfer, l: Link)
    requires Honest(t) && OnScript(t, l)
    ensures var got := l.held.Some? && l.toReceiver == FrameUnder(t, HeldKey(t, l));
      && ReceiverDecision(t, l) ==
         (if !got then None else if RightKey(t, l) then Some(Received(t.payload)) else Some(Rejected))
      && FromReceiver(t, l) ==
         t.suite.publicKey(t.b) + if got && RightKey(t, l) then t.suite.hmac(TheKey(t), t.payload) else []
  {
    KeysAgree(t);
    if l.held.Some? {
      FrameIsLong(t, HeldKey(t, l));
      ReceiverOnFrame(t, HeldKey(t, l), l.toReceiver);
    } else {
      FrameIsLong(t, TheKey(t));
      ReceiverOnFrame(t, TheKey(t), l.toReceiver);
    }
  }

  /** The same for the sender. */
  lemma SenderOnScript(t: Transfer, l: Link)
    requires Honest(t) && OnScript(t, l)
    ensures FromSender(t, l) ==
      if |l.toSender| >= X25519_PUB_SIZE && l.held.Some? then FrameUnder(t, HeldKey(t, l)) else []
    ensures |l.toSender| <= X25519_PUB_SIZE + HMAC_SIZE
    ensures SenderDecision(t, l) == if |l.toSender| == X25519_PUB_SIZE + HMAC_SIZE then Some(true) else None
  {
    KeysAgree(t);
    hide Honest, SessionKey;
    var script := t.suite.publicKey(t.b) + t.suite.hmac(TheKey(t), t.payload);
    if |l.toSender| >= X25519_PUB_SIZE {
      assert l.toSender[..X25519_PUB_SIZE] == script[..X25519_PUB_SIZE] == t.suite.publicKey(t.b);
    }
    if |l.toSender| == X25519_PUB_SIZE + HMAC_SIZE {
      assert l.toSender == script;
      assert script[X25519_PUB_SIZE..X25519_PUB_SIZE + HMAC_SIZE] == t.suite.hmac(TheKey(t), t.payload);
    }
  }

  lemma StepStaysOnScript(t: Transfer, l: Link, m: Link)
    requires Honest(t) && OnScript(t, l) && Step(t, l, m)
    ensures OnScript(t, m)
  {
    KeysAgree(t);
    ReceiverOnScript(t, l);
    SenderOnScript(t, l);
    hide Honest, SessionKey, FrameUnder, FromSender, FromReceiver;
  }

  lemma StartOnScript(t: Transfer)
    requires Honest(t)
    ensures OnScript(t, Link([], [], Some(t.a)))
  {
  }

  lemma {:induction false} RunOnScript(t: Transfer, run: seq<Link>, i: nat)
    requires Honest(t) && IsRun(t, run) && i < |run|
    ensures OnScript(t, run[i])
  {
    if i == 0 {
      StartOnScript(t);
    } else {
      RunOnScript(t, run, i - 1);
      StepStaysOnScript(t, run[i - 1], run[i]);
    }
  }

  /** At every moment of every run the receiver has decided nothing, or has exactly the payload, or has given up
      because the sender answered under another key; the sender has decided nothing or has accepted, after the
      receiver; and it has sent at most one frame. */
  lemma TransferIsSafe(t: Transfer, run: seq<Link>, i: nat)
    requires Honest(t) && IsRun(t, run) && i < |run|
    ensures ReceiverDecision(t, run[i]) in {None, Some(Received(t.payload)), Some(Rejected)}
    ensures ReceiverDecision(t, run[i]) == Some(Received(t.payload)) ==> RightKey(t, run[i])
    ensures ReceiverDecision(t, run[i]) == Some(Rejected) ==> run[i].held.Some? && !RightKey(t, run[i])
    ensures SenderDecision(t, run[i]) in {None, Some(true)}
    ensures FromSender(t, run[i]) != [] ==>
      run[i].held.Some? && FromSender(t, run[i]) == FrameUnder(t, HeldKey(t, run[i]))
    ensures SenderDecision(t, run[i]) == Some(true) ==> ReceiverDecision(t, run[i]) == Some(Received(t.payload))
  {
    RunOnScript(t, run, i);
    ReceiverOnScript(t, run[i]);
    SenderOnScript(t, run[i]);
    hide Honest, SessionKey, FrameUnder;
    hide FromSender, FromReceiver, SenderDecision, ReceiverDecision, IsRun;
  }

  /** A run with nothing left to deliver has succeeded on both sides exactly when the key that the receiver scanned was
      still the module's when the receiver's key was complete: neither cleaned up nor replaced by another start. */
  lemma TransferCompletes(t: Transfer, run: seq<Link>)
    requires Honest(t) && IsRun(t, run)
    requires run[|run| - 1].toSender == FromReceiver(t, run[|run| - 1])
    requires run[|run| - 1].toReceiver == FromSender(t, run[|run| - 1])
    ensures
      var last := run[|run| - 1];
      && (ReceiverDecision(t, last) == Some(Received(t.payload)) <==> RightKey(t, last))
      && (SenderDecision(t, last) == Some(true) <==> RightKey(t, last))
      && (ReceiverDecision(t, last) == Some(Rejected) <==> last.held.Some? && !RightKey(t, last))
  {
    var last := run[|run| - 1];
    RunOnScript(t, run, |run| - 1);
    ReceiverOnScript(t, last);
    SenderOnScript(t, last);
    KeysAgree(t);
    hide Honest, SessionKey, FrameUnder;
    hide FromSender, FromReceiver, SenderDecision, ReceiverDecision, IsRun;
  }

  /** Another start while the first socket is open, before the receiver's key is there: the module variable is
      replaced, so the first receiver is answered under the new key and gives up, unless both keys agree on the
      session key. */
  lemma ReplacedKeyIsRejected(t: Transfer, other: Bytes)
    requires Honest(t)
    ensures var l0, l1 := Link([], [], Some(t.a)), Link([], [], Some(other));
      var l2 := Link(t.suite.publicKey(t.b), [], Some(other));
      var l3 := l2.(toReceiver := FrameUnder(t, SessionKey(t.suite, other, t.suite.publicKey(t.b))));
      && (other != t.a ==> IsRun(t, [l0, l1, l2, l3]))
      && (ReceiverDecision(t, l3) == Some(Rejected) <==>
            SessionKey(t.suite, other, t.suite.publicKey(t.b)) != TheKey(t))
  {
    KeysAgree(t);
    var key := SessionKey(t.suite, other, t.suite.publicKey(t.b));
    var l0, l1 := Link([], [], Some(t.a)), Link([], [], Some(other));
    var l2 := Link(t.suite.publicKey(t.b), [], Some(other));
    var l3 := l2.(toReceiver := FrameUnder(t, key));
    FrameIsLong(t, key);
    StartOnScript(t);
    ReceiverOnFrame(t, key, FrameUnder(t, key));
    ReceiverOnFrame(t, key, []);
    hide Frame, SessionKey;
    var run := [l0, l1, l2, l3];
    assert l2.toSender[..X25519_PUB_SIZE] == l2.toSender;
    assert FromReceiver(t, l1) == t.suite.publicKey(t.b);
    assert FromSender(t, l2) == FrameUnder(t, key);
    if other != t.a {
      assert Step(t, l0, l1) && Step(t, l1, l2) && Step(t, l2, l3);
      assert run[0] == l0 && run[1] == l1 && run[2] == l2 && run[3] == l3;
    }
  }

  ghost function Delivered(l: Link): nat { |l.toSender| + |l.toReceiver| }

  /** How often the sender's key changed in the first i steps. */
  ghost function KeySteps(run: seq<Link>, i: nat): nat
    requires i < |run|
  {
    if i == 0 then 0 else KeySteps(run, i - 1) + if KeyStep(run[i - 1], run[i]) then 1 else 0
  }

  lemma {:induction false} DeliveredGrows(t: Transfer, run: seq<Link>, i: nat)
    requires Honest(t) && IsRun(t, run) && i < |run|
    ensures Delivered(run[i]) + KeySteps(run, i) >= i
  {
    if i == 0 {
    } else {
      DeliveredGrows(t, run, i - 1);
      hide Honest, FromSender, FromReceiver;
      assert Step(t, run[i - 1], run[i]);
    }
  }

  /** Every schedule ends: apart from changes of the sender's key, which need someone to start or cancel a
      session, no run has more steps than there are bytes to deliver. */
  lemma TransferTerminates(t: Transfer, run: seq<Link>)
    requires Honest(t) && IsRun(t, run)
    ensures var last := run[|run| - 1];
      |run| - 1 <= X25519_PUB_SIZE + HMAC_SIZE + KeySteps(run, |run| - 1)
                   + if last.held.Some? then |FrameUnder(t, HeldKey(t, last))| else 0
  {
    DeliveredGrows(t, run, |run| - 1);
    RunOnScript(t, run, |run| - 1);
    KeysAgree(t);
    hide Honest, FrameUnder, HeldKey, IsRun, SessionKey;
  }

  // ---- such transfers exist ----

  /** A toy suite: every key exchange gives the key [0], and the tag tells that key from all others. */
  function ToySuite(): Suite {
    Suite(
      (priv: Bytes) => seq(X25519_PUB_SIZE, _ => 0),
      (priv: Bytes, pub: Bytes) => [],
      (secret: Bytes) => [0],
      (key: Bytes, iv: Bytes, plain: Bytes) => (plain, seq(AUTH_TAG_SIZE, _ => if key == [0] then 0 else 1)),
      (key: Bytes, iv: Bytes, tag: Bytes, c: Bytes) =>
        if tag == seq(AUTH_TAG_SIZE, _ => if key == [0] then 0 else 1) then Some(c) else None,
      (key: Bytes, data: Bytes) => seq(HMAC_SIZE, _ => 0),
      (data: Bytes) => true)
  }

  /** What is assumed of the primitives and of a transfer can be met. */
  lemma HonestTransfersExist()
    ensures Honest(Transfer(ToySuite(), [1], [2], seq(IV_SIZE, _ => 0), [7]))
  {
    var s, iv := ToySuite(), seq(IV_SIZE, _ => 0);
    var t := Transfer(s, [1], [2], iv, [7]);
    forall key ensures |AesGcmEncrypt(s, key, iv, [7])| == IV_SIZE + AUTH_TAG_SIZE + 1 {
    }
    forall key | key != TheKey(t) ensures AesGcmDecrypt(s, TheKey(t), AesGcmEncrypt(s, key, iv, [7])).None? {
      var e := AesGcmEncrypt(s, key, iv, [7]);
      assert e[IV_SIZE..IV_SIZE + AUTH_TAG_SIZE] == seq(AUTH_TAG_SIZE, _ => 1);
      assert (seq(AUTH_TAG_SIZE, _ => 1))[0] == 1 && (seq(AUTH_TAG_SIZE, _ => 0))[0] == 0;
    }
  }
}
