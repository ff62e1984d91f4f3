/** server/src/auth/jwt.rs and challenge.rs: refresh tokens and login challenges, whose requests take several separately
    locked steps. The tables as values, and every interleaving of the steps. */
module Sessions {
  import opened Wrappers

  const TOKEN_LIFETIME := 7 * 24 * 3600
  const CHALLENGE_LIFETIME := 60

  /** The SHA-256 of a random 32-byte token, and a version-7 UUID: neither is ever drawn twice. */
  type Hash = nat
  type Id = nat

  datatype Token = Token(user: nat, expires: int)

  // ---- the statements the steps execute ----

  /** store_refresh_token; the token_hash column is UNIQUE. */
  function Stored(tokens: map<Hash, Token>, h: Hash, user: nat, now: int): map<Hash, Token> {
    if h in tokens then tokens else tokens[h := Token(user, now + TOKEN_LIFETIME)]
  }

  predicate Redeemable(tokens: map<Hash, Token>, h: Hash, now: int) { h in tokens && tokens[h].expires > now }

  /** validate_and_consume_refresh_token */
  function Consumed(tokens: map<Hash, Token>, h: Hash, now: int): map<Hash, Token> {
    if Redeemable(tokens, h, now) then tokens - {h} else tokens
  }

  /** DELETE FROM refresh_tokens WHERE user_id = user, of a rotation or a cancellation. */
  function Revoked(tokens: map<Hash, Token>, user: nat): map<Hash, Token> {
    map h | h in tokens && tokens[h].user != user :: tokens[h]
  }

  // ---- requests in progress ----

  /** A refresh that has consumed its token, and a refresh or login that has drawn the new one but not stored it. */
  datatype Flight = Refreshing(user: nat) | Minted(user: nat, hash: Hash)

  datatype State = State(
    tokens: map<Hash, Token>, flights: map<Id, Flight>, challenges: map<Id, int>, minted: set<Hash>, issued: set<Id>)

  const START := State(map[], map[], map[], {}, {})

  datatype Event =
    | Challenge(challenge: Id, now: int)
    | Spoil(challenge: Id)
    | Login(challenge: Id, flight: Id, user: nat, hash: Hash, now: int)
    | Register(user: nat, hash: Hash, now: int)
    | Redeem(flight: Id, hash: Hash, now: int)
    | Mint(flight: Id, hash: Hash)
    | Store(flight: Id, now: int)
    | Abandon(flight: Id)
    | Revoke(user: nat)

  /** When a step can happen: Spoil is a challenge used up without a login, Abandon a request that fails on the way. */
  predicate Enabled(s: State, e: Event) {
    match e
    case Challenge(c, _) => c !in s.issued
    case Spoil(c) => c in s.challenges
    case Login(c, f, _, h, now) => c in s.challenges && s.challenges[c] >= now && f !in s.flights && h !in s.minted
    case Register(_, h, _) => h !in s.minted
    case Redeem(f, h, now) => f !in s.flights && Redeemable(s.tokens, h, now)
    case Mint(f, h) => f in s.flights && s.flights[f].Refreshing? && h !in s.minted
    case Store(f, _) => f in s.flights && s.flights[f].Minted?
    case Abandon(f) => f in s.flights
    case Revoke(_) => true
  }

  function After(s: State, e: Event): State
    requires Enabled(s, e)
  {
    match e
    case Challenge(c, now) => s.(challenges := s.challenges[c := now + CHALLENGE_LIFETIME], issued := s.issued + {c})
    case Spoil(c) => s.(challenges := s.challenges - {c})
    case Login(c, f, u, h, _) =>
      s.(challenges := s.challenges - {c}, flights := s.flights[f := Minted(u, h)], minted := s.minted + {h})
    case Register(u, h, now) => s.(tokens := Stored(s.tokens, h, u, now), minted := s.minted + {h})
    case Redeem(f, h, now) =>
      s.(tokens := Consumed(s.tokens, h, now), flights := s.flights[f := Refreshing(s.tokens[h].user)])
    case Mint(f, h) => s.(flights := s.flights[f := Minted(s.flights[f].user, h)], minted := s.minted + {h})
    case Store(f, now) =>
      s.(tokens := Stored(s.tokens, s.flights[f].hash, s.flights[f].user, now), flights := s.flights - {f})
    case Abandon(f) => s.(flights := s.flights - {f})
    case Revoke(u) => s.(tokens := Revoked(s.tokens, u))
  }

  predicate Legal(s: State, es: seq<Event>)
    decreases |es|
  {
    es == [] || (Enabled(s, es[0]) && Legal(After(s, es[0]), es[1..]))
  }

  function Final(s: State, es: seq<Event>): State
    requires Legal(s, es)
    decreases |es|
  {
    if es == [] then s else Final(After(s, es[0]), es[1..])
  }

  /** Every token in the table or in flight was drawn once and is in one place. */
  ghost predicate Sound(s: State) {
    && s.tokens.Keys <= s.minted
    && s.challenges.Keys <= s.issued
    && (forall f :: f in s.flights && s.flights[f].Minted? ==>
          s.flights[f].hash in s.minted && s.flights[f].hash !in s.tokens)
    && (forall f, g :: f in s.flights && g in s.flights && f != g && s.flights[f].Minted? && s.flights[g].Minted? ==>
          s.flights[f].hash != s.flights[g].hash)
  }

  lemma StartIsSound()
    ensures Sound(START)
  {
  }

  lemma StepIsSound(s: State, e: Event)
    requires Sound(s) && Enabled(s, e)
    ensures Sound(After(s, e))
  {
  }

  lemma {:induction false} RunIsSound(s: State, es: seq<Event>)
    requires Sound(s) && Legal(s, es)
    ensures Sound(Final(s, es))
    decreases |es|
  {
    if es == [] {
    } else {
      StepIsSound(s, es[0]);
      RunIsSound(After(s, es[0]), es[1..]);
    }
  }

  /** Drawn, and neither stored nor about to be. */
  ghost predicate Spent(s: State, h: Hash) {
    h in s.minted && h !in s.tokens && forall f :: f in s.flights && s.flights[f].Minted? ==> s.flights[f].hash != h
  }

  lemma SpentStep(s: State, e: Event, h: Hash)
    requires Sound(s) && Enabled(s, e) && Spent(s, h)
    ensures Spent(After(s, e), h) && !(e.Redeem? && e.hash == h)
  {
  }

  lemma {:induction false} SpentForever(s: State, es: seq<Event>, h: Hash, j: nat)
    requires Sound(s) && Legal(s, es) && Spent(s, h) && j < |es|
    ensures !(es[j].Redeem? && es[j].hash == h)
    decreases |es|
  {
    SpentStep(s, es[0], h);
    StepIsSound(s, es[0]);
    if j == 0 {
    } else {
      SpentForever(After(s, es[0]), es[1..], h, j - 1);
    }
  }

  /** In every interleaving each refresh token is redeemed at most once. */
  lemma {:induction false} RedeemedOnce(s: State, es: seq<Event>, i: nat, j: nat)
    requires Sound(s) && Legal(s, es) && i < j < |es| && es[i].Redeem? && es[j].Redeem?
    ensures es[i].hash != es[j].hash
    decreases |es|
  {
    StepIsSound(s, es[0]);
    if i > 0 {
      RedeemedOnce(After(s, es[0]), es[1..], i - 1, j - 1);
    } else {
      SpentForever(After(s, es[0]), es[1..], es[0].hash, j - 1);
    }
  }

  /** No token in the table when its user's key is rotated, or a rotation cancelled, is ever redeemed afterwards. */
  lemma RevokedForever(s: State, u: nat, h: Hash, es: seq<Event>, j: nat)
    requires Sound(s) && h in s.tokens && s.tokens[h].user == u
    requires Legal(After(s, Revoke(u)), es) && j < |es|
    ensures !(es[j].Redeem? && es[j].hash == h)
  {
    StepIsSound(s, Revoke(u));
    SpentForever(After(s, Revoke(u)), es, h, j);
  }

  /** Each challenge admits at most one login, even when the first attempt to use it fails. */
  lemma {:induction false} ChallengeUsedOnce(s: State, es: seq<Event>, c: Id, i: nat, j: nat)
    requires Sound(s) && Legal(s, es) && i < j < |es|
    requires es[i] == Spoil(c) || (es[i].Login? && es[i].challenge == c)
    ensures !(es[j].Login? && es[j].challenge == c)
    decreases |es|
  {
    StepIsSound(s, es[0]);
    if i > 0 {
      ChallengeUsedOnce(After(s, es[0]), es[1..], c, i - 1, j - 1);
    } else {
      GoneChallenge(After(s, es[0]), es[1..], c, j - 1);
    }
  }

  lemma {:induction false} GoneChallenge(s: State, es: seq<Event>, c: Id, j: nat)
    requires Legal(s, es) && c in s.issued && c !in s.challenges && j < |es|
    ensures !(es[j].Login? && es[j].challenge == c)
    decreases |es|
  {
    if j == 0 {
    } else {
      GoneChallenge(After(s, es[0]), es[1..], c, j - 1);
    }
  }

  // ---- what comes into the tables and what leaves them ----

  /** A token comes into the table by a registration or by the last step of a login or refresh, with a week to live, and
      leaves it when it is redeemed in time or its user's key changes; nothing else touches it. */
  lemma TokensComeAndGo(s: State, e: Event, h: Hash)
    requires Sound(s) && Enabled(s, e)
    ensures var t := After(s, e);
      && (h !in s.tokens ==>
            (h in t.tokens <==>
               || (e.Register? && e.hash == h)
               || (e.Store? && e.flight in s.flights && s.flights[e.flight].Minted? && s.flights[e.flight].hash == h)))
      && (h !in s.tokens && h in t.tokens ==>
            && (e.Register? ==> t.tokens[h] == Token(e.user, e.now + 7 * 24 * 3600))
            && (e.Store? ==> t.tokens[h] == Token(s.flights[e.flight].user, e.now + 7 * 24 * 3600)))
      && (h in s.tokens ==>
            (h !in t.tokens <==> (e.Redeem? && e.hash == h) || (e.Revoke? && e.user == s.tokens[h].user)))
      && (h in s.tokens && h in t.tokens ==> t.tokens[h] == s.tokens[h])
      && (e.Redeem? && e.hash == h ==> h in s.tokens && e.now < s.tokens[h].expires)
  {
  }

  /** A request is between its steps from its login or its redemption, as the user who made it, until it stores its
      token or fails. */
  lemma FlightsComeAndGo(s: State, e: Event, f: Id)
    requires Sound(s) && Enabled(s, e)
    ensures var t := After(s, e);
      && (f !in s.flights ==>
            (f in t.flights <==> (e.Login? && e.flight == f) || (e.Redeem? && e.flight == f)))
      && (f !in s.flights && f in t.flights && e.Login? ==> t.flights[f] == Minted(e.user, e.hash))
      && (f !in s.flights && f in t.flights && e.Redeem? ==>
            e.hash in s.tokens && t.flights[f] == Refreshing(s.tokens[e.hash].user))
      && (f in s.flights ==>
            (f !in t.flights <==> (e.Store? && e.flight == f) || (e.Abandon? && e.flight == f)))
      && (f in s.flights && f in t.flights ==>
            t.flights[f] ==
              if e.Mint? && e.flight == f then Minted(s.flights[f].user, e.hash) else s.flights[f])
  {
  }

  /** A challenge is open for a minute from its issue, until a login answers it or an attempt spoils it. */
  lemma ChallengesComeAndGo(s: State, e: Event, c: Id)
    requires Sound(s) && Enabled(s, e)
    ensures var t := After(s, e);
      && (c !in s.challenges ==> (c in t.challenges <==> e.Challenge? && e.challenge == c))
      && (c !in s.challenges && c in t.challenges ==> t.challenges[c] == e.now + 60)
      && (c in s.challenges ==>
            (c !in t.challenges <==> (e.Login? && e.challenge == c) || (e.Spoil? && e.challenge == c)))
      && (c in s.challenges && c in t.challenges ==> t.challenges[c] == s.challenges[c])
      && (e.Login? && e.challenge == c ==> c in s.challenges && e.now <= s.challenges[c])
  {
  }

  lemma {:induction false} FinalSnoc(s: State, es: seq<Event>, e: Event)
    requires Legal(s, es + [e])
    ensures Legal(s, es) && Enabled(Final(s, es), e) && Final(s, es + [e]) == After(Final(s, es), e)
    decreases |es|
  {
    var all := es + [e];
    if es == [] {
      assert all[1..] == [];
    } else {
      assert all[1..] == es[1..] + [e];
      FinalSnoc(After(s, es[0]), es[1..], e);
    }
  }

  /** In every run, a login answers a challenge that was issued in the run, and issued at most a minute before. */
  lemma LoginAnswersChallenge(es: seq<Event>, login: Event)
    requires Legal(START, es + [login]) && login.Login?
    ensures exists i :: 0 <= i < |es| && es[i].Challenge? && es[i].challenge == login.challenge
                        && login.now <= es[i].now + 60
  {
    FinalSnoc(START, es, login);
    OpenWasIssued(es, login.challenge);
  }

  lemma {:induction false} OpenWasIssued(es: seq<Event>, c: Id)
    requires Legal(START, es)
    ensures c in Final(START, es).challenges ==>
      exists i :: 0 <= i < |es| && es[i].Challenge? && es[i].challenge == c
                  && Final(START, es).challenges[c] == es[i].now + 60
    decreases |es|
  {
    if es == [] {
    } else {
      var before, e := es[..|es| - 1], es[|es| - 1];
      assert es == before + [e];
      FinalSnoc(START, before, e);
      OpenWasIssued(before, c);
      StartIsSound();
      RunIsSound(START, before);
      ChallengesComeAndGo(Final(START, before), e, c);
      if c in Final(START, before).challenges {
        var i :| 0 <= i < |before| && before[i].Challenge? && before[i].challenge == c
                 && Final(START, before).challenges[c] == before[i].now + 60;
        assert es[i] == before[i];
      } else {
        assert es[|before|] == e;
      }
    }
  }

  /** With fresh names, a challenge can be answered within a minute, the token stored then be redeemed within a
      week, and replaced: the whole life of a session, and exactly within those times. */
  lemma SessionLives(s: State, c: Id, f: Id, g: Id, u: nat, h: Hash, k: Hash, times: (int, int, int, int))
    requires Sound(s) && c !in s.issued && f !in s.flights && g !in s.flights && f != g
    requires h !in s.minted && k !in s.minted && h != k
    ensures var (issued, answered, stored, redeemed) := times;
      Legal(s, [Challenge(c, issued), Login(c, f, u, h, answered), Store(f, stored), Redeem(g, h, redeemed),
                Mint(g, k), Abandon(g)])
      <==> answered <= issued + 60 && redeemed < stored + 7 * 24 * 3600
  {
    var (issued, answered, stored, redeemed) := times;
    var es := [Challenge(c, issued), Login(c, f, u, h, answered), Store(f, stored), Redeem(g, h, redeemed), Mint(g, k),
               Abandon(g)];
    assert es[1..] == [es[1], es[2], es[3], es[4], es[5]];
    assert es[1..][1..] == [es[2], es[3], es[4], es[5]];
    assert es[1..][1..][1..] == [es[3], es[4], es[5]];
    assert es[1..][1..][1..][1..] == [es[4], es[5]];
    assert es[1..][1..][1..][1..][1..] == [es[5]];
    assert es[1..][1..][1..][1..][1..][1..] == [];
    var s1 := After(s, es[0]);
    assert Enabled(s1, es[1]) <==> answered <= issued + 60;
    if answered <= issued + 60 {
      var s2 := After(s1, es[1]);
      var s3 := After(s2, es[2]);
      assert Enabled(s3, es[3]) <==> redeemed < stored + 7 * 24 * 3600;
      if redeemed < stored + 7 * 24 * 3600 {
        var s4 := After(s3, es[3]);
        var s5 := After(s4, es[4]);
        assert Legal(s5, [es[5]]);
        assert Legal(s4, [es[4], es[5]]);
        assert Legal(s3, [es[3], es[4], es[5]]);
      }
      assert Legal(s2, [es[2], es[3], es[4], es[5]]) <==> Legal(s3, [es[3], es[4], es[5]]);
    }
  }

  // ---- must every session of the user log in again after a rotation? ----

  ghost predicate InFlight(s: State, u: nat) {
    exists f :: f in s.flights && s.flights[f].user == u
  }

  predicate LoginOf(e: Event, u: nat) { (e.Login? || e.Register?) && e.user == u }

  /** Nothing in the run happens before this time. */
  predicate NotBefore(es: seq<Event>, now: int) {
    forall k :: 0 <= k < |es| ==>
      (es[k].Challenge? || es[k].Login? || es[k].Register? || es[k].Redeem? || es[k].Store? ==> es[k].now >= now)
  }

  /** Some token of the user is redeemed in the run, and the user never logs in. */
  ghost predicate StaysIn(s: State, es: seq<Event>, u: nat)
    requires Legal(s, es)
  {
    && (forall k :: 0 <= k < |es| ==> !LoginOf(es[k], u))
    && RedeemsFor(s, es, u)
  }

  ghost predicate RedeemsFor(s: State, es: seq<Event>, u: nat)
    requires Legal(s, es)
    decreases |es|
  {
    es != [] && ((es[0].Redeem? && s.tokens[es[0].hash].user == u) || RedeemsFor(After(s, es[0]), es[1..], u))
  }

  ghost predicate LoggedOut(s: State, u: nat) {
    !InFlight(s, u) && forall h :: h in s.tokens ==> s.tokens[h].user != u
  }

  lemma OutStep(s: State, e: Event, u: nat)
    requires LoggedOut(s, u) && Enabled(s, e) && !LoginOf(e, u)
    ensures LoggedOut(After(s, e), u)
  {
  }

  lemma {:induction false} OutUntilLogin(s: State, es: seq<Event>, u: nat)
    requires LoggedOut(s, u) && Legal(s, es) && forall k :: 0 <= k < |es| ==> !LoginOf(es[k], u)
    ensures !RedeemsFor(s, es, u)
    decreases |es|
  {
    if es == [] {
    } else {
      assert !LoginOf(es[0], u);
      OutStep(s, es[0], u);
      forall k | 0 <= k < |es[1..]| ensures !LoginOf(es[1..][k], u) {
        assert es[1..][k] == es[k + 1];
      }
      OutUntilLogin(After(s, es[0]), es[1..], u);
    }
  }

  lemma {:induction false} Unused(used: set<nat>) returns (n: nat)
    ensures forall k :: k in used ==> k < n
  {
    if used == {} {
      n := 0;
    } else {
      var k :| k in used;
      var m := Unused(used - {k});
      n := if k < m then m else k + 1;
      assert used == (used - {k}) + {k};
    }
  }

  /** A request of the user that is already past its check stores its token after the revocation. */
  lemma FlightSurvives(s: State, u: nat, f: Id, now: int) returns (es: seq<Event>)
    requires Sound(s) && f in s.flights && s.flights[f].user == u
    ensures Legal(s, es) && NotBefore(es, now) && StaysIn(s, es, u)
  {
    var h := Unused(s.minted);
    if s.flights[f].Minted? {
      es := StoreAndRedeem(s, f, now);
    } else {
      var mint := Mint(f, h);
      StepIsSound(s, mint);
      var rest := StoreAndRedeem(After(s, mint), f, now);
      es := [mint] + rest;
      assert es[1..] == rest;
    }
  }

  lemma StoreAndRedeem(s: State, f: Id, now: int) returns (es: seq<Event>)
    requires Sound(s) && f in s.flights && s.flights[f].Minted?
    ensures Legal(s, es) && NotBefore(es, now) && StaysIn(s, es, s.flights[f].user)
  {
    var store, redeem := Store(f, now), Redeem(f, s.flights[f].hash, now);
    var t := After(s, store);
    assert Enabled(t, redeem) && t.tokens[redeem.hash].user == s.flights[f].user;
    es := [store, redeem];
    assert es[1..] == [redeem] && es[1..][1..] == [];
    assert Legal(t, es[1..]);
    assert RedeemsFor(t, es[1..], s.flights[f].user);
  }

  /** After a rotation, whenever it happens, the user can go on without logging in exactly when one of the user's own
      requests was between its steps: the deletion reaches the stored tokens only. */
  lemma ReauthUnlessInFlight(s: State, u: nat, now: int)
    requires Sound(s)
    ensures var t := After(s, Revoke(u));
      InFlight(s, u) <==> exists es :: Legal(t, es) && NotBefore(es, now) && StaysIn(t, es, u)
    ensures (exists f :: f in s.flights && s.flights[f].user == u) <==>
      exists es: seq<Event> :: Legal(After(s, Revoke(u)), es) && RedeemsFor(After(s, Revoke(u)), es, u)
        && (forall k :: 0 <= k < |es| ==> !(es[k].Login? && es[k].user == u) && !(es[k].Register? && es[k].user == u))
        && (forall k :: 0 <= k < |es| && es[k].Redeem? ==> es[k].now >= now)
        && forall k :: 0 <= k < |es| && es[k].Store? ==> es[k].now >= now
  {
    var t := After(s, Revoke(u));
    StepIsSound(s, Revoke(u));
    if InFlight(s, u) {
      var f :| f in s.flights && s.flights[f].user == u;
      var es := FlightSurvives(t, u, f, now);
      assert Legal(t, es) && NotBefore(es, now) && StaysIn(t, es, u);
      assert RedeemsFor(t, es, u) && forall k :: 0 <= k < |es| ==> !LoginOf(es[k], u);
    } else {
      forall es | Legal(t, es) && (forall k :: 0 <= k < |es| ==> !LoginOf(es[k], u)) ensures !RedeemsFor(t, es, u) {
        OutUntilLogin(t, es, u);
      }
    }
  }

}
