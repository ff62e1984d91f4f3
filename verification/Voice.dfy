/** server/src/voice/state.rs and signaling.rs: who is in which voice channel. */
module Voice {
  import opened Wrappers

  type UserId = nat
  type ChannelId = nat

  const SOFT_CAP := 8

  datatype Name = Name(text: string)

  datatype Participant = Participant(user: UserId, name: Name, muted: bool, deafened: bool)

  type Channels = map<ChannelId, seq<Participant>>

  // ---- participant lists ----

  predicate Present(ps: seq<Participant>, u: UserId) { exists i :: 0 <= i < |ps| && ps[i].user == u }

  /** retain(|p| p.user_id != u) */
  function Without(ps: seq<Participant>, u: UserId): (r: seq<Participant>)
    ensures |r| <= |ps|
    ensures !Present(r, u)
  {
    if ps == [] then []
    else if ps[0].user == u then Without(ps[1..], u)
    else [ps[0]] + Without(ps[1..], u)
  }

  predicate Distinct(ps: seq<Participant>) {
    forall i, j :: 0 <= i < j < |ps| ==> ps[i].user != ps[j].user
  }

  lemma {:induction false} WithoutKeeps(ps: seq<Participant>, u: UserId, v: UserId)
    ensures v != u ==> (Present(Without(ps, u), v) <==> Present(ps, v))
    ensures Distinct(ps) ==> Distinct(Without(ps, u))
    ensures !Present(ps, u) ==> Without(ps, u) == ps
    ensures Present(ps, u) ==> |Without(ps, u)| < |ps|
  {
    if ps == [] {
    } else {
      var rest := Without(ps[1..], u);
      WithoutKeeps(ps[1..], u, v);
      WithoutKeeps(ps[1..], u, ps[0].user);
      PresentCons(ps);
      DistinctCons(ps);
      if ps[0].user != u {
        var kept := [ps[0]] + rest;
        assert Without(ps, u) == kept && kept[1..] == rest;
        PresentCons(kept);
        DistinctCons(kept);
      }
      hide Distinct, Present;
    }
  }

  lemma DistinctCons(ps: seq<Participant>)
    requires ps != []
    ensures Distinct(ps) <==> !Present(ps[1..], ps[0].user) && Distinct(ps[1..])
  {
    if Distinct(ps) {
      assert forall i :: 0 <= i < |ps[1..]| ==> ps[1..][i] == ps[i + 1];
    }
    if !Present(ps[1..], ps[0].user) && Distinct(ps[1..]) {
      forall i, j | 0 <= i < j < |ps| ensures ps[i].user != ps[j].user {
        assert ps[1..][j - 1] == ps[j];
        assert i > 0 ==> ps[1..][i - 1] == ps[i];
      }
    }
  }

  /** The participants who stay, stay in their order: the one at position i comes right after those that were kept
      before it. */
  lemma {:induction false} WithoutIsInOrder(ps: seq<Participant>, u: UserId, i: nat)
    requires i < |ps| && ps[i].user != u
    ensures var at := |Without(ps[..i], u)|;
      at < |Without(ps, u)| && Without(ps, u)[at] == ps[i] && Without(ps, u)[..at] == Without(ps[..i], u)
  {
    if i == 0 {
    } else {
      assert ps[1..][..i - 1] == ps[..i][1..];
      WithoutIsInOrder(ps[1..], u, i - 1);
    }
  }

  lemma PresentCons(ps: seq<Participant>)
    requires ps != []
    ensures forall w :: Present(ps, w) <==> ps[0].user == w || Present(ps[1..], w)
  {
    forall w ensures Present(ps, w) <==> ps[0].user == w || Present(ps[1..], w) {
      if Present(ps[1..], w) {
        var i :| 0 <= i < |ps[1..]| && ps[1..][i].user == w;
        assert ps[i + 1].user == w;
      }
      if Present(ps, w) && ps[0].user != w {
        var i :| 0 <= i < |ps| && ps[i].user == w;
        assert ps[1..][i - 1].user == w;
      }
    }
  }

  lemma PresentSnoc(ps: seq<Participant>, p: Participant, w: UserId)
    ensures Present(ps + [p], w) <==> Present(ps, w) || p.user == w
  {
    if Present(ps, w) {
      var i :| 0 <= i < |ps| && ps[i].user == w;
      assert (ps + [p])[i].user == w;
    }
    assert (ps + [p])[|ps|] == p;
  }

  /** The first participant with this id gets the new flags. */
  function Flagged(ps: seq<Participant>, u: UserId, muted: bool, deafened: bool): seq<Participant> {
    if ps == [] then []
    else if ps[0].user == u then [ps[0].(muted := muted, deafened := deafened)] + ps[1..]
    else [ps[0]] + Flagged(ps[1..], u, muted, deafened)
  }

  lemma {:induction false} FlaggedIs(ps: seq<Participant>, u: UserId, muted: bool, deafened: bool)
    ensures var r := Flagged(ps, u, muted, deafened);
      && |r| == |ps| && (forall i :: 0 <= i < |ps| ==> r[i].user == ps[i].user)
      && (Distinct(ps) ==> forall i :: 0 <= i < |ps| ==>
            r[i] == if ps[i].user == u then ps[i].(muted := muted, deafened := deafened) else ps[i])
  {
    if ps == [] {
    } else {
      FlaggedIs(ps[1..], u, muted, deafened);
    }
  }

  // ---- the table of channels ----

  ghost function In(channels: Channels, u: UserId): set<ChannelId> {
    set c | c in channels && Present(channels[c], u)
  }

  function Kept(channels: Channels, c: ChannelId, ps: seq<Participant>): Channels {
    if ps == [] then channels - {c} else channels[c := ps]
  }

  function Left(channels: Channels, c: ChannelId, u: UserId): Channels {
    if c in channels then Kept(channels, c, Without(channels[c], u)) else channels
  }

  /** The same for several channels at once. */
  function LeftSome(channels: Channels, cs: set<ChannelId>, u: UserId): Channels {
    map c | c in channels && (c !in cs || Without(channels[c], u) != []) ::
      if c in cs then Without(channels[c], u) else channels[c]
  }

  function LeftAll(channels: Channels, u: UserId): Channels { LeftSome(channels, channels.Keys, u) }

  function ParticipantsOf(channels: Channels, c: ChannelId): seq<Participant> {
    if c in channels then channels[c] else []
  }

  predicate Full(channels: Channels, c: ChannelId, max: Option<int>) {
    max.Some? && max.value > 0 && |ParticipantsOf(channels, c)| >= max.value
  }

  function Joined(channels: Channels, c: ChannelId, p: Participant, max: Option<int>): Channels {
    if Full(channels, c, max) then channels
    else channels[c := Without(ParticipantsOf(channels, c), p.user) + [p]]
  }

  /** No empty entry, nobody twice in a channel, no channel over its limit. */
  ghost predicate WellFormed(channels: Channels, caps: map<ChannelId, int>) {
    forall c :: c in channels ==>
      && channels[c] != [] && Distinct(channels[c])
      && (c in caps && caps[c] > 0 ==> |channels[c]| <= caps[c])
  }

  function Cap(caps: map<ChannelId, int>, c: ChannelId): Option<int> { if c in caps then Some(caps[c]) else None }

  class VoiceState {
    var channels: Channels

    constructor ()
      ensures channels == map[]
    {
      channels := map[];
    }

    /** join_channel */
    method JoinChannel(c: ChannelId, p: Participant, max: Option<int>)
      returns (result: Result<(seq<Participant>, bool), ()>)
      modifies this
      ensures channels == Joined(old(channels), c, p, max)
      ensures result.Err? <==>
        max.Some? && max.value > 0 && (if c in old(channels) then |old(channels)[c]| else 0) >= max.value
      ensures result.Err? ==> channels == old(channels)
      ensures result.Ok? ==>
        var existing := if c in old(channels) then Without(old(channels)[c], p.user) else [];
        && result.value == (existing, |existing| >= 8)
        && channels == old(channels)[c := existing + [p]]
    {
      var participants := if c in channels then channels[c] else [];
      if max.Some? && max.value > 0 && |participants| >= max.value {
        return Err(());
      }
      participants := Without(participants, p.user);
      var existing := participants;
      var qualityWarning := |existing| >= SOFT_CAP;
      channels := channels[c := participants + [p]];
      return Ok((existing, qualityWarning));
    }

    /** leave_channel */
    method LeaveChannel(c: ChannelId, u: UserId)
      modifies this
      ensures channels == Left(old(channels), c, u)
      ensures c !in old(channels) ==> channels == old(channels)
      ensures c in old(channels) ==>
        var rest := Without(old(channels)[c], u);
        channels == if rest == [] then old(channels) - {c} else old(channels)[c := rest]
    {
      if c in channels {
        channels := channels[c := Without(channels[c], u)];
        if channels[c] == [] {
          channels := channels - {c};
        }
        assert channels == Left(old(channels), c, u);
      }
    }

    /** update_state */
    method UpdateState(c: ChannelId, u: UserId, muted: bool, deafened: bool)
      modifies this
      ensures channels ==
        if c !in old(channels) then old(channels)
        else old(channels)[c := Flagged(old(channels)[c], u, muted, deafened)]
    {
      if c in channels {
        var ps := SetFlags(channels[c], u, muted, deafened);
        channels := channels[c := ps];
      }
    }

    /** leave_all_channels: the channels are visited in any order. */
    method LeaveAllChannels(u: UserId) returns (left: seq<ChannelId>)
      modifies this
      ensures channels == LeftAll(old(channels), u)
      ensures forall c :: c in channels <==> c in old(channels) && Without(old(channels)[c], u) != []
      ensures forall c :: c in channels ==> channels[c] == Without(old(channels)[c], u)
      ensures forall c :: c in left <==>
        c in old(channels) && exists i :: 0 <= i < |old(channels)[c]| && old(channels)[c][i].user == u
      ensures forall i, j :: 0 <= i < j < |left| ==> left[i] != left[j]
    {
      ghost var before := channels;
      var todo := channels.Keys;
      ghost var seen: set<ChannelId> := {};
      left := [];
      LeftNone(channels, u);
      hide *;
      while todo != {}
        invariant todo !! seen && todo + seen == before.Keys
        invariant channels == LeftSome(before, seen, u)
        invariant forall c :: c in left <==> c in In(before, u) && c in seen
        invariant forall i, j :: 0 <= i < j < |left| ==> left[i] != left[j]
        decreases |todo|
      {
        var c :| c in todo;
        LeftOneMore(before, seen, c, u);
        var size := |channels[c]|;
        var rest := Without(channels[c], u);
        if |rest| < size {
          left := left + [c];
        }
        channels := if |rest| == 0 then channels - {c} else channels[c := rest];
        todo := todo - {c};
        seen := seen + {c};
      }
      AllIsAll(before, seen, u);
    }
  }

  /** The object after the handlers' steps holds the channels of the run. */
  method Replay(voice: VoiceState, ghost s: State, caps: map<ChannelId, int>, es: seq<Event>)
    requires voice.channels == s.channels && Legal(s, caps, es)
    modifies voice
    ensures voice.channels == Final(s, caps, es).channels
  {
    ghost var now := s;
    assert es[0..] == es;
    var i := 0;
    while i < |es|
      invariant 0 <= i <= |es| && voice.channels == now.channels
      invariant Legal(now, caps, es[i..]) && Final(now, caps, es[i..]) == Final(s, caps, es)
    {
      hide *;
      NextOf(now, caps, es, i);
      ChannelsAre(now, caps, es[i]);
      now := After(now, caps, es[i]);
      Handle(voice, caps, es[i]);
      i := i + 1;
    }
    assert es[i..] == [];
  }

  lemma NextOf(s: State, caps: map<ChannelId, int>, es: seq<Event>, i: nat)
    requires i < |es| && Legal(s, caps, es[i..])
    ensures Enabled(s, es[i]) && Legal(After(s, caps, es[i]), caps, es[i + 1..])
    ensures Final(s, caps, es[i..]) == Final(After(s, caps, es[i]), caps, es[i + 1..])
  {
    hide After, Enabled;
    assert es[i..][0] == es[i] && es[i..][1..] == es[i + 1..];
  }

  lemma ChannelsAre(s: State, caps: map<ChannelId, int>, e: Event)
    requires Enabled(s, e)
    ensures After(s, caps, e).channels == ChannelsAfter(s.channels, caps, e)
  {
    hide ChannelsAfter;
  }

  method Handle(voice: VoiceState, caps: map<ChannelId, int>, e: Event)
    modifies voice
    ensures voice.channels == ChannelsAfter(old(voice.channels), caps, e)
  {
    hide Joined, Left, LeftAll, Flagged, Without;
    match e {
      case Begin(u, _) => var _ := voice.LeaveAllChannels(u);
      case Finish(p, c) => var _ := voice.JoinChannel(c, p, if c in caps then Some(caps[c]) else None);
      case Leave(u, c) => voice.LeaveChannel(c, u);
      case Disconnect(u) => var _ := voice.LeaveAllChannels(u);
      case Update(u, c, muted, deafened) => voice.UpdateState(c, u, muted, deafened);
    }
  }

  /** The loop over one channel's participants, up to the first match. */
  method SetFlags(participants: seq<Participant>, u: UserId, muted: bool, deafened: bool) returns (ps: seq<Participant>)
    ensures ps == Flagged(participants, u, muted, deafened)
  {
    hide *;
    ps := participants;
    var i := 0;
    NoneBefore(participants, u, muted, deafened);
    while i < |ps|
      invariant 0 <= i <= |ps| && ps == participants
      invariant NotFlaggedYet(participants, i, u, muted, deafened)
    {
      OneFurther(participants, i, u, muted, deafened);
      if ps[i].user == u {
        ps := ps[i := ps[i].(muted := muted, deafened := deafened)];
        return;
      }
      i := i + 1;
    }
    NoneAtAll(participants, u, muted, deafened);
  }

  /** The participant to flag, if any, is not among the first i. */
  ghost predicate NotFlaggedYet(ps: seq<Participant>, i: nat, u: UserId, muted: bool, deafened: bool) {
    i <= |ps| && Flagged(ps, u, muted, deafened) == ps[..i] + Flagged(ps[i..], u, muted, deafened)
  }

  lemma NoneBefore(ps: seq<Participant>, u: UserId, muted: bool, deafened: bool)
    ensures NotFlaggedYet(ps, 0, u, muted, deafened)
  {
    assert ps[0..] == ps;
  }

  lemma NoneAtAll(ps: seq<Participant>, u: UserId, muted: bool, deafened: bool)
    requires NotFlaggedYet(ps, |ps|, u, muted, deafened)
    ensures Flagged(ps, u, muted, deafened) == ps
  {
    assert ps[|ps|..] == [] && ps[..|ps|] == ps;
  }

  lemma OneFurther(ps: seq<Participant>, i: nat, u: UserId, muted: bool, deafened: bool)
    requires i < |ps| && NotFlaggedYet(ps, i, u, muted, deafened)
    ensures ps[i].user != u ==> NotFlaggedYet(ps, i + 1, u, muted, deafened)
    ensures ps[i].user == u ==>
      Flagged(ps, u, muted, deafened) == ps[i := ps[i].(muted := muted, deafened := deafened)]
  {
    var rest := ps[i..];
    assert rest[0] == ps[i] && rest[1..] == ps[i + 1..];
    if ps[i].user != u {
      var tail := Flagged(rest[1..], u, muted, deafened);
      assert ps[..i] + ([ps[i]] + tail) == ps[..i + 1] + tail;
    }
  }

  lemma AllIsAll(channels: Channels, seen: set<ChannelId>, u: UserId)
    requires seen == channels.Keys
    ensures LeftSome(channels, seen, u) == LeftAll(channels, u)
    ensures forall c :: c in In(channels, u) ==> c in seen
    ensures forall c :: c in LeftAll(channels, u) <==> c in channels && Without(channels[c], u) != []
    ensures forall c :: c in LeftAll(channels, u) ==> LeftAll(channels, u)[c] == Without(channels[c], u)
    ensures forall c :: c in In(channels, u) <==>
      c in channels && exists i :: 0 <= i < |channels[c]| && channels[c][i].user == u
  {
  }

  lemma LeftNone(channels: Channels, u: UserId)
    ensures LeftSome(channels, {}, u) == channels
  {
  }

  lemma LeftOneMore(channels: Channels, seen: set<ChannelId>, c: ChannelId, u: UserId)
    requires c in channels && c !in seen
    ensures c in LeftSome(channels, seen, u) && LeftSome(channels, seen, u)[c] == channels[c]
    ensures LeftSome(channels, seen + {c}, u) ==
      var before := LeftSome(channels, seen, u); var rest := Without(channels[c], u);
      if |rest| == 0 then before - {c} else before[c := rest]
    ensures c in In(channels, u) <==> |Without(channels[c], u)| < |channels[c]|
  {
    WithoutKeeps(channels[c], u, u);
    hide Without, Present;
    var before := LeftSome(channels, seen, u);
    var rest := Without(channels[c], u);
    assert LeftSome(channels, seen + {c}, u) == if |rest| == 0 then before - {c} else before[c := rest];
  }

  // ---- what each operation does to who is where ----

  lemma LeaveMembership(channels: Channels, c: ChannelId, u: UserId, v: UserId)
    ensures In(Left(channels, c, u), v) == if v == u then In(channels, u) - {c} else In(channels, v)
  {
    if c in channels {
      WithoutKeeps(channels[c], u, v);
    }
  }

  lemma LeaveAllMembership(channels: Channels, u: UserId, v: UserId)
    ensures In(LeftAll(channels, u), v) == if v == u then {} else In(channels, v)
  {
    forall c | c in channels
      ensures v != u ==> (Present(Without(channels[c], u), v) <==> Present(channels[c], v))
    {
      WithoutKeeps(channels[c], u, v);
    }
  }

  lemma JoinMembership(channels: Channels, c: ChannelId, p: Participant, max: Option<int>, v: UserId)
    ensures In(Joined(channels, c, p, max), v) ==
      if v == p.user && !Full(channels, c, max) then In(channels, v) + {c} else In(channels, v)
  {
    var ps := ParticipantsOf(channels, c);
    WithoutKeeps(ps, p.user, v);
    PresentSnoc(Without(ps, p.user), p, v);
    hide Without;
    if !Full(channels, c, max) {
      assert c !in channels ==> !Present(ps, v);
    }
  }

  lemma LeaveIsWellFormed(channels: Channels, cs: set<ChannelId>, caps: map<ChannelId, int>, u: UserId)
    requires WellFormed(channels, caps)
    ensures WellFormed(LeftSome(channels, cs, u), caps)
  {
    forall c | c in channels ensures Distinct(Without(channels[c], u)) {
      WithoutKeeps(channels[c], u, u);
    }
    hide Distinct;
  }

  lemma LeftIsLeftSome(channels: Channels, c: ChannelId, u: UserId)
    requires forall d :: d in channels ==> channels[d] != []
    ensures Left(channels, c, u) == LeftSome(channels, {c}, u)
  {
  }

  lemma JoinIsWellFormed(channels: Channels, caps: map<ChannelId, int>, c: ChannelId, p: Participant)
    requires WellFormed(channels, caps)
    ensures WellFormed(Joined(channels, c, p, Cap(caps, c)), caps)
  {
    var ps := ParticipantsOf(channels, c);
    WithoutKeeps(ps, p.user, p.user);
    var rest := Without(ps, p.user);
    assert Distinct(rest + [p]) by {
      assert forall i :: 0 <= i < |rest| ==> rest[i].user != p.user;
    }
    hide Without, Distinct;
  }

  lemma UpdateIsHarmless(channels: Channels, caps: map<ChannelId, int>, c: ChannelId, u: UserId, muted: bool,
                         deafened: bool, v: UserId)
    requires WellFormed(channels, caps) && c in channels
    ensures var after := channels[c := Flagged(channels[c], u, muted, deafened)];
      WellFormed(after, caps) && In(after, v) == In(channels, v)
  {
    var ps := channels[c];
    FlaggedIs(ps, u, muted, deafened);
    var r := Flagged(ps, u, muted, deafened);
    hide Flagged;
    assert Present(r, v) <==> Present(ps, v) by {
      if Present(ps, v) {
        var i :| 0 <= i < |ps| && ps[i].user == v;
        assert r[i].user == v;
      }
    }
    assert Distinct(r);
  }

  // ---- the handlers, step by step ----

  /** A join that has left the user's channels and is waiting for the channel's limit: handle_voice_join between its two
      uses of the table. */
  datatype State = State(channels: Channels, joining: multiset<(UserId, ChannelId)>)

  datatype Event =
    | Begin(user: UserId, channel: ChannelId)
    | Finish(participant: Participant, channel: ChannelId)
    | Leave(user: UserId, channel: ChannelId)
    | Disconnect(user: UserId)
    | Update(user: UserId, channel: ChannelId, muted: bool, deafened: bool)

  predicate Enabled(s: State, e: Event) {
    e.Finish? ==> (e.participant.user, e.channel) in s.joining
  }

  /** What a step does to the channels, whoever is joining. */
  function ChannelsAfter(channels: Channels, caps: map<ChannelId, int>, e: Event): Channels {
    match e
    case Begin(u, _) => LeftAll(channels, u)
    case Finish(p, c) => Joined(channels, c, p, Cap(caps, c))
    case Leave(u, c) => Left(channels, c, u)
    case Disconnect(u) => LeftAll(channels, u)
    case Update(u, c, muted, deafened) =>
      if c in channels then channels[c := Flagged(channels[c], u, muted, deafened)] else channels
  }

  function After(s: State, caps: map<ChannelId, int>, e: Event): State
    requires Enabled(s, e)
  {
    var channels := ChannelsAfter(s.channels, caps, e);
    match e
    case Begin(u, c) => State(channels, s.joining + multiset{(u, c)})
    case Finish(p, c) => State(channels, s.joining - multiset{(p.user, c)})
    case _ => State(channels, s.joining)
  }

  predicate JoiningOne(s: State, u: UserId) { forall k :: k in s.joining ==> k.0 != u }

  /** Every join starts when the user has no other in flight. */
  predicate Legal(s: State, caps: map<ChannelId, int>, es: seq<Event>)
    decreases |es|
  {
    es == [] ||
    (Enabled(s, es[0]) && (es[0].Begin? ==> JoiningOne(s, es[0].user)) && Legal(After(s, caps, es[0]), caps, es[1..]))
  }

  function Final(s: State, caps: map<ChannelId, int>, es: seq<Event>): State
    requires Legal(s, caps, es)
    decreases |es|
  {
    if es == [] then s else Final(After(s, caps, es[0]), caps, es[1..])
  }

  /** When a run may go on: a join finishes that has begun, and begins when its user has none in flight. */
  lemma {:induction false} RunGoesOn(s: State, caps: map<ChannelId, int>, es: seq<Event>, e: Event)
    ensures Legal(s, caps, []) && Final(s, caps, []) == s
    ensures Legal(s, caps, es + [e]) <==>
      && Legal(s, caps, es)
      && (e.Finish? ==> (e.participant.user, e.channel) in Final(s, caps, es).joining)
      && (e.Begin? ==> forall k :: k in Final(s, caps, es).joining ==> k.0 != e.user)
    ensures Legal(s, caps, es + [e]) ==> Final(s, caps, es + [e]) == After(Final(s, caps, es), caps, e)
    decreases |es|
  {
    var all := es + [e];
    if es == [] {
      assert all[1..] == [];
    } else {
      assert all[1..] == es[1..] + [e];
      if Enabled(s, es[0]) {
        RunGoesOn(After(s, caps, es[0]), caps, es[1..], e);
      }
      hide After;
    }
  }

  ghost predicate OneChannelEach(s: State) {
    && (forall u, c, d :: c in In(s.channels, u) && d in In(s.channels, u) ==> c == d)
    && (forall k :: k in s.joining ==> s.joining[k] == 1 && In(s.channels, k.0) == {})
    && forall k, l :: k in s.joining && l in s.joining && k.0 == l.0 ==> k == l
  }

  lemma PlacesAreIn(channels: Channels)
    ensures forall c, i :: c in channels && 0 <= i < |channels[c]| ==> c in In(channels, channels[c][i].user)
  {
  }

  lemma EmptyIsWellFormed(caps: map<ChannelId, int>)
    ensures WellFormed(map[], caps) && OneChannelEach(State(map[], multiset{}))
  {
  }

  lemma StepIsWellFormed(s: State, caps: map<ChannelId, int>, e: Event)
    requires WellFormed(s.channels, caps) && Enabled(s, e)
    ensures WellFormed(After(s, caps, e).channels, caps)
  {
    match e
    case Begin(u, _) => LeaveIsWellFormed(s.channels, s.channels.Keys, caps, u);
    case Finish(p, c) => JoinIsWellFormed(s.channels, caps, c, p);
    case Leave(u, c) =>
      LeftIsLeftSome(s.channels, c, u);
      LeaveIsWellFormed(s.channels, {c}, caps, u);
    case Disconnect(u) => LeaveIsWellFormed(s.channels, s.channels.Keys, caps, u);
    case Update(u, c, muted, deafened) =>
      if c in s.channels {
        UpdateIsHarmless(s.channels, caps, c, u, muted, deafened, u);
      }
  }

  lemma StepKeepsOneChannel(s: State, caps: map<ChannelId, int>, e: Event)
    requires WellFormed(s.channels, caps) && OneChannelEach(s) && Enabled(s, e)
    requires e.Begin? ==> JoiningOne(s, e.user)
    ensures OneChannelEach(After(s, caps, e))
  {
    var t := After(s, caps, e);
    forall v
      ensures In(t.channels, v) <= In(s.channels, v)
           || (e.Finish? && e.participant.user == v && In(t.channels, v) == {e.channel})
      ensures e.Begin? && e.user == v ==> In(t.channels, v) == {}
    {
      WhoIsWhere(s, caps, e, v);
    }
    JoiningAfter(s, caps, e);
    hide After, In, WellFormed;
    JoinsKept(s, t, e);
  }

  lemma JoinsKept(s: State, t: State, e: Event)
    requires OneChannelEach(s) && Enabled(s, e) && (e.Begin? ==> JoiningOne(s, e.user))
    requires t.joining ==
      match e
      case Begin(u, c) => s.joining + multiset{(u, c)}
      case Finish(p, c) => s.joining - multiset{(p.user, c)}
      case _ => s.joining
    requires forall v ::
      || In(t.channels, v) <= In(s.channels, v)
      || (e.Finish? && e.participant.user == v && In(t.channels, v) == {e.channel})
    requires e.Begin? ==> In(t.channels, e.user) == {}
    ensures forall k :: k in t.joining ==> t.joining[k] == 1 && In(t.channels, k.0) == {}
    ensures forall k, l :: k in t.joining && l in t.joining && k.0 == l.0 ==> k == l
  {
    hide In;
    assert forall k :: k in t.joining ==> k in s.joining || (e.Begin? && k == (e.user, e.channel));
  }

  lemma JoiningAfter(s: State, caps: map<ChannelId, int>, e: Event)
    requires Enabled(s, e)
    ensures After(s, caps, e).joining ==
      match e
      case Begin(u, c) => s.joining + multiset{(u, c)}
      case Finish(p, c) => s.joining - multiset{(p.user, c)}
      case _ => s.joining
  {
    hide LeftAll, Joined, Left, Flagged;
  }

  lemma WhoIsWhere(s: State, caps: map<ChannelId, int>, e: Event, v: UserId)
    requires WellFormed(s.channels, caps) && OneChannelEach(s) && Enabled(s, e)
    ensures var now := In(After(s, caps, e).channels, v);
      && (now <= In(s.channels, v) || (e.Finish? && e.participant.user == v && now == {e.channel}))
      && (e.Begin? && e.user == v ==> now == {})
  {
    hide In, LeftAll, Joined, Left, Flagged, WellFormed;
    match e
    case Begin(u, _) => LeaveAllMembership(s.channels, u, v);
    case Finish(p, c) =>
      JoinMembership(s.channels, c, p, Cap(caps, c), v);
      assert (p.user, c) in s.joining;
    case Leave(u, c) => LeaveMembership(s.channels, c, u, v);
    case Disconnect(u) => LeaveAllMembership(s.channels, u, v);
    case Update(u, c, muted, deafened) =>
      if c in s.channels {
        UpdateIsHarmless(s.channels, caps, c, u, muted, deafened, v);
      }
  }

  /** With one join of each user in flight, every interleaving of the handlers keeps every user in one channel at most,
      once, keeps no empty channel, and keeps every channel within its limit. */
  lemma {:induction false} OneJoinAtATime(s: State, caps: map<ChannelId, int>, es: seq<Event>)
    requires WellFormed(s.channels, caps) && OneChannelEach(s) && Legal(s, caps, es)
    ensures WellFormed(Final(s, caps, es).channels, caps) && OneChannelEach(Final(s, caps, es))
    ensures var t := Final(s, caps, es).channels;
      && (forall c :: c in t ==> t[c] != [] && (c in caps && caps[c] > 0 ==> |t[c]| <= caps[c]))
      && (forall c, i, j :: c in t && 0 <= i < j < |t[c]| ==> t[c][i].user != t[c][j].user)
      && (forall c, d, i, j :: c in t && d in t && 0 <= i < |t[c]| && 0 <= j < |t[d]| ==>
            c == d || t[c][i].user != t[d][j].user)
    decreases |es|
  {
    if es == [] {
      PlacesAreIn(s.channels);
    } else {
      StepIsWellFormed(s, caps, es[0]);
      StepKeepsOneChannel(s, caps, es[0]);
      OneJoinAtATime(After(s, caps, es[0]), caps, es[1..]);
    }
  }

  /** A second join that starts while the first is in flight puts the user in both channels, whenever neither is
      full. */
  lemma SecondJoinBreaksIt(s: State, caps: map<ChannelId, int>, p: Participant, c: ChannelId, d: ChannelId)
    requires WellFormed(s.channels, caps) && OneChannelEach(s) && (p.user, c) in s.joining && c != d
    requires c in caps && caps[c] > 0 && c in s.channels ==> |s.channels[c]| < caps[c]
    requires d in caps && caps[d] > 0 && d in s.channels ==> |s.channels[d]| < caps[d]
    ensures var s1 := After(s, caps, Begin(p.user, d));
      Enabled(s1, Finish(p, c)) &&
      var s2 := After(s1, caps, Finish(p, c));
      Enabled(s2, Finish(p, d)) && In(After(s2, caps, Finish(p, d)).channels, p.user) == {c, d}
  {
    var s1 := After(s, caps, Begin(p.user, d));
    NobodyLeaves(s.channels, caps, p.user);
    assert s1.channels == s.channels;
    JoinMembership(s1.channels, c, p, Cap(caps, c), p.user);
    var s2 := After(s1, caps, Finish(p, c));
    assert (p.user, d) in s2.joining;
    assert !Full(s2.channels, d, Cap(caps, d));
    JoinMembership(s2.channels, d, p, Cap(caps, d), p.user);
  }

  lemma NobodyLeaves(channels: Channels, caps: map<ChannelId, int>, u: UserId)
    requires WellFormed(channels, caps) && In(channels, u) == {}
    ensures LeftAll(channels, u) == channels
  {
    forall c | c in channels ensures Without(channels[c], u) == channels[c] {
      assert c !in In(channels, u);
      WithoutKeeps(channels[c], u, u);
    }
  }
}
