/** client/src/main/p2p/gossipsub.ts: the Lamport counter of publishMessage and setupMessageHandler, and the order
    it gives to the messages of any number of nodes over an unreliable network. */
module Gossip {
  import opened Doubles
  import opened Wrappers

  const MAX_ENVELOPE_SIZE := 60 * 1024
  const PUBKEY_SIZE := 32
  const SIGNATURE_SIZE := 64

  datatype Envelope = Envelope(senderPubkey: Bytes, signature: Bytes, topic: string, messageType: nat,
                               sequenceHint: nat, payload: Bytes)

  datatype TopicStats = TopicStats(messageCount: nat, lastReceived: Option<int>)

  /** The counter, a double, after sending, and after accepting a message with the given hint, any uint64. */
  function TickPublish(c: nat): nat { Increment(c) }

  function TickReceive(c: nat, hint: nat): nat {
    Increment(if c >= Round(hint) then c else Round(hint))
  }

  class GossipNode {
    /** Ed25519 over the envelope without sender and signature. */
    const sign: Envelope -> Bytes
    const verify: Envelope -> bool
    /** Length of the protobuf encoding. */
    const size: Envelope -> nat
    var lamport: nat
    var stats: map<string, TopicStats>

    constructor (sign: Envelope -> Bytes, verify: Envelope -> bool, size: Envelope -> nat)
      ensures lamport == 0 && stats == map[] && this.sign == sign && this.verify == verify && this.size == size
    {
      this.sign, this.verify, this.size := sign, verify, size;
      lamport, stats := 0, map[];
    }

    /** Subscribing again keeps the statistics that are there. */
    method Subscribe(topic: string)
      modifies this
      ensures lamport == old(lamport)
      ensures stats == if topic in old(stats) then old(stats) else old(stats)[topic := TopicStats(0, None)]
    {
      if topic !in stats {
        stats := stats[topic := TopicStats(0, None)];
      }
    }

    method Unsubscribe(topic: string)
      modifies this
      ensures lamport == old(lamport) && stats == old(stats) - {topic}
    {
      stats := stats - {topic};
    }

    /** The counter moves even when the envelope turns out too large to send. */
    method PublishMessage(topic: string, messageType: nat, payload: Bytes, publicKey: Bytes)
      returns (r: Result<Envelope, string>)
      modifies this
      ensures lamport == Increment(old(lamport)) && stats == old(stats)
      ensures var signed := Envelope([], [], topic, messageType, lamport, payload);
              var envelope := signed.(senderPubkey := publicKey, signature := sign(signed));
              && (r.Ok? <==> size(envelope) <= 60 * 1024)
              && (r.Ok? ==> r.value == envelope)
    {
      lamport := Increment(lamport);
      var forSigning := Envelope([], [], topic, messageType, lamport, payload);
      var envelope := forSigning.(senderPubkey := publicKey, signature := sign(forSigning));
      if size(envelope) > MAX_ENVELOPE_SIZE {
        return Err("Gossip envelope too large");
      }
      r := Ok(envelope);
    }

    /** None stands for bytes that do not decode. Rejected messages change nothing; accepted ones are forwarded with the
        hint as a double. */
    method HandleMessage(topic: string, data: Option<Envelope>, now: int) returns (forwarded: Option<Envelope>)
      modifies this
      ensures forwarded.Some? <==>
        data.Some? && |data.value.senderPubkey| == 32 && |data.value.signature| == 64 && verify(data.value)
      ensures forwarded.Some? ==>
        var hint := Round(data.value.sequenceHint);
        && forwarded.value == data.value.(sequenceHint := hint)
        && lamport == Increment(if old(lamport) >= hint then old(lamport) else hint)
      ensures forwarded.None? ==> lamport == old(lamport)
      ensures stats ==
        if forwarded.None? || topic !in old(stats) then old(stats)
        else old(stats)[topic := TopicStats(old(stats)[topic].messageCount + 1, Some(now))]
    {
      if data.None? {
        return None;
      }
      var envelope := data.value;
      if |envelope.senderPubkey| != PUBKEY_SIZE || |envelope.signature| != SIGNATURE_SIZE {
        return None;
      }
      if !verify(envelope) {
        return None;
      }
      var receivedHint := Round(envelope.sequenceHint);
      lamport := Increment(if lamport >= receivedHint then lamport else receivedHint);
      if topic in stats {
        stats := stats[topic := TopicStats(stats[topic].messageCount + 1, Some(now))];
      }
      forwarded := Some(envelope.(sequenceHint := receivedHint));
    }

    method ClearTopicStats()
      modifies this
      ensures lamport == 0 && stats == map[]
    {
      stats := map[];
      lamport := 0;
    }
  }

  // ---- runs of many nodes ----

  type Node = nat

  /** Receive names the earlier Publish whose message arrives: a message may arrive at any node, any number of
      times, in any order, or never. Foreign is a verified message of a peer that follows no rule at all. */
  datatype Event =
    | Publish(node: Node, sent: bool)
    | Receive(node: Node, source: nat)
    | Foreign(node: Node, hint: nat)
    | Discard(node: Node)
    | Reset(node: Node)

  ghost predicate ValidRun(run: seq<Event>) {
    forall j :: 0 <= j < |run| && run[j].Receive? ==>
      run[j].source < j && run[run[j].source].Publish? && run[run[j].source].sent
  }

  /** The counter of node n after the first i events. */
  function Counter(run: seq<Event>, i: nat, n: Node): nat
    requires i <= |run| && forall j :: 0 <= j < |run| && run[j].Receive? ==> run[j].source < j
    decreases i
  {
    if i == 0 then 0
    else
      var c := Counter(run, i - 1, n);
      if run[i - 1].node != n then c
      else
        match run[i - 1]
        case Publish(_, _) => TickPublish(c)
        case Receive(_, source) => TickReceive(c, Counter(run, source + 1, run[source].node))
        case Foreign(_, hint) => TickReceive(c, hint)
        case Discard(_) => c
        case Reset(_) => 0
  }

  /** The counter an event leaves at its own node; for a Publish, the hint it sends. */
  ghost function Time(run: seq<Event>, i: nat): nat
    requires i < |run| && ValidRun(run)
  {
    Counter(run, i + 1, run[i].node)
  }

  /** i is followed by j at one node with no reset after i, or j receives what i published. */
  ghost predicate Edge(run: seq<Event>, i: nat, j: nat)
    requires i < j < |run|
  {
    || (run[i].node == run[j].node && forall k :: i < k <= j ==> run[k] != Reset(run[i].node))
    || (run[j].Receive? && run[j].source == i)
  }

  /** Happens-before: the transitive closure of Edge. */
  ghost predicate Before(run: seq<Event>, i: nat, j: nat)
    decreases j - i
  {
    i < j < |run| && (Edge(run, i, j) || exists k :: i < k < j && Edge(run, i, k) && Before(run, k, j))
  }

  /** What happens before what: an event of a node before its later ones up to a reset, a message's sending before its
      arrivals, and whatever follows from these. */
  lemma {:induction false} HappensBefore(run: seq<Event>, i: nat, j: nat, k: nat)
    ensures i < j < |run| && run[i].node == run[j].node && (forall m :: i < m <= j ==> run[m] != Reset(run[i].node)) ==>
      Before(run, i, j)
    ensures i < j < |run| && run[j].Receive? && run[j].source == i ==> Before(run, i, j)
    ensures Before(run, i, j) && Before(run, j, k) ==> Before(run, i, k)
    decreases j - i
  {
    if Before(run, i, j) && Before(run, j, k) && !Edge(run, i, j) {
      var m :| i < m < j && Edge(run, i, m) && Before(run, m, j);
      HappensBefore(run, m, j, k);
    }
  }

  /** Any event may come next, but a message arrives only after it has been sent. */
  lemma RunGoesOn(run: seq<Event>, e: Event)
    ensures ValidRun([])
    ensures ValidRun(run + [e]) <==>
      ValidRun(run) && (e.Receive? ==> e.source < |run| && run[e.source].Publish? && run[e.source].sent)
  {
    var all := run + [e];
    assert all[|run|] == e && forall j :: 0 <= j < |run| ==> all[j] == run[j];
  }

  lemma TickReceiveIs(c: nat, hint: nat)
    requires IsDouble(c)
    ensures IsDouble(TickReceive(c, hint)) && TickReceive(c, hint) >= c && TickReceive(c, hint) >= Round(hint)
    ensures c < EXACT ==> TickReceive(c, hint) > c
    ensures c < EXACT && hint < EXACT ==> TickReceive(c, hint) == (if c >= hint then c else hint) + 1
    ensures c >= EXACT || hint >= EXACT ==> TickReceive(c, hint) >= EXACT
  {
    RoundIsDouble(hint);
    if hint >= EXACT {
      LargeStaysLarge(hint);
    }
    IncrementIs(if c >= Round(hint) then c else Round(hint));
  }

  lemma {:induction false} CounterIsDouble(run: seq<Event>, i: nat, n: Node)
    requires ValidRun(run) && i <= |run|
    ensures IsDouble(Counter(run, i, n))
  {
    hide Increment, Round, Ulp, IsDouble, TickReceive;
    if i == 0 {
      RoundIsDouble(0);
      assert Round(0) == 0;
    } else {
      var c := Counter(run, i - 1, n);
      CounterIsDouble(run, i - 1, n);
      IncrementIs(c);
      RoundIsDouble(0);
      match run[i - 1] {
        case Receive(_, source) => TickReceiveIs(c, Counter(run, source + 1, run[source].node));
        case Foreign(_, hint) => TickReceiveIs(c, hint);
        case _ =>
      }
    }
  }

  /** Between resets a node's counter never falls, and every event that ticks raises it while it is exact. */
  lemma {:induction false} CounterClimbs(run: seq<Event>, i: nat, j: nat, n: Node)
    requires ValidRun(run) && i <= j <= |run|
    requires forall k :: i <= k < j ==> run[k] != Reset(n)
    ensures Counter(run, i, n) <= Counter(run, j, n)
    ensures i < j && run[j - 1].node == n && !run[j - 1].Discard? && !run[j - 1].Reset? ==>
      (Counter(run, j - 1, n) < EXACT ==> Counter(run, i, n) < Counter(run, j, n))
    decreases j
  {
    if i == j {
    } else {
      var c := Counter(run, j - 1, n);
      CounterClimbs(run, i, j - 1, n);
      CounterIsDouble(run, j - 1, n);
      IncrementIs(c);
      hide Increment, Round, Ulp, IsDouble, TickReceive;
      match run[j - 1] {
        case Receive(_, source) => TickReceiveIs(c, Counter(run, source + 1, run[source].node));
        case Foreign(_, hint) => TickReceiveIs(c, hint);
        case _ =>
      }
    }
  }

  /** Along an edge the counter does not fall, and what leads to a publication is within the counter it starts from. */
  lemma EdgeIncreases(run: seq<Event>, i: nat, j: nat)
    requires ValidRun(run) && i < j < |run| && Edge(run, i, j)
    ensures Time(run, i) <= Time(run, j)
    ensures run[j].Publish? ==> Time(run, i) <= Counter(run, j, run[j].node)
  {
    hide Increment, Round, Ulp, IsDouble, TickReceive;
    var n := run[j].node;
    if run[i].node == n && forall k :: i < k <= j ==> run[k] != Reset(run[i].node) {
      CounterClimbs(run, i + 1, j, n);
      CounterClimbs(run, i + 1, j + 1, n);
    } else {
      CounterIsDouble(run, j, n);
      CounterIsDouble(run, i + 1, run[i].node);
      RoundIsDouble(Time(run, i));
      TickReceiveIs(Counter(run, j, n), Time(run, i));
    }
  }

  lemma {:induction false} BeforeIncreases(run: seq<Event>, i: nat, j: nat)
    requires ValidRun(run) && Before(run, i, j)
    ensures Time(run, i) <= Time(run, j)
    ensures run[j].Publish? ==> Time(run, i) <= Counter(run, j, run[j].node)
    decreases j - i
  {
    if Edge(run, i, j) {
      EdgeIncreases(run, i, j);
    } else {
      var k :| i < k < j && Edge(run, i, k) && Before(run, k, j);
      EdgeIncreases(run, i, k);
      BeforeIncreases(run, k, j);
    }
  }

  /** If publishing m happens before publishing m', then m never carries the larger hint, whatever is lost, repeated or
      reordered and whatever hints other peers send; and it carries the smaller one if the second sender's counter was
      still exact. */
  lemma HintsFollowCausality(run: seq<Event>, m: nat, m': nat)
    requires ValidRun(run) && Before(run, m, m') && run[m].Publish? && run[m'].Publish?
    ensures Time(run, m) <= Time(run, m')
    ensures Counter(run, m', run[m'].node) < EXACT ==> Time(run, m) < Time(run, m')
  {
    BeforeIncreases(run, m, m');
    CounterIsDouble(run, m', run[m'].node);
    IncrementIs(Counter(run, m', run[m'].node));
  }

  lemma {:induction false} ModestCounters(run: seq<Event>, i: nat, n: Node)
    requires ValidRun(run) && i <= |run|
    requires |run| <= 0x20_0000_0000_0000
    requires forall j :: 0 <= j < |run| && run[j].Foreign? ==> run[j].hint + |run| <= 0x20_0000_0000_0000
    ensures Counter(run, i, n) <= EXACT - |run| + i
    decreases i
  {
    if i == 0 {
    } else {
      var c := Counter(run, i - 1, n);
      ModestCounters(run, i - 1, n);
      CounterIsDouble(run, i - 1, n);
      IncrementIs(c);
      hide Increment, Round, Ulp, IsDouble, TickReceive;
      match run[i - 1] {
        case Receive(_, source) =>
          ModestCounters(run, source + 1, run[source].node);
          TickReceiveIs(c, Counter(run, source + 1, run[source].node));
        case Foreign(_, hint) => TickReceiveIs(c, hint);
        case _ =>
      }
    }
  }

  /** In every run whose foreign hints all leave at least the length of the run up to 2 to the 53, happening
      before means carrying the smaller hint. */
  lemma ModestHintsFollowCausality(run: seq<Event>, m: nat, m': nat)
    requires ValidRun(run) && Before(run, m, m') && run[m].Publish? && run[m'].Publish?
    requires |run| <= 0x20_0000_0000_0000
    requires forall j :: 0 <= j < |run| && run[j].Foreign? ==> run[j].hint + |run| <= 0x20_0000_0000_0000
    ensures Time(run, m) < Time(run, m')
  {
    HintsFollowCausality(run, m, m');
    ModestCounters(run, m', run[m'].node);
  }

  lemma {:induction false} CounterOfPrefix(run: seq<Event>, more: seq<Event>, i: nat, n: Node)
    requires ValidRun(run) && ValidRun(run + more) && i <= |run|
    ensures Counter(run + more, i, n) == Counter(run, i, n)
    decreases i
  {
    hide Increment, Round, Ulp, TickReceive;
    if i == 0 {
    } else {
      var e := run[i - 1];
      assert (run + more)[i - 1] == e;
      CounterOfPrefix(run, more, i - 1, n);
      if e.Receive? {
        assert (run + more)[e.source] == run[e.source];
        CounterOfPrefix(run, more, e.source + 1, run[e.source].node);
      }
    }
  }

  /** After any run, a node that sends twice gives its messages different hints exactly while its counter is below the
      last exact step: from there on even its own messages are no longer ordered. */
  lemma OrderEndsAtTheLimit(run: seq<Event>, n: Node)
    requires ValidRun(run)
    ensures var more := run + [Publish(n, true), Publish(n, true)];
      && ValidRun(more)
      && (Time(more, |run|) < Time(more, |run| + 1) <==> Counter(run, |run|, n) + 1 < EXACT)
  {
    hide Increment, Round, Ulp, IsDouble;
    var more := run + [Publish(n, true), Publish(n, true)];
    CounterOfPrefix(run, [Publish(n, true), Publish(n, true)], |run|, n);
    CounterIsDouble(run, |run|, n);
    TwoIncrements(Counter(run, |run|, n));
    assert more[|run|] == Publish(n, true) && more[|run| + 1] == Publish(n, true);
    assert Counter(more, |run| + 1, n) == TickPublish(Counter(run, |run|, n));
    assert Counter(more, |run| + 2, n) == TickPublish(Counter(more, |run| + 1, n));
  }

  /** One verified foreign message ends it exactly when its hint comes that close to 2 to the 53. */
  lemma ForeignHintEndsOrderIff(run: seq<Event>, n: Node, hint: nat)
    requires ValidRun(run) && Counter(run, |run|, n) + 2 < EXACT
    ensures var more := run + [Foreign(n, hint)] + [Publish(n, true), Publish(n, true)];
      && ValidRun(more)
      && (Time(more, |run| + 1) < Time(more, |run| + 2) <==> hint + 2 < EXACT)
  {
    var got := run + [Foreign(n, hint)];
    CounterOfPrefix(run, [Foreign(n, hint)], |run|, n);
    CounterIsDouble(run, |run|, n);
    TickReceiveIs(Counter(run, |run|, n), hint);
    OrderEndsAtTheLimit(got, n);
    hide Increment, Round, TickReceive;
    assert got[|run|] == Foreign(n, hint);
    assert Counter(got, |run| + 1, n) == TickReceive(Counter(run, |run|, n), hint);
  }

  /** The counter is reset when a node shuts down: the first message after a reset never carries a larger hint than any
      message the node has sent before, so the order needs that there is no reset in between. */
  lemma ResetLosesOrder(run: seq<Event>, i: nat, n: Node)
    requires ValidRun(run) && i < |run| && run[i].Publish? && run[i].node == n
    ensures var more := run + [Reset(n), Publish(n, true)];
      && ValidRun(more)
      && Time(more, |run| + 1) <= Time(more, i)
  {
    var last := [Reset(n), Publish(n, true)];
    var more := run + last;
    CounterOfPrefix(run, last, i, n);
    CounterIsDouble(run, i, n);
    IncrementIs(Counter(run, i, n));
    RoundIsDouble(0);
    IncrementIs(0);
    hide Increment, Round, TickReceive;
    assert more[i] == run[i] && more[|run|] == Reset(n) && more[|run| + 1] == Publish(n, true);
    assert Counter(more, |run| + 1, n) == 0;
    assert Counter(more, |run| + 2, n) == TickPublish(0) == 1;
    assert Counter(more, i + 1, n) == TickPublish(Counter(run, i, n));
  }

  /** A node that handles its part of a run holds exactly the counter of the run. */
  method Replay(run: seq<Event>, n: Node, envelope: Envelope) returns (c: nat)
    requires ValidRun(run)
    requires |envelope.senderPubkey| == PUBKEY_SIZE && |envelope.signature| == SIGNATURE_SIZE
    ensures c == Counter(run, |run|, n)
  {
    var node := new GossipNode(_ => [], _ => true, _ => 0);
    for i := 0 to |run|
      invariant node.lamport == Counter(run, i, n) && fresh(node)
      invariant forall e :: node.verify(e)
    {
      if run[i].node == n {
        match run[i] {
          case Publish(_, _) =>
            var _ := node.PublishMessage("t", 0, [], []);
          case Receive(_, source) =>
            var hint := Counter(run, source + 1, run[source].node);
            var _ := node.HandleMessage("t", Some(envelope.(sequenceHint := hint)), 0);
          case Foreign(_, hint) =>
            var _ := node.HandleMessage("t", Some(envelope.(sequenceHint := hint)), 0);
          case Discard(_) =>
            var _ := node.HandleMessage("t", None, 0);
          case Reset(_) =>
            node.ClearTopicStats();
        }
      }
    }
    c := node.lamport;
  }
}
