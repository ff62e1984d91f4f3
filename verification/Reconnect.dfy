/** client/src/main/ws/client.ts and calculateReconnectDelay of shared/types/ws-protocol.ts: the WebSocket client that
    reconnects with exponential backoff. */
module Reconnect {
  import opened Wrappers

  /** The close codes that end reconnection; 4001, an expired token, does not. */
  const TOKEN_INVALID := 4002
  const BANNED := 4003

  datatype Status = Connected | Reconnecting | Disconnected

  datatype Socket = Connecting | Open

  /** The only caller builds it from a server address, so it is never empty. */
  type Url = s: string | s != "" witness "w"

  /** No limit on the attempts stands for Infinity, the default. */
  datatype Config = Config(baseDelay: real, maxDelay: real, maxAttempts: Option<nat>)

  const DEFAULT_CONFIG := Config(1000.0, 30000.0, None)

  function Exponential(base: real, attempt: nat): real {
    if attempt == 0 then base else 2.0 * Exponential(base, attempt - 1)
  }

  function Capped(c: Config, attempt: nat): real {
    if Exponential(c.baseDelay, attempt) < c.maxDelay then Exponential(c.baseDelay, attempt) else c.maxDelay
  }

  /** jitter is Math.random() */
  function CalculateReconnectDelay(attempt: nat, c: Config, jitter: real): real {
    Capped(c, attempt) + jitter * c.baseDelay
  }

  predicate IsRandom(jitter: real) { 0.0 <= jitter < 1.0 }

  /** The backoff starts at the base delay and doubles with every attempt. */
  lemma {:induction false} Doubles(base: real, attempt: nat)
    ensures Exponential(base, attempt) == base * Pow2(attempt) as real
  {
    if attempt == 0 {
    } else {
      Doubles(base, attempt - 1);
      assert Pow2(attempt) as real == 2.0 * Pow2(attempt - 1) as real;
    }
  }

  /** The delay lies within one base delay above the base delay doubled with every attempt, or above the cap. */
  lemma DelayBound(c: Config, attempt: nat, jitter: real)
    requires c.baseDelay >= 0.0 && c.maxDelay >= 0.0 && 0.0 <= jitter < 1.0
    ensures var doubled := c.baseDelay * Pow2(attempt) as real;
      var least := if doubled < c.maxDelay then doubled else c.maxDelay;
      && Capped(c, attempt) == least
      && least <= CalculateReconnectDelay(attempt, c, jitter) <= least + c.baseDelay
      && CalculateReconnectDelay(attempt, c, jitter) == least + jitter * c.baseDelay
  {
    Doubles(c.baseDelay, attempt);
    NonNegative(jitter, c.baseDelay);
    NonNegative(1.0 - jitter, c.baseDelay);
    assert (1.0 - jitter) * c.baseDelay == c.baseDelay - jitter * c.baseDelay;
    hide Exponential, Pow2;
  }

  lemma NonNegative(x: real, y: real)
    requires x >= 0.0 && y >= 0.0
    ensures x * y >= 0.0
  {
  }

  /** Later attempts never wait for a lower minimum, and the minimum never passes the cap. */
  lemma {:induction false} BackoffGrows(c: Config, a: nat, b: nat)
    requires c.baseDelay >= 0.0 && c.maxDelay >= 0.0
    requires a <= b
    ensures 0.0 <= Exponential(c.baseDelay, a) <= Exponential(c.baseDelay, b)
    ensures 0.0 <= Capped(c, a) <= Capped(c, b) <= c.maxDelay
  {
    if b == 0 {
    } else {
      BackoffGrows(c, if a == b then a - 1 else a, b - 1);
    }
  }

  // ---- the client's fields and what each callback does to them ----

  /** A timer is known by the delay it was set with. */
  datatype Client = Client(ws: Option<Socket>, url: Option<Url>, attempt: nat, timer: Option<real>, status: Status)

  const IDLE := Client(None, None, 0, None, Disconnected)

  datatype Event =
    | Connect(url: Url, throws: bool, jitter: real)
    | Disconnect
    | RetryNow(throws: bool, jitter: real)
    | Opened
    | Closed(code: nat, jitter: real)
    | TimerFires(throws: bool, jitter: real)

  function Jitter(e: Event): real {
    match e
    case Disconnect => 0.0
    case Opened => 0.0
    case _ => e.jitter
  }

  /** Callbacks come from the socket the client holds and from the timer it has set; a replaced socket is silent. */
  predicate Enabled(s: Client, e: Event) {
    && IsRandom(Jitter(e))
    && match e
       case Opened => s.ws == Some(Connecting)
       case Closed(_, _) => s.ws.Some?
       case TimerFires(_, _) => s.timer.Some?
       case _ => true
  }

  function Scheduled(c: Config, s: Client, jitter: real): Client {
    if s.url.None? then s
    else if c.maxAttempts.Some? && s.attempt >= c.maxAttempts.value then s.(status := Disconnected)
    else
      var delay := CalculateReconnectDelay(s.attempt, c, jitter);
      s.(status := Reconnecting, attempt := s.attempt + 1, timer := Some(delay))
  }

  function Dialled(c: Config, s: Client, throws: bool, jitter: real): Client {
    if s.url.None? then s
    else if throws then Scheduled(c, s.(timer := None, ws := None), jitter)
    else s.(timer := None, ws := Some(Connecting))
  }

  function After(c: Config, s: Client, e: Event): Client {
    match e
    case Connect(url, throws, jitter) => Dialled(c, s.(url := Some(url), attempt := 0), throws, jitter)
    case Disconnect => s.(url := None, timer := None, ws := None, status := Disconnected)
    case RetryNow(throws, jitter) => Dialled(c, s.(attempt := 0, timer := None), throws, jitter)
    case Opened => s.(ws := Some(Open), attempt := 0, status := Connected)
    case Closed(code, jitter) =>
      var t := s.(ws := None);
      if code == TOKEN_INVALID || code == BANNED then t.(status := Disconnected) else Scheduled(c, t, jitter)
    case TimerFires(throws, jitter) => Dialled(c, s, throws, jitter)
  }

  class WsClient {
    const config: Config
    var ws: Option<Socket>
    var url: Option<Url>
    var attempt: nat
    var reconnectTimer: Option<real>
    var status: Status

    ghost function State(): Client
      reads this
    {
      Client(ws, url, attempt, reconnectTimer, status)
    }

    constructor (config: Config)
      ensures State() == IDLE && this.config == config
    {
      this.config, ws, url, attempt, reconnectTimer, status := config, None, None, 0, None, Disconnected;
    }

    method ConnectTo(url: Url, throws: bool, jitter: real)
      modifies this
      ensures State() == After(config, old(State()), Connect(url, throws, jitter))
      ensures this.url == Some(url)
      ensures !throws ==> ws == Some(Connecting) && reconnectTimer == None && attempt == 0 && status == old(status)
      ensures throws ==>
        && ws == None
        && if config.maxAttempts == Some(0)
           then status == Disconnected && attempt == 0 && reconnectTimer == None
           else status == Reconnecting && attempt == 1
                && reconnectTimer == Some(CalculateReconnectDelay(0, config, jitter))
    {
      this.url := Some(url);
      attempt := 0;
      DoConnect(throws, jitter);
    }

    method DisconnectNow()
      modifies this
      ensures State() == After(config, old(State()), Disconnect)
      ensures url == None && reconnectTimer == None && ws == None && status == Disconnected && attempt == old(attempt)
    {
      url := None;
      reconnectTimer := None;
      if ws.Some? {
        ws := None;
      }
      status := Disconnected;
    }

    method Retry(throws: bool, jitter: real)
      modifies this
      ensures State() == After(config, old(State()), RetryNow(throws, jitter))
      ensures url == old(url)
      ensures url.None? ==> attempt == 0 && reconnectTimer == None && ws == old(ws) && status == old(status)
      ensures url.Some? && !throws ==>
        ws == Some(Connecting) && reconnectTimer == None && attempt == 0 && status == old(status)
      ensures url.Some? && throws ==>
        && ws == None
        && if config.maxAttempts == Some(0)
           then status == Disconnected && attempt == 0 && reconnectTimer == None
           else status == Reconnecting && attempt == 1
                && reconnectTimer == Some(CalculateReconnectDelay(0, config, jitter))
    {
      attempt := 0;
      reconnectTimer := None;
      DoConnect(throws, jitter);
    }

    method DoConnect(throws: bool, jitter: real)
      modifies this
      ensures State() == Dialled(config, old(State()), throws, jitter)
      ensures url == old(url) && (url.None? ==> State() == old(State()))
      ensures url.Some? && !throws ==>
        ws == Some(Connecting) && reconnectTimer == None && attempt == old(attempt) && status == old(status)
      ensures url.Some? && throws ==>
        && ws == None
        && if config.maxAttempts.Some? && old(attempt) >= config.maxAttempts.value
           then status == Disconnected && attempt == old(attempt) && reconnectTimer == None
           else status == Reconnecting && attempt == old(attempt) + 1
                && reconnectTimer == Some(CalculateReconnectDelay(old(attempt), config, jitter))
    {
      if url.None? {
        return;
      }
      reconnectTimer := None;
      if ws.Some? {
        ws := None;
      }
      if throws {
        ScheduleReconnect(jitter);
        return;
      }
      ws := Some(Connecting);
    }

    method OnOpen()
      requires ws == Some(Connecting)
      modifies this
      ensures State() == After(config, old(State()), Opened)
      ensures ws == Some(Open) && attempt == 0 && status == Connected
      ensures url == old(url) && reconnectTimer == old(reconnectTimer)
    {
      ws := Some(Open);
      attempt := 0;
      status := Connected;
    }

    method OnClose(code: nat, jitter: real)
      requires ws.Some?
      modifies this
      ensures State() == After(config, old(State()), Closed(code, jitter))
      ensures ws == None && url == old(url)
      ensures code == 4002 || code == 4003 ==>
        status == Disconnected && attempt == old(attempt) && reconnectTimer == old(reconnectTimer)
      ensures code != 4002 && code != 4003 && url.None? ==>
        status == old(status) && attempt == old(attempt) && reconnectTimer == old(reconnectTimer)
      ensures code != 4002 && code != 4003 && url.Some? ==>
        if config.maxAttempts.Some? && old(attempt) >= config.maxAttempts.value
        then status == Disconnected && attempt == old(attempt) && reconnectTimer == old(reconnectTimer)
        else status == Reconnecting && attempt == old(attempt) + 1
             && reconnectTimer == Some(CalculateReconnectDelay(old(attempt), config, jitter))
    {
      ws := None;
      if code == TOKEN_INVALID {
        status := Disconnected;
        return;
      }
      if code == BANNED {
        status := Disconnected;
        return;
      }
      if url.Some? {
        ScheduleReconnect(jitter);
      }
    }

    method ScheduleReconnect(jitter: real)
      modifies this
      ensures State() == Scheduled(config, old(State()), jitter)
      ensures url == old(url) && ws == old(ws)
      ensures url.None? ==> State() == old(State())
      ensures url.Some? && config.maxAttempts.Some? && old(attempt) >= config.maxAttempts.value ==>
        status == Disconnected && attempt == old(attempt) && reconnectTimer == old(reconnectTimer)
      ensures url.Some? && (config.maxAttempts.Some? ==> old(attempt) < config.maxAttempts.value) ==>
        && status == Reconnecting && attempt == old(attempt) + 1
        && reconnectTimer == Some(CalculateReconnectDelay(old(attempt), config, jitter))
    {
      if url.None? {
        return;
      }
      if config.maxAttempts.Some? && attempt >= config.maxAttempts.value {
        status := Disconnected;
        return;
      }
      status := Reconnecting;
      var delay := CalculateReconnectDelay(attempt, config, jitter);
      attempt := attempt + 1;
      reconnectTimer := Some(delay);
    }
  }

  // ---- what every reachable state satisfies ----

  ghost predicate Sane(c: Config, s: Client) {
    && (s.timer.Some? ==> s.ws.None? && s.status == Reconnecting)
    && (s.status == Connected ==> s.ws.Some?)
    && (s.ws == Some(Open) ==> s.status == Connected)
    && (s.status == Reconnecting ==> s.timer.Some? || s.ws.Some?)
    && (s.url.None? ==> s.ws.None? && s.timer.None? && s.status == Disconnected)
    && (c.maxAttempts.Some? ==> s.attempt <= c.maxAttempts.value)
    && (s.timer.Some? ==>
          s.attempt > 0 && Capped(c, s.attempt - 1) <= s.timer.value <= Capped(c, s.attempt - 1) + c.baseDelay)
  }

  predicate Legal(c: Config, s: Client, es: seq<Event>)
    decreases |es|
  {
    es == [] || (Enabled(s, es[0]) && Legal(c, After(c, s, es[0]), es[1..]))
  }

  function Final(c: Config, s: Client, es: seq<Event>): Client
    decreases |es|
  {
    if es == [] then s else Final(c, After(c, s, es[0]), es[1..])
  }

  /** The object after the callbacks of a legal run is in the run's last state. */
  method Replay(client: WsClient, es: seq<Event>)
    requires Legal(client.config, client.State(), es)
    modifies client
    ensures client.State() == Final(client.config, old(client.State()), es)
  {
    ghost var s := client.State();
    assert es[0..] == es;
    var i := 0;
    while i < |es|
      invariant 0 <= i <= |es| && Legal(client.config, client.State(), es[i..])
      invariant Final(client.config, client.State(), es[i..]) == Final(client.config, s, es)
    {
      var e := es[i];
      assert es[i..][0] == e && es[i..][1..] == es[i + 1..];
      hide Scheduled, CalculateReconnectDelay, Capped;
      match e {
        case Connect(url, throws, jitter) => client.ConnectTo(url, throws, jitter);
        case Disconnect => client.DisconnectNow();
        case RetryNow(throws, jitter) => client.Retry(throws, jitter);
        case Opened => client.OnOpen();
        case Closed(code, jitter) => client.OnClose(code, jitter);
        case TimerFires(throws, jitter) => client.DoConnect(throws, jitter);
      }
      i := i + 1;
    }
  }

  /** When a run may go on: the jitter is random, and the callback is one of a socket or timer that the client holds. */
  lemma {:induction false} RunGoesOn(c: Config, s: Client, es: seq<Event>, e: Event)
    ensures Legal(c, s, []) && Final(c, s, []) == s
    ensures var t := Final(c, s, es);
      Legal(c, s, es + [e]) <==>
        && Legal(c, s, es)
        && (e.Connect? || e.RetryNow? || e.Closed? || e.TimerFires? ==> 0.0 <= e.jitter < 1.0)
        && (e.Opened? ==> t.ws == Some(Connecting))
        && (e.Closed? ==> t.ws.Some?)
        && (e.TimerFires? ==> t.timer.Some?)
    ensures Final(c, s, es + [e]) == After(c, Final(c, s, es), e)
    decreases |es|
  {
    var all := es + [e];
    hide After;
    if es == [] {
      assert all[1..] == [];
    } else {
      assert all[1..] == es[1..] + [e];
      RunGoesOn(c, After(c, s, es[0]), es[1..], e);
    }
  }

  lemma IdleIsSane(c: Config)
    ensures Sane(c, IDLE) && DEFAULT_CONFIG.baseDelay >= 0.0 && DEFAULT_CONFIG.maxDelay >= 0.0
  {
  }

  lemma ScheduleIsSane(c: Config, s: Client, jitter: real)
    requires c.baseDelay >= 0.0 && c.maxDelay >= 0.0
    requires IsRandom(jitter) && s.ws.None? && s.timer.None? && s.url.Some?
    requires c.maxAttempts.Some? ==> s.attempt <= c.maxAttempts.value
    ensures Sane(c, Scheduled(c, s, jitter))
  {
    DelayBound(c, s.attempt, jitter);
    hide Capped, CalculateReconnectDelay;
  }

  lemma StepIsSane(c: Config, s: Client, e: Event)
    requires c.baseDelay >= 0.0 && c.maxDelay >= 0.0
    requires Sane(c, s) && Enabled(s, e)
    ensures Sane(c, After(c, s, e))
  {
    hide Capped, Scheduled, CalculateReconnectDelay;
    var jitter := Jitter(e);
    match e
    case Connect(url, throws, _) =>
      ScheduleIsSane(c, Client(None, Some(url), 0, None, s.status), jitter);
    case RetryNow(throws, _) =>
      if s.url.Some? {
        ScheduleIsSane(c, Client(None, s.url, 0, None, s.status), jitter);
      }
    case Closed(_, _) => ScheduleIsSane(c, s.(ws := None), jitter);
    case TimerFires(_, _) => ScheduleIsSane(c, s.(timer := None), jitter);
    case _ =>
  }

  /** In every reachable state a pending timer means no socket and a client that says it is reconnecting, a client that
      says so is waiting for one of the two, a client without a url is idle, and the timer's delay lies within one base
      delay above the capped backoff of its attempt. */
  lemma {:induction false} EveryRunIsSane(c: Config, s: Client, es: seq<Event>)
    requires c.baseDelay >= 0.0 && c.maxDelay >= 0.0
    requires Sane(c, s) && Legal(c, s, es)
    ensures Sane(c, Final(c, s, es))
    ensures var t := Final(c, s, es);
      && (t.timer.Some? ==> t.ws.None? && t.status == Reconnecting && t.attempt > 0)
      && (t.status == Connected ==> t.ws.Some?) && (t.ws == Some(Open) ==> t.status == Connected)
      && (t.status == Reconnecting ==> t.timer.Some? || t.ws.Some?)
      && (t.url.None? ==> t.ws.None? && t.timer.None? && t.status == Disconnected)
      && (c.maxAttempts.Some? ==> t.attempt <= c.maxAttempts.value)
    decreases |es|
  {
    if es == [] {
    } else {
      StepIsSane(c, s, es[0]);
      EveryRunIsSane(c, After(c, s, es[0]), es[1..]);
    }
  }

  /** "Connected" can be said of a socket that has not opened: exactly after dialling again while connected. */
  lemma ConnectedBeforeOpen(c: Config, s: Client, e: Event)
    requires Sane(c, s) && Enabled(s, e) && (s.status == Connected ==> s.ws == Some(Open))
    ensures After(c, s, e).status == Connected && After(c, s, e).ws != Some(Open) <==>
      s.status == Connected && (e.Connect? || e.RetryNow?) && !e.throws
  {
    hide Capped;
  }

  // ---- giving up ----

  function Timers(es: seq<Event>): nat {
    if es == [] then 0 else (if es[0].TimerFires? then 1 else 0) + Timers(es[1..])
  }

  /** The timers the client can still go through before it gives up. */
  function Left(c: Config, s: Client): int
    requires c.maxAttempts.Some?
  {
    c.maxAttempts.value - s.attempt + if s.timer.Some? then 1 else 0
  }

  /** However connection attempts fail while nothing opens and nobody intervenes, at most that many timers fire
      before nothing more happens, and then the client says it is disconnected; it is exactly that many unless the
      server refuses the user for good. */
  lemma {:induction false} FailuresGiveUp(c: Config, s: Client, es: seq<Event>)
    requires c.baseDelay >= 0.0 && c.maxDelay >= 0.0
    requires c.maxAttempts.Some? && Sane(c, s) && s.url.Some? && Legal(c, s, es)
    requires forall i :: 0 <= i < |es| ==> es[i].Closed? || es[i].TimerFires?
    ensures Timers(es) <= Left(c, s) && |es| <= 2 * Left(c, s) + if s.ws.Some? then 1 else 0
    ensures var t := Final(c, s, es);
      && (t.ws.None? && t.timer.None? ==> t.status == Disconnected)
      && (t.ws.None? && t.timer.None? && (s.ws.Some? || s.timer.Some?) ==>
            (forall i :: 0 <= i < |es| && es[i].Closed? ==> es[i].code != 4002 && es[i].code != 4003) ==>
              Timers(es) == Left(c, s))
    decreases |es|
  {
    if es == [] {
    } else {
      var t := After(c, s, es[0]);
      StepIsSane(c, s, es[0]);
      hide Capped, CalculateReconnectDelay, Exponential;
      assert forall i :: 0 <= i < |es[1..]| ==> es[1..][i] == es[i + 1];
      FailuresGiveUp(c, t, es[1..]);
      NothingLeft(c, t, es[1..]);
    }
  }

  lemma NothingLeft(c: Config, s: Client, es: seq<Event>)
    requires Legal(c, s, es) && forall i :: 0 <= i < |es| ==> es[i].Closed? || es[i].TimerFires?
    ensures s.ws.None? && s.timer.None? ==> es == []
  {
    hide After;
    assert es != [] ==> Enabled(s, es[0]) && (es[0].Closed? || es[0].TimerFires?);
  }

  /** From a fresh connect on: no more timers than attempts, the k-th of them after its own backoff. */
  lemma ConnectGivesUp(c: Config, s: Client, url: Url, throws: bool, jitter: real, es: seq<Event>)
    requires c.baseDelay >= 0.0 && c.maxDelay >= 0.0
    requires c.maxAttempts.Some? && Sane(c, s) && IsRandom(jitter)
    requires Legal(c, After(c, s, Connect(url, throws, jitter)), es)
    requires forall i :: 0 <= i < |es| ==> es[i].Closed? || es[i].TimerFires?
    ensures Timers(es) <= c.maxAttempts.value
    ensures var t := Final(c, After(c, s, Connect(url, throws, jitter)), es);
      t.ws.None? && t.timer.None? ==> t.status == Disconnected
  {
    StepIsSane(c, s, Connect(url, throws, jitter));
    hide Capped, CalculateReconnectDelay;
    FailuresGiveUp(c, After(c, s, Connect(url, throws, jitter)), es);
  }
}
