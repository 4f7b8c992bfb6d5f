/**
 * Broker topology and the retry ladder (shared/src/bus-topology.ts, shared/src/consumer-dlq.ts, and the consumer
 * in audit/src/messaging/rabbitmq.service.ts that uses them).
 */
module BusTopology {
  import opened Wrappers
  import Text

  const X_DEAD_LETTER_EXCHANGE := "x-dead-letter-exchange"
  const X_DEAD_LETTER_ROUTING_KEY := "x-dead-letter-routing-key"
  const X_MESSAGE_TTL := "x-message-ttl"
  const X_RETRY_COUNT := "x-retry-count"
  const X_ORIGINAL_ROUTING_KEY := "x-original-routing-key"

  /** The constants the module reads from its environment: the namespaced main exchange and the back-off delays. */
  datatype Platform = Platform(mainExchange: string, levels: seq<int>)

  function Dlx(exchange: string): string { exchange + ".dlx" }

  function Dlq(queue: string): string { queue + ".dlq" }

  function RetryQueue(queue: string, level: nat): string { queue + ".retry." + Text.Decimal(level) }

  function RetryDelayMs(p: Platform, level: nat): int
    requires p.levels != []
  {
    p.levels[if level < |p.levels| - 1 then level else |p.levels| - 1]
  }

  // ---------------------------------------------------------------- the broker

  datatype Arg = Num(n: int) | Str(s: string)

  type Args = map<string, Arg>

  datatype Binding = Binding(queue: string, source: string, pattern: string)

  /** Declared exchanges with their type, queues with their arguments, and bindings; everything is durable. */
  datatype Broker = Broker(exchanges: map<string, string>, queues: map<string, Args>, bindings: set<Binding>)

  const EMPTY := Broker(map[], map[], {})

  datatype Decl =
    | Exchange(name: string, typ: string)
    | Queue(name: string, args: Args)
    | Bind(b: Binding)

  /** Declaring again with the same type or arguments changes nothing; with others it is a 406. */
  predicate Accepts(b: Broker, d: Decl) {
    match d
    case Exchange(name, typ) => name in b.exchanges ==> b.exchanges[name] == typ
    case Queue(name, args) => name in b.queues ==> b.queues[name] == args
    case Bind(bind) => bind.queue in b.queues && bind.source in b.exchanges
  }

  function Declare(b: Broker, d: Decl): Broker {
    match d
    case Exchange(name, typ) => b.(exchanges := b.exchanges[name := typ])
    case Queue(name, args) => b.(queues := b.queues[name := args])
    case Bind(bind) => b.(bindings := b.bindings + {bind})
  }

  predicate Holds(b: Broker, d: Decl) {
    match d
    case Exchange(name, typ) => name in b.exchanges && b.exchanges[name] == typ
    case Queue(name, args) => name in b.queues && b.queues[name] == args
    case Bind(bind) => bind in b.bindings
  }

  /** Declares in order and stops at the first refusal. */
  function DeclareAll(b: Broker, ds: seq<Decl>): (r: (Broker, bool))
    decreases |ds|
  {
    if ds == [] then (b, true)
    else if Accepts(b, ds[0]) then DeclareAll(Declare(b, ds[0]), ds[1..])
    else (b, false)
  }

  /** What the broker refuses: another type, other arguments, a binding without one of its ends. */
  lemma RefusedExactlyWhen(b: Broker, d: Decl)
    ensures !Accepts(b, d) <==>
            match d
            case Exchange(name, typ) => name in b.exchanges && b.exchanges[name] != typ
            case Queue(name, args) => name in b.queues && b.queues[name] != args
            case Bind(x) => x.queue !in b.queues || x.source !in b.exchanges
  {
  }

  datatype Options = Options(routingKeys: seq<string>, withRetryQueues: bool, queueArguments: Args)

  function WorkArgs(p: Platform, o: Options): Args {
    map[X_DEAD_LETTER_EXCHANGE := Str(Dlx(p.mainExchange))] + o.queueArguments
  }

  function RetryArgs(p: Platform, queue: string, level: nat): Args
    requires p.levels != []
  {
    map[X_MESSAGE_TTL := Num(RetryDelayMs(p, level)), X_DEAD_LETTER_EXCHANGE := Str(""),
        X_DEAD_LETTER_ROUTING_KEY := Str(queue)]
  }

  function RetryDecls(p: Platform, queue: string, n: nat): seq<Decl>
    requires p.levels != []
  {
    seq(n, level requires 0 <= level => Queue(RetryQueue(queue, level), RetryArgs(p, queue, level)))
  }

  function KeyDecls(queue: string, exchange: string, keys: seq<string>): seq<Decl> {
    seq(|keys|, i requires 0 <= i < |keys| => Bind(Binding(queue, exchange, keys[i])))
  }

  /** Everything one consumer declares, in order. */
  function ConsumerDecls(p: Platform, queue: string, o: Options, exchange: string): seq<Decl>
    requires p.levels != []
  {
    [Exchange(exchange, "topic"), Exchange(Dlx(p.mainExchange), "fanout"),
     Queue(Dlq(queue), map[]), Bind(Binding(Dlq(queue), Dlx(p.mainExchange), ""))]
    + (if o.withRetryQueues then RetryDecls(p, queue, |p.levels|) else [])
    + [Queue(queue, WorkArgs(p, o))]
    + KeyDecls(queue, exchange, o.routingKeys)
  }

  /** An AMQP channel; after a refusal it is closed, which `ok == false` reports to the caller. */
  class Channel {
    var broker: Broker

    constructor (b: Broker)
      ensures broker == b
    {
      broker := b;
    }

    method Assert(d: Decl) returns (ok: bool)
      modifies this
      ensures ok <==> Accepts(old(broker), d)
      ensures broker == if ok then Declare(old(broker), d) else old(broker)
    {
      ok := Accepts(broker, d);
      if ok {
        broker := Declare(broker, d);
      }
    }

    method AssertConsumerTopology(p: Platform, queue: string, o: Options, exchange: string) returns (ok: bool)
      requires p.levels != []
      modifies this
      ensures (broker, ok) == DeclareAll(old(broker), ConsumerDecls(p, queue, o, exchange))
    {
      var head := [Exchange(exchange, "topic"), Exchange(Dlx(p.mainExchange), "fanout"),
                   Queue(Dlq(queue), map[]), Bind(Binding(Dlq(queue), Dlx(p.mainExchange), ""))];
      var retries := if o.withRetryQueues then RetryDecls(p, queue, |p.levels|) else [];
      var work := [Queue(queue, WorkArgs(p, o))];
      var keys := KeyDecls(queue, exchange, o.routingKeys);
      DeclareAppend(broker, head + retries + work, keys);
      DeclareAppend(broker, head + retries, work);
      DeclareAppend(broker, head, retries);
      ok := AssertEach(head);
      if ok && o.withRetryQueues {
        var level := 0;
        ghost var start := broker;
        while ok && level < |p.levels|
          invariant 0 <= level <= |p.levels|
          invariant DeclareAll(start, retries) == if ok then DeclareAll(broker, retries[level..]) else (broker, false)
        {
          assert retries[level..][1..] == retries[level + 1..];
          ok := Assert(Queue(RetryQueue(queue, level), RetryArgs(p, queue, level)));
          level := level + 1;
        }
      }
      if ok {
        ok := AssertEach(work);
      }
      if ok {
        ok := AssertEach(keys);
      }
    }

    method AssertEach(ds: seq<Decl>) returns (ok: bool)
      modifies this
      ensures (broker, ok) == DeclareAll(old(broker), ds)
    {
      ok := true;
      var i := 0;
      while ok && i < |ds|
        invariant 0 <= i <= |ds|
        invariant DeclareAll(old(broker), ds) == if ok then DeclareAll(broker, ds[i..]) else (broker, false)
      {
        assert ds[i..][1..] == ds[i + 1..];
        ok := Assert(ds[i]);
        i := i + 1;
      }
    }
  }

  lemma {:induction false} DeclareAppend(b: Broker, first: seq<Decl>, second: seq<Decl>)
    ensures DeclareAll(b, first + second) ==
            if DeclareAll(b, first).1 then DeclareAll(DeclareAll(b, first).0, second) else DeclareAll(b, first)
    decreases |first|
  {
    if first == [] {
      assert first + second == second;
    } else {
      assert (first + second)[1..] == first[1..] + second;
      if Accepts(b, first[0]) {
        DeclareAppend(Declare(b, first[0]), first[1..], second);
      }
    }
  }

  /** Nothing that was declared is ever taken back or redeclared differently. */
  lemma {:induction false} DeclareKeeps(b: Broker, ds: seq<Decl>)
    ensures forall d :: Holds(b, d) ==> Holds(DeclareAll(b, ds).0, d)
    decreases |ds|
  {
    if ds != [] && Accepts(b, ds[0]) {
      DeclareKeeps(Declare(b, ds[0]), ds[1..]);
    }
  }

  /** When nothing was refused, every declaration of the list is in force as written. */
  lemma {:induction false} AcceptedAreInForce(b: Broker, ds: seq<Decl>, i: nat)
    requires DeclareAll(b, ds).1 && i < |ds|
    ensures Holds(DeclareAll(b, ds).0, ds[i])
    decreases |ds|
  {
    if i == 0 {
      DeclareKeeps(Declare(b, ds[0]), ds[1..]);
    } else {
      AcceptedAreInForce(Declare(b, ds[0]), ds[1..], i - 1);
    }
  }

  /** Declaring the same list again is accepted and changes nothing: every service may do it at every start. */
  lemma {:induction false} DeclaringAgainIsIdle(b: Broker, ds: seq<Decl>)
    requires forall i :: 0 <= i < |ds| ==> Holds(b, ds[i]) && (ds[i].Bind? ==> Accepts(b, ds[i]))
    ensures DeclareAll(b, ds) == (b, true)
  {
    if ds != [] {
      assert Holds(b, ds[0]);
      assert Declare(b, ds[0]) == b;
      forall i | 0 <= i < |ds| - 1
        ensures Holds(b, ds[1..][i]) && (ds[1..][i].Bind? ==> Accepts(b, ds[1..][i]))
      {
        assert Holds(b, ds[i + 1]);
      }
      DeclaringAgainIsIdle(b, ds[1..]);
    }
  }

  // ---------------------------------------------------------------- a cluster of consumers

  datatype Consumer = Consumer(queue: string, options: Options, exchange: string)

  function ClusterDecls(p: Platform, cs: seq<Consumer>): seq<Decl>
    requires p.levels != []
  {
    if cs == [] then []
    else ConsumerDecls(p, cs[0].queue, cs[0].options, cs[0].exchange) + ClusterDecls(p, cs[1..])
  }

  /** The broker after all consumers, of any services, have asserted their topology without a 406. */
  ghost predicate SetUp(p: Platform, cs: seq<Consumer>, b: Broker) {
    p.levels != [] && DeclareAll(EMPTY, ClusterDecls(p, cs)) == (b, true)
  }

  lemma {:induction false} ConsumerInForce(p: Platform, start: Broker, cs: seq<Consumer>, k: nat)
    requires p.levels != [] && DeclareAll(start, ClusterDecls(p, cs)).1 && k < |cs|
    ensures var b, c := DeclareAll(start, ClusterDecls(p, cs)).0, cs[k];
            var ds := ConsumerDecls(p, c.queue, c.options, c.exchange);
            forall i :: 0 <= i < |ds| ==> Holds(b, ds[i])
    decreases |cs|
  {
    var ds := ConsumerDecls(p, cs[0].queue, cs[0].options, cs[0].exchange);
    DeclareAppend(start, ds, ClusterDecls(p, cs[1..]));
    var mid := DeclareAll(start, ds).0;
    if k == 0 {
      forall i | 0 <= i < |ds|
        ensures Holds(DeclareAll(mid, ClusterDecls(p, cs[1..])).0, ds[i])
      {
        AcceptedAreInForce(start, ds, i);
        DeclareKeeps(mid, ClusterDecls(p, cs[1..]));
      }
    } else {
      ConsumerInForce(p, mid, cs[1..], k - 1);
    }
  }

  /** What the ladder of a consumer needs from the broker. */
  ghost predicate LadderInForce(p: Platform, b: Broker, c: Consumer) {
    && p.levels != []
    && c.queue in b.queues && b.queues[c.queue] == WorkArgs(p, c.options)
    && Dlx(p.mainExchange) in b.exchanges && b.exchanges[Dlx(p.mainExchange)] == "fanout"
    && Binding(Dlq(c.queue), Dlx(p.mainExchange), "") in b.bindings
    && forall level :: 0 <= level < |p.levels| ==>
                         RetryQueue(c.queue, level) in b.queues
                             && b.queues[RetryQueue(c.queue, level)] == RetryArgs(p, c.queue, level)
  }

  lemma SetUpGivesLadder(p: Platform, cs: seq<Consumer>, b: Broker, k: nat)
    requires SetUp(p, cs, b) && k < |cs| && cs[k].options.withRetryQueues
    ensures LadderInForce(p, b, cs[k])
  {
    var c := cs[k];
    ConsumerInForce(p, EMPTY, cs, k);
    var ds := ConsumerDecls(p, c.queue, c.options, c.exchange);
    assert Holds(b, ds[1]) && Holds(b, ds[3]);
    assert ds[4 + |p.levels|] == Queue(c.queue, WorkArgs(p, c.options));
    assert Holds(b, ds[4 + |p.levels|]);
    forall level | 0 <= level < |p.levels|
      ensures Holds(b, Queue(RetryQueue(c.queue, level), RetryArgs(p, c.queue, level)))
    {
      assert ds[4 + level] == RetryDecls(p, c.queue, |p.levels|)[level];
      assert Holds(b, ds[4 + level]);
    }
  }

  // ---------------------------------------------------------------- headers

  datatype Header = Number(n: real) | String(s: string) | Opaque(id: int)

  type Headers = map<string, Header>

  /** `Number(raw)` of a header that is not a finite number: `None` for NaN and the infinities. */
  type ToNumber = Header -> Option<real>

  function ReadRetryCount(h: Headers, toNumber: ToNumber): nat {
    var n := if X_RETRY_COUNT !in h then None
             else if h[X_RETRY_COUNT].Number? then Some(h[X_RETRY_COUNT].n)
             else toNumber(h[X_RETRY_COUNT]);
    if n.Some? && n.value > 0.0 then n.value.Floor else 0
  }

  /** No header, none that is a number, or none above zero: a first delivery. */
  lemma RetryCountMeans(h: Headers, toNumber: ToNumber)
    ensures "x-retry-count" !in h ==> ReadRetryCount(h, toNumber) == 0
    ensures "x-retry-count" in h ==>
              var raw := h["x-retry-count"];
              var n := if raw.Number? then Some(raw.n) else toNumber(raw);
              ReadRetryCount(h, toNumber) == if n.None? || n.value <= 0.0 then 0 else n.value.Floor
  {
  }

  function ReadOriginalRoutingKey(h: Headers, liveRoutingKey: string): string {
    if X_ORIGINAL_ROUTING_KEY in h && h[X_ORIGINAL_ROUTING_KEY].String? && h[X_ORIGINAL_ROUTING_KEY].s != ""
    then h[X_ORIGINAL_ROUTING_KEY].s else liveRoutingKey
  }

  /** The key that is, or would be, stamped on the message. */
  function StampedKey(h: Headers, liveRoutingKey: string): string {
    if X_ORIGINAL_ROUTING_KEY in h && h[X_ORIGINAL_ROUTING_KEY].String?
    then h[X_ORIGINAL_ROUTING_KEY].s else liveRoutingKey
  }

  function BuildRetryHeaders(h: Headers, liveRoutingKey: string, nextRetryCount: nat): Headers {
    h[X_ORIGINAL_ROUTING_KEY := String(StampedKey(h, liveRoutingKey))][X_RETRY_COUNT := Number(nextRetryCount as real)]
  }

  datatype Decision = Retry(level: nat, delayMs: int) | DeadLetter

  function DlqDecision(p: Platform, attempt: nat): Decision
    requires p.levels != []
  {
    if attempt < |p.levels| then Retry(attempt, RetryDelayMs(p, attempt)) else DeadLetter
  }

  // ---------------------------------------------------------------- one message on its way

  datatype Message = Message(headers: Headers, routingKey: string, body: string)

  /** In a queue; or copied into the dead-letter queues; or dropped because an exchange had no queue for it. */
  datatype Place = At(queue: string, msg: Message) | Dead(queues: set<string>, msg: Message) | Lost

  /** The queues a fanout exchange copies to, and the one queue the default exchange delivers to. */
  function FanoutQueues(b: Broker, exchange: string): set<string> {
    if exchange in b.exchanges then set x | x in b.bindings && x.source == exchange :: x.queue else {}
  }

  function Direct(b: Broker, queue: string, msg: Message): Place {
    if queue in b.queues then At(queue, msg.(routingKey := queue)) else Lost
  }

  /** The dead-letter exchange the handler publishes to: derived from the exchange it consumes from. */
  function HandlerDlx(c: Consumer): string { Dlx(c.exchange) }

  /**
   * The consumer's handler fails on the message. A publish to an exchange nobody declared closes the channel, the
   * acknowledgement behind it is void, and the delivery goes back to the work queue as it was
   * (audit/src/messaging/rabbitmq.service.ts:67-76, 266-276).
   */
  function Fail(p: Platform, b: Broker, c: Consumer, toNumber: ToNumber, msg: Message): Place
    requires p.levels != []
  {
    var attempt := ReadRetryCount(msg.headers, toNumber);
    match DlqDecision(p, attempt)
    case Retry(level, _) =>
      Direct(b, RetryQueue(c.queue, level),
             msg.(headers := BuildRetryHeaders(msg.headers, msg.routingKey, attempt + 1)))
    case DeadLetter =>
      var queues := FanoutQueues(b, HandlerDlx(c));
      if HandlerDlx(c) !in b.exchanges then At(c.queue, msg)
      else if queues == {} then Lost
      else Dead(queues, msg.(routingKey := ""))
  }

  /** The time to live of a queue expires: the broker dead-letters the message as the queue's arguments say. */
  function Expire(b: Broker, queue: string, msg: Message): Place
    requires queue in b.queues
  {
    var args := b.queues[queue];
    if X_DEAD_LETTER_EXCHANGE !in args || !args[X_DEAD_LETTER_EXCHANGE].Str? then Lost
    else
      var key :=
        if X_DEAD_LETTER_ROUTING_KEY in args && args[X_DEAD_LETTER_ROUTING_KEY].Str?
        then args[X_DEAD_LETTER_ROUTING_KEY].s
        else msg.routingKey;
      var exchange := args[X_DEAD_LETTER_EXCHANGE].s;
      if exchange == "" then Direct(b, key, msg)
      else if FanoutQueues(b, exchange) == {} then Lost
      else Dead(FanoutQueues(b, exchange), msg)
  }

  /** Where the broker takes a message when the time of its queue is over, by the arguments of the queue. */
  lemma ExpiredGoes(b: Broker, queue: string, msg: Message, exchange: string)
    requires queue in b.queues
    ensures "x-dead-letter-exchange" !in b.queues[queue] ==> Expire(b, queue, msg).Lost?
    ensures var args := b.queues[queue];
            "x-dead-letter-exchange" in args && args["x-dead-letter-exchange"] == Str(exchange) ==>
              var key := if "x-dead-letter-routing-key" in args && args["x-dead-letter-routing-key"].Str?
                         then args["x-dead-letter-routing-key"].s else msg.routingKey;
              var bound := set x | x in b.bindings && x.source == exchange :: x.queue;
              Expire(b, queue, msg) ==
              if exchange == "" then (if key in b.queues then At(key, msg.(routingKey := key)) else Lost)
              else if exchange !in b.exchanges || bound == {} then Lost
              else Dead(bound, msg)
  {
  }

  /** What happens next to a message whose handling always fails. */
  function Next(p: Platform, b: Broker, c: Consumer, toNumber: ToNumber, at: Place): Place
    requires p.levels != []
  {
    match at
    case At(queue, msg) =>
      if queue == c.queue then Fail(p, b, c, toNumber, msg)
      else if queue in b.queues && X_MESSAGE_TTL in b.queues[queue] then Expire(b, queue, msg)
      else at
    case _ => at
  }

  predicate Follows(p: Platform, b: Broker, c: Consumer, toNumber: ToNumber, tr: seq<Place>, i: nat)
    requires p.levels != [] && 0 < i < |tr|
  {
    tr[i] == Next(p, b, c, toNumber, tr[i - 1])
  }

  /** The places an always-failing message goes through, from its first delivery to the consumer on. */
  ghost predicate Trace(p: Platform, b: Broker, c: Consumer, toNumber: ToNumber, msg: Message, tr: seq<Place>) {
    && p.levels != []
    && (tr != [] ==> tr[0] == At(c.queue, msg))
    && forall i :: 0 < i < |tr| ==> Follows(p, b, c, toNumber, tr, i)
  }

  /** The message after its `k`-th failed delivery has been sent on. */
  function Hop(msg: Message, queue: string, count: nat): Message {
    Message(BuildRetryHeaders(msg.headers, msg.routingKey, count), queue, msg.body)
  }

  /** After each round the message is back in its own work queue, one retry further. */
  lemma {:induction false} Rounds(p: Platform, b: Broker, c: Consumer, toNumber: ToNumber, msg: Message, tr: seq<Place>,
                                  r: nat, k: nat)
    requires LadderInForce(p, b, c) && Trace(p, b, c, toNumber, msg, tr)
    requires r == ReadRetryCount(msg.headers, toNumber) && r + k <= |p.levels| && 2 * k < |tr|
    ensures tr[2 * k] == At(c.queue, Failed(msg, c, r, k))
  {
    if k > 0 {
      Rounds(p, b, c, toNumber, msg, tr, r, k - 1);
      RoundInTrace(p, b, c, toNumber, msg, tr, r, k - 1, 2 * k - 2);
    }
  }

  lemma RoundInTrace(p: Platform, b: Broker, c: Consumer, toNumber: ToNumber, msg: Message, tr: seq<Place>, r: nat,
                     k: nat, i: nat)
    requires LadderInForce(p, b, c) && Trace(p, b, c, toNumber, msg, tr)
    requires r == ReadRetryCount(msg.headers, toNumber) && r + k < |p.levels| && i + 2 < |tr|
    requires tr[i] == At(c.queue, Failed(msg, c, r, k))
    ensures tr[i + 2] == At(c.queue, Failed(msg, c, r, k + 1))
  {
    RoundUp(p, b, c, toNumber, msg, r, k);
    RoundBack(p, b, c, toNumber, msg, r, k);
    TraceTwo(p, b, c, toNumber, msg, tr, i, Halfway(msg, c, r, k), At(c.queue, Failed(msg, c, r, k + 1)));
  }

  /** The message in the retry queue of its level. */
  function Halfway(msg: Message, c: Consumer, r: nat, k: nat): Place {
    At(RetryQueue(c.queue, r + k), Hop(msg, RetryQueue(c.queue, r + k), r + k + 1))
  }

  lemma RoundBack(p: Platform, b: Broker, c: Consumer, toNumber: ToNumber, msg: Message, r: nat, k: nat)
    requires LadderInForce(p, b, c) && r + k < |p.levels|
    ensures Next(p, b, c, toNumber, Halfway(msg, c, r, k)) == At(c.queue, Failed(msg, c, r, k + 1))
  {
    Return(p, b, c, toNumber, msg, r + k);
  }

  lemma TraceTwo(p: Platform, b: Broker, c: Consumer, toNumber: ToNumber, msg: Message, tr: seq<Place>, i: nat,
                 x: Place, y: Place)
    requires Trace(p, b, c, toNumber, msg, tr) && i + 2 < |tr|
    requires Next(p, b, c, toNumber, tr[i]) == x && Next(p, b, c, toNumber, x) == y
    ensures tr[i + 1] == x && tr[i + 2] == y
  {
    TraceStep(p, b, c, toNumber, msg, tr, i + 1);
    TraceStep(p, b, c, toNumber, msg, tr, i + 2);
  }

  lemma TraceStep(p: Platform, b: Broker, c: Consumer, toNumber: ToNumber, msg: Message, tr: seq<Place>, i: nat)
    requires Trace(p, b, c, toNumber, msg, tr) && 0 < i < |tr|
    ensures tr[i] == Next(p, b, c, toNumber, tr[i - 1])
  {
    assert Follows(p, b, c, toNumber, tr, i);
  }

  /** The first half of a round: up to the retry queue of the level. */
  lemma RoundUp(p: Platform, b: Broker, c: Consumer, toNumber: ToNumber, msg: Message, r: nat, k: nat)
    requires LadderInForce(p, b, c) && r == ReadRetryCount(msg.headers, toNumber) && r + k < |p.levels|
    ensures Next(p, b, c, toNumber, At(c.queue, Failed(msg, c, r, k))) == Halfway(msg, c, r, k)
  {
    FailedCount(msg, c, toNumber, r, k, RetryQueue(c.queue, r + k));
    Climb(p, b, c, toNumber, Failed(msg, c, r, k), r + k);
  }

  /** The message as it is delivered for the k+1st time. */
  function Failed(msg: Message, c: Consumer, r: nat, k: nat): Message {
    if k == 0 then msg else Hop(msg, c.queue, r + k)
  }

  lemma FailedCount(msg: Message, c: Consumer, toNumber: ToNumber, r: nat, k: nat, q: string)
    requires r == ReadRetryCount(msg.headers, toNumber)
    ensures ReadRetryCount(Failed(msg, c, r, k).headers, toNumber) == r + k
    ensures Hop(Failed(msg, c, r, k), q, r + k + 1) == Hop(msg, q, r + k + 1)
  {
    if k > 0 {
      assert Failed(msg, c, r, k).headers[X_RETRY_COUNT] == Number((r + k) as real);
    }
  }

  /** The message as it reaches the dead letters: its last failed delivery, without a routing key. */
  function Buried(p: Platform, msg: Message, c: Consumer, r: nat): Message {
    (if r <= |p.levels| then Failed(msg, c, r, |p.levels| - r) else msg).(routingKey := "")
  }

  /**
   * Where an always-failing message is at any time: with `r` retries behind it, it climbs the levels
   * r, r+1, ..., N-1 once each and in order, is back in its own work queue in between, and after the
   * last one is in the dead-letter queues.
   */
  lemma Ladder(p: Platform, b: Broker, c: Consumer, toNumber: ToNumber, msg: Message, tr: seq<Place>, r: nat, i: nat)
    requires LadderInForce(p, b, c) && c.exchange == p.mainExchange && Trace(p, b, c, toNumber, msg, tr)
    requires r == ReadRetryCount(msg.headers, toNumber) && i < |tr|
    ensures var level := r + i / 2;
            if r <= |p.levels| && i <= 2 * (|p.levels| - r) then
              if i % 2 == 0 then tr[i] == At(c.queue, Failed(msg, c, r, i / 2))
              else tr[i] == At(RetryQueue(c.queue, level), Hop(msg, RetryQueue(c.queue, level), level + 1))
            else if i == 0 then tr[i] == At(c.queue, msg)
            else
              tr[i] == Dead(FanoutQueues(b, Dlx(p.mainExchange)), Buried(p, msg, c, r)) && Dlq(c.queue) in tr[i].queues
    decreases i
  {
    var n := |p.levels|;
    if r <= n && i <= 2 * (n - r) {
      OnTheLadder(p, b, c, toNumber, msg, tr, r, i);
    } else if i > 0 {
      TraceStep(p, b, c, toNumber, msg, tr, i);
      if r <= n && i == 2 * (n - r) + 1 {
        LastFailure(p, b, c, toNumber, msg, tr, r);
      } else {
        Ladder(p, b, c, toNumber, msg, tr, r, i - 1);
        DeadLettersArrive(p, b, c);
      }
    }
  }

  lemma OnTheLadder(p: Platform, b: Broker, c: Consumer, toNumber: ToNumber, msg: Message, tr: seq<Place>, r: nat,
                    i: nat)
    requires LadderInForce(p, b, c) && Trace(p, b, c, toNumber, msg, tr)
    requires r == ReadRetryCount(msg.headers, toNumber) && r <= |p.levels| && i <= 2 * (|p.levels| - r) && i < |tr|
    ensures var retry := RetryQueue(c.queue, r + i / 2);
            tr[i] == if i % 2 == 0 then At(c.queue, Failed(msg, c, r, i / 2))
                else At(retry, Hop(msg, retry, r + i / 2 + 1))
  {
    if i % 2 == 0 {
      Rounds(p, b, c, toNumber, msg, tr, r, i / 2);
    } else {
      Rounds(p, b, c, toNumber, msg, tr, r, (i - 1) / 2);
      OnARung(p, b, c, toNumber, msg, tr, r, i / 2, i);
    }
  }

  lemma OnARung(p: Platform, b: Broker, c: Consumer, toNumber: ToNumber, msg: Message, tr: seq<Place>, r: nat, k: nat,
                i: nat)
    requires LadderInForce(p, b, c) && Trace(p, b, c, toNumber, msg, tr) && 0 < i < |tr|
    requires r == ReadRetryCount(msg.headers, toNumber) && r + k < |p.levels|
             && tr[i - 1] == At(c.queue, Failed(msg, c, r, k))
    ensures tr[i] == At(RetryQueue(c.queue, r + k), Hop(msg, RetryQueue(c.queue, r + k), r + k + 1))
  {
    RoundUp(p, b, c, toNumber, msg, r, k);
    TraceStep(p, b, c, toNumber, msg, tr, i);
  }

  /** With all levels used up, the next failure goes to the dead letters. */
  lemma LastFailure(p: Platform, b: Broker, c: Consumer, toNumber: ToNumber, msg: Message, tr: seq<Place>, r: nat)
    requires LadderInForce(p, b, c) && c.exchange == p.mainExchange && Trace(p, b, c, toNumber, msg, tr)
    requires r == ReadRetryCount(msg.headers, toNumber) && r <= |p.levels| && 2 * (|p.levels| - r) + 1 < |tr|
    ensures var last := tr[2 * (|p.levels| - r) + 1];
            last == Dead(FanoutQueues(b, Dlx(p.mainExchange)), Buried(p, msg, c, r)) && Dlq(c.queue) in last.queues
  {
    var n := |p.levels| - r;
    Rounds(p, b, c, toNumber, msg, tr, r, n);
    FailedCount(msg, c, toNumber, r, n, "");
    TraceStep(p, b, c, toNumber, msg, tr, 2 * n + 1);
    DeadLettersArrive(p, b, c);
  }

  /** A failed delivery with retries left goes to the retry queue of its level. */
  lemma Climb(p: Platform, b: Broker, c: Consumer, toNumber: ToNumber, msg: Message, level: nat)
    requires LadderInForce(p, b, c) && level < |p.levels| && ReadRetryCount(msg.headers, toNumber) == level
    ensures Next(p, b, c, toNumber, At(c.queue, msg)) ==
            At(RetryQueue(c.queue, level), Hop(msg, RetryQueue(c.queue, level), level + 1))
  {
    assert RetryQueue(c.queue, level) in b.queues;
  }

  /** When its time there is over it comes straight back to its own work queue. */
  lemma Return(p: Platform, b: Broker, c: Consumer, toNumber: ToNumber, msg: Message, level: nat)
    requires LadderInForce(p, b, c) && level < |p.levels|
    ensures Next(p, b, c, toNumber, At(RetryQueue(c.queue, level), Hop(msg, RetryQueue(c.queue, level), level + 1))) ==
            At(c.queue, Hop(msg, c.queue, level + 1))
  {
    assert b.queues[RetryQueue(c.queue, level)] == RetryArgs(p, c.queue, level);
    assert |RetryQueue(c.queue, level)| > |c.queue|;
  }

  lemma DeadLettersArrive(p: Platform, b: Broker, c: Consumer)
    requires LadderInForce(p, b, c)
    ensures Dlq(c.queue) in FanoutQueues(b, Dlx(p.mainExchange))
  {
    assert Binding(Dlq(c.queue), Dlx(p.mainExchange), "").queue == Dlq(c.queue);
  }

  /**
   * The whole climb, for any cluster the broker accepted: the message is never lost or altered, and after exactly
   * two steps per remaining level and one more it is in the consumer's dead-letter queue for good.
   */
  lemma FailingMessageEndsInItsDlq(p: Platform, cs: seq<Consumer>, b: Broker, k: nat, toNumber: ToNumber, msg: Message,
                                   tr: seq<Place>, i: nat)
    requires SetUp(p, cs, b) && k < |cs| && cs[k].options.withRetryQueues && cs[k].exchange == p.mainExchange
    requires Trace(p, b, cs[k], toNumber, msg, tr) && i < |tr|
    ensures var r := ReadRetryCount(msg.headers, toNumber);
            && !tr[i].Lost? && tr[i].msg.body == msg.body
            && (tr[i].Dead? <==> i > 2 * (if r < |p.levels| then |p.levels| - r else 0))
            && (tr[i].Dead? ==> Dlq(cs[k].queue) in tr[i].queues)
  {
    SetUpGivesLadder(p, cs, b, k);
    Ladder(p, b, cs[k], toNumber, msg, tr, ReadRetryCount(msg.headers, toNumber), i);
  }

  /** Each level holds the message for its own delay. */
  lemma EachLevelWaitsItsDelay(p: Platform, cs: seq<Consumer>, b: Broker, i: nat, level: nat)
    requires SetUp(p, cs, b) && i < |cs| && cs[i].options.withRetryQueues && level < |p.levels|
    ensures var q := RetryQueue(cs[i].queue, level);
            && q in b.queues && X_MESSAGE_TTL in b.queues[q] && b.queues[q][X_MESSAGE_TTL] == Num(p.levels[level])
            && DlqDecision(p, level) == Retry(level, p.levels[level])
  {
    SetUpGivesLadder(p, cs, b, i);
    assert b.queues[RetryQueue(cs[i].queue, level)] == RetryArgs(p, cs[i].queue, level);
  }

  /** Once it has taken a hop, the message tells its original routing key wherever it is, dead letters included. */
  lemma KeyReadableOnTheWay(p: Platform, cs: seq<Consumer>, b: Broker, k: nat, toNumber: ToNumber, msg: Message,
                            tr: seq<Place>, i: nat, live: string)
    requires SetUp(p, cs, b) && k < |cs| && cs[k].options.withRetryQueues && cs[k].exchange == p.mainExchange
    requires Trace(p, b, cs[k], toNumber, msg, tr) && 1 <= i < |tr|
    requires ReadRetryCount(msg.headers, toNumber) < |p.levels| && StampedKey(msg.headers, msg.routingKey) != ""
    ensures !tr[i].Lost? && ReadOriginalRoutingKey(tr[i].msg.headers, live)
            == ReadOriginalRoutingKey(msg.headers, msg.routingKey)
  {
    SetUpGivesLadder(p, cs, b, k);
    Ladder(p, b, cs[k], toNumber, msg, tr, ReadRetryCount(msg.headers, toNumber), i);
  }

  /**
   * The original routing key stays readable through all hops exactly when the key that gets stamped is not
   * empty (or the work queue happens to carry the same name): an empty header is kept but not read back.
   */
  lemma OriginalKeyIsReadable(msg: Message, queue: string, count: nat)
    ensures ReadOriginalRoutingKey(Hop(msg, queue, count).headers, queue)
            == ReadOriginalRoutingKey(msg.headers, msg.routingKey)
            <==> StampedKey(msg.headers, msg.routingKey) != "" || queue == msg.routingKey
  {
  }

  /**
   * The two derivations of the dead-letter exchange: the topology always declares the one of the canonical main
   * exchange, the handler publishes to the one of the exchange it consumes from.  They agree exactly when
   * that is the canonical one.
   */
  lemma DlxNamesAgree(p: Platform, c: Consumer)
    ensures HandlerDlx(c) == Dlx(p.mainExchange) <==> c.exchange == p.mainExchange
  {
    assert c.exchange == Dlx(c.exchange)[..|c.exchange|];
    assert p.mainExchange == Dlx(p.mainExchange)[..|p.mainExchange|];
  }

  /** What becomes of an exhausted message: back to its queue, lost, or dead-lettered, by what is declared and bound. */
  lemma ExhaustedExactlyWhen(p: Platform, b: Broker, c: Consumer, toNumber: ToNumber, msg: Message)
    requires p.levels != [] && ReadRetryCount(msg.headers, toNumber) >= |p.levels|
    ensures var next := Next(p, b, c, toNumber, At(c.queue, msg));
            && (next == At(c.queue, msg) <==> HandlerDlx(c) !in b.exchanges)
            && (next.Lost? <==> HandlerDlx(c) in b.exchanges && FanoutQueues(b, HandlerDlx(c)) == {})
            && (next.Dead? <==> FanoutQueues(b, HandlerDlx(c)) != {})
  {
  }

  /**
   * With the ladder in force but the handler's dead-letter exchange undeclared, a failing message climbs all levels
   * and then stays in its own work queue for good, delivered and failing again with the same count.
   */
  lemma UndeclaredExchangeRedeliversForever(p: Platform, b: Broker, c: Consumer, toNumber: ToNumber, msg: Message,
                                            tr: seq<Place>, r: nat, i: nat)
    requires LadderInForce(p, b, c) && HandlerDlx(c) !in b.exchanges && Trace(p, b, c, toNumber, msg, tr)
    requires r == ReadRetryCount(msg.headers, toNumber) && i < |tr|
    ensures r >= |p.levels| ==> tr[i] == At(c.queue, msg)
    ensures r < |p.levels| && i >= 2 * (|p.levels| - r) ==> tr[i] == At(c.queue, Failed(msg, c, r, |p.levels| - r))
    decreases i
  {
    var n := |p.levels|;
    if r >= n {
      if i > 0 {
        UndeclaredExchangeRedeliversForever(p, b, c, toNumber, msg, tr, r, i - 1);
        TraceStep(p, b, c, toNumber, msg, tr, i);
        ExhaustedExactlyWhen(p, b, c, toNumber, msg);
      }
    } else if i == 2 * (n - r) {
      Rounds(p, b, c, toNumber, msg, tr, r, n - r);
    } else if i > 2 * (n - r) {
      UndeclaredExchangeRedeliversForever(p, b, c, toNumber, msg, tr, r, i - 1);
      TraceStep(p, b, c, toNumber, msg, tr, i);
      FailedCount(msg, c, toNumber, r, n - r, "");
      ExhaustedExactlyWhen(p, b, c, toNumber, Failed(msg, c, r, n - r));
    }
  }

  /** That is the fate of a lone consumer on another exchange: nobody declares the exchange its handler publishes to. */
  lemma LoneConsumerOnAnotherExchange(p: Platform, c: Consumer, b: Broker)
    requires SetUp(p, [c], b) && c.exchange != p.mainExchange
    ensures HandlerDlx(c) !in b.exchanges && FanoutQueues(b, HandlerDlx(c)) == {}
  {
    DlxNamesAgree(p, c);
    assert |HandlerDlx(c)| > |c.exchange|;
    assert ClusterDecls(p, [c]) == ConsumerDecls(p, c.queue, c.options, c.exchange) + [];
    OnlyDeclaredExchanges(EMPTY, ClusterDecls(p, [c]), HandlerDlx(c));
  }

  lemma {:induction false} OnlyDeclaredExchanges(b: Broker, ds: seq<Decl>, exchange: string)
    requires exchange !in b.exchanges && forall d :: d in ds && d.Exchange? ==> d.name != exchange
    ensures exchange !in DeclareAll(b, ds).0.exchanges
    decreases |ds|
  {
    if ds != [] && Accepts(b, ds[0]) {
      OnlyDeclaredExchanges(Declare(b, ds[0]), ds[1..], exchange);
    }
  }

  // ---------------------------------------------------------------- a set-up that is accepted

  /** The declarations a broker refuses are the clashing ones: one name, two types or argument lists. */
  ghost predicate Consistent(ds: seq<Decl>) {
    forall i, j :: 0 <= i < j < |ds| ==> !Clash(ds[i], ds[j])
  }

  predicate Clash(d: Decl, e: Decl) {
    || (d.Exchange? && e.Exchange? && d.name == e.name && d.typ != e.typ)
    || (d.Queue? && e.Queue? && d.name == e.name && d.args != e.args)
  }

  /** A binding comes after the declarations of its two ends. */
  ghost predicate BoundLater(ds: seq<Decl>) {
    forall j :: 0 <= j < |ds| && ds[j].Bind? ==>
                  && (exists i :: 0 <= i < j && ds[i].Queue? && ds[i].name == ds[j].b.queue)
                  && (exists i :: 0 <= i < j && ds[i].Exchange? && ds[i].name == ds[j].b.source)
  }

  /** From an empty broker a list is accepted exactly when no two of its declarations clash. */
  lemma AcceptedIffConsistent(ds: seq<Decl>)
    requires BoundLater(ds)
    ensures DeclareAll(EMPTY, ds).1 <==> Consistent(ds)
  {
    if DeclareAll(EMPTY, ds).1 {
      forall i, j | 0 <= i < j < |ds|
        ensures !Clash(ds[i], ds[j])
      {
        AcceptedAreInForce(EMPTY, ds, i);
        AcceptedAreInForce(EMPTY, ds, j);
      }
    }
    if Consistent(ds) {
      ConsistentPrefix(ds, |ds|);
      assert ds[..|ds|] == ds;
    }
  }

  lemma DeclareSnoc(ds: seq<Decl>, d: Decl)
    requires DeclareAll(EMPTY, ds).1
    ensures var b := DeclareAll(EMPTY, ds).0;
            DeclareAll(EMPTY, ds + [d]) == if Accepts(b, d) then (Declare(b, d), true) else (b, false)
  {
    DeclareAppend(EMPTY, ds, [d]);
    assert [d][1..] == [];
  }

  lemma {:induction false} ConsistentPrefix(ds: seq<Decl>, n: nat)
    requires BoundLater(ds) && Consistent(ds) && n <= |ds|
    ensures DeclareAll(EMPTY, ds[..n]).1
    ensures FromList(DeclareAll(EMPTY, ds[..n]).0, ds, n)
  {
    if n > 0 {
      ConsistentPrefix(ds, n - 1);
      assert ds[..n] == ds[..n - 1] + [ds[n - 1]];
      ConsistentStep(ds, ds[..n - 1]);
    }
  }

  lemma ConsistentStep(ds: seq<Decl>, before: seq<Decl>)
    requires BoundLater(ds) && Consistent(ds) && |before| < |ds| && before == ds[..|before|]
    requires DeclareAll(EMPTY, before).1 && FromList(DeclareAll(EMPTY, before).0, ds, |before|)
    ensures var r := DeclareAll(EMPTY, before + [ds[|before|]]); r.1 && FromList(r.0, ds, |before| + 1)
  {
    var b, n := DeclareAll(EMPTY, before).0, |before|;
    forall i | 0 <= i < n ensures Holds(b, ds[i]) {
      AcceptedAreInForce(EMPTY, before, i);
      assert before[i] == ds[i];
    }
    NextIsAccepted(ds, b, n);
    DeclareSnoc(before, ds[n]);
  }

  /** Everything in the broker was declared by one of the first `n`. */
  ghost predicate FromList(b: Broker, ds: seq<Decl>, n: nat)
    requires n <= |ds|
  {
    && (forall name :: name in b.exchanges ==> exists i :: 0 <= i < n && ds[i] == Exchange(name, b.exchanges[name]))
    && (forall name :: name in b.queues ==> exists i :: 0 <= i < n && ds[i] == Queue(name, b.queues[name]))
  }

  lemma NextIsAccepted(ds: seq<Decl>, b: Broker, n: nat)
    requires BoundLater(ds) && Consistent(ds) && n < |ds| && FromList(b, ds, n)
    requires forall i :: 0 <= i < n ==> Holds(b, ds[i])
    ensures Accepts(b, ds[n]) && FromList(Declare(b, ds[n]), ds, n + 1)
  {
    var d := ds[n];
    if d.Bind? {
      var i :| 0 <= i < n && ds[i].Queue? && ds[i].name == d.b.queue;
      var j :| 0 <= j < n && ds[j].Exchange? && ds[j].name == d.b.source;
      assert Holds(b, ds[i]) && Holds(b, ds[j]);
    } else if d.Queue? && d.name in b.queues {
      var i :| 0 <= i < n && ds[i] == Queue(d.name, b.queues[d.name]);
      assert !Clash(ds[i], ds[n]);
    } else if d.Exchange? && d.name in b.exchanges {
      var i :| 0 <= i < n && ds[i] == Exchange(d.name, b.exchanges[d.name]);
      assert !Clash(ds[i], ds[n]);
    }
  }

  lemma ConsumerShape(p: Platform, queue: string, o: Options, exchange: string)
    requires p.levels != []
    ensures var ds, n := ConsumerDecls(p, queue, o, exchange), if o.withRetryQueues then |p.levels| else 0;
            && |ds| >= 5 + n && ds[0] == Exchange(exchange, "topic") && ds[1] == Exchange(Dlx(p.mainExchange), "fanout")
            && ds[2] == Queue(Dlq(queue), map[]) && ds[3] == Bind(Binding(Dlq(queue), Dlx(p.mainExchange), ""))
            && (forall i :: 4 <= i < 4 + n ==> ds[i] == Queue(RetryQueue(queue, i - 4), RetryArgs(p, queue, i - 4)))
            && ds[4 + n] == Queue(queue, WorkArgs(p, o))
            && |ds| == 5 + n + |o.routingKeys|
            && (forall i :: 5 + n <= i < |ds| ==> ds[i] == Bind(Binding(queue, exchange, o.routingKeys[i - 5 - n])))
  {
    var n := if o.withRetryQueues then |p.levels| else 0;
    var front: seq<Decl> := [Exchange(exchange, "topic"), Exchange(Dlx(p.mainExchange), "fanout"),
                             Queue(Dlq(queue), map[]), Bind(Binding(Dlq(queue), Dlx(p.mainExchange), ""))];
    var retries: seq<Decl> := if o.withRetryQueues then RetryDecls(p, queue, |p.levels|) else [];
    ShapeOf(front, retries, Queue(queue, WorkArgs(p, o)), KeyDecls(queue, exchange, o.routingKeys));
    assert |retries| == n;
  }

  lemma ShapeOf(front: seq<Decl>, retries: seq<Decl>, work: Decl, keys: seq<Decl>)
    requires |front| == 4
    ensures var ds, n := front + retries + [work] + keys, |retries|;
            && |ds| == 5 + n + |keys| && ds[0] == front[0] && ds[1] == front[1] && ds[2] == front[2]
               && ds[3] == front[3]
            && (forall i :: 4 <= i < 4 + n ==> ds[i] == retries[i - 4]) && ds[4 + n] == work
            && (forall i :: 5 + n <= i < |ds| ==> ds[i] == keys[i - 5 - n])
  {
  }

  lemma ConsumerBindsLast(p: Platform, queue: string, o: Options, exchange: string)
    requires p.levels != []
    ensures BoundLater(ConsumerDecls(p, queue, o, exchange))
  {
    var ds := ConsumerDecls(p, queue, o, exchange);
    var n := if o.withRetryQueues then |p.levels| else 0;
    ConsumerShape(p, queue, o, exchange);
    forall j | 0 <= j < |ds| && ds[j].Bind?
      ensures exists i :: 0 <= i < j && ds[i].Queue? && ds[i].name == ds[j].b.queue
      ensures exists i :: 0 <= i < j && ds[i].Exchange? && ds[i].name == ds[j].b.source
    {
      if j == 3 {
        assert ds[2].name == ds[j].b.queue && ds[1].name == ds[j].b.source;
      } else {
        assert ds[4 + n].name == ds[j].b.queue && ds[0].name == ds[j].b.source;
      }
    }
  }

  lemma BoundLaterAppend(first: seq<Decl>, second: seq<Decl>)
    requires BoundLater(first) && BoundLater(second)
    ensures BoundLater(first + second)
  {
    var ds, n := first + second, |first|;
    forall j | 0 <= j < |ds| && ds[j].Bind?
      ensures exists i :: 0 <= i < j && ds[i].Queue? && ds[i].name == ds[j].b.queue
      ensures exists i :: 0 <= i < j && ds[i].Exchange? && ds[i].name == ds[j].b.source
    {
      if j < n {
        var i :| 0 <= i < j && first[i].Queue? && first[i].name == first[j].b.queue;
        var k :| 0 <= k < j && first[k].Exchange? && first[k].name == first[j].b.source;
        assert ds[i].name == ds[j].b.queue && ds[k].name == ds[j].b.source;
      } else {
        var m := j - n;
        var i :| 0 <= i < m && second[i].Queue? && second[i].name == second[m].b.queue;
        var k :| 0 <= k < m && second[k].Exchange? && second[k].name == second[m].b.source;
        assert ds[n + i].name == ds[j].b.queue && ds[n + k].name == ds[j].b.source;
      }
    }
  }

  lemma {:induction false} ClusterBindsLast(p: Platform, cs: seq<Consumer>)
    requires p.levels != []
    ensures BoundLater(ClusterDecls(p, cs))
  {
    if cs != [] {
      ConsumerBindsLast(p, cs[0].queue, cs[0].options, cs[0].exchange);
      ClusterBindsLast(p, cs[1..]);
      BoundLaterAppend(ConsumerDecls(p, cs[0].queue, cs[0].options, cs[0].exchange), ClusterDecls(p, cs[1..]));
    }
  }

  // ---------------------------------------------------------------- which clusters are accepted

  /** The queues of a consumer, with their arguments as the broker sees them. */
  predicate OwnsQueue(p: Platform, c: Consumer, name: string, args: Args) {
    || (name == c.queue + ".dlq" && args == map[])
    || (name == c.queue &&
        args == map["x-dead-letter-exchange" := Str(p.mainExchange + ".dlx")] + c.options.queueArguments)
    || (c.options.withRetryQueues && exists level :: 0 <= level < |p.levels| && IsRetryQueue(p, c, level, name, args))
  }

  predicate IsRetryQueue(p: Platform, c: Consumer, level: nat, name: string, args: Args)
    requires level < |p.levels|
  {
    && name == c.queue + ".retry." + Text.Decimal(level)
    && args == map["x-message-ttl" := Num(p.levels[level]), "x-dead-letter-exchange" := Str(""),
                   "x-dead-letter-routing-key" := Str(c.queue)]
  }

  predicate OwnsExchange(p: Platform, c: Consumer, name: string, typ: string) {
    (name == c.exchange && typ == "topic") || (name == p.mainExchange + ".dlx" && typ == "fanout")
  }

  /** Dead letters of all, and every routing key of its own. */
  predicate OwnsBinding(p: Platform, c: Consumer, b: Binding) {
    || b == Binding(c.queue + ".dlq", p.mainExchange + ".dlx", "")
    || (b.queue == c.queue && b.source == c.exchange && b.pattern in c.options.routingKeys)
  }

  predicate Owns(p: Platform, c: Consumer, d: Decl) {
    match d
    case Queue(name, args) => OwnsQueue(p, c, name, args)
    case Exchange(name, typ) => OwnsExchange(p, c, name, typ)
    case Bind(b) => OwnsBinding(p, c, b)
  }

  lemma MembersAreOwned(p: Platform, c: Consumer, i: nat)
    requires p.levels != []
    requires i < |ConsumerDecls(p, c.queue, c.options, c.exchange)|
    ensures Owns(p, c, ConsumerDecls(p, c.queue, c.options, c.exchange)[i])
  {
    var ds := ConsumerDecls(p, c.queue, c.options, c.exchange);
    ConsumerShape(p, c.queue, c.options, c.exchange);
    if c.options.withRetryQueues && 4 <= i < 4 + |p.levels| {
      assert IsRetryQueue(p, c, i - 4, ds[i].name, ds[i].args);
    }
  }

  lemma OwnedAreMembers(p: Platform, c: Consumer, d: Decl)
    requires p.levels != [] && Owns(p, c, d)
    ensures d in ConsumerDecls(p, c.queue, c.options, c.exchange)
  {
    var ds := ConsumerDecls(p, c.queue, c.options, c.exchange);
    var n := if c.options.withRetryQueues then |p.levels| else 0;
    ConsumerShape(p, c.queue, c.options, c.exchange);
    if d.Exchange? {
      assert d == ds[0] || d == ds[1];
    } else if d.Bind? && d != ds[3] {
      var i :| 0 <= i < |c.options.routingKeys| && c.options.routingKeys[i] == d.b.pattern;
      assert d == ds[5 + n + i];
    } else if d.Queue? && d != ds[2] && d != ds[4 + n] {
      var level :| 0 <= level < |p.levels| && IsRetryQueue(p, c, level, d.name, d.args);
      assert d == ds[4 + level];
    }
  }

  lemma ConsumerMembers(p: Platform, c: Consumer, d: Decl)
    requires p.levels != []
    ensures d in ConsumerDecls(p, c.queue, c.options, c.exchange) <==> Owns(p, c, d)
  {
    var ds := ConsumerDecls(p, c.queue, c.options, c.exchange);
    if d in ds {
      var i :| 0 <= i < |ds| && ds[i] == d;
      MembersAreOwned(p, c, i);
    }
    if Owns(p, c, d) {
      OwnedAreMembers(p, c, d);
    }
  }

  lemma {:induction false} ClusterMembers(p: Platform, cs: seq<Consumer>, d: Decl)
    requires p.levels != []
    ensures d in ClusterDecls(p, cs) <==> exists k :: 0 <= k < |cs| && Owns(p, cs[k], d)
  {
    if cs != [] {
      ConsumerMembers(p, cs[0], d);
      ClusterMembers(p, cs[1..], d);
      if exists k :: 0 <= k < |cs| && Owns(p, cs[k], d) {
        var k :| 0 <= k < |cs| && Owns(p, cs[k], d);
        assert k > 0 ==> Owns(p, cs[1..][k - 1], d);
      }
      if exists k :: 0 <= k < |cs| - 1 && Owns(p, cs[1..][k], d) {
        var k :| 0 <= k < |cs| - 1 && Owns(p, cs[1..][k], d);
        assert Owns(p, cs[k + 1], d);
      }
    }
  }

  /** Nothing gets into a broker that nobody declared. */
  lemma {:induction false} OnlyDeclared(b: Broker, ds: seq<Decl>, d: Decl)
    requires Holds(DeclareAll(b, ds).0, d)
    ensures Holds(b, d) || d in ds
    decreases |ds|
  {
    if ds != [] && Accepts(b, ds[0]) {
      OnlyDeclared(Declare(b, ds[0]), ds[1..], d);
    }
  }

  lemma InForceExactlyWhenOwned(p: Platform, cs: seq<Consumer>, b: Broker, d: Decl)
    requires SetUp(p, cs, b)
    ensures Holds(b, d) <==> exists k :: 0 <= k < |cs| && Owns(p, cs[k], d)
  {
    var ds := ClusterDecls(p, cs);
    ClusterMembers(p, cs, d);
    if d in ds {
      var i :| 0 <= i < |ds| && ds[i] == d;
      AcceptedAreInForce(EMPTY, ds, i);
    }
    if Holds(b, d) {
      OnlyDeclared(EMPTY, ds, d);
    }
  }

  /** The whole broker after an accepted set-up: every exchange, queue and binding, and nothing else. */
  lemma SetUpGivesExactly(p: Platform, cs: seq<Consumer>, b: Broker, name: string, typ: string, args: Args, x: Binding)
    requires SetUp(p, cs, b)
    ensures (name in b.exchanges && b.exchanges[name] == typ) <==>
            exists k :: 0 <= k < |cs| && OwnsExchange(p, cs[k], name, typ)
    ensures (name in b.queues && b.queues[name] == args) <==>
            exists k :: 0 <= k < |cs| && OwnsQueue(p, cs[k], name, args)
    ensures x in b.bindings <==> exists k :: 0 <= k < |cs| && OwnsBinding(p, cs[k], x)
  {
    InForceExactlyWhenOwned(p, cs, b, Exchange(name, typ));
    InForceExactlyWhenOwned(p, cs, b, Queue(name, args));
    InForceExactlyWhenOwned(p, cs, b, Bind(x));
    assert forall k :: 0 <= k < |cs| ==> (Owns(p, cs[k], Exchange(name, typ)) <==> OwnsExchange(p, cs[k], name, typ));
    assert forall k :: 0 <= k < |cs| ==> (Owns(p, cs[k], Queue(name, args)) <==> OwnsQueue(p, cs[k], name, args));
    assert forall k :: 0 <= k < |cs| ==> (Owns(p, cs[k], Bind(x)) <==> OwnsBinding(p, cs[k], x));
  }

  /** Every routing key is bound, and a queue that is nobody's dead-letter queue is bound to nothing else. */
  lemma RoutingKeysAreBound(p: Platform, cs: seq<Consumer>, b: Broker, x: Binding)
    requires SetUp(p, cs, b) && forall k :: 0 <= k < |cs| ==> x.queue != cs[k].queue + ".dlq"
    ensures x in b.bindings <==>
            exists k :: 0 <= k < |cs| && cs[k].queue == x.queue && cs[k].exchange == x.source &&
                        x.pattern in cs[k].options.routingKeys
  {
    SetUpGivesExactly(p, cs, b, "", "", map[], x);
    if x in b.bindings {
      var k :| 0 <= k < |cs| && OwnsBinding(p, cs[k], x);
      assert cs[k].queue == x.queue;
    }
    if k :| 0 <= k < |cs| && cs[k].queue == x.queue && cs[k].exchange == x.source &&
            x.pattern in cs[k].options.routingKeys {
      assert OwnsBinding(p, cs[k], x);
    }
  }

  /** Nobody's exchange is the dead-letter exchange. */
  predicate OffDlx(p: Platform, c: Consumer) {
    c.exchange != Dlx(p.mainExchange)
  }

  /** The work queue of `d` collides with no queue of `c`, unless it asks for the very same arguments. */
  predicate Fits(p: Platform, c: Consumer, d: Consumer)
    requires p.levels != []
  {
    && (d.queue == c.queue ==> WorkArgs(p, d.options) == WorkArgs(p, c.options))
    && d.queue != Dlq(c.queue)
    && (c.options.withRetryQueues ==>
          forall level :: 0 <= level < |p.levels| && d.queue == RetryQueue(c.queue, level) ==>
                            WorkArgs(p, d.options) == RetryArgs(p, c.queue, level))
  }

  predicate ClusterFits(p: Platform, cs: seq<Consumer>)
    requires p.levels != []
  {
    && (forall i :: 0 <= i < |cs| ==> OffDlx(p, cs[i]))
    && (forall i, j :: 0 <= i < |cs| && 0 <= j < |cs| ==> Fits(p, cs[i], cs[j]))
  }

  /**
   * A cluster of any consumers gets its whole topology exactly when nobody consumes from the dead-letter exchange and
   * no work queue is named like a dead-letter queue, or like a work or retry queue declared with other arguments.
   */
  lemma ClusterAcceptedExactlyWhen(p: Platform, cs: seq<Consumer>)
    requires p.levels != []
    ensures DeclareAll(EMPTY, ClusterDecls(p, cs)).1 <==> ClusterFits(p, cs)
    ensures (exists b :: SetUp(p, cs, b)) <==> ClusterFits(p, cs)
  {
    var ds := ClusterDecls(p, cs);
    ClusterBindsLast(p, cs);
    AcceptedIffConsistent(ds);
    if ClusterFits(p, cs) {
      forall i, j | 0 <= i < j < |ds| ensures !Clash(ds[i], ds[j]) {
        if !ds[i].Bind? && !ds[j].Bind? {
          ClusterMembers(p, cs, ds[i]);
          ClusterMembers(p, cs, ds[j]);
          var k :| 0 <= k < |cs| && Owns(p, cs[k], ds[i]);
          var l :| 0 <= l < |cs| && Owns(p, cs[l], ds[j]);
          FittingDoNotClash(p, cs[k], cs[l], ds[i], ds[j]);
        }
      }
      assert SetUp(p, cs, DeclareAll(EMPTY, ds).0);
    } else {
      MisfitsClash(p, cs);
    }
  }

  lemma NamesDiffer(queue: string, other: string, k: nat)
    ensures Dlq(queue) != RetryQueue(other, k)
  {
    var d := Text.Decimal(k);
    assert RetryQueue(other, k)[|RetryQueue(other, k)| - 1] == d[|d| - 1];
    assert Text.IsDigit(d[|d| - 1]) && Dlq(queue)[|Dlq(queue)| - 1] == 'q';
  }

  lemma OwnQueuesDiffer(queue: string, k: nat)
    ensures Dlq(queue) != queue && RetryQueue(queue, k) != queue
  {
    assert |Dlq(queue)| > |queue| && |RetryQueue(queue, k)| > |queue|;
  }

  lemma FittingDoNotClash(p: Platform, c: Consumer, d: Consumer, x: Decl, y: Decl)
    requires p.levels != [] && OffDlx(p, c) && OffDlx(p, d) && Fits(p, c, d) && Fits(p, d, c)
    requires Owns(p, c, x) && Owns(p, d, y)
    ensures !Clash(x, y)
  {
    if x.Queue? && y.Queue? && x.name == y.name {
      SameNameSameArgs(p, c, d, x.name, x.args, y.args);
    }
  }

  lemma SameNameSameArgs(p: Platform, c: Consumer, d: Consumer, name: string, args: Args, others: Args)
    requires p.levels != [] && Fits(p, c, d) && Fits(p, d, c) && OwnsQueue(p, c, name, args)
             && OwnsQueue(p, d, name, others)
    ensures args == others
  {
    if c.options.withRetryQueues && exists level :: 0 <= level < |p.levels| && IsRetryQueue(p, c, level, name, args) {
      var level :| 0 <= level < |p.levels| && IsRetryQueue(p, c, level, name, args);
      RetryQueueIsNobodyElses(p, c, d, level, name, args, others);
    } else if d.options.withRetryQueues && exists level ::
            0 <= level < |p.levels|
            && IsRetryQueue(p, d, level, name, others) {
      var level :| 0 <= level < |p.levels| && IsRetryQueue(p, d, level, name, others);
      RetryQueueIsNobodyElses(p, d, c, level, name, others, args);
    } else {
      PlainQueuesAgree(p, c, d, name, args, others);
    }
  }

  lemma PlainQueuesAgree(p: Platform, c: Consumer, d: Consumer, name: string, args: Args, others: Args)
    requires p.levels != [] && Fits(p, c, d) && Fits(p, d, c)
    requires (name == Dlq(c.queue) && args == map[]) || (name == c.queue && args == WorkArgs(p, c.options))
    requires (name == Dlq(d.queue) && others == map[]) || (name == d.queue && others == WorkArgs(p, d.options))
    ensures args == others
  {
  }

  lemma RetryQueueIsNobodyElses(p: Platform, c: Consumer, d: Consumer, level: nat, name: string, args: Args,
                                others: Args)
    requires p.levels != [] && level < |p.levels| && c.options.withRetryQueues && Fits(p, c, d)
    requires IsRetryQueue(p, c, level, name, args) && OwnsQueue(p, d, name, others)
    ensures others == args
  {
    assert name == RetryQueue(c.queue, level) && args == RetryArgs(p, c.queue, level);
    NamesDiffer(d.queue, c.queue, level);
    if d.options.withRetryQueues && exists m :: 0 <= m < |p.levels| && IsRetryQueue(p, d, m, name, others) {
      var m :| 0 <= m < |p.levels| && IsRetryQueue(p, d, m, name, others);
      RetryQueueNames(c.queue, level, d.queue, m);
    }
  }

  /** A retry queue's name tells its work queue and its level. */
  lemma RetryQueueNames(a: string, m: nat, b: string, n: nat)
    requires RetryQueue(a, m) == RetryQueue(b, n)
    ensures a == b && m == n
  {
    var x, y := a + ".retry", b + ".retry";
    assert RetryQueue(a, m) == x + ['.'] + Text.Decimal(m) && RetryQueue(b, n) == y + ['.'] + Text.Decimal(n);
    Text.LastIndexAfter(x, '.', Text.Decimal(m));
    Text.LastIndexAfter(y, '.', Text.Decimal(n));
    Text.NumeralValue(m, 10);
    Text.NumeralValue(n, 10);
    assert a == x[..|x| - 6] && b == y[..|y| - 6];
  }

  lemma MisfitsClash(p: Platform, cs: seq<Consumer>)
    requires p.levels != [] && !ClusterFits(p, cs)
    ensures !DeclareAll(EMPTY, ClusterDecls(p, cs)).1
  {
    if exists i :: 0 <= i < |cs| && !OffDlx(p, cs[i]) {
      var i :| 0 <= i < |cs| && !OffDlx(p, cs[i]);
      var x, y := Exchange(cs[i].exchange, "topic"), Exchange(Dlx(p.mainExchange), "fanout");
      assert Owns(p, cs[i], x) && Owns(p, cs[i], y);
      MembersClash(p, cs, x, y);
    } else {
      var i, j :| 0 <= i < |cs| && 0 <= j < |cs| && !Fits(p, cs[i], cs[j]);
      MisfitQueuesClash(p, cs, i, j);
    }
  }

  lemma MisfitQueuesClash(p: Platform, cs: seq<Consumer>, i: nat, j: nat)
    requires p.levels != [] && i < |cs| && j < |cs| && !Fits(p, cs[i], cs[j])
    ensures !DeclareAll(EMPTY, ClusterDecls(p, cs)).1
  {
    var c, d := cs[i], cs[j];
    var work := Queue(d.queue, WorkArgs(p, d.options));
    assert Owns(p, d, work);
    if d.queue == c.queue && WorkArgs(p, d.options) != WorkArgs(p, c.options) {
      assert Owns(p, c, Queue(c.queue, WorkArgs(p, c.options)));
      MembersClash(p, cs, work, Queue(c.queue, WorkArgs(p, c.options)));
    } else if d.queue == Dlq(c.queue) {
      assert X_DEAD_LETTER_EXCHANGE in WorkArgs(p, d.options);
      assert Owns(p, c, Queue(Dlq(c.queue), map[]));
      MembersClash(p, cs, work, Queue(Dlq(c.queue), map[]));
    } else {
      var level :| 0 <= level < |p.levels| && d.queue == RetryQueue(c.queue, level)
          && WorkArgs(p, d.options) != RetryArgs(p, c.queue, level);
      var retry := Queue(RetryQueue(c.queue, level), RetryArgs(p, c.queue, level));
      assert IsRetryQueue(p, c, level, retry.name, retry.args);
      assert Owns(p, c, retry);
      MembersClash(p, cs, work, retry);
    }
  }

  lemma MembersClash(p: Platform, cs: seq<Consumer>, x: Decl, y: Decl)
    requires p.levels != [] && !x.Bind? && !y.Bind? && Clash(x, y)
    requires exists k :: 0 <= k < |cs| && Owns(p, cs[k], x)
    requires exists k :: 0 <= k < |cs| && Owns(p, cs[k], y)
    ensures !DeclareAll(EMPTY, ClusterDecls(p, cs)).1
  {
    var ds := ClusterDecls(p, cs);
    ClusterMembers(p, cs, x);
    ClusterMembers(p, cs, y);
    if DeclareAll(EMPTY, ds).1 {
      var i :| 0 <= i < |ds| && ds[i] == x;
      var j :| 0 <= j < |ds| && ds[j] == y;
      AcceptedAreInForce(EMPTY, ds, i);
      AcceptedAreInForce(EMPTY, ds, j);
    }
  }

  /** A work queue may not be called like any consumer's dead-letter queue. */
  lemma QueueNamedLikeADlqIsRefused(p: Platform, cs: seq<Consumer>, i: nat, j: nat)
    requires p.levels != [] && i < |cs| && j < |cs| && cs[j].queue == Dlq(cs[i].queue)
    ensures !DeclareAll(EMPTY, ClusterDecls(p, cs)).1
  {
    ClusterAcceptedExactlyWhen(p, cs);
    assert !Fits(p, cs[i], cs[j]);
  }

  /** One consumer alone always gets its topology, unless it consumes from the dead-letter exchange. */
  lemma LoneConsumerIsAccepted(p: Platform, c: Consumer)
    requires p.levels != []
    ensures DeclareAll(EMPTY, ClusterDecls(p, [c])).1 <==> OffDlx(p, c)
  {
    ClusterAcceptedExactlyWhen(p, [c]);
    forall level: nat ensures Dlq(c.queue) != c.queue && RetryQueue(c.queue, level) != c.queue {
      OwnQueuesDiffer(c.queue, level);
    }
    assert ClusterFits(p, [c]) <==> OffDlx(p, [c][0]) && Fits(p, [c][0], [c][0]);
  }
}
