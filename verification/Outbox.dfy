/**
 * Transactional outbox (shared/src/outbox.ts): building rows, the relay that pumps them to the broker
 * at-least-once, and the consumers that deduplicate what they receive.
 *
 * The store follows activity/src/outbox/mongo-outbox.store.ts, one operation of the database per step; any call may
 * throw before or after it took effect.
 */
module Outbox {
  import opened Wrappers

  const MAX_EVENT_DEPTH := 16

  datatype Envelope = Envelope(typ: string, messageId: string, idempotencyKey: Option<string>,
                               traceId: string, causationId: Option<string>, depth: int)

  datatype Status = Pending | Published | Failed

  datatype Row = Row(envelope: Envelope, status: Status, attempts: int)

  datatype Causation = Causation(traceId: Option<string>, causationId: Option<string>, parentDepth: Option<int>)

  datatype Intent = Intent(typ: string, idempotencyKey: Option<string>, causation: Option<Causation>,
                           messageId: Option<string>)

  /** `legal` is the routing-key registry, `newId` the generated message id. */
  function BuildOutboxRow(intent: Intent, newId: string, legal: string -> bool): Result<Row, string> {
    if !legal(intent.typ) then Err(intent.typ)
    else
      var messageId := intent.messageId.GetOr(newId);
      var parent := intent.causation.GetOr(Causation(None, None, None));
      var depth := match parent.parentDepth
        case None => 0
        case Some(d) => if d + 1 < MAX_EVENT_DEPTH then d + 1 else MAX_EVENT_DEPTH;
      var envelope := Envelope(intent.typ, messageId, Some(intent.idempotencyKey.GetOr(messageId)),
                               parent.traceId.GetOr(messageId), parent.causationId, depth);
      Ok(Row(envelope, Pending, 0))
  }

  function DedupKey(e: Envelope): string {
    e.idempotencyKey.GetOr(e.messageId)
  }

  /** The event that reacts to `e`: it inherits the trace, names `e` as its cause and sits one level deeper. */
  function CausedBy(e: Envelope): Causation {
    Causation(Some(e.traceId), Some(e.messageId), Some(e.depth))
  }

  /** `chain` is built by reacting to `root`, then to the reaction, and so on. */
  ghost predicate Reactions(root: Envelope, chain: seq<Envelope>, legal: string -> bool) {
    chain != [] ==>
      var n := |chain| - 1;
      Reactions(root, chain[..n], legal) && Reacts(if n == 0 then root else chain[n - 1], chain[n], legal)
  }

  ghost predicate Reacts(parent: Envelope, e: Envelope, legal: string -> bool) {
    exists intent: Intent, newId: string ::
      intent.causation == Some(CausedBy(parent)) && BuildOutboxRow(intent, newId, legal) == Ok(Row(e, Pending, 0))
  }

  /** A whole causation chain keeps the trace of its root, and its depth counts hops up to the platform limit. */
  lemma {:induction false} ChainsKeepTheTrace(root: Envelope, chain: seq<Envelope>, legal: string -> bool)
    requires Reactions(root, chain, legal) && root.depth <= MAX_EVENT_DEPTH && chain != []
    ensures var last := chain[|chain| - 1];
            && last.traceId == root.traceId
            && last.causationId == Some(if |chain| == 1 then root.messageId else chain[|chain| - 2].messageId)
            && last.depth == if root.depth + |chain| < MAX_EVENT_DEPTH then root.depth + |chain| else MAX_EVENT_DEPTH
  {
    if |chain| > 1 {
      ChainsKeepTheTrace(root, chain[..|chain| - 1], legal);
    }
  }

  /** Everything else about the row that an intent is built into. */
  lemma BuiltRow(intent: Intent, newId: string, legal: string -> bool)
    ensures BuildOutboxRow(intent, newId, legal).Ok? <==> legal(intent.typ)
    ensures legal(intent.typ) ==>
              var row := BuildOutboxRow(intent, newId, legal).value;
              && row.status.Pending? && row.attempts == 0 && row.envelope.typ == intent.typ
              && row.envelope.messageId == intent.messageId.GetOr(newId)
              && (intent.causation.None? ==> row.envelope.causationId.None? && row.envelope.depth == 0
                                             && row.envelope.traceId == row.envelope.messageId)
              && (intent.causation.Some? && intent.causation.value.parentDepth.Some? ==>
                    var deeper := intent.causation.value.parentDepth.value + 1;
                    row.envelope.depth == if deeper < 16 then deeper else 16)
  {
  }

  // ---------------------------------------------------------------- the store

  /** Rows by message id, and the ids in the order the rows were written. */
  datatype Store = Store(order: seq<string>, rows: map<string, Row>)

  ghost predicate StoreOk(s: Store) {
    && (forall i, j :: 0 <= i < j < |s.order| ==> s.order[i] != s.order[j])
    && (forall id :: id in s.rows <==> id in s.order)
    && (forall id :: id in s.rows ==> s.rows[id].envelope.messageId == id)
  }

  predicate IsPending(s: Store, id: string) {
    id in s.rows && s.rows[id].status.Pending?
  }

  /** The oldest pending rows, at most `limit` of them. */
  function FetchPending(s: Store, order: seq<string>, limit: nat): seq<string> {
    if order == [] || limit == 0 then []
    else if IsPending(s, order[0]) then [order[0]] + FetchPending(s, order[1..], limit - 1)
    else FetchPending(s, order[1..], limit)
  }

  /** `zeroMeansAll`: a limit of zero is no limit for Mongo, while the stores over Prisma then fetch nothing. */
  datatype Options = Options(batchSize: nat, zeroMeansAll: bool, maxAttempts: int)

  predicate FetchesNothing(o: Options) {
    o.batchSize == 0 && !o.zeroMeansAll
  }

  function Limit(o: Options, s: Store): nat {
    if o.batchSize == 0 && o.zeroMeansAll then |s.order| else o.batchSize
  }

  function Batch(o: Options, s: Store): seq<string> {
    FetchPending(s, s.order, Limit(o, s))
  }

  function MarkPublished(s: Store, id: string): Store {
    if id in s.rows then s.(rows := s.rows[id := s.rows[id].(status := Published)]) else s
  }

  function Attempts(s: Store, id: string): int {
    if id in s.rows then s.rows[id].attempts else 0
  }

  function StatusAfter(attempts: int, maxAttempts: int): Status {
    if attempts >= maxAttempts then Failed else Pending
  }

  function SetAttempts(s: Store, id: string, attempts: int, maxAttempts: int): Store {
    if id in s.rows
    then s.(rows := s.rows[id := s.rows[id].(attempts := attempts, status := StatusAfter(attempts, maxAttempts))])
    else s
  }

  /** Whatever the status was: the row is not asked for it. */
  function MarkAttemptFailed(s: Store, id: string, maxAttempts: int): Store {
    SetAttempts(s, id, Attempts(s, id) + 1, maxAttempts)
  }

  /** Stale failed rows go back to the queue; which of them are stale is up to the clock. */
  function RequeueFailed(s: Store, ids: set<string>): Store {
    s.(rows := map id | id in s.rows :: if id in ids && s.rows[id].status.Failed?
        then s.rows[id].(status := Pending, attempts := 0)
                                        else s.rows[id])
  }

  /** Requeueing gives the failed rows among the given ones a new start, and touches no other. */
  lemma RequeueMeans(s: Store, ids: set<string>, id: string)
    requires id in s.rows
    ensures var t := RequeueFailed(s, ids);
            && t.order == s.order && t.rows.Keys == s.rows.Keys
            && t.rows[id] == if id in ids && s.rows[id].status.Failed? then Row(s.rows[id].envelope, Pending, 0)
                             else s.rows[id]
  {
  }

  // ---------------------------------------------------------------- one tick

  /** The store, what reached the broker (in order), and the ids of the rows it acked. */
  datatype World = World(store: Store, received: seq<Envelope>, acked: set<string>)

  /** How one row fares; `record` is how `markAttemptFailed` itself ends. */
  datatype Fate =
    | Acked
    | Rejected(arrived: bool, record: Call)     // publish threw; the broker may have the message all the same
    | MarkBroke(applied: bool, record: Call)    // acked, but `markPublished` threw, possibly after it took effect
    | Died(acked: bool)                         // the process died before or after the ack

  /** The tick does not go on to the next row. */
  predicate Stops(f: Fate) {
    f.Died? || (f.Rejected? && f.record.Broke?) || (f.MarkBroke? && f.record.Broke?)
  }

  function Arrive(w: World, id: string, acked: bool): World {
    if id in w.store.rows
    then w.(received := w.received + [w.store.rows[id].envelope], acked := if acked then w.acked + {id} else w.acked)
    else w
  }

  /** What arrives is received in any case, and acknowledged if the broker says so. */
  lemma ArriveMeans(w: World, id: string, acked: bool)
    requires id in w.store.rows
    ensures Arrive(w, id, acked) ==
            World(w.store, w.received + [w.store.rows[id].envelope], w.acked + if acked then {id} else {})
  {
  }

  function Marked(w: World, id: string): World {
    w.(store := MarkPublished(w.store, id))
  }

  function Recorded(w: World, id: string, record: Call, maxAttempts: int): World {
    if record.TookEffect() then w.(store := MarkAttemptFailed(w.store, id, maxAttempts)) else w
  }

  function PumpRow(w: World, id: string, fate: Fate, maxAttempts: int): World {
    match fate
    case Acked => Marked(Arrive(w, id, true), id)
    case Rejected(arrived, record) => Recorded(if arrived then Arrive(w, id, false) else w, id, record, maxAttempts)
    case MarkBroke(applied, record) =>
      var v := Arrive(w, id, true);
      Recorded(if applied then Marked(v, id) else v, id, record, maxAttempts)
    case Died(acked) => if acked then Arrive(w, id, true) else w
  }

  /** Pumping a batch from its `i`-th row on; `fates` says how each row fares. */
  function PumpFrom(w: World, batch: seq<string>, fates: nat -> Fate, maxAttempts: int, i: nat): World
    decreases |batch| - i
  {
    if i >= |batch| then w
    else
      var v := PumpRow(w, batch[i], fates(i), maxAttempts);
      if Stops(fates(i)) then v else PumpFrom(v, batch, fates, maxAttempts, i + 1)
  }

  class OutboxRelay {
    var world: World
    const options: Options

    constructor (w: World, options: Options)
      ensures world == w && this.options == options
    {
      world, this.options := w, options;
    }

    method Publish(id: string, arrived: bool, acked: bool)
      modifies this
      ensures world == if arrived then Arrive(old(world), id, acked) else old(world)
    {
      if arrived {
        world := Arrive(world, id, acked);
      }
    }

    /** The catch block; `done` is false when it throws itself. */
    method Catch(id: string, record: Call) returns (done: bool)
      modifies this
      ensures world == Recorded(old(world), id, record, options.maxAttempts) && done == record.Fine?
    {
      if record.TookEffect() {
        world := world.(store := MarkAttemptFailed(world.store, id, options.maxAttempts));
      }
      return record.Fine?;
    }

    /** One tick; `done` is false when it threw or the process died half-way. */
    method Tick(fates: nat -> Fate) returns (done: bool, fetched: nat, published: nat, failed: nat)
      modifies this
      ensures var batch := Batch(options, old(world).store);
              && fetched == |batch|
              && world == PumpFrom(old(world), batch, fates, options.maxAttempts, 0)
              && (done <==> forall i :: 0 <= i < |batch| ==> !Stops(fates(i)))
              && (done ==> published + failed == fetched)
              && (published == fetched <==> forall i :: 0 <= i < |batch| ==> fates(i).Acked?)
    {
      var batch := Batch(options, world.store);
      ghost var max := options.maxAttempts;
      fetched, published, failed := |batch|, 0, 0;
      var i := 0;
      while i < |batch|
        invariant 0 <= i <= |batch| && published + failed == i
        invariant PumpFrom(old(world), batch, fates, max, 0) == PumpFrom(world, batch, fates, max, i)
        invariant forall j :: 0 <= j < i ==> !Stops(fates(j))
        invariant published == i <==> forall j :: 0 <= j < i ==> fates(j).Acked?
      {
        var id, fate := batch[i], fates(i);
        match fate {
          case Acked =>
            Publish(id, true, true);
            world := Marked(world, id);
            published := published + 1;
          case Died(acked) =>
            Publish(id, acked, true);
            return false, fetched, published, failed;
          case Rejected(arrived, record) =>
            Publish(id, arrived, false);
            var caught := Catch(id, record);
            if !caught {
              return false, fetched, published, failed;
            }
            failed := failed + 1;
          case MarkBroke(applied, record) =>
            Publish(id, true, true);
            if applied {
              world := Marked(world, id);
            }
            var caught := Catch(id, record);
            if !caught {
              return false, fetched, published, failed;
            }
            failed := failed + 1;
        }
        i := i + 1;
      }
      done := true;
    }
  }

  // ---------------------------------------------------------------- whole runs, any number of relays

  type RelayId = nat

  /** How far a relay is with the row at the head of its batch; `Counted` has read the row in `markAttemptFailed`. */
  datatype Phase = Ready | Sent | Failing | Counted(attempts: int)

  /** `todo` holds the rows a relay still has in hand. */
  datatype Relay = Relay(todo: seq<string>, phase: Phase)

  /** One operation on the store or the broker each. */
  datatype Event =
    | Enqueue(row: Row)                                     // a business transaction commits
    | Fetch(relay: RelayId)                                 // a relay starts a tick
    | Send(relay: RelayId, arrived: bool, acked: bool)
    | Mark(relay: RelayId, call: Call)                      // `markPublished`
    | Look(relay: RelayId)                                  // `markAttemptFailed` reads the row
    | Record(relay: RelayId, call: Call)                    // and writes it
    | Die(relay: RelayId)                                   // or the tick ends because reading threw
    | Requeue(ids: set<string>)

  datatype System = System(world: World, relays: map<RelayId, Relay>)

  function At(y: System, relay: RelayId): Relay {
    if relay in y.relays then y.relays[relay] else Relay([], Ready)
  }

  function Todo(y: System, relay: RelayId): seq<string> {
    At(y, relay).todo
  }

  predicate OfRelay(e: Event) {
    !e.Enqueue? && !e.Requeue?
  }

  /** What an event of a relay does to the world, and to the relay itself. */
  function WorldAfter(o: Options, w: World, r: Relay, e: Event): World
    requires r.todo != []
  {
    var id := r.todo[0];
    if e.Send? && r.phase.Ready? && (e.arrived || e.acked) then Arrive(w, id, e.acked)
    else if e.Mark? && r.phase.Sent? && e.call.TookEffect() then Marked(w, id)
    else if e.Record? && r.phase.Counted? && e.call.TookEffect()
    then w.(store := SetAttempts(w.store, id, r.phase.attempts, o.maxAttempts))
    else w
  }

  function RelayAfter(w: World, r: Relay, e: Event): Relay
    requires r.todo != []
  {
    if e.Send? && r.phase.Ready? then r.(phase := if e.acked then Sent else Failing)
    else if e.Mark? && r.phase.Sent? then if e.call.Fine? then Relay(r.todo[1..], Ready) else r.(phase := Failing)
    else if e.Look? && r.phase.Failing? then r.(phase := Counted(Attempts(w.store, r.todo[0]) + 1))
    else if e.Record? && r.phase.Counted? then Relay(if e.call.Fine? then r.todo[1..] else [], Ready)
    else if e.Die? then Relay([], Ready)
    else r
  }

  function Apply(o: Options, y: System, e: Event): System {
    var s := y.world.store;
    match e
    case Enqueue(row) =>
      var id := row.envelope.messageId;
      if id in s.rows then y
      else y.(world := y.world.(store := Store(s.order + [id], s.rows[id := Row(row.envelope, Pending, 0)])))
    case Requeue(ids) => y.(world := y.world.(store := RequeueFailed(s, ids)))
    case Fetch(relay) => y.(relays := y.relays[relay := Relay(Batch(o, s), Ready)])
    case _ =>
      var r := At(y, e.relay);
      if r.todo == [] then y
      else System(WorldAfter(o, y.world, r, e), y.relays[e.relay := RelayAfter(y.world, r, e)])
  }

  /** A relay takes its operations in order: each is possible in its phase only, and otherwise nothing happens. */
  lemma OutOfTurn(o: Options, y: System, e: Event)
    requires OfRelay(e) && !e.Fetch? && !e.Die?
    requires var phase := At(y, e.relay).phase;
             || (e.Send? && !phase.Ready?) || (e.Mark? && !phase.Sent?) || (e.Look? && !phase.Failing?)
             || (e.Record? && !phase.Counted?)
    ensures Apply(o, y, e).world == y.world && At(Apply(o, y, e), e.relay) == At(y, e.relay)
  {
  }

  const EMPTY := System(World(Store([], map[]), [], {}), map[])

  function Run(o: Options, y: System, events: seq<Event>): System {
    if events == [] then y
    else Apply(o, Run(o, y, events[..|events| - 1]), events[|events| - 1])
  }

  lemma RunSnoc(o: Options, y: System, events: seq<Event>, e: Event)
    ensures Run(o, y, events + [e]) == Apply(o, Run(o, y, events), e)
  {
    assert (events + [e])[..|events|] == events;
  }

  // An undisturbed tick is such a run.

  function RowEvents(relay: RelayId, fate: Fate): seq<Event> {
    match fate
    case Acked => [Send(relay, true, true), Mark(relay, Fine)]
    case Rejected(arrived, record) => [Send(relay, arrived, false), Look(relay), Record(relay, record)]
    case MarkBroke(applied, record) =>
      [Send(relay, true, true), Mark(relay, Broke(applied)), Look(relay), Record(relay, record)]
    case Died(acked) => if acked then [Send(relay, true, true), Die(relay)] else [Die(relay)]
  }

  /** The steps of the rows from the `i`-th to the last of `n`. */
  function PumpEvents(relay: RelayId, fates: nat -> Fate, i: nat, n: nat): seq<Event>
    decreases n - i
  {
    if i >= n then [] else RowEvents(relay, fates(i)) + PumpEvents(relay, fates, i + 1, n)
  }

  /** A whole tick of the method is a run of the machine, so what every run promises it promises too. */
  lemma {:induction false} TickIsARun(o: Options, y: System, relay: RelayId, fates: nat -> Fate)
    ensures var batch := Batch(o, y.world.store);
            Run(o, y, [Fetch(relay)] + PumpEvents(relay, fates, 0, |batch|)).world
            == PumpFrom(y.world, batch, fates, o.maxAttempts, 0)
  {
    var batch := Batch(o, y.world.store);
    var fetched := Apply(o, y, Fetch(relay));
    RunSnoc(o, y, [], Fetch(relay));
    assert [] + [Fetch(relay)] == [Fetch(relay)] && batch[0..] == batch;
    RunConcat(o, y, [Fetch(relay)], PumpEvents(relay, fates, 0, |batch|));
    PumpsFollow(o, fetched, relay, batch, fates, 0);
  }

  lemma {:induction false} RunConcat(o: Options, y: System, first: seq<Event>, second: seq<Event>)
    ensures Run(o, y, first + second) == Run(o, Run(o, y, first), second)
  {
    if second == [] {
      assert first + second == first;
    } else {
      var n := |second| - 1;
      assert first + second == (first + second[..n]) + [second[n]];
      RunSnoc(o, y, first + second[..n], second[n]);
      RunConcat(o, y, first, second[..n]);
    }
  }

  lemma RunTwo(o: Options, y: System, a: Event, b: Event)
    ensures Run(o, y, [a]) == Apply(o, y, a)
    ensures Run(o, y, [a, b]) == Apply(o, Apply(o, y, a), b)
  {
    assert [] + [a] == [a] && [a] + [b] == [a, b];
    RunSnoc(o, y, [], a);
    RunSnoc(o, y, [a], b);
  }

  lemma RunThree(o: Options, y: System, a: Event, b: Event, c: Event)
    ensures Run(o, y, [a, b, c]) == Apply(o, Apply(o, Apply(o, y, a), b), c)
  {
    assert [a, b] + [c] == [a, b, c];
    RunTwo(o, y, a, b);
    RunSnoc(o, y, [a, b], c);
  }

  lemma RunFour(o: Options, y: System, a: Event, b: Event, c: Event, d: Event)
    ensures Run(o, y, [a, b, c, d]) == Apply(o, Apply(o, Apply(o, Apply(o, y, a), b), c), d)
  {
    assert [a, b, c] + [d] == [a, b, c, d];
    RunThree(o, y, a, b, c);
    RunSnoc(o, y, [a, b, c], d);
  }

  /** Reading and writing with nobody in between is the whole of `markAttemptFailed`. */
  lemma LookAndRecord(o: Options, y: System, relay: RelayId, call: Call)
    requires Todo(y, relay) != [] && At(y, relay).phase.Failing?
    ensures var z := Apply(o, Apply(o, y, Look(relay)), Record(relay, call));
            && z.world == Recorded(y.world, Todo(y, relay)[0], call, o.maxAttempts)
            && At(z, relay) == Relay(if call.Fine? then Todo(y, relay)[1..] else [], Ready)
  {
  }

  /** The steps of one row add up to its fate. */
  lemma RowFollows(o: Options, y: System, relay: RelayId, fate: Fate)
    requires Todo(y, relay) != [] && At(y, relay).phase.Ready?
    ensures var z := Run(o, y, RowEvents(relay, fate));
            && z.world == PumpRow(y.world, Todo(y, relay)[0], fate, o.maxAttempts)
            && At(z, relay) == Relay(if Stops(fate) then [] else Todo(y, relay)[1..], Ready)
  {
    match fate
    case Acked => RunTwo(o, y, Send(relay, true, true), Mark(relay, Fine));
    case Rejected(arrived, record) =>
      RunThree(o, y, Send(relay, arrived, false), Look(relay), Record(relay, record));
      LookAndRecord(o, Apply(o, y, Send(relay, arrived, false)), relay, record);
    case MarkBroke(applied, record) =>
      RunFour(o, y, Send(relay, true, true), Mark(relay, Broke(applied)), Look(relay), Record(relay, record));
      LookAndRecord(o, Apply(o, Apply(o, y, Send(relay, true, true)), Mark(relay, Broke(applied))), relay, record);
    case Died(acked) =>
      RunTwo(o, y, Send(relay, true, true), Die(relay));
      RunTwo(o, y, Die(relay), Die(relay));
  }

  /** A relay with nothing in hand does nothing. */
  lemma {:induction false} IdleRun(o: Options, y: System, relay: RelayId, events: seq<Event>)
    requires Todo(y, relay) == []
    requires forall e :: e in events ==> OfRelay(e) && !e.Fetch? && e.relay == relay
    ensures Run(o, y, events) == y
  {
    if events != [] {
      assert events[|events| - 1] in events && forall e :: e in events[..|events| - 1] ==> e in events;
      IdleRun(o, y, relay, events[..|events| - 1]);
    }
  }

  lemma {:induction false} EventsOfRelay(relay: RelayId, fates: nat -> Fate, i: nat, n: nat)
    ensures forall e :: e in PumpEvents(relay, fates, i, n) ==> OfRelay(e) && !e.Fetch? && e.relay == relay
    decreases n - i
  {
    if i < n {
      EventsOfRelay(relay, fates, i + 1, n);
    }
  }

  lemma {:induction false} PumpsFollow(o: Options, y: System, relay: RelayId, batch: seq<string>, fates: nat -> Fate,
                                       i: nat)
    requires i <= |batch| && At(y, relay) == Relay(batch[i..], Ready)
    ensures Run(o, y, PumpEvents(relay, fates, i, |batch|)).world == PumpFrom(y.world, batch, fates, o.maxAttempts, i)
    decreases |batch| - i
  {
    if i < |batch| {
      var row, rest := RowEvents(relay, fates(i)), PumpEvents(relay, fates, i + 1, |batch|);
      var z := Run(o, y, row);
      RunConcat(o, y, row, rest);
      RowFollows(o, y, relay, fates(i));
      if Stops(fates(i)) {
        EventsOfRelay(relay, fates, i + 1, |batch|);
        IdleRun(o, z, relay, rest);
      } else {
        PumpsFollow(o, z, relay, batch, fates, i + 1);
      }
    }
  }

  // ---------------------------------------------------------------- what every run keeps

  ghost predicate RowOk(o: Options, w: World, id: string)
    requires id in w.store.rows
  {
    var r := w.store.rows[id];
    && 0 <= r.attempts
    && (r.status.Published? ==> id in w.acked)
    && (id in w.acked ==> r.envelope in w.received)
    && (r.status.Pending? ==> r.attempts < o.maxAttempts)
    && (r.status.Failed? ==> r.attempts >= o.maxAttempts)
  }

  ghost predicate WorldOk(o: Options, w: World) {
    && StoreOk(w.store)
    && w.acked <= w.store.rows.Keys
    && (forall id :: id in w.store.rows ==> RowOk(o, w, id))
    && (forall e :: e in w.received ==> e.messageId in w.store.rows && w.store.rows[e.messageId].envelope == e)
  }

  /** A relay marks what was acked, and writes a count of at least one. */
  ghost predicate RelayOk(w: World, r: Relay) {
    && (forall id :: id in r.todo ==> id in w.store.rows)
    && (r.todo != [] && r.phase.Sent? ==> r.todo[0] in w.acked)
    && (r.phase.Counted? ==> r.phase.attempts >= 1)
  }

  ghost predicate SystemOk(o: Options, y: System) {
    WorldOk(o, y.world) && forall relay :: RelayOk(y.world, At(y, relay))
  }

  lemma ArriveKeepsOk(o: Options, w: World, id: string, acked: bool)
    requires WorldOk(o, w)
    ensures WorldOk(o, Arrive(w, id, acked))
  {
    var v := Arrive(w, id, acked);
    assert forall e :: e in w.received ==> e in v.received;
    if id in w.store.rows {
      assert v.received[|w.received|] == w.store.rows[id].envelope;
    }
    forall j | j in v.store.rows
      ensures RowOk(o, v, j)
    {
      assert RowOk(o, w, j);
    }
  }

  /** Replacing one row by one that is in order itself, with the same envelope, keeps the store in order. */
  lemma SetKeepsOk(o: Options, w: World, id: string, row: Row)
    requires WorldOk(o, w) && id in w.store.rows && row.envelope == w.store.rows[id].envelope
    requires var v := w.(store := w.store.(rows := w.store.rows[id := row])); RowOk(o, v, id)
    ensures WorldOk(o, w.(store := w.store.(rows := w.store.rows[id := row])))
  {
    var v := w.(store := w.store.(rows := w.store.rows[id := row]));
    forall j | j in v.store.rows
      ensures RowOk(o, v, j)
    {
      assert j != id ==> RowOk(o, w, j);
    }
  }

  lemma WorldAfterKeepsOk(o: Options, w: World, r: Relay, e: Event)
    requires WorldOk(o, w) && RelayOk(w, r) && r.todo != []
    ensures WorldOk(o, WorldAfter(o, w, r, e))
  {
    var id := r.todo[0];
    assert RowOk(o, w, id);
    if e.Send? {
      ArriveKeepsOk(o, w, id, e.acked);
    } else if e.Mark? && r.phase.Sent? {
      SetKeepsOk(o, w, id, w.store.rows[id].(status := Published));
    } else if e.Record? && r.phase.Counted? {
      var n := r.phase.attempts;
      SetKeepsOk(o, w, id, w.store.rows[id].(attempts := n, status := StatusAfter(n, o.maxAttempts)));
    }
  }

  lemma RelayAfterIsOk(o: Options, w: World, r: Relay, e: Event)
    requires WorldOk(o, w) && RelayOk(w, r) && r.todo != []
    ensures var v := WorldAfter(o, w, r, e);
            RelayOk(v, RelayAfter(w, r, e)) && w.acked <= v.acked && w.store.rows.Keys == v.store.rows.Keys
  {
    assert RowOk(o, w, r.todo[0]);
  }

  /** Rows and acks only become more, so what the other relays rely on stays. */
  lemma RelayStepKeepsOk(o: Options, y: System, e: Event)
    requires SystemOk(o, y) && OfRelay(e) && !e.Fetch?
    ensures SystemOk(o, Apply(o, y, e))
  {
    var r, z := At(y, e.relay), Apply(o, y, e);
    assert RelayOk(y.world, r);
    if r.todo != [] {
      WorldAfterKeepsOk(o, y.world, r, e);
      RelayAfterIsOk(o, y.world, r, e);
      forall relay ensures RelayOk(z.world, At(z, relay)) {
        assert RelayOk(y.world, At(y, relay));
      }
    }
  }

  lemma FetchKeepsOk(o: Options, y: System, relay: RelayId)
    requires SystemOk(o, y)
    ensures SystemOk(o, Apply(o, y, Fetch(relay)))
  {
    var z := Apply(o, y, Fetch(relay));
    FetchedArePending(y.world.store, y.world.store.order, Limit(o, y.world.store));
    forall other ensures RelayOk(z.world, At(z, other)) {
      assert RelayOk(y.world, At(y, other));
    }
  }

  lemma EnqueueKeepsOk(o: Options, y: System, row: Row)
    requires o.maxAttempts >= 1 && SystemOk(o, y)
    ensures SystemOk(o, Apply(o, y, Enqueue(row)))
  {
    var z := Apply(o, y, Enqueue(row));
    EnqueueKeepsStore(y.world.store, row);
    forall j | j in z.world.store.rows
      ensures RowOk(o, z.world, j)
    {
      assert j in y.world.store.rows ==> RowOk(o, y.world, j);
    }
    forall relay ensures RelayOk(z.world, At(z, relay)) {
      assert RelayOk(y.world, At(y, relay));
    }
  }

  lemma RequeueKeepsOk(o: Options, y: System, ids: set<string>)
    requires o.maxAttempts >= 1 && SystemOk(o, y)
    ensures SystemOk(o, Apply(o, y, Requeue(ids)))
  {
    var z := Apply(o, y, Requeue(ids));
    forall j | j in z.world.store.rows
      ensures RowOk(o, z.world, j)
    {
      assert RowOk(o, y.world, j);
    }
    forall relay ensures RelayOk(z.world, At(z, relay)) {
      assert RelayOk(y.world, At(y, relay));
    }
  }

  lemma StepKeepsOk(o: Options, y: System, e: Event)
    requires o.maxAttempts >= 1 && SystemOk(o, y)
    ensures SystemOk(o, Apply(o, y, e))
  {
    match e
    case Enqueue(row) => EnqueueKeepsOk(o, y, row);
    case Requeue(ids) => RequeueKeepsOk(o, y, ids);
    case Fetch(relay) => FetchKeepsOk(o, y, relay);
    case _ => RelayStepKeepsOk(o, y, e);
  }

  lemma {:induction false} RunKeepsOk(o: Options, events: seq<Event>)
    requires o.maxAttempts >= 1
    ensures SystemOk(o, Run(o, EMPTY, events))
  {
    if events != [] {
      RunKeepsOk(o, events[..|events| - 1]);
      StepKeepsOk(o, Run(o, EMPTY, events[..|events| - 1]), events[|events| - 1]);
    }
  }

  /** At-least-once: however relays interleave, fail and die, a published row was acked and the broker has it. */
  lemma PublishedWasAcked(o: Options, events: seq<Event>, id: string)
    requires o.maxAttempts >= 1
    requires var s := Run(o, EMPTY, events).world.store; id in s.rows && s.rows[id].status.Published?
    ensures var w := Run(o, EMPTY, events).world; id in w.acked && w.store.rows[id].envelope in w.received
  {
    RunKeepsOk(o, events);
    assert RowOk(o, Run(o, EMPTY, events).world, id);
  }

  /** No row ever disappears, and its envelope is published verbatim as it was written. */
  lemma {:induction false} RowsPersist(o: Options, y: System, events: seq<Event>, id: string)
    requires id in y.world.store.rows
    ensures var s := Run(o, y, events).world.store;
            id in s.rows
            && s.rows[id].envelope == y.world.store.rows[id].envelope
  {
    if events != [] {
      RowsPersist(o, y, events[..|events| - 1], id);
    }
  }

  /** The attempt bound does its work exactly when at least one attempt is allowed. */
  lemma AttemptsAreBounded(o: Options)
    ensures o.maxAttempts >= 1 <==>
            forall events: seq<Event>, id: string ::
              var s := Run(o, EMPTY, events).world.store;
              IsPending(s, id) ==> s.rows[id].attempts < o.maxAttempts
  {
    if o.maxAttempts >= 1 {
      forall events: seq<Event>, id: string | IsPending(Run(o, EMPTY, events).world.store, id)
        ensures Run(o, EMPTY, events).world.store.rows[id].attempts < o.maxAttempts
      {
        RunKeepsOk(o, events);
        assert RowOk(o, Run(o, EMPTY, events).world, id);
      }
    } else {
      var row := Row(Envelope("", "a", None, "", None, 0), Pending, 0);
      var events := [Enqueue(row)];
      assert events[..0] == [];
      assert IsPending(Run(o, EMPTY, events).world.store, "a");
      assert !(Run(o, EMPTY, events).world.store.rows["a"].attempts < o.maxAttempts);
    }
  }

  // "Published" is terminal as long as no row is in the hands of two relays and no mark throws after taking effect.

  /** What a relay has in hand is pending, each row once. */
  ghost predicate HandOk(s: Store, batch: seq<string>) {
    && (forall i :: 0 <= i < |batch| ==> IsPending(s, batch[i]))
    && (forall i, j :: 0 <= i < j < |batch| ==> batch[i] != batch[j])
  }

  ghost predicate Hands(y: System) {
    StoreOk(y.world.store) && forall relay :: HandOk(y.world.store, Todo(y, relay))
  }

  /** No row is in the hands of two relays. */
  ghost predicate Disjoint(y: System) {
    forall a, b, id :: a != b && id in Todo(y, a) ==> id !in Todo(y, b)
  }

  /** And it never was. */
  ghost predicate NeverShared(o: Options, events: seq<Event>) {
    Disjoint(Run(o, EMPTY, events)) && (events != [] ==> NeverShared(o, events[..|events| - 1]))
  }

  /** `markPublished` throws although the row is published now. */
  predicate LateMark(e: Event) {
    e.Mark? && e.call == Broke(true)
  }

  predicate NoLateMarks(events: seq<Event>) {
    forall e :: e in events ==> !LateMark(e)
  }

  predicate StaysPublished(s: Store, t: Store) {
    forall id :: id in s.rows && s.rows[id].status.Published? ==> id in t.rows && t.rows[id].status.Published?
  }

  lemma {:induction false} FetchedArePending(s: Store, order: seq<string>, limit: nat)
    requires forall i, j :: 0 <= i < j < |order| ==> order[i] != order[j]
    ensures var batch := FetchPending(s, order, limit);
            && |batch| <= limit
            && (forall i :: 0 <= i < |batch| ==> IsPending(s, batch[i]) && batch[i] in order)
            && (forall i, j :: 0 <= i < j < |batch| ==> batch[i] != batch[j])
            && (|batch| < limit ==> forall id :: id in order && IsPending(s, id) ==> id in batch)
  {
    if order != [] && limit > 0 {
      if IsPending(s, order[0]) {
        FetchedArePending(s, order[1..], limit - 1);
        assert order[0] !in order[1..];
      } else {
        FetchedArePending(s, order[1..], limit);
      }
    }
  }

  /** An event of a relay rewrites the row at the head of its batch and no other, and not if that is published. */
  lemma RelayStepOnly(o: Options, w: World, r: Relay, e: Event)
    requires StoreOk(w.store) && r.todo != [] && IsPending(w.store, r.todo[0])
    ensures var s, t := w.store, WorldAfter(o, w, r, e).store;
            && StoreOk(t) && t.rows.Keys == s.rows.Keys && StaysPublished(s, t)
            && forall id :: id != r.todo[0] && id in s.rows ==> t.rows[id] == s.rows[id]
  {
  }

  /** The head leaves the hand when its status has changed, unless a mark threw late. */
  lemma RelayStepKeepsHand(o: Options, w: World, r: Relay, e: Event)
    requires StoreOk(w.store) && r.todo != [] && HandOk(w.store, r.todo) && !LateMark(e)
    ensures HandOk(WorldAfter(o, w, r, e).store, RelayAfter(w, r, e).todo)
  {
    var batch := RelayAfter(w, r, e).todo;
    assert IsPending(w.store, r.todo[0]);
    RelayStepOnly(o, w, r, e);
    if batch == r.todo[1..] {
      forall i | 0 <= i < |batch| ensures IsPending(WorldAfter(o, w, r, e).store, batch[i]) {
        assert IsPending(w.store, r.todo[i + 1]) && r.todo[i + 1] != r.todo[0];
      }
    }
  }

  lemma RelayStepKeepsHands(o: Options, y: System, e: Event)
    requires Hands(y) && Disjoint(y) && OfRelay(e) && !e.Fetch? && !LateMark(e)
    ensures Hands(Apply(o, y, e)) && StaysPublished(y.world.store, Apply(o, y, e).world.store)
  {
    var r, z := At(y, e.relay), Apply(o, y, e);
    assert HandOk(y.world.store, Todo(y, e.relay));
    if r.todo != [] {
      assert IsPending(y.world.store, r.todo[0]);
      RelayStepOnly(o, y.world, r, e);
      RelayStepKeepsHand(o, y.world, r, e);
      forall other ensures HandOk(z.world.store, Todo(z, other)) {
        if other != e.relay {
          assert HandOk(y.world.store, Todo(y, other)) && r.todo[0] in Todo(y, e.relay);
          forall i | 0 <= i < |Todo(y, other)| ensures IsPending(z.world.store, Todo(y, other)[i]) {
            assert Todo(y, other)[i] in Todo(y, other);
          }
        }
      }
    }
  }

  lemma EnqueueKeepsStore(s: Store, row: Row)
    requires StoreOk(s)
    ensures var id := row.envelope.messageId;
            id !in s.rows ==> StoreOk(Store(s.order + [id], s.rows[id := Row(row.envelope, Pending, 0)]))
  {
    var id := row.envelope.messageId;
    var t := Store(s.order + [id], s.rows[id := Row(row.envelope, Pending, 0)]);
    assert forall x :: x in t.order <==> x in s.order || x == id;
  }

  lemma StoreStepKeepsHands(o: Options, y: System, e: Event)
    requires Hands(y) && !OfRelay(e)
    ensures Hands(Apply(o, y, e)) && StaysPublished(y.world.store, Apply(o, y, e).world.store)
  {
    var s, z := y.world.store, Apply(o, y, e);
    var t := z.world.store;
    if e.Enqueue? {
      EnqueueKeepsStore(s, e.row);
    } else {
      assert t.rows.Keys == s.rows.Keys && t.order == s.order;
      assert forall id :: id in t.rows <==> id in s.rows;
    }
    assert forall id :: IsPending(s, id) ==> IsPending(t, id);
    forall relay ensures HandOk(t, Todo(z, relay)) {
      assert HandOk(s, Todo(y, relay)) && Todo(z, relay) == Todo(y, relay);
    }
  }

  lemma StepKeepsHands(o: Options, y: System, e: Event)
    requires Hands(y) && Disjoint(y) && !LateMark(e)
    ensures Hands(Apply(o, y, e)) && StaysPublished(y.world.store, Apply(o, y, e).world.store)
  {
    if !OfRelay(e) {
      StoreStepKeepsHands(o, y, e);
    } else if e.Fetch? {
      FetchedArePending(y.world.store, y.world.store.order, Limit(o, y.world.store));
      forall relay ensures HandOk(y.world.store, Todo(Apply(o, y, e), relay)) {
        assert HandOk(y.world.store, Todo(y, relay));
      }
    } else {
      RelayStepKeepsHands(o, y, e);
    }
  }

  lemma {:induction false} HandsKept(o: Options, events: seq<Event>)
    requires NeverShared(o, events) && NoLateMarks(events)
    ensures Hands(Run(o, EMPTY, events))
  {
    if events != [] {
      var n := |events| - 1;
      assert events[n] in events && forall e :: e in events[..n] ==> e in events;
      HandsKept(o, events[..n]);
      StepKeepsHands(o, Run(o, EMPTY, events[..n]), events[n]);
    }
  }

  ghost predicate PublishedAfter(o: Options, events: seq<Event>, id: string) {
    var s := Run(o, EMPTY, events).world.store;
    id in s.rows && s.rows[id].status.Published?
  }

  /** Once published, a row stays published, whatever happens next, unless relays share rows or a mark throws late. */
  lemma {:induction false} PublishedIsTerminal(o: Options, before: seq<Event>, after: seq<Event>, id: string)
    requires NeverShared(o, before + after) && NoLateMarks(before + after) && PublishedAfter(o, before, id)
    ensures PublishedAfter(o, before + after, id)
  {
    if after == [] {
      assert before + after == before;
    } else {
      var n := |after| - 1;
      var most := before + after[..n];
      assert before + after == most + [after[n]] && (before + after)[..|before + after| - 1] == most;
      assert after[n] in before + after && forall e :: e in most ==> e in before + after;
      RunSnoc(o, EMPTY, most, after[n]);
      PublishedIsTerminal(o, before, after[..n], id);
      HandsKept(o, most);
      StepKeepsHands(o, Run(o, EMPTY, most), after[n]);
    }
  }

  /** All ticks are those of the relays in `relays`. */
  predicate ByRelays(events: seq<Event>, relays: set<RelayId>) {
    forall e :: e in events && OfRelay(e) ==> e.relay in relays
  }

  /** A run of these relays, and `late` tells whether a mark may throw after taking effect. */
  predicate Allowed(events: seq<Event>, relays: set<RelayId>, late: bool) {
    ByRelays(events, relays) && (late || NoLateMarks(events))
  }

  /** In every such run a published row stays published. */
  ghost predicate KeepsPublished(o: Options, relays: set<RelayId>, late: bool) {
    forall before, after, id ::
      Allowed(before + after, relays, late) && PublishedAfter(o, before, id) ==> PublishedAfter(o, before + after, id)
  }

  /**
   * "Published" is terminal exactly for no relay, for relays that fetch nothing, or for a single relay whose marks
   * never throw after taking effect; whatever the limit of attempts is.
   */
  lemma PublishedIsTerminalExactlyWhen(o: Options, relays: set<RelayId>, late: bool)
    ensures KeepsPublished(o, relays, late) <==> relays == {} || FetchesNothing(o) || (|relays| == 1 && !late)
  {
    if relays == {} || FetchesNothing(o) {
      forall before, after, id | Allowed(before + after, relays, late) ensures !PublishedAfter(o, before, id) {
        assert forall e :: e in before ==> e in before + after;
        NothingIsPublished(o, before, relays);
      }
    } else if |relays| == 1 && !late {
      forall before, after, id | Allowed(before + after, relays, late) && PublishedAfter(o, before, id)
        ensures PublishedAfter(o, before + after, id)
      {
        OneRelayNeverShares(o, before + after, relays);
        PublishedIsTerminal(o, before, after, id);
      }
    } else {
      var a :| a in relays;
      if late {
        LateMarkReopensPublished(o, relays, a);
      } else {
        assert |relays - {a}| == |relays| - 1;
        var b :| b in relays - {a};
        OverlapReopensPublished(o, relays, a, b);
      }
    }
  }

  /** Only the given relays have anything in hand, and nobody has when batches are empty. */
  lemma {:induction false} OthersAreIdle(o: Options, events: seq<Event>, relays: set<RelayId>, relay: RelayId)
    requires ByRelays(events, relays)
    ensures relay !in relays || FetchesNothing(o) ==> Todo(Run(o, EMPTY, events), relay) == []
  {
    if events != [] {
      var n := |events| - 1;
      assert events[n] in events && forall e :: e in events[..n] ==> e in events;
      OthersAreIdle(o, events[..n], relays, relay);
    }
  }

  /** Without a relay that works, no row is ever published. */
  lemma {:induction false} NothingIsPublished(o: Options, events: seq<Event>, relays: set<RelayId>)
    requires ByRelays(events, relays) && (relays == {} || FetchesNothing(o))
    ensures forall id :: !PublishedAfter(o, events, id)
  {
    if events != [] {
      var n := |events| - 1;
      assert events[n] in events && forall e :: e in events[..n] ==> e in events;
      NothingIsPublished(o, events[..n], relays);
      if OfRelay(events[n]) {
        OthersAreIdle(o, events[..n], relays, events[n].relay);
      }
      forall id ensures !PublishedAfter(o, events, id) {
        assert !PublishedAfter(o, events[..n], id);
      }
    }
  }

  lemma {:induction false} OneRelayNeverShares(o: Options, events: seq<Event>, relays: set<RelayId>)
    requires ByRelays(events, relays) && |relays| == 1
    ensures NeverShared(o, events)
  {
    var y := Run(o, EMPTY, events);
    forall a, b, id | a != b && id in Todo(y, a) ensures id !in Todo(y, b) {
      OthersAreIdle(o, events, relays, a);
      OthersAreIdle(o, events, relays, b);
      assert a in relays && b in relays ==> |relays - {a, b}| == |relays| - |{a, b}|;
    }
    if events != [] {
      assert forall e :: e in events[..|events| - 1] ==> e in events;
      OneRelayNeverShares(o, events[..|events| - 1], relays);
    }
  }

  /** Some run of these relays takes a published row back. */
  ghost predicate TakesBack(o: Options, relays: set<RelayId>, late: bool) {
    exists before, after, id ::
      Allowed(before + after, relays, late) && PublishedAfter(o, before, id) && !PublishedAfter(o, before + after, id)
  }

  /** A relay that has failed with a row and records it takes the row back, published or not. */
  lemma FailureIsRecorded(o: Options, relays: set<RelayId>, late: bool, before: seq<Event>, relay: RelayId)
    requires Allowed(before, relays, late) && relay in relays
    requires var y := Run(o, EMPTY, before);
             At(y, relay) == Relay(["x"], Failing) && PublishedAfter(o, before, "x")
    ensures TakesBack(o, relays, late)
  {
    var y, after := Run(o, EMPTY, before), [Look(relay), Record(relay, Fine)];
    LookAndRecord(o, y, relay, Fine);
    RunTwo(o, y, Look(relay), Record(relay, Fine));
    RunConcat(o, EMPTY, before, after);
    assert Allowed(before + after, relays, late) && !PublishedAfter(o, before + after, "x");
  }

  const ROW_X := Row(Envelope("", "x", None, "", None, 0), Pending, 0)

  /** What is in the hands of relays that have just fetched the one row there is. */
  lemma FetchesX(o: Options, y: System, relay: RelayId)
    requires !FetchesNothing(o) && y.world.store == Store(["x"], map["x" := ROW_X])
    ensures Apply(o, y, Fetch(relay)) == y.(relays := y.relays[relay := Relay(["x"], Ready)])
  {
    var s, limit := y.world.store, Limit(o, y.world.store);
    assert IsPending(s, "x") && limit >= 1 && ["x"][1..] == [];
    assert FetchPending(s, s.order, limit) == ["x"] + FetchPending(s, [], limit - 1) == ["x"];
  }

  /** The head of a batch is sent and marked; the mark may throw after taking effect. */
  lemma SendsAndMarks(o: Options, y: System, relay: RelayId, call: Call)
    requires At(y, relay) == Relay(["x"], Ready) && "x" in y.world.store.rows && call.TookEffect()
    ensures var z := Apply(o, Apply(o, y, Send(relay, true, true)), Mark(relay, call));
            && "x" in z.world.store.rows && z.world.store.rows["x"].status.Published?
            && At(z, relay) == (if call.Fine? then Relay([], Ready) else Relay(["x"], Failing))
            && forall other :: other != relay ==> At(z, other) == At(y, other)
  {
  }

  /** One relay is enough when a mark throws after taking effect: the catch block records a failure all the same. */
  lemma LateMarkReopensPublished(o: Options, relays: set<RelayId>, a: RelayId)
    requires !FetchesNothing(o) && a in relays
    ensures TakesBack(o, relays, true)
  {
    var before := [Enqueue(ROW_X), Fetch(a), Send(a, true, true), Mark(a, Broke(true))];
    RunFour(o, EMPTY, before[0], before[1], before[2], before[3]);
    var y := Apply(o, EMPTY, Enqueue(ROW_X));
    FetchesX(o, y, a);
    SendsAndMarks(o, Apply(o, y, Fetch(a)), a, Broke(true));
    FailureIsRecorded(o, relays, true, before, a);
  }

  /** Two relays that overlap undo a publication: the failure of the slower one is recorded last. */
  lemma OverlapReopensPublished(o: Options, relays: set<RelayId>, a: RelayId, b: RelayId)
    requires !FetchesNothing(o) && a != b && a in relays && b in relays
    ensures TakesBack(o, relays, false)
  {
    var start := [Enqueue(ROW_X), Fetch(a), Fetch(b), Send(b, false, false)];
    var mark := [Send(a, true, true), Mark(a, Fine)];
    BothFetchX(o, a, b);
    RunConcat(o, EMPTY, start, mark);
    RunTwo(o, Run(o, EMPTY, start), mark[0], mark[1]);
    SendsAndMarks(o, Run(o, EMPTY, start), a, Fine);
    FailureIsRecorded(o, relays, false, start + mark, b);
  }

  lemma BothFetchX(o: Options, a: RelayId, b: RelayId)
    requires !FetchesNothing(o) && a != b
    ensures var y := Run(o, EMPTY, [Enqueue(ROW_X), Fetch(a), Fetch(b), Send(b, false, false)]);
            At(y, a) == Relay(["x"], Ready) && At(y, b) == Relay(["x"], Failing) && "x" in y.world.store.rows
  {
    RunFour(o, EMPTY, Enqueue(ROW_X), Fetch(a), Fetch(b), Send(b, false, false));
    var y := Apply(o, EMPTY, Enqueue(ROW_X));
    FetchesX(o, y, a);
    FetchesX(o, Apply(o, y, Fetch(a)), b);
  }

  // ---------------------------------------------------------------- draining

  function CountPending(s: Store, order: seq<string>): nat {
    if order == [] then 0 else (if IsPending(s, order[0]) then 1 else 0) + CountPending(s, order[1..])
  }

  /** A tick with no failure publishes exactly the fetched rows and leaves all the others alone. */
  lemma {:induction false} QuietPump(w: World, batch: seq<string>, fates: nat -> Fate, maxAttempts: int, i: nat)
    requires i <= |batch| && forall j :: 0 <= j < |batch| ==> fates(j).Acked? && batch[j] in w.store.rows
    ensures var v := PumpFrom(w, batch, fates, maxAttempts, i);
            && v.store.order == w.store.order && v.store.rows.Keys == w.store.rows.Keys
            && forall id :: id in w.store.rows ==>
                              v.store.rows[id] == if id in batch[i..] then w.store.rows[id].(status := Published)
                                  else w.store.rows[id]
    decreases |batch| - i
  {
    if i < |batch| {
      QuietPump(PumpRow(w, batch[i], fates(i), maxAttempts), batch, fates, maxAttempts, i + 1);
      assert batch[i..] == [batch[i]] + batch[i + 1..];
    }
  }

  lemma {:induction false} CountAfterFetch(s: Store, t: Store, order: seq<string>, limit: nat)
    requires forall i, j :: 0 <= i < j < |order| ==> order[i] != order[j]
    requires forall id :: id in order ==>
             (IsPending(t, id) <==> IsPending(s, id) && id !in FetchPending(s, order, limit))
    ensures CountPending(t, order) == if CountPending(s, order) < limit then 0 else CountPending(s, order) - limit
  {
    if order != [] {
      var rest := order[1..];
      if limit > 0 && IsPending(s, order[0]) {
        assert order[0] !in rest;
        CountAfterFetch(s, t, rest, limit - 1);
      } else if limit > 0 {
        CountAfterFetch(s, t, rest, limit);
      } else {
        assert FetchPending(s, rest, 0) == [];
        CountAfterFetch(s, t, rest, 0);
      }
      FetchedArePending(s, rest, limit);
    }
  }

  /** Each quiet tick takes `batchSize` rows off the backlog, so a reachable broker drains it. */
  lemma QuietTickDrains(o: Options, events: seq<Event>, fates: nat -> Fate)
    requires o.maxAttempts >= 1 && forall i :: fates(i).Acked?
    ensures var w := Run(o, EMPTY, events).world;
            var v := PumpFrom(w, Batch(o, w.store), fates, o.maxAttempts, 0);
            var backlog, limit := CountPending(w.store, w.store.order), Limit(o, w.store);
            CountPending(v.store, v.store.order) == if backlog < limit then 0 else backlog - limit
  {
    RunKeepsOk(o, events);
    var w := Run(o, EMPTY, events).world;
    var batch := Batch(o, w.store);
    FetchedArePending(w.store, w.store.order, Limit(o, w.store));
    QuietPump(w, batch, fates, o.maxAttempts, 0);
    assert batch[0..] == batch;
    CountAfterFetch(w.store, PumpFrom(w, batch, fates, o.maxAttempts, 0).store, w.store.order, Limit(o, w.store));
  }

  // ---------------------------------------------------------------- the consumer side

  predicate Knows(applied: seq<Envelope>, key: string) {
    exists a :: a in applied && DedupKey(a) == key
  }

  /** A consumer applies a delivery unless it has applied its dedup key before. */
  function Consume(inbox: seq<Envelope>): (applied: seq<Envelope>) {
    if inbox == [] then []
    else
      var before, e := Consume(inbox[..|inbox| - 1]), inbox[|inbox| - 1];
      if Knows(before, DedupKey(e)) then before else before + [e]
  }

  ghost predicate Distinct(applied: seq<Envelope>) {
    forall i, j :: 0 <= i < j < |applied| ==> DedupKey(applied[i]) != DedupKey(applied[j])
  }

  lemma KnowsMore(before: seq<Envelope>, e: Envelope)
    ensures forall key :: Knows(before + [e], key) <==> Knows(before, key) || DedupKey(e) == key
    ensures Distinct(before) && !Knows(before, DedupKey(e)) ==> Distinct(before + [e])
  {
    forall key
      ensures Knows(before + [e], key) <==> Knows(before, key) || DedupKey(e) == key
    {
      if Knows(before, key) {
        var a :| a in before && DedupKey(a) == key;
        assert a in before + [e];
      }
      assert e in before + [e];
    }
    assert forall i :: 0 <= i < |before| ==> before[i] in before;
  }

  /** Deliveries may be repeated, reordered or late: each fact is applied exactly once if it is delivered at all. */
  lemma {:induction false} EachFactOnce(inbox: seq<Envelope>)
    ensures Distinct(Consume(inbox))
    ensures forall a :: a in Consume(inbox) ==> a in inbox
    ensures forall e :: e in inbox ==> Knows(Consume(inbox), DedupKey(e))
  {
    if inbox != [] {
      var n := |inbox| - 1;
      EachFactOnce(inbox[..n]);
      KnowsMore(Consume(inbox[..n]), inbox[n]);
      assert inbox == inbox[..n] + [inbox[n]];
    }
  }

  /** What an intent says, as far as consumers tell facts apart: its business key, or else its message. */
  function FactOf(intent: Intent, newId: string): string {
    match intent.idempotencyKey
    case Some(key) => key
    case None => intent.messageId.GetOr(newId)
  }

  ghost predicate Tells(e: Envelope, fact: string) {
    exists intent: Intent, newId: string, legal: string -> bool ::
      BuildOutboxRow(intent, newId, legal) == Ok(Row(e, Pending, 0)) && FactOf(intent, newId) == fact
  }

  lemma TellsItsKey(e: Envelope, fact: string)
    requires Tells(e, fact)
    ensures DedupKey(e) == fact
  {
  }

  /** One fact is applied once, under whatever message ids it was written and however often it was delivered. */
  lemma FactsAreAppliedOnce(inbox: seq<Envelope>, facts: seq<string>, i: nat)
    requires |facts| == |inbox| && (forall j :: 0 <= j < |inbox| ==> Tells(inbox[j], facts[j])) && i < |inbox|
    ensures exists n :: 0 <= n < |Consume(inbox)| && Tells(Consume(inbox)[n], facts[i]) &&
                        forall m :: 0 <= m < |Consume(inbox)| && Tells(Consume(inbox)[m], facts[i]) ==> m == n
  {
    var applied := Consume(inbox);
    EachFactOnce(inbox);
    TellsItsKey(inbox[i], facts[i]);
    var a :| a in applied && DedupKey(a) == facts[i];
    var n :| 0 <= n < |applied| && applied[n] == a;
    var j :| 0 <= j < |inbox| && inbox[j] == a;
    TellsItsKey(a, facts[j]);
    forall m | 0 <= m < |applied| && Tells(applied[m], facts[i]) ensures m == n {
      TellsItsKey(applied[m], facts[i]);
    }
  }

  /** Two saves are one fact exactly when they carry one business key, or none and one message id. */
  lemma TwoSaves(a: Intent, b: Intent, idA: string, idB: string, legal: string -> bool)
    requires legal(a.typ) && legal(b.typ)
    ensures var x, y := BuildOutboxRow(a, idA, legal).value.envelope, BuildOutboxRow(b, idB, legal).value.envelope;
            && (a.idempotencyKey.Some? && b.idempotencyKey == a.idempotencyKey ==> Consume([x, y]) == [x])
            && (a.idempotencyKey.Some? && b.idempotencyKey.Some? && b.idempotencyKey != a.idempotencyKey ==>
                  Consume([x, y]) == [x, y])
            && (a.idempotencyKey.None? && b.idempotencyKey.None? ==>
                  Consume([x, y]) == if x.messageId == y.messageId then [x] else [x, y])
  {
    var x, y := BuildOutboxRow(a, idA, legal).value.envelope, BuildOutboxRow(b, idB, legal).value.envelope;
    assert [x, y][..1] == [x] && [x][..0] == [];
    assert Consume([x]) == [x];
    assert Knows([x], DedupKey(y)) <==> DedupKey(x) == DedupKey(y);
  }

  /**
   * End to end: a consumer that gets at least everything the broker received applies the fact of every row that
   * is published, or was acked and taken back, exactly once.
   */
  lemma PublishedFactIsAppliedOnce(o: Options, events: seq<Event>, inbox: seq<Envelope>, id: string)
    requires o.maxAttempts >= 1
    requires var w := Run(o, EMPTY, events).world;
             && (forall e :: e in w.received ==> e in inbox)
             && id in w.store.rows && (w.store.rows[id].status.Published? || id in w.acked)
    ensures var fact := DedupKey(Run(o, EMPTY, events).world.store.rows[id].envelope);
            exists i :: 0 <= i < |Consume(inbox)| && DedupKey(Consume(inbox)[i]) == fact &&
                        forall j :: 0 <= j < |Consume(inbox)| && DedupKey(Consume(inbox)[j]) == fact ==> j == i
  {
    RunKeepsOk(o, events);
    assert RowOk(o, Run(o, EMPTY, events).world, id);
    EachFactOnce(inbox);
    var envelope := Run(o, EMPTY, events).world.store.rows[id].envelope;
    assert Knows(Consume(inbox), DedupKey(envelope));
  }
}
