/**
 * Mutation-level idempotency ledger (shared/src/idempotency.ts).
 *
 * The first half is the code of one call over a ledger object.  The second half is the protocol any
 * number of concurrent callers follow: one atomic ledger operation per step, in any interleaving,
 * with executor failures, ledger failures and process crashes.
 */
module Idempotency {
  import opened Wrappers

  /** A ledger row; only its status and its stored result are read back. */
  datatype Row<T> = Pending | Done(result: T)

  datatype LedgerKey = LedgerKey(project: string, key: string)

  /** `rawKey` is the trimmed header; the empty string stands for an absent or blank one. */
  datatype Params = Params(project: string, rawKey: string, operation: string, waitAttempts: int)

  function ScopedKey(operation: string, rawKey: string): string {
    operation + ":" + rawKey
  }

  predicate Keyed(p: Params) {
    p.rawKey != ""
  }

  function KeyOf(p: Params): LedgerKey {
    LedgerKey(p.project, ScopedKey(p.operation, p.rawKey))
  }

  /** One header never collapses two operations onto one row. */
  lemma OneHeaderKeepsOperationsApart(op1: string, op2: string, rawKey: string)
    ensures ScopedKey(op1, rawKey) == ScopedKey(op2, rawKey) <==> op1 == op2
  {
    var k1, k2 := ScopedKey(op1, rawKey), ScopedKey(op2, rawKey);
    if k1 == k2 {
      assert op1 == k1[..|k1| - 1 - |rawKey|];
      assert op2 == k2[..|k2| - 1 - |rawKey|];
    }
  }

  /** Two calls share a row exactly when project, operation and header agree, as operations hold no colon. */
  lemma SameRowExactlyWhen(p: Params, q: Params)
    requires ':' !in p.operation && ':' !in q.operation
    ensures KeyOf(p) == KeyOf(q) <==> p.project == q.project && p.operation == q.operation && p.rawKey == q.rawKey
  {
    var k, l := ScopedKey(p.operation, p.rawKey), ScopedKey(q.operation, q.rawKey);
    if k == l {
      FirstColon(k, p.operation, p.rawKey);
      FirstColon(l, q.operation, q.rawKey);
    }
  }

  lemma FirstColon(k: string, operation: string, rawKey: string)
    requires k == operation + ":" + rawKey && ':' !in operation
    ensures |operation| < |k| && k[|operation|] == ':' && (forall i :: 0 <= i < |operation| ==> k[i] != ':')
    ensures k[..|operation|] == operation && k[|operation| + 1..] == rawKey
  {
    assert forall i :: 0 <= i < |operation| ==> k[i] == operation[i];
  }

  // ---------------------------------------------------------------- one call

  /** What a call to the executor and to the ledger after it may do. */
  datatype Commit = CommitOk | CommitFailed(applied: bool, released: bool)

  class Ledger<T> {
    var rows: map<LedgerKey, Row<T>>

    constructor ()
      ensures rows == map[]
    {
      rows := map[];
    }

    /** The unique index makes this the single decision about who runs the mutation. */
    method InsertPending(k: LedgerKey) returns (inserted: bool)
      modifies this
      ensures inserted <==> k !in old(rows)
      ensures rows == if inserted then old(rows)[k := Pending] else old(rows)
    {
      inserted := k !in rows;
      if inserted {
        rows := rows[k := Pending];
      }
    }

    method SetDone(k: LedgerKey, result: T)
      modifies this
      ensures rows == if k in old(rows) then old(rows)[k := Done(result)] else old(rows)
    {
      if k in rows {
        rows := rows[k := Done(result)];
      }
    }

    method Delete(k: LedgerKey)
      modifies this
      ensures rows == old(rows) - {k}
    {
      rows := rows - {k};
    }

    /**
     * A call nobody else disturbs until it polls: `claim` is how the insert ends, `outcome` what the executor does
     * if it is run, `commit` how the ledger update after a success ends, `view` what each poll of a duplicate finds.
     */
    method WithIdempotency(p: Params, claim: Call, outcome: Option<T>, commit: Commit, view: int -> Option<Row<T>>)
      returns (reply: Option<T>, ran: bool)
      modifies this
      ensures p.rawKey == "" ==> ran && reply == outcome && rows == old(rows)
      ensures ran <==> !Keyed(p) || (claim.Fine? && KeyOf(p) !in old(rows))
      ensures ran && (!Keyed(p) || commit.CommitOk?) ==> reply == outcome
      ensures ran && Keyed(p) && commit.CommitFailed? ==> reply == None
      ensures !ran ==> reply == if claim.Fine? then Awaited(view, 0, p.waitAttempts) else None
      ensures !Keyed(p) || (!ran && claim.Fine?) ==> rows == old(rows)
      ensures Keyed(p) && claim.Broke? ==>
                rows == if claim.applied && KeyOf(p) !in old(rows) then old(rows)[KeyOf(p) := Pending] else old(rows)
      ensures ran && Keyed(p) && outcome.None? ==> rows == old(rows)
      ensures ran && Keyed(p) && outcome.Some? && commit.CommitOk? ==>
                rows == old(rows)[KeyOf(p) := Done(outcome.value)]
      ensures ran && Keyed(p) && outcome.Some? && commit.CommitFailed? ==>
                rows == if commit.released then old(rows)
                        else old(rows)[KeyOf(p) := if commit.applied then Done(outcome.value) else Pending]
    {
      if !Keyed(p) {
        return outcome, true;
      }
      var k := KeyOf(p);
      var inserted := false;
      if claim.TookEffect() {
        inserted := InsertPending(k);
      }
      if claim.Broke? {
        return None, false;
      }
      if !inserted {
        reply := AwaitExistingResult(view, p.waitAttempts);
        return reply, false;
      }
      if outcome.Some? && commit.CommitOk? {
        SetDone(k, outcome.value);
        return outcome, true;
      }
      if outcome.Some? && commit.applied {
        SetDone(k, outcome.value);
      }
      if outcome.None? || commit.released {
        Delete(k);
        assert rows == old(rows);
      }
      return None, true;
    }

    /** A mutation and its repetition: the result is stored, and given again instead of running the mutation again. */
    method CallAndRepeat(p: Params, result: T, other: Option<T>, commit: Commit)
      returns (first: Option<T>, second: Option<T>, ranAgain: bool)
      requires Keyed(p) && KeyOf(p) !in rows
      modifies this
      ensures first == Some(result) && !ranAgain
      ensures second == if p.waitAttempts >= 0 then Some(result) else None
      ensures rows == old(rows)[KeyOf(p) := Done(result)]
    {
      var ran;
      first, ran := WithIdempotency(p, Fine, Some(result), CommitOk, _ => None);
      var row := rows[KeyOf(p)];
      second, ranAgain := WithIdempotency(p, Fine, other, commit, _ => Some(row));
    }
  }

  /** The reply of a duplicate that starts polling at `attempt`. */
  function Awaited<T>(view: int -> Option<Row<T>>, attempt: int, waitAttempts: int): Option<T>
    decreases waitAttempts - attempt + 1
  {
    if attempt > waitAttempts then None
    else
      match view(attempt)
      case None => None
      case Some(Done(r)) => Some(r)
      case Some(Pending) => Awaited(view, attempt + 1, waitAttempts)
  }

  method AwaitExistingResult<T>(view: int -> Option<Row<T>>, waitAttempts: int) returns (reply: Option<T>)
    ensures reply == Awaited(view, 0, waitAttempts)
  {
    var attempt := 0;
    while attempt <= waitAttempts
      invariant Awaited(view, 0, waitAttempts) == Awaited(view, attempt, waitAttempts)
      decreases waitAttempts - attempt + 1
    {
      var row := view(attempt);
      if row.None? {
        break;
      }
      if row.value.Done? {
        return Some(row.value.result);
      }
      attempt := attempt + 1;
    }
    return None;
  }

  /** A duplicate answers `r` exactly when, within its budget, the first row that is not pending is `Done(r)`. */
  lemma {:induction false} AwaitedIsFirstSettledRow<T>(view: int -> Option<Row<T>>, attempt: int, waitAttempts: int,
                                                       r: T)
    ensures Awaited(view, attempt, waitAttempts) == Some(r) <==>
            exists a :: attempt <= a <= waitAttempts && view(a) == Some(Done(r)) &&
                        forall b :: attempt <= b < a ==> view(b) == Some(Pending)
    decreases waitAttempts - attempt + 1
  {
    if attempt <= waitAttempts && view(attempt) == Some(Pending) {
      AwaitedIsFirstSettledRow(view, attempt + 1, waitAttempts, r);
    } else if attempt <= waitAttempts && view(attempt) == Some(Done(r)) {
      assert forall b :: attempt <= b < attempt ==> view(b) == Some(Pending);
    }
  }

  // ---------------------------------------------------------------- the protocol

  type Caller = nat

  /** Where a caller stands: each non-final value is one awaited operation of the source. */
  datatype Pc<T> =
    | Start
    | Bare                                  // no key: running the executor outside the ledger
    | Polling(attempt: nat)
    | Executing                             // owns the claim, the mutation is running
    | Committing(result: T)                 // the mutation succeeded, the row is being completed
    | Releasing(succeeded: bool)            // in the catch block, after or before the mutation succeeded
    | Returned(reply: T, replayed: bool)
    | Threw
    | Crashed

  /** The next thing that happens to a caller. */
  datatype Action<T> =
    | Begin
    | InsertBreaks(applied: bool)           // the insert throws, but not because of the unique index
    | ExecutorReturns(result: T)
    | ExecutorThrows
    | Update
    | UpdateBreaks(applied: bool)           // record id extraction or update fails after the success
    | Release(deleted: bool)                // the catch block swallows a failing delete
    | Poll
    | Crash

  /** `Freed`: a claim is deleted although its mutation succeeded. */
  datatype Event<T> = Started(c: Caller) | Succeeded(c: Caller, result: T) | Freed(c: Caller)

  datatype State<T> = State(ledger: map<LedgerKey, Row<T>>, pc: map<Caller, Pc<T>>, log: seq<Event<T>>)

  datatype Step<T> = Step(c: Caller, a: Action<T>)

  /** The callers that take part, with the arguments of their calls. */
  type Callers = map<Caller, Params>

  function Init<T>(who: Callers): State<T> {
    State(map[], map c | c in who :: Start, [])
  }

  predicate Final<T>(pc: Pc<T>) {
    pc.Returned? || pc.Threw? || pc.Crashed?
  }

  /** What a step of a caller leaves: its place, the row of its key, and at most one event. */
  datatype Effect<T> = Effect(pc: Pc<T>, row: Option<Row<T>>, event: Option<Event<T>>)

  /** The step of a caller with arguments `p` at `pc`, when the row of its key is `row`. */
  function Local<T>(c: Caller, p: Params, pc: Pc<T>, row: Option<Row<T>>, a: Action<T>): Effect<T> {
    match (pc, a)
    case (Start, Begin) =>
      if !Keyed(p) then Effect(Bare, row, None)
      else if row.Some? then Effect(Polling(0), row, None)
      else Effect(Executing, Some(Pending), Some(Started(c)))
    case (Start, InsertBreaks(applied)) =>
      if Keyed(p) then Effect(Threw, if applied && row.None? then Some(Pending) else row, None)
      else Effect(pc, row, None)
    case (Bare, ExecutorReturns(r)) => Effect(Returned(r, false), row, None)
    case (Bare, ExecutorThrows) => Effect(Threw, row, None)
    case (Executing, ExecutorReturns(r)) => Effect(Committing(r), row, Some(Succeeded(c, r)))
    case (Executing, ExecutorThrows) => Effect(Releasing(false), row, None)
    case (Committing(r), Update) => Effect(Returned(r, false), Completed(row, r), None)
    case (Committing(r), UpdateBreaks(applied)) =>
      Effect(Releasing(true), if applied then Completed(row, r) else row, None)
    case (Releasing(succeeded), Release(deleted)) =>
      Effect(Threw, if deleted then None else row, if deleted && succeeded then Some(Freed(c)) else None)
    case (Polling(attempt), Poll) => Effect(AfterPoll(p, attempt, row), row, None)
    case (_, Crash) => Effect(if Final(pc) then pc else Crashed, row, None)
    case (_, _) => Effect(pc, row, None)
  }

  function Completed<T>(row: Option<Row<T>>, r: T): Option<Row<T>> {
    if row.Some? then Some(Done(r)) else None
  }

  function Lookup<T>(ledger: map<LedgerKey, Row<T>>, k: LedgerKey): Option<Row<T>> {
    if k in ledger then Some(ledger[k]) else None
  }

  function Store<T>(ledger: map<LedgerKey, Row<T>>, k: LedgerKey,
                    row: Option<Row<T>>)
    : (ledger': map<LedgerKey, Row<T>>)
    ensures Lookup(ledger', k) == row
    ensures forall j :: j != k ==> Lookup(ledger', j) == Lookup(ledger, j)
  {
    if row.Some? then ledger[k := row.value] else ledger - {k}
  }

  /** One step of one caller; a step that is not possible changes nothing. */
  function Apply<T>(who: Callers, s: State<T>, step: Step<T>): State<T> {
    if step.c !in who || step.c !in s.pc then s
    else
      var k := KeyOf(who[step.c]);
      var e := Local(step.c, who[step.c], s.pc[step.c], Lookup(s.ledger, k), step.a);
      State(Store(s.ledger, k, e.row), s.pc[step.c := e.pc], if e.event.Some? then s.log + [e.event.value] else s.log)
  }

  function AfterPoll<T>(p: Params, attempt: nat, row: Option<Row<T>>): Pc<T> {
    if attempt > p.waitAttempts then Threw
    else
      match row
      case None => Threw
      case Some(Done(r)) => Returned(r, true)
      case Some(Pending) => if attempt < p.waitAttempts then Polling(attempt + 1) else Threw
  }

  function Run<T>(who: Callers, steps: seq<Step<T>>): State<T> {
    if steps == [] then Init(who)
    else Apply(who, Run(who, steps[..|steps| - 1]), steps[|steps| - 1])
  }

  // One call's own steps, with nobody else in between, are the call of the first half.

  /** Where a caller and the row of its key get to by its own steps alone. */
  function Through<T>(c: Caller, p: Params, pc: Pc<T>, row: Option<Row<T>>, actions: seq<Action<T>>)
    : (Pc<T>, Option<Row<T>>)
    decreases |actions|
  {
    if actions == [] then (pc, row)
    else
      var e := Local(c, p, pc, row, actions[0]);
      Through(c, p, e.pc, e.row, actions[1..])
  }

  lemma ThroughTwo<T>(c: Caller, p: Params, pc: Pc<T>, row: Option<Row<T>>, a: Action<T>, b: Action<T>)
    ensures var e := Local(c, p, pc, row, a);
            var f := Local(c, p, e.pc, e.row, b);
            Through(c, p, pc, row, [a, b]) == (f.pc, f.row) && Through(c, p, pc, row, [a]) == (e.pc, e.row)
  {
    var e := Local(c, p, pc, row, a);
    ThroughOne(c, p, pc, row, a);
    ThroughOne(c, p, e.pc, e.row, b);
    assert [a, b][1..] == [b];
  }

  lemma ThroughOne<T>(c: Caller, p: Params, pc: Pc<T>, row: Option<Row<T>>, a: Action<T>)
    ensures var e := Local(c, p, pc, row, a); Through(c, p, pc, row, [a]) == (e.pc, e.row)
  {
    assert [a][1..] == [];
  }

  lemma ThroughMore<T>(c: Caller, p: Params, pc: Pc<T>, row: Option<Row<T>>, a: Action<T>, rest: seq<Action<T>>)
    ensures var e := Local(c, p, pc, row, a);
            Through(c, p, pc, row, [a] + rest) == Through(c, p, e.pc, e.row, rest)
  {
    assert ([a] + rest)[1..] == rest;
  }

  /** A call on a free key: what it answers and what it leaves, for every way its operations may end. */
  lemma FreeKeyCall<T>(c: Caller, p: Params, r: T, applied: bool, deleted: bool)
    requires Keyed(p)
    ensures Through<T>(c, p, Start, None, [Begin] + [ExecutorReturns(r), Update]) == (Returned(r, false), Some(Done(r)))
    ensures Through<T>(c, p, Start, None, [Begin] + [ExecutorThrows, Release(deleted)]) ==
            (Threw, if deleted then None else Some(Pending))
    ensures Through<T>(c, p, Start, None,
                       [Begin] + ([ExecutorReturns(r)] + [UpdateBreaks(applied), Release(deleted)])) ==
            (Threw, if deleted then None else if applied then Some(Done(r)) else Some(Pending))
    ensures Through<T>(c, p, Start, None, [InsertBreaks(applied)]) == (Threw, if applied then Some(Pending) else None)
  {
    ThroughMore<T>(c, p, Start, None, Begin, [ExecutorReturns(r), Update]);
    ThroughTwo<T>(c, p, Executing, Some(Pending), ExecutorReturns(r), Update);
    ThroughMore<T>(c, p, Start, None, Begin, [ExecutorThrows, Release(deleted)]);
    ThroughTwo<T>(c, p, Executing, Some(Pending), ExecutorThrows, Release(deleted));
    ThroughMore<T>(c, p, Start, None, Begin, [ExecutorReturns(r)] + [UpdateBreaks(applied), Release(deleted)]);
    ThroughMore<T>(c, p, Executing, Some(Pending), ExecutorReturns(r), [UpdateBreaks(applied), Release(deleted)]);
    ThroughTwo<T>(c, p, Committing(r), Some(Pending), UpdateBreaks(applied), Release(deleted));
    ThroughTwo<T>(c, p, Start, None, InsertBreaks(applied), Poll);
  }

  /** A call on a taken key waits, and one without a key runs past the ledger. */
  lemma OtherCalls<T>(c: Caller, p: Params, row: Option<Row<T>>, r: T, applied: bool)
    ensures Keyed(p) && row.Some? ==> Through(c, p, Start, row, [Begin]) == (Polling(0), row)
    ensures Keyed(p) && row.Some? ==> Through(c, p, Start, row, [InsertBreaks(applied)]) == (Threw, row)
    ensures p.rawKey == "" ==> Through(c, p, Start, row, [Begin, ExecutorReturns(r)]) == (Returned(r, false), row)
    ensures p.rawKey == "" ==> Through(c, p, Start, row, [Begin, ExecutorThrows]) == (Threw, row)
  {
    ThroughTwo<T>(c, p, Start, row, Begin, ExecutorReturns(r));
    ThroughTwo<T>(c, p, Start, row, Begin, ExecutorThrows);
    ThroughTwo<T>(c, p, Start, row, InsertBreaks(applied), Poll);
  }

  /** A process that dies leaves the row as it is, and a call that is over stays as it ended. */
  lemma CrashLeavesTheRow<T>(c: Caller, p: Params, pc: Pc<T>, row: Option<Row<T>>)
    ensures var e := Local(c, p, pc, row, Crash);
            && e.row == row && e.event.None?
            && e.pc == if pc.Returned? || pc.Threw? || pc.Crashed? then pc else Crashed
  {
  }

  /** Where polling ends when the poll number `a` finds `view(a)`. */
  function Polled<T>(p: Params, attempt: nat, view: int -> Option<Row<T>>): Pc<T>
    decreases p.waitAttempts - attempt
  {
    var pc := AfterPoll(p, attempt, view(attempt));
    if pc.Polling? && attempt < pc.attempt <= p.waitAttempts then Polled(p, pc.attempt, view) else pc
  }

  /** The polls of the protocol are those of the loop: the same answer, or the same failure. */
  lemma {:induction false} PollingIsAwaiting<T>(p: Params, attempt: nat, view: int -> Option<Row<T>>)
    ensures Polled(p, attempt, view) ==
            match Awaited(view, attempt, p.waitAttempts)
            case Some(r) => Returned(r, true)
            case None => Threw
    decreases p.waitAttempts - attempt
  {
    if attempt < p.waitAttempts && view(attempt) == Some(Pending) {
      PollingIsAwaiting(p, attempt + 1, view);
    } else {
      assert Awaited(view, p.waitAttempts + 1, p.waitAttempts).None?;
    }
  }

  // What the history of a run says about one key.

  predicate At(who: Callers, c: Caller, k: LedgerKey) {
    c in who && Keyed(who[c]) && KeyOf(who[c]) == k
  }

  function Successes<T>(who: Callers, log: seq<Event<T>>, k: LedgerKey): nat {
    if log == [] then 0
    else
      var e := log[|log| - 1];
      Successes(who, log[..|log| - 1], k) + if e.Succeeded? && At(who, e.c, k) then 1 else 0
  }

  /** How often a claim of the key was deleted after its mutation had succeeded. */
  function FreedClaims<T>(who: Callers, log: seq<Event<T>>, k: LedgerKey): nat {
    if log == [] then 0
    else
      var e := log[|log| - 1];
      FreedClaims(who, log[..|log| - 1], k) + if e.Freed? && At(who, e.c, k) then 1 else 0
  }

  lemma CountsGrow<T>(who: Callers, log: seq<Event<T>>, e: Event<T>, k: LedgerKey)
    ensures Successes(who, log + [e], k) == Successes(who, log, k) + if e.Succeeded? && At(who, e.c, k) then 1 else 0
    ensures FreedClaims(who, log + [e], k) == FreedClaims(who, log, k) + if e.Freed? && At(who, e.c, k) then 1 else 0
  {
    assert (log + [e])[..|log|] == log;
  }

  predicate Running<T>(pc: Pc<T>) {
    pc.Executing? || pc.Committing?
  }

  predicate Holds<T>(pc: Pc<T>) {
    Running(pc) || pc.Releasing?
  }

  ghost predicate Holder<T>(who: Callers, s: State<T>, c: Caller, k: LedgerKey) {
    At(who, c, k) && c in s.pc && Holds(s.pc[c])
  }

  /** Only keyed callers claim, and only they are ever answered from the ledger. */
  ghost predicate Shape<T>(who: Callers, s: State<T>) {
    && s.pc.Keys == who.Keys
    && forall c :: c in s.pc ==>
         (Holds(s.pc[c]) || s.pc[c].Polling? ==> Keyed(who[c]))
         && (s.pc[c].Bare? ==> !Keyed(who[c]))
  }

  /** The claim of a key has one holder, and its row is there, pending while the mutation runs. */
  ghost predicate Claim<T>(who: Callers, s: State<T>, k: LedgerKey) {
    && (forall c, d :: Holder(who, s, c, k) && Holder(who, s, d, k) ==> c == d)
    && (forall c :: Holder(who, s, c, k) ==>
                      k in s.ledger && (Running(s.pc[c]) ==> s.ledger[k] == Pending))
  }

  /** A holder whose mutation has not succeeded. */
  predicate Unspent<T>(pc: Pc<T>) {
    pc.Executing? || (pc.Releasing? && !pc.succeeded)
  }

  /** No success is outstanding for the key: the claim is free, or its holder has not succeeded. */
  ghost predicate Fresh<T>(who: Callers, s: State<T>, k: LedgerKey) {
    k !in s.ledger || exists c :: Holder(who, s, c, k) && Unspent(s.pc[c])
  }

  ghost predicate Accounts<T>(who: Callers, s: State<T>, k: LedgerKey) {
    && Successes(who, s.log, k) <= FreedClaims(who, s.log, k) + 1
    && (Fresh(who, s, k) ==> Successes(who, s.log, k) <= FreedClaims(who, s.log, k))
  }

  ghost predicate Produced<T>(who: Callers, log: seq<Event<T>>, k: LedgerKey, r: T) {
    exists c :: At(who, c, k) && Succeeded(c, r) in log
  }

  /** Every result that is stored, about to be stored or returned comes from a success of the same key. */
  ghost predicate Results<T>(who: Callers, s: State<T>, k: LedgerKey) {
    && (k in s.ledger && s.ledger[k].Done? ==> Produced(who, s.log, k, s.ledger[k].result))
    && (forall c :: At(who, c, k) && c in s.pc && s.pc[c].Committing? ==> Produced(who, s.log, k, s.pc[c].result))
    && (forall c :: At(who, c, k) && c in s.pc && s.pc[c].Returned? ==> Produced(who, s.log, k, s.pc[c].reply))
  }

  predicate Waited<T>(pc: Pc<T>) {
    pc.Start? || pc.Bare? || pc.Polling? || (pc.Returned? && pc.replayed)
  }

  lemma {:induction false} RunKeepsShape<T>(who: Callers, steps: seq<Step<T>>)
    ensures Shape(who, Run(who, steps))
  {
    if steps != [] {
      RunKeepsShape(who, steps[..|steps| - 1]);
    }
  }

  /** A step of another key, or of no caller at all, does not concern `k`. */
  lemma OtherKey<T>(who: Callers, s: State<T>, step: Step<T>, k: LedgerKey)
    requires Shape(who, s) && !At(who, step.c, k)
    ensures var t := Apply(who, s, step);
            && Lookup(t.ledger, k) == Lookup(s.ledger, k)
            && (forall c :: c in who && c != step.c ==> c in t.pc && t.pc[c] == s.pc[c])
            && (forall c :: Holder(who, t, c, k) <==> Holder(who, s, c, k))
  {
    var t := Apply(who, s, step);
    assert forall c :: Holder(who, t, c, k) ==> c != step.c;
    assert forall c :: Holder(who, s, c, k) ==> c != step.c;
  }

  /** A step of a caller of `k`: only its own place changes, and it is the holder if anybody was or is. */
  lemma OwnKey<T>(who: Callers, s: State<T>, step: Step<T>, k: LedgerKey)
    requires Shape(who, s) && Claim(who, s, k) && At(who, step.c, k)
    ensures var t := Apply(who, s, step);
            var e := Local(step.c, who[step.c], s.pc[step.c], Lookup(s.ledger, k), step.a);
            && step.c in t.pc && t.pc[step.c] == e.pc && Lookup(t.ledger, k) == e.row
            && t.log == (if e.event.Some? then s.log + [e.event.value] else s.log)
            && (forall c :: c in who && c != step.c ==> t.pc[c] == s.pc[c])
            && (Holds(s.pc[step.c]) ==> Holder(who, s, step.c, k))
            && (Holds(t.pc[step.c]) ==> Holder(who, t, step.c, k))
            && (forall c :: c != step.c ==> (Holder(who, t, c, k) <==> Holder(who, s, c, k)))
  {
  }

  lemma ClaimOther<T>(who: Callers, s: State<T>, step: Step<T>, k: LedgerKey)
    requires Shape(who, s) && Claim(who, s, k) && !At(who, step.c, k)
    ensures Claim(who, Apply(who, s, step), k)
  {
    OtherKey(who, s, step, k);
  }

  /** Nobody becomes a holder of a key whose row is there, and who is no holder leaves that row alone. */
  lemma LocalClaim<T>(c: Caller, p: Params, pc: Pc<T>, row: Option<Row<T>>, a: Action<T>)
    requires Keyed(p) && (Holds(pc) ==> row.Some?) && (Running(pc) ==> row == Some(Pending)) && !pc.Bare?
    ensures var e := Local(c, p, pc, row, a);
            && (Holds(e.pc) ==> e.row.Some?) && (Running(e.pc) ==> e.row == Some(Pending))
            && (!Holds(pc) && row.Some? ==> !Holds(e.pc) && e.row == row)
  {
  }

  lemma ClaimOwn<T>(who: Callers, s: State<T>, step: Step<T>, k: LedgerKey)
    requires Shape(who, s) && Claim(who, s, k) && At(who, step.c, k)
    ensures Claim(who, Apply(who, s, step), k)
  {
    var t, pc := Apply(who, s, step), s.pc[step.c];
    OwnKey(who, s, step, k);
    assert Holds(pc) ==> Holder(who, s, step.c, k);
    LocalClaim(step.c, who[step.c], pc, Lookup(s.ledger, k), step.a);
    forall c | c != step.c && Holder(who, t, c, k) ensures Holder(who, s, c, k) && t.pc[c] == s.pc[c] {
    }
  }

  lemma ClaimKept<T>(who: Callers, s: State<T>, step: Step<T>, k: LedgerKey)
    requires Shape(who, s) && Claim(who, s, k)
    ensures Claim(who, Apply(who, s, step), k)
  {
    if At(who, step.c, k) {
      ClaimOwn(who, s, step, k);
    } else {
      ClaimOther(who, s, step, k);
    }
  }

  predicate Frees<T>(pc: Pc<T>, a: Action<T>) {
    pc.Releasing? && pc.succeeded && a.Release? && a.deleted
  }

  /** When a step of `k` leaves nothing outstanding. */
  lemma FreshOwn<T>(who: Callers, s: State<T>, step: Step<T>, k: LedgerKey)
    requires Shape(who, s) && Claim(who, s, k) && At(who, step.c, k)
    ensures var t, pc := Apply(who, s, step), s.pc[step.c];
            && (Fresh(who, t, k) ==> Fresh(who, s, k) || Frees(pc, step.a))
            && (pc.Executing? ==> Fresh(who, s, k))
            && (pc.Executing? && step.a.ExecutorReturns? ==> !Fresh(who, t, k))
  {
    var t, pc := Apply(who, s, step), s.pc[step.c];
    OwnKey(who, s, step, k);
    assert forall c :: Holder(who, t, c, k) && c != step.c ==> Holder(who, s, c, k) && t.pc[c] == s.pc[c];
    if Holds(pc) {
      assert Holder(who, s, step.c, k);
    }
  }

  /** The events of a keyed caller. */
  lemma LocalEvents<T>(c: Caller, p: Params, pc: Pc<T>, row: Option<Row<T>>, a: Action<T>)
    requires Keyed(p) && !pc.Bare?
    ensures var event := Local(c, p, pc, row, a).event;
            && (event.Some? ==> event.value.c == c)
            && (event.Some? && event.value.Succeeded? <==> pc.Executing? && a.ExecutorReturns?)
            && (event.Some? && event.value.Freed? <==> Frees(pc, a))
  {
  }

  lemma CountsOwn<T>(who: Callers, s: State<T>, step: Step<T>, k: LedgerKey)
    requires Shape(who, s) && Claim(who, s, k) && At(who, step.c, k)
    ensures var t, pc := Apply(who, s, step), s.pc[step.c];
            && Successes(who, t.log, k) == Successes(who, s.log, k)
               + (if pc.Executing? && step.a.ExecutorReturns? then 1 else 0)
            && FreedClaims(who, t.log, k) == FreedClaims(who, s.log, k) + (if Frees(pc, step.a) then 1 else 0)
  {
    var e := Local(step.c, who[step.c], s.pc[step.c], Lookup(s.ledger, k), step.a);
    OwnKey(who, s, step, k);
    LocalEvents(step.c, who[step.c], s.pc[step.c], Lookup(s.ledger, k), step.a);
    if e.event.Some? {
      CountsGrow(who, s.log, e.event.value, k);
    }
  }

  lemma AccountsOwn<T>(who: Callers, s: State<T>, step: Step<T>, k: LedgerKey)
    requires Shape(who, s) && Claim(who, s, k) && Accounts(who, s, k) && At(who, step.c, k)
    ensures Accounts(who, Apply(who, s, step), k)
  {
    FreshOwn(who, s, step, k);
    CountsOwn(who, s, step, k);
  }

  lemma CountsOther<T>(who: Callers, s: State<T>, step: Step<T>, k: LedgerKey)
    requires Shape(who, s) && !At(who, step.c, k)
    ensures var t := Apply(who, s, step);
            Successes(who, t.log, k) == Successes(who, s.log, k)
                && FreedClaims(who, t.log, k) == FreedClaims(who, s.log, k)
  {
    if step.c in who && step.c in s.pc {
      var e := Local(step.c, who[step.c], s.pc[step.c], Lookup(s.ledger, KeyOf(who[step.c])), step.a);
      if e.event.Some? {
        CountsGrow(who, s.log, e.event.value, k);
      }
    }
  }

  lemma AccountsOther<T>(who: Callers, s: State<T>, step: Step<T>, k: LedgerKey)
    requires Shape(who, s) && Accounts(who, s, k) && !At(who, step.c, k)
    ensures Accounts(who, Apply(who, s, step), k)
  {
    OtherKey(who, s, step, k);
    CountsOther(who, s, step, k);
    FreshOther(who, s, Apply(who, s, step), step.c, k);
  }

  lemma FreshOther<T>(who: Callers, s: State<T>, t: State<T>, other: Caller, k: LedgerKey)
    requires Shape(who, s) && !At(who, other, k) && Lookup(t.ledger, k) == Lookup(s.ledger, k)
    requires forall c :: c in who && c != other ==> c in t.pc && t.pc[c] == s.pc[c]
    requires forall c :: Holder(who, t, c, k) <==> Holder(who, s, c, k)
    ensures Fresh(who, t, k) ==> Fresh(who, s, k)
  {
    if Fresh(who, t, k) && k in t.ledger {
      var c :| Holder(who, t, c, k) && Unspent(t.pc[c]);
      assert Holder(who, s, c, k);
    }
  }

  lemma AccountsKept<T>(who: Callers, s: State<T>, step: Step<T>, k: LedgerKey)
    requires Shape(who, s) && Claim(who, s, k) && Accounts(who, s, k)
    ensures Accounts(who, Apply(who, s, step), k)
  {
    if At(who, step.c, k) {
      AccountsOwn(who, s, step, k);
    } else {
      AccountsOther(who, s, step, k);
    }
  }

  lemma ProducedGrows<T>(who: Callers, s: State<T>, step: Step<T>, k: LedgerKey, r: T)
    requires Produced(who, s.log, k, r)
    ensures Produced(who, Apply(who, s, step).log, k, r)
  {
    var c :| At(who, c, k) && Succeeded(c, r) in s.log;
    assert Succeeded(c, r) in Apply(who, s, step).log;
  }

  /** What a committing caller holds after its own step has been produced. */
  lemma CommitOwn<T>(who: Callers, s: State<T>, step: Step<T>, k: LedgerKey)
    requires Shape(who, s) && Claim(who, s, k) && Results(who, s, k) && At(who, step.c, k)
    ensures var t := Apply(who, s, step); t.pc[step.c].Committing? ==> Produced(who, t.log, k, t.pc[step.c].result)
  {
    var t, pc := Apply(who, s, step), s.pc[step.c];
    OwnKey(who, s, step, k);
    if pc.Executing? && step.a.ExecutorReturns? {
      assert t.log[|s.log|] == Succeeded(step.c, step.a.result);
      assert Produced(who, t.log, k, step.a.result);
    }
    if pc.Committing? {
      ProducedGrows(who, s, step, k, pc.result);
    }
  }

  /** Where the results in the effect of a step come from. */
  lemma LocalResults<T>(c: Caller, p: Params, pc: Pc<T>, row: Option<Row<T>>, a: Action<T>)
    requires Keyed(p) && !pc.Bare?
    ensures var e := Local(c, p, pc, row, a);
            && (e.row.Some? && e.row.value.Done?
               ==> e.row == row || (pc.Committing? && e.row.value.result == pc.result))
            && (e.pc.Returned? ==> || e.pc == pc || (pc.Committing? && e.pc.reply == pc.result)
                                   || (row.Some? && row.value.Done? && e.pc.reply == row.value.result))
  {
  }

  lemma ResultsOwn<T>(who: Callers, s: State<T>, step: Step<T>, k: LedgerKey)
    requires Shape(who, s) && Claim(who, s, k) && Results(who, s, k) && At(who, step.c, k)
    ensures var t := Apply(who, s, step);
            && (k in t.ledger && t.ledger[k].Done? ==> Produced(who, t.log, k, t.ledger[k].result))
            && (t.pc[step.c].Committing? ==> Produced(who, t.log, k, t.pc[step.c].result))
            && (t.pc[step.c].Returned? ==> Produced(who, t.log, k, t.pc[step.c].reply))
  {
    var pc, row := s.pc[step.c], Lookup(s.ledger, k);
    CommitOwn(who, s, step, k);
    OwnKey(who, s, step, k);
    LocalResults(step.c, who[step.c], pc, row, step.a);
    if row.Some? && row.value.Done? {
      ProducedGrows(who, s, step, k, row.value.result);
    }
    if pc.Committing? {
      ProducedGrows(who, s, step, k, pc.result);
    }
    if pc.Returned? {
      ProducedGrows(who, s, step, k, pc.reply);
    }
  }

  lemma ResultsKept<T>(who: Callers, s: State<T>, step: Step<T>, k: LedgerKey)
    requires Shape(who, s) && Claim(who, s, k) && Results(who, s, k)
    ensures Results(who, Apply(who, s, step), k)
  {
    var t := Apply(who, s, step);
    if At(who, step.c, k) {
      ResultsOwn(who, s, step, k);
    } else {
      OtherKey(who, s, step, k);
      if k in t.ledger && t.ledger[k].Done? {
        ProducedGrows(who, s, step, k, t.ledger[k].result);
      }
    }
    forall c | At(who, c, k) && c in t.pc && c != step.c && (t.pc[c].Committing? || t.pc[c].Returned?)
      ensures Produced(who, t.log, k, if t.pc[c].Committing? then t.pc[c].result else t.pc[c].reply)
    {
      assert t.pc[c] == s.pc[c];
      ProducedGrows(who, s, step, k, if t.pc[c].Committing? then t.pc[c].result else t.pc[c].reply);
    }
  }

  lemma {:induction false} RunKeepsKey<T>(who: Callers, steps: seq<Step<T>>, k: LedgerKey)
    ensures Shape(who, Run(who, steps))
    ensures Claim(who, Run(who, steps), k)
    ensures Accounts(who, Run(who, steps), k)
    ensures Results(who, Run(who, steps), k)
  {
    RunKeepsShape(who, steps);
    if steps != [] {
      var s, step := Run(who, steps[..|steps| - 1]), steps[|steps| - 1];
      RunKeepsKey(who, steps[..|steps| - 1], k);
      ClaimKept(who, s, step, k);
      AccountsKept(who, s, step, k);
      ResultsKept(who, s, step, k);
    }
  }

  lemma RunSnoc<T>(who: Callers, steps: seq<Step<T>>, step: Step<T>)
    ensures Run(who, steps + [step]) == Apply(who, Run(who, steps), step)
  {
    assert (steps + [step])[..|steps|] == steps;
  }

  // ---------------------------------------------------------------- what every run promises

  /** Whatever fails or crashes, two callers never run the mutation of one key at the same time. */
  lemma ExecutorsNeverOverlap<T>(who: Callers, steps: seq<Step<T>>, c: Caller, d: Caller)
    requires c in who && d in who && Keyed(who[c]) && Keyed(who[d]) && KeyOf(who[c]) == KeyOf(who[d])
    requires var s := Run(who, steps); c in s.pc && d in s.pc && Running(s.pc[c]) && Running(s.pc[d])
    ensures c == d
  {
    var s := Run(who, steps);
    RunKeepsKey(who, steps, KeyOf(who[c]));
    assert Holder(who, s, c, KeyOf(who[c])) && Holder(who, s, d, KeyOf(who[c]));
  }

  /** Once a caller has returned its own result, that result is what the row holds, and nobody can take it away. */
  ghost predicate Stored<T>(who: Callers, s: State<T>, k: LedgerKey) {
    forall c :: At(who, c, k) && c in s.pc && s.pc[c].Returned? && !s.pc[c].replayed ==>
                  Lookup(s.ledger, k) == Some(Done(s.pc[c].reply)) && forall d :: !Holder(who, s, d, k)
  }

  /** A step of a key that nobody holds and whose row is there leaves the row, and makes no holder. */
  lemma SettledRowStays<T>(c: Caller, p: Params, pc: Pc<T>, row: Option<Row<T>>, a: Action<T>)
    requires Keyed(p) && !pc.Bare? && !Holds(pc) && row.Some?
    ensures var e := Local(c, p, pc, row, a);
            && e.row == row && !Holds(e.pc)
            && (e.pc.Returned? && !e.pc.replayed ==> e.pc == pc)
  {
  }

  /** A holder that returns has completed its row. */
  lemma ReturnStores<T>(c: Caller, p: Params, pc: Pc<T>, row: Option<Row<T>>, a: Action<T>)
    requires Keyed(p) && !pc.Bare? && (Holds(pc) ==> row.Some?)
    ensures var e := Local(c, p, pc, row, a);
            e.pc.Returned? && !e.pc.replayed && e.pc != pc ==>
              Holds(pc) && !Holds(e.pc) && e.row == Some(Done(e.pc.reply))
  {
  }

  lemma StoredOwn<T>(who: Callers, s: State<T>, step: Step<T>, k: LedgerKey)
    requires Shape(who, s) && Claim(who, s, k) && Stored(who, s, k) && At(who, step.c, k)
    ensures Stored(who, Apply(who, s, step), k)
  {
    var t, pc, row := Apply(who, s, step), s.pc[step.c], Lookup(s.ledger, k);
    OwnKey(who, s, step, k);
    ReturnStores(step.c, who[step.c], pc, row, step.a);
    forall c | At(who, c, k) && c in t.pc && t.pc[c].Returned? && !t.pc[c].replayed
      ensures Lookup(t.ledger, k) == Some(Done(t.pc[c].reply)) && forall d :: !Holder(who, t, d, k)
    {
      if s.pc[c] == t.pc[c] {
        assert !Holder(who, s, step.c, k);
        SettledRowStays(step.c, who[step.c], pc, row, step.a);
      } else {
        assert c == step.c && Holder(who, s, c, k);
      }
    }
  }

  lemma {:induction false} RunKeepsStored<T>(who: Callers, steps: seq<Step<T>>, k: LedgerKey)
    ensures Stored(who, Run(who, steps), k)
  {
    if steps != [] {
      var s, step := Run(who, steps[..|steps| - 1]), steps[|steps| - 1];
      RunKeepsStored(who, steps[..|steps| - 1], k);
      RunKeepsKey(who, steps[..|steps| - 1], k);
      if At(who, step.c, k) {
        StoredOwn(who, s, step, k);
      } else {
        OtherKey(who, s, step, k);
      }
    }
  }

  /** In every run: whoever returned the result of its own mutation has left it in the ledger. */
  lemma ReturnedIsStored<T>(who: Callers, steps: seq<Step<T>>, c: Caller, r: T)
    requires c in who && Keyed(who[c]) && c in Run(who, steps).pc && Run(who, steps).pc[c] == Returned(r, false)
    ensures var s, k := Run(who, steps), KeyOf(who[c]); k in s.ledger && s.ledger[k] == Done(r)
  {
    RunKeepsStored(who, steps, KeyOf(who[c]));
  }

  lemma {:induction false} ReturnedStays<T>(who: Callers, first: seq<Step<T>>, rest: seq<Step<T>>, c: Caller)
    requires c in Run(who, first).pc && Run(who, first).pc[c].Returned?
    ensures var t := Run(who, first + rest); c in t.pc && t.pc[c] == Run(who, first).pc[c]
  {
    if rest == [] {
      assert first + rest == first;
    } else {
      var n := |rest| - 1;
      assert first + rest == first + rest[..n] + [rest[n]];
      ReturnedStays(who, first, rest[..n], c);
      RunSnoc(who, first + rest[..n], rest[n]);
    }
  }

  /** And from then on every duplicate that polls within its budget is given that result. */
  lemma DuplicatesGetTheResult<T>(who: Callers, first: seq<Step<T>>, rest: seq<Step<T>>, c: Caller, r: T, d: Caller)
    requires c in who && Keyed(who[c]) && c in Run(who, first).pc && Run(who, first).pc[c] == Returned(r, false)
    requires d in who && Keyed(who[d]) && KeyOf(who[d]) == KeyOf(who[c])
    requires var t := Run(who, first + rest);
             d in t.pc && t.pc[d].Polling? && t.pc[d].attempt <= who[d].waitAttempts
    ensures var z := Run(who, first + rest + [Step(d, Poll)]); d in z.pc && z.pc[d] == Returned(r, true)
  {
    ReturnedStays(who, first, rest, c);
    ReturnedIsStored(who, first + rest, c, r);
    RunSnoc(who, first + rest, Step(d, Poll));
  }

  /** Every success but one is paid for by a claim that was deleted after an earlier success. */
  lemma SuccessesAreBounded<T>(who: Callers, steps: seq<Step<T>>, k: LedgerKey)
    ensures Successes(who, Run(who, steps).log, k) <= FreedClaims(who, Run(who, steps).log, k) + 1
  {
    RunKeepsKey(who, steps, k);
  }

  lemma WaitingStepStartsNothing<T>(who: Callers, s: State<T>, step: Step<T>, c: Caller)
    requires c in s.pc && (Waited(s.pc[c]) ==> Started(c) !in s.log)
    ensures var t := Apply(who, s, step); c in t.pc && (Waited(t.pc[c]) ==> Started(c) !in t.log)
  {
  }

  /** A caller that was answered from the ledger, or is still waiting, has not started the mutation. */
  lemma {:induction false} WaitingHasStartedNothing<T>(who: Callers, steps: seq<Step<T>>, c: Caller)
    requires c in who
    ensures var s := Run(who, steps);
            && c in s.pc && (Waited(s.pc[c]) ==> Started(c) !in s.log)
            && (s.pc[c].Polling? || (s.pc[c].Returned? && s.pc[c].replayed) ==> Waited(s.pc[c]))
  {
    if steps != [] {
      WaitingHasStartedNothing(who, steps[..|steps| - 1], c);
      WaitingStepStartsNothing(who, Run(who, steps[..|steps| - 1]), steps[|steps| - 1], c);
    }
  }

  /** A caller that lost the race: it polls, was answered, gave up or died. */
  predicate Lost<T>(pc: Pc<T>) {
    pc.Polling? || Final(pc)
  }

  lemma LoserStepStartsNothing<T>(who: Callers, s: State<T>, step: Step<T>, c: Caller)
    requires c in s.pc && Lost(s.pc[c]) && Started(c) !in s.log
    ensures var t := Apply(who, s, step); c in t.pc && Lost(t.pc[c]) && Started(c) !in t.log
  {
  }

  /** Once a caller has lost the race it never runs the mutation, however it ends and whatever the others do. */
  lemma {:induction false} LosersNeverExecute<T>(who: Callers, first: seq<Step<T>>, rest: seq<Step<T>>, c: Caller)
    requires c in who && c in Run(who, first).pc && Run(who, first).pc[c].Polling?
    ensures var s := Run(who, first + rest); c in s.pc && Lost(s.pc[c]) && Started(c) !in s.log
  {
    if rest == [] {
      assert first + rest == first;
      WaitingHasStartedNothing(who, first, c);
    } else {
      var n := |rest| - 1;
      assert first + rest == first + rest[..n] + [rest[n]];
      LosersNeverExecute(who, first, rest[..n], c);
      RunSnoc(who, first + rest[..n], rest[n]);
      LoserStepStartsNothing(who, Run(who, first + rest[..n]), rest[n], c);
    }
  }

  /** Where a key has at most one success, all its results are that one. */
  lemma {:induction false} OneSuccess<T>(who: Callers, log: seq<Event<T>>, k: LedgerKey, c: Caller, r: T, d: Caller,
                                         q: T)
    requires Successes(who, log, k) <= 1
    requires At(who, c, k) && Succeeded(c, r) in log && At(who, d, k) && Succeeded(d, q) in log
    ensures r == q && Successes(who, log, k) == 1
  {
    var e, rest := log[|log| - 1], log[..|log| - 1];
    assert log == rest + [e];
    if Succeeded(c, r) in rest && Succeeded(d, q) in rest {
      OneSuccess(who, rest, k, c, r, d, q);
    } else if Succeeded(c, r) in rest {
      OneSuccess(who, rest, k, c, r, c, r);
    } else if Succeeded(d, q) in rest {
      OneSuccess(who, rest, k, d, q, d, q);
    }
  }

  /**
   * The contract of the module: as long as no claim is deleted after its success, the mutation of a key succeeds
   * at most once and every keyed caller that returns got that one result.
   */
  lemma EveryReplyIsTheOneResult<T>(who: Callers, steps: seq<Step<T>>, c: Caller, d: Caller)
    requires c in who && d in who && Keyed(who[c]) && Keyed(who[d]) && KeyOf(who[c]) == KeyOf(who[d])
    requires var s := Run(who, steps); c in s.pc && d in s.pc && s.pc[c].Returned? && s.pc[d].Returned?
    requires FreedClaims(who, Run(who, steps).log, KeyOf(who[c])) == 0
    ensures Run(who, steps).pc[c].reply == Run(who, steps).pc[d].reply
    ensures Successes(who, Run(who, steps).log, KeyOf(who[c])) == 1
  {
    RunKeepsKey(who, steps, KeyOf(who[c]));
    var s, k := Run(who, steps), KeyOf(who[c]);
    var c' :| At(who, c', k) && Succeeded(c', s.pc[c].reply) in s.log;
    var d' :| At(who, d', k) && Succeeded(d', s.pc[d].reply) in s.log;
    OneSuccess(who, s.log, k, c', s.pc[c].reply, d', s.pc[d].reply);
  }

  // ---------------------------------------------------------------- when a key can succeed again

  ghost predicate SomeoneStarts<T>(who: Callers, s: State<T>, k: LedgerKey) {
    exists c :: At(who, c, k) && c in s.pc && s.pc[c].Start?
  }

  ghost predicate SomeoneHolds<T>(who: Callers, s: State<T>, k: LedgerKey) {
    exists c :: Holder(who, s, c, k)
  }

  ghost predicate SomeoneExecutes<T>(who: Callers, s: State<T>, k: LedgerKey) {
    exists c :: Holder(who, s, c, k) && s.pc[c].Executing?
  }

  /**
   * The mutation is running, or a caller is yet to come and the claim is free or still has a holder who can free it.
   */
  ghost predicate MaySucceed<T>(who: Callers, s: State<T>, k: LedgerKey) {
    SomeoneExecutes(who, s, k) || (SomeoneStarts(who, s, k) && (k !in s.ledger || SomeoneHolds(who, s, k)))
  }

  ghost function SuccessesAfter<T>(who: Callers, steps: seq<Step<T>>, k: LedgerKey): nat {
    Successes(who, Run(who, steps).log, k)
  }

  /** Another success of the key lies ahead on some continuation. */
  ghost predicate SucceedsOn<T(!new)>(who: Callers, steps: seq<Step<T>>, k: LedgerKey) {
    exists rest: seq<Step<T>> :: SuccessesAfter(who, steps + rest, k) > SuccessesAfter(who, steps, k)
  }

  lemma SpentStep<T>(who: Callers, s: State<T>, step: Step<T>, k: LedgerKey)
    requires Shape(who, s) && Claim(who, s, k) && !MaySucceed(who, s, k)
    ensures !MaySucceed(who, Apply(who, s, step), k)
    ensures Successes(who, Apply(who, s, step).log, k) == Successes(who, s.log, k)
  {
    var t := Apply(who, s, step);
    if At(who, step.c, k) {
      OwnKey(who, s, step, k);
      CountsOwn(who, s, step, k);
      SpentOwn(who, s, step, t, k);
    } else {
      OtherKey(who, s, step, k);
      CountsOther(who, s, step, k);
      assert forall c :: At(who, c, k) && c in t.pc ==> c in s.pc && t.pc[c] == s.pc[c];
    }
  }

  lemma SpentOwn<T>(who: Callers, s: State<T>, step: Step<T>, t: State<T>, k: LedgerKey)
    requires Shape(who, s) && At(who, step.c, k) && !MaySucceed(who, s, k) && step.c in s.pc && step.c in t.pc
    requires var e := Local(step.c, who[step.c], s.pc[step.c], Lookup(s.ledger, k), step.a);
             t.pc[step.c] == e.pc && Lookup(t.ledger, k) == e.row
    requires t.pc.Keys == s.pc.Keys && forall c :: c in s.pc && c != step.c ==> t.pc[c] == s.pc[c]
    ensures !MaySucceed(who, t, k)
  {
    var pc := s.pc[step.c];
    assert Holds(pc) ==> Holder(who, s, step.c, k);
    assert forall c :: c != step.c ==> (Holder(who, t, c, k) <==> Holder(who, s, c, k));
    if SomeoneStarts(who, t, k) {
      var c :| At(who, c, k) && c in t.pc && t.pc[c].Start?;
      assert s.pc[c].Start?;
    }
    if SomeoneHolds(who, t, k) {
      var c :| Holder(who, t, c, k);
    }
  }

  lemma {:induction false} SpentForGood<T>(who: Callers, steps: seq<Step<T>>, rest: seq<Step<T>>, k: LedgerKey)
    requires !MaySucceed(who, Run(who, steps), k)
    ensures !MaySucceed(who, Run(who, steps + rest), k)
    ensures Successes(who, Run(who, steps + rest).log, k) == Successes(who, Run(who, steps).log, k)
  {
    if rest == [] {
      assert steps + rest == steps;
    } else {
      var n := |rest| - 1;
      assert steps + rest == steps + rest[..n] + [rest[n]];
      SpentForGood(who, steps, rest[..n], k);
      RunSnoc(who, steps + rest[..n], rest[n]);
      RunKeepsKey(who, steps + rest[..n], k);
      SpentStep(who, Run(who, steps + rest[..n]), rest[n], k);
    }
  }

  /** A claim whose insert throws after taking effect blocks its key: no continuation has another success of it. */
  lemma LostClaimBlocksTheKey<T>(who: Callers, steps: seq<Step<T>>, c: Caller, k: LedgerKey, rest: seq<Step<T>>)
    requires At(who, c, k) && c in Run(who, steps).pc && Run(who, steps).pc[c].Start? && k !in Run(who, steps).ledger
    ensures var claim := Step(c, InsertBreaks(true));
            Successes(who, Run(who, steps + [claim] + rest).log, k) == Successes(who, Run(who, steps).log, k)
  {
    var claim := Step(c, InsertBreaks(true));
    OneStep(who, steps, claim, k);
    RunKeepsKey(who, steps, k);
    NobodyHolds(who, Run(who, steps), Run(who, steps + [claim]), c, k);
    SpentForGood(who, steps + [claim], rest, k);
  }

  lemma NobodyHolds<T>(who: Callers, s: State<T>, t: State<T>, c: Caller, k: LedgerKey)
    requires Claim(who, s, k) && k !in s.ledger && k in t.ledger && c in t.pc && t.pc[c].Threw?
    requires forall d :: d in who && d != c ==> d in s.pc && d in t.pc && t.pc[d] == s.pc[d]
    ensures !MaySucceed(who, t, k)
  {
    assert forall d :: Holder(who, t, d, k) ==> Holder(who, s, d, k);
  }

  /**
   * From every reachable state: a further success is possible exactly when the mutation is running, or a caller is
   * yet to come and the claim is gone or has a holder. So a claim deleted after a success does let the mutation
   * run again, and a row that outlives its holder never does. `r` is any value the mutation may return.
   */
  lemma SucceedsAgainExactlyWhen<T(!new)>(who: Callers, steps: seq<Step<T>>, k: LedgerKey, r: T)
    ensures SucceedsOn(who, steps, k) <==> MaySucceed(who, Run(who, steps), k)
  {
    var s := Run(who, steps);
    RunKeepsKey(who, steps, k);
    if !MaySucceed(who, s, k) {
      forall rest ensures Successes(who, Run(who, steps + rest).log, k) == Successes(who, s.log, k) {
        SpentForGood(who, steps, rest, k);
      }
    } else if SomeoneExecutes(who, s, k) {
      var c :| Holder(who, s, c, k) && s.pc[c].Executing?;
      ExecutorSucceeds(who, steps, c, k, r);
    } else {
      var d :| At(who, d, k) && d in s.pc && s.pc[d].Start?;
      if k !in s.ledger {
        FreedClaimRunsAgain(who, steps, d, k, r);
      } else {
        var c :| Holder(who, s, c, k);
        HolderCanFree(who, steps, c, d, k, r);
      }
    }
  }

  /** A continuation by one step that counts nothing can only move the success further ahead. */
  lemma SucceedsAfterStep<T(!new)>(who: Callers, steps: seq<Step<T>>, a: Step<T>, k: LedgerKey)
    requires SucceedsOn(who, steps + [a], k)
    requires SuccessesAfter(who, steps + [a], k) == SuccessesAfter(who, steps, k)
    ensures SucceedsOn(who, steps, k)
  {
    var rest :| SuccessesAfter(who, steps + [a] + rest, k) > SuccessesAfter(who, steps + [a], k);
    assert steps + ([a] + rest) == steps + [a] + rest;
  }

  lemma ExecutorSucceeds<T(!new)>(who: Callers, steps: seq<Step<T>>, c: Caller, k: LedgerKey, r: T)
    requires Holder(who, Run(who, steps), c, k) && Run(who, steps).pc[c].Executing?
    ensures Successes(who, Run(who, steps + [Step(c, ExecutorReturns(r))]).log, k)
            == Successes(who, Run(who, steps).log, k) + 1
    ensures SucceedsOn(who, steps, k)
  {
    RunKeepsKey(who, steps, k);
    RunSnoc(who, steps, Step(c, ExecutorReturns(r)));
    CountsOwn(who, Run(who, steps), Step(c, ExecutorReturns(r)), k);
  }

  /** What one step of a caller of `k` does, along a run. */
  lemma OneStep<T>(who: Callers, steps: seq<Step<T>>, a: Step<T>, k: LedgerKey)
    requires At(who, a.c, k)
    ensures var s, t := Run(who, steps), Run(who, steps + [a]);
            && a.c in s.pc && a.c in t.pc
            && var e := Local(a.c, who[a.c], s.pc[a.c], Lookup(s.ledger, k), a.a);
            && t.pc[a.c] == e.pc && Lookup(t.ledger, k) == e.row
            && (forall c :: c in who && c != a.c ==> c in t.pc && c in s.pc && t.pc[c] == s.pc[c])
            && Successes(who, t.log, k) == Successes(who, s.log, k)
               + (if s.pc[a.c].Executing? && a.a.ExecutorReturns? then 1 else 0)
  {
    RunKeepsKey(who, steps, k);
    RunKeepsShape(who, steps + [a]);
    RunSnoc(who, steps, a);
    OwnKey(who, Run(who, steps), a, k);
    CountsOwn(who, Run(who, steps), a, k);
  }

  lemma Begun<T>(who: Callers, steps: seq<Step<T>>, d: Caller, k: LedgerKey)
    requires At(who, d, k) && d in Run(who, steps).pc && Run(who, steps).pc[d].Start? && k !in Run(who, steps).ledger
    ensures var t := Run(who, steps + [Step(d, Begin)]);
            Holder(who, t, d, k) && t.pc[d].Executing?
    ensures SuccessesAfter(who, steps + [Step(d, Begin)], k) == SuccessesAfter(who, steps, k)
  {
    OneStep(who, steps, Step(d, Begin), k);
  }

  /** A key whose row is gone, after a success or not, runs its mutation for the next caller. */
  lemma FreedClaimRunsAgain<T(!new)>(who: Callers, steps: seq<Step<T>>, d: Caller, k: LedgerKey, r: T)
    requires At(who, d, k) && d in Run(who, steps).pc && Run(who, steps).pc[d].Start? && k !in Run(who, steps).ledger
    ensures Successes(who, Run(who, steps + [Step(d, Begin)] + [Step(d, ExecutorReturns(r))]).log, k)
            == Successes(who, Run(who, steps).log, k) + 1
    ensures SucceedsOn(who, steps, k)
  {
    Begun(who, steps, d, k);
    ExecutorSucceeds(who, steps + [Step(d, Begin)], d, k, r);
    SucceedsAfterStep(who, steps, Step(d, Begin), k);
  }

  lemma Released<T>(who: Callers, steps: seq<Step<T>>, c: Caller, d: Caller, k: LedgerKey)
    requires At(who, c, k) && c in Run(who, steps).pc && Run(who, steps).pc[c].Releasing?
    requires At(who, d, k) && d in Run(who, steps).pc && Run(who, steps).pc[d].Start?
    ensures var t := Run(who, steps + [Step(c, Release(true))]);
            d in t.pc && t.pc[d].Start? && k !in t.ledger
    ensures SuccessesAfter(who, steps + [Step(c, Release(true))], k) == SuccessesAfter(who, steps, k)
  {
    OneStep(who, steps, Step(c, Release(true)), k);
  }

  lemma ReleaserCanFree<T(!new)>(who: Callers, steps: seq<Step<T>>, c: Caller, d: Caller, k: LedgerKey, r: T)
    requires At(who, c, k) && c in Run(who, steps).pc && Run(who, steps).pc[c].Releasing?
    requires At(who, d, k) && d in Run(who, steps).pc && Run(who, steps).pc[d].Start?
    ensures SucceedsOn(who, steps, k)
  {
    Released(who, steps, c, d, k);
    FreedClaimRunsAgain(who, steps + [Step(c, Release(true))], d, k, r);
    SucceedsAfterStep(who, steps, Step(c, Release(true)), k);
  }

  lemma UpdateLost<T>(who: Callers, steps: seq<Step<T>>, c: Caller, d: Caller, k: LedgerKey)
    requires Holder(who, Run(who, steps), c, k) && Run(who, steps).pc[c].Committing?
    requires At(who, d, k) && d in Run(who, steps).pc && Run(who, steps).pc[d].Start?
    ensures var t := Run(who, steps + [Step(c, UpdateBreaks(false))]);
            c in t.pc && t.pc[c].Releasing? && d in t.pc && t.pc[d].Start?
    ensures SuccessesAfter(who, steps + [Step(c, UpdateBreaks(false))], k) == SuccessesAfter(who, steps, k)
  {
    OneStep(who, steps, Step(c, UpdateBreaks(false)), k);
  }

  /** A holder that has not committed can lose its update and delete the claim; then the next caller succeeds. */
  lemma HolderCanFree<T(!new)>(who: Callers, steps: seq<Step<T>>, c: Caller, d: Caller, k: LedgerKey, r: T)
    requires Holder(who, Run(who, steps), c, k) && !Run(who, steps).pc[c].Executing?
    requires At(who, d, k) && d in Run(who, steps).pc && Run(who, steps).pc[d].Start?
    ensures SucceedsOn(who, steps, k)
  {
    if Run(who, steps).pc[c].Releasing? {
      ReleaserCanFree(who, steps, c, d, k, r);
    } else {
      UpdateLost(who, steps, c, d, k);
      ReleaserCanFree(who, steps + [Step(c, UpdateBreaks(false))], c, d, k, r);
      SucceedsAfterStep(who, steps, Step(c, UpdateBreaks(false)), k);
    }
  }

  // ---------------------------------------------------------------- the bound is met

  /** One lost update, its claim deleted, and the next caller has succeeded with another result. */
  lemma LostUpdateDoublesTheMutation<T>(who: Callers, s: State<T>, c: Caller, d: Caller, k: LedgerKey, q: T)
    requires Shape(who, s) && At(who, c, k) && At(who, d, k) && c in s.pc && d in s.pc && s.pc[c].Committing?
             && s.pc[d].Start?
    ensures var t := Apply(who, Apply(who, Apply(who, Apply(who, s,
                       Step(c, UpdateBreaks(false))),
                       Step(c, Release(true))), Step(d, Begin)), Step(d, ExecutorReturns(q)));
            && t.pc == s.pc[c := Threw][d := Committing(q)] && Lookup(t.ledger, k) == Some(Pending)
            && t.log == s.log + [Freed(c)] + [Started(d)] + [Succeeded(d, q)]
  {
    var u := Apply(who, s, Step(c, UpdateBreaks(false)));
    assert u.pc == s.pc[c := Releasing(true)] && u.log == s.log;
    var v := Apply(who, u, Step(c, Release(true)));
    assert v.pc == s.pc[c := Threw] && v.log == s.log + [Freed(c)] && Lookup(v.ledger, k) == None;
    var w := Apply(who, v, Step(d, Begin));
    assert w.pc == s.pc[c := Threw][d := Executing] && w.log == s.log + [Freed(c)] + [Started(d)];
  }

  /** Callers 0 to `n` of one call. */
  function Crowd(p: Params, n: nat): (who: Callers)
    ensures forall c: Caller :: c in who <==> c <= n
    ensures forall c :: c in who ==> who[c] == p
  {
    if n == 0 then map[0 := p] else Crowd(p, n - 1)[n := p]
  }

  /** Callers before `m` lost their claims after success, `m` has succeeded, the others are yet to come. */
  ghost predicate Relay(p: Params, n: nat, m: nat, s: State<int>) {
    var who, k := Crowd(p, n), KeyOf(p);
    && Shape(who, s) && m <= n && s.pc[m].Committing? && (forall c: Caller :: m < c <= n ==> s.pc[c].Start?)
    && Successes(who, s.log, k) == m + 1 && FreedClaims(who, s.log, k) == m
  }

  lemma RelayOn(p: Params, n: nat, m: nat, s: State<int>, t: State<int>)
    requires Keyed(p) && Relay(p, n, m, s) && m < n
    requires t == Apply(Crowd(p, n), Apply(Crowd(p, n), Apply(Crowd(p, n), Apply(Crowd(p, n), s,
                    Step(m, UpdateBreaks(false))),
                    Step(m, Release(true))), Step(m + 1, Begin)), Step(m + 1, ExecutorReturns(m + 1)))
    ensures Relay(p, n, m + 1, t)
  {
    LostUpdateDoublesTheMutation(Crowd(p, n), s, m, m + 1, KeyOf(p), m + 1);
    CountsOfRelay(Crowd(p, n), KeyOf(p), s.log, m, m + 1, m + 1);
    RelayPasses(p, n, m, s, t);
  }

  lemma RelayPasses(p: Params, n: nat, m: nat, s: State<int>, t: State<int>)
    requires Keyed(p) && Relay(p, n, m, s) && m < n && t.pc == s.pc[m := Threw][m + 1 := Committing(m + 1)]
    requires Successes(Crowd(p, n), t.log, KeyOf(p)) == m + 2 && FreedClaims(Crowd(p, n), t.log, KeyOf(p)) == m + 1
    ensures Relay(p, n, m + 1, t)
  {
    assert t.pc.Keys == s.pc.Keys;
  }

  lemma CountsOfRelay(who: Callers, k: LedgerKey, log: seq<Event<int>>, c: Caller, d: Caller, q: int)
    requires At(who, c, k) && At(who, d, k)
    ensures var more := log + [Freed(c)] + [Started(d)] + [Succeeded(d, q)];
            Successes(who, more, k) == Successes(who, log, k) + 1
                && FreedClaims(who, more, k) == FreedClaims(who, log, k) + 1
  {
    CountsGrow(who, log, Freed(c), k);
    CountsGrow(who, log + [Freed(c)], Started(d), k);
    CountsGrow(who, log + [Freed(c)] + [Started(d)], Succeeded(d, q), k);
  }

  lemma RunFour(who: Callers, steps: seq<Step<int>>, a: Step<int>, b: Step<int>, c: Step<int>, d: Step<int>)
    ensures Run(who, steps + [a] + [b] + [c] + [d])
            == Apply(who, Apply(who, Apply(who, Apply(who, Run(who, steps), a), b), c), d)
  {
    RunSnoc(who, steps, a);
    RunSnoc(who, steps + [a], b);
    RunSnoc(who, steps + [a] + [b], c);
    RunSnoc(who, steps + [a] + [b] + [c], d);
  }

  lemma {:induction false} RelayRun(p: Params, n: nat, m: nat) returns (steps: seq<Step<int>>)
    requires Keyed(p) && m <= n
    ensures Relay(p, n, m, Run(Crowd(p, n), steps))
  {
    var who := Crowd(p, n);
    if m == 0 {
      steps := [] + [Step(0, Begin)] + [Step(0, ExecutorReturns(0))];
      RunTwo(who, Step(0, Begin), Step(0, ExecutorReturns(0)));
      FirstOfCrowd(p, n);
    } else {
      var before := RelayRun(p, n, m - 1);
      steps := RelayOneMore(p, n, m - 1, before);
    }
  }

  lemma RelayOneMore(p: Params, n: nat, c: Caller, before: seq<Step<int>>) returns (steps: seq<Step<int>>)
    requires Keyed(p) && c < n && Relay(p, n, c, Run(Crowd(p, n), before))
    ensures Relay(p, n, c + 1, Run(Crowd(p, n), steps))
  {
    var x, y, z: Step<int>, w: Step<int> := Step(c, UpdateBreaks(false)), Step(c, Release(true)), Step(c + 1, Begin),
        Step(c + 1, ExecutorReturns(c + 1));
    steps := before + [x] + [y] + [z] + [w];
    RunFour(Crowd(p, n), before, x, y, z, w);
    RelayOn(p, n, c, Run(Crowd(p, n), before), Run(Crowd(p, n), steps));
  }

  lemma RunTwo(who: Callers, a: Step<int>, b: Step<int>)
    ensures Run(who, [] + [a] + [b]) == Apply(who, Apply(who, Init(who), a), b)
  {
    RunSnoc(who, [], a);
    RunSnoc(who, [] + [a], b);
  }

  lemma FirstOfCrowd(p: Params, n: nat)
    requires Keyed(p)
    ensures Relay(p, n, 0, Apply(Crowd(p, n), Apply(Crowd(p, n), Init(Crowd(p, n)), Step(0, Begin)),
                                 Step(0, ExecutorReturns(0))))
  {
    var who, k := Crowd(p, n), KeyOf(p);
    FirstSteps(p, n);
    CountsGrow<int>(who, [], Started(0), k);
    CountsGrow<int>(who, [] + [Started(0)], Succeeded(0, 0), k);
  }

  lemma FirstSteps(p: Params, n: nat)
    requires Keyed(p)
    ensures var who := Crowd(p, n);
            var t := Apply(who, Apply(who, Init(who), Step(0, Begin)), Step(0, ExecutorReturns(0)));
            && t.pc == Init<int>(who).pc[0 := Committing(0)] && Lookup(t.ledger, KeyOf(p)) == Some(Pending)
            && t.log == [] + [Started(0)] + [Succeeded(0, 0)]
  {
    var who := Crowd(p, n);
    var s := Apply(who, Init<int>(who), Step(0, Begin));
    assert s.pc == Init<int>(who).pc[0 := Executing] && s.log == [] + [Started(0)];
  }

  /** For every number of freed claims there is a run of the module that has one success more. */
  lemma BoundIsMet(p: Params, n: nat)
    requires Keyed(p)
    ensures exists who, steps: seq<Step<int>> ::
              Successes(who, Run(who, steps).log, KeyOf(p)) == n + 1
                  && FreedClaims(who, Run(who, steps).log, KeyOf(p)) == n
  {
    var steps := RelayRun(p, n, n);
    assert Successes(Crowd(p, n), Run(Crowd(p, n), steps).log, KeyOf(p)) == n + 1;
  }

  /** A released claim leaves no trace, so a genuine retry starts over. */
  lemma RetryAfterFailure<T>(who: Callers, steps: seq<Step<T>>, c: Caller, d: Caller)
    requires c in who && d in who && c != d && Keyed(who[c]) && Keyed(who[d]) && KeyOf(who[c]) == KeyOf(who[d])
    requires var s := Run(who, steps); c in s.pc && d in s.pc && s.pc[c].Releasing? && s.pc[d].Start?
    ensures var t := Run(who, steps + [Step(c, Release(true))] + [Step(d, Begin)]);
            d in t.pc && t.pc[d] == Executing
  {
    RunSnoc(who, steps, Step(c, Release(true)));
    RunSnoc(who, steps + [Step(c, Release(true))], Step(d, Begin));
    RunKeepsShape(who, steps);
  }
}
