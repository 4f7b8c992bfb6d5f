/**
 * Users' mutations as the service performs them: read the row, compute the `$set`, write it later
 * (activity/src/activity/activity.service.ts:1025-1159, 1253-1273, 1319-1335, 1375-1416). In between anybody may write.
 */
module ActivityRaces {
  import opened Wrappers
  import opened Activity

  /** What a mutation sets; `reset` puts the reminder into a state without a fire time. */
  datatype Write = Write(patch: Patch, reset: Option<ReminderState>, deleted: Option<bool>)

  const NOTHING := Patch(None, None, None, None, None, None)

  predicate IsMutation(op: Op) {
    op.Update? || op.Complete? || op.Remove? || op.Restore?
  }

  /** What a mutation decides to write from the row it reads; nothing when it is refused or has nothing to do. */
  function Decide(a: Activity, op: Op): Option<Write> {
    match op
    case Update(d) => if !a.deleted && PatchFor(a, d).Ok? then Some(Write(PatchFor(a, d).value, None, None)) else None
    case Complete => if !a.deleted && !Terminal(a.status)
        then Some(Write(NOTHING.(status := Some(Completed)), Some(Dropped), None)) else None
    case Remove => if !a.deleted then Some(Write(NOTHING, Some(Dropped), Some(true))) else None
    case Restore(now) =>
      if !a.deleted then None
      else Some(Write(NOTHING, if a.fireAt.Some? && a.fireAt.value < now then Some(NotSet) else None, Some(false)))
    case _ => None
  }

  function Written(a: Activity, w: Write): Activity {
    var b := Patched(a, w.patch);
    var c := if w.reset.Some? then b.(reminder := w.reset.value, fireAt := None) else b;
    c.(deleted := w.deleted.GetOr(c.deleted))
  }

  /** With nobody in between, reading and writing is the atomic step. */
  lemma UndisturbedIsAtomic(a: Activity, op: Op)
    requires IsMutation(op)
    ensures Step(a, op) == if Decide(a, op).Some? then Written(a, Decide(a, op).value) else a
  {
  }

  // ---------------------------------------------------------------- interleaved runs

  type User = nat

  /** A mutation between its read and its write. */
  datatype Flight = Flight(seen: Activity, op: Op)

  datatype Race = Race(row: Activity, flights: map<User, Flight>)

  datatype Event = Begin(user: User, op: Op) | Commit(user: User) | Instant(op: Op)

  /** A flight that was taken off has something to write. Claims and releases are single operations of the store. */
  function Next(s: Race, e: Event): Race {
    match e
    case Begin(u, op) =>
      if IsMutation(op) && u !in s.flights && Decide(s.row, op).Some?
          then s.(flights := s.flights[u := Flight(s.row, op)]) else s
    case Commit(u) => if u in s.flights then Race(Landed(s.row, s.flights[u]), s.flights - {u}) else s
    case Instant(op) => if IsMutation(op) then s else s.(row := Step(s.row, op))
  }

  function Landed(b: Activity, f: Flight): Activity {
    if Decide(f.seen, f.op).Some? then Written(b, Decide(f.seen, f.op).value) else b
  }

  /** A read and its write with nobody in between; and no mutation of a user is done in one go otherwise. */
  lemma ReadThenWrite(s: Race, u: User, op: Op)
    requires (op.Update? || op.Complete? || op.Remove? || op.Restore?) && u !in s.flights
    ensures var t := Next(Next(s, Begin(u, op)), Commit(u)); t.row == Step(s.row, op) && t.flights == s.flights
    ensures Next(s, Instant(op)) == s && Next(s, Begin(u, op)).row == s.row
    ensures u in Next(s, Begin(u, op)).flights <==> Decide(s.row, op).Some?
  {
    UndisturbedIsAtomic(s.row, op);
  }

  lemma OthersAtOnce(s: Race, u: User, op: Op)
    requires !op.Update? && !op.Complete? && !op.Remove? && !op.Restore?
    ensures Next(s, Instant(op)) == Race(Step(s.row, op), s.flights) && Next(s, Begin(u, op)) == s
  {
  }

  function After(s: Race, es: seq<Event>): Race {
    if es == [] then s else Next(After(s, es[..|es| - 1]), es[|es| - 1])
  }

  predicate EventKeepsType(kind: Kind, e: Event) {
    e.Begin? ==> KeepsType(kind, e.op)
  }

  // ---------------------------------------------------------------- reminders

  /** The date a reschedule was computed from is the one the row will have: the write brings it, or nobody moved it. */
  predicate AnchorUnmoved(b: Activity, a: Activity, op: Op) {
    op.Update? && TouchesReminder(op.data) && !Off(EffectiveOffset(a, op.data)) ==>
      if a.kind == Meeting then op.data.start.Some? || b.start == a.start else op.data.due.Some? || b.due == a.due
  }

  /** The parts of an accepted patch that concern the reminder. */
  lemma PatchParts(a: Activity, d: UpdateData)
    requires PatchFor(a, d).Ok? && KeepsType(a.kind, Update(d))
    ensures var p := PatchFor(a, d).value;
            && p.due == d.due && p.start == d.start && (p.reminder.Some? <==> TouchesReminder(d))
            && (p.reminder.Some? ==>
                  ReminderFor(EffectiveOffset(a, d), a.kind, if a.kind == Note then None else d.due.GetOr(a.due),
                              d.start.GetOr(a.start))
                  == Ok(p.reminder.value))
  {
  }

  lemma PatchKeepsReminderExactlyWhen(b: Activity, a: Activity, d: UpdateData, p: Patch)
    requires ReminderOk(b) && a.kind == b.kind && p.due == d.due && p.start == d.start
             && (p.reminder.Some? <==> TouchesReminder(d))
    requires p.reminder.Some? ==>
               ReminderFor(EffectiveOffset(a, d), a.kind, if a.kind == Note then None else d.due.GetOr(a.due),
                           d.start.GetOr(a.start))
               == Ok(p.reminder.value)
    ensures ReminderOk(Patched(b, p)) <==> AnchorUnmoved(b, a, Update(d))
  {
  }

  /**
   * A mutation computed from `a` and written onto `b` keeps the reminder in step exactly when its anchor did not move.
   */
  lemma LandingKeepsReminderExactlyWhen(b: Activity, a: Activity, op: Op)
    requires ReminderOk(b) && a.kind == b.kind && KeepsType(a.kind, op) && Decide(a, op).Some?
    ensures ReminderOk(Written(b, Decide(a, op).value)) <==> AnchorUnmoved(b, a, op)
  {
    if op.Update? {
      PatchParts(a, op.data);
      PatchKeepsReminderExactlyWhen(b, a, op.data, PatchFor(a, op.data).value);
    }
  }

  /** Two updates computed from one row: the second keeps the reminder in step unless the first moved its anchor. */
  lemma TwoUpdatesFromOneRow(a: Activity, d: UpdateData, e: UpdateData)
    requires ReminderOk(a) && KeepsType(a.kind, Update(d)) && KeepsType(a.kind, Update(e)) && PatchFor(a, d).Ok?
             && PatchFor(a, e).Ok?
    ensures ReminderOk(Patched(Patched(a, PatchFor(a, d).value), PatchFor(a, e).value)) <==>
            || !TouchesReminder(e) || Off(EffectiveOffset(a, e))
            || (if a.kind == Meeting then e.start.Some? || d.start.GetOr(a.start) == a.start
                else e.due.Some? || d.due.GetOr(a.due) == a.due)
  {
    var p, q := PatchFor(a, d).value, PatchFor(a, e).value;
    PatchParts(a, d);
    PatchParts(a, e);
    PatchKeepsReminderExactlyWhen(a, a, d, p);
    PatchKeepsReminderExactlyWhen(Patched(a, p), a, e, q);
  }

  /** Flights are of the row's type, and every one has something to write. */
  predicate FlightsOk(s: Race) {
    forall u :: u in s.flights ==>
      var f := s.flights[u];
      f.seen.kind == s.row.kind && KeepsType(s.row.kind, f.op) && Decide(f.seen, f.op).Some?
  }

  predicate Misplaces(s: Race, e: Event) {
    e.Commit? && e.user in s.flights && !AnchorUnmoved(s.row, s.flights[e.user].seen, s.flights[e.user].op)
  }

  lemma NextKeepsFlights(s: Race, e: Event)
    requires FlightsOk(s) && EventKeepsType(s.row.kind, e)
    ensures FlightsOk(Next(s, e)) && Next(s, e).row.kind == s.row.kind
  {
  }

  lemma NextKeepsReminderExactlyWhen(s: Race, e: Event)
    requires FlightsOk(s) && ReminderOk(s.row) && EventKeepsType(s.row.kind, e)
    ensures ReminderOk(Next(s, e).row) <==> !Misplaces(s, e)
  {
    match e
    case Begin(_, _) =>
    case Commit(u) =>
      if u in s.flights {
        LandingKeepsReminderExactlyWhen(s.row, s.flights[u].seen, s.flights[u].op);
      }
    case Instant(op) =>
      if !IsMutation(op) {
        StepKeepsReminder(s.row, op);
      }
  }

  /** The reminder is in step now and was at every moment before. */
  predicate AlwaysInStep(s: Race, es: seq<Event>) {
    ReminderOk(After(s, es).row) && (es != [] ==> AlwaysInStep(s, es[..|es| - 1]))
  }

  predicate NeverMisplaces(s: Race, es: seq<Event>) {
    es != [] ==> NeverMisplaces(s, es[..|es| - 1]) && !Misplaces(After(s, es[..|es| - 1]), es[|es| - 1])
  }

  lemma {:induction false} RunKeepsFlights(s: Race, es: seq<Event>)
    requires FlightsOk(s) && forall i :: 0 <= i < |es| ==> EventKeepsType(s.row.kind, es[i])
    ensures FlightsOk(After(s, es)) && After(s, es).row.kind == s.row.kind
  {
    if es != [] {
      RunKeepsFlights(s, es[..|es| - 1]);
      NextKeepsFlights(After(s, es[..|es| - 1]), es[|es| - 1]);
    }
  }

  lemma {:induction false} InStepFrom(s: Race, es: seq<Event>)
    requires FlightsOk(s) && ReminderOk(s.row) && forall i :: 0 <= i < |es| ==> EventKeepsType(s.row.kind, es[i])
    ensures AlwaysInStep(s, es) <==> NeverMisplaces(s, es)
  {
    if es != [] {
      var most := es[..|es| - 1];
      InStepFrom(s, most);
      RunKeepsFlights(s, most);
      if AlwaysInStep(s, most) {
        NextKeepsReminderExactlyWhen(After(s, most), es[|es| - 1]);
      }
    }
  }

  /**
   * From the creation of an activity on, in every interleaving of reads and writes that leave the type alone, the
   * reminder is in step at all times exactly when no write lands whose anchor has moved since it was read.
   */
  lemma ReminderInStepExactlyWhen(d: CreateData, now: int, es: seq<Event>)
    requires Created(d, now).Ok? && forall i :: 0 <= i < |es| ==> EventKeepsType(d.kind, es[i])
    ensures var s := Race(Created(d, now).value, map[]); AlwaysInStep(s, es) <==> NeverMisplaces(s, es)
  {
    CreatedIsSound(d, now);
    InStepFrom(Race(Created(d, now).value, map[]), es);
  }

  // ---------------------------------------------------------------- closed activities

  /** A write that opens whatever it lands on: an update to an open status. */
  predicate Opens(f: Flight) {
    Decide(f.seen, f.op).Some? && f.op.Update? && f.op.data.status.Some? && !Terminal(f.op.data.status.value)
  }

  predicate OpeningInFlight(s: Race) {
    exists u :: u in s.flights && Opens(s.flights[u])
  }

  lemma LandingReopensExactlyWhen(b: Activity, f: Flight)
    requires Terminal(b.status)
    ensures Terminal(Landed(b, f).status) <==> !Opens(f)
  {
  }

  /** Nothing read from a closed row opens it. */
  lemma ClosedStep(s: Race, e: Event)
    requires Terminal(s.row.status) && !OpeningInFlight(s)
    ensures Terminal(Next(s, e).row.status) && !OpeningInFlight(Next(s, e))
  {
    var t := Next(s, e);
    if e.Commit? && e.user in s.flights {
      LandingReopensExactlyWhen(s.row, s.flights[e.user]);
    }
    forall u | u in t.flights ensures !Opens(t.flights[u]) {
      assert u in s.flights ==> !Opens(s.flights[u]);
    }
  }

  lemma {:induction false} ClosedRun(s: Race, es: seq<Event>)
    requires Terminal(s.row.status) && !OpeningInFlight(s)
    ensures Terminal(After(s, es).row.status) && !OpeningInFlight(After(s, es))
  {
    if es != [] {
      ClosedRun(s, es[..|es| - 1]);
      ClosedStep(After(s, es[..|es| - 1]), es[|es| - 1]);
    }
  }

  lemma AfterOne(s: Race, e: Event)
    ensures After(s, [e]) == Next(s, e)
  {
    var es := [e];
    assert es[..|es| - 1] == [] && After(s, []) == s;
  }

  predicate ClosedAfter(s: Race, es: seq<Event>) {
    Terminal(After(s, es).row.status)
  }

  /**
   * A completed or cancelled activity stays closed in every continuation exactly when no update to an open status,
   * read before it was closed, is still on its way.
   */
  lemma ClosedForGoodExactlyWhen(s: Race)
    requires Terminal(s.row.status)
    ensures (forall es :: ClosedAfter(s, es)) <==> !OpeningInFlight(s)
  {
    if OpeningInFlight(s) {
      var u :| u in s.flights && Opens(s.flights[u]);
      AfterOne(s, Commit(u));
      LandingReopensExactlyWhen(s.row, s.flights[u]);
      assert !ClosedAfter(s, [Commit(u)]);
    } else {
      forall es ensures ClosedAfter(s, es) {
        ClosedRun(s, es);
      }
    }
  }
}
