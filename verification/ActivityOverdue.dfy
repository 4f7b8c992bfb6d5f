/**
 * One-shot overdue escalation under concurrent scanners
 * (activity/src/activity/activity.service.ts:1440-1529): claim the row, enqueue the event, release on failure.
 * Each of the three calls may throw, before or after it took effect; the scanner logs the error and goes on
 * (activity/src/activity/overdue-scanner.service.ts:38-53).
 */
module ActivityOverdue {
  import opened Wrappers
  import opened Activity

  // ---------------------------------------------------------------- one call of `publishOverdueEvent`

  /** The row it leaves, how many events it enqueued, and what it answers. */
  datatype Attempt = Attempt(row: Activity, events: nat, reply: Result<bool, ()>)

  function Publish(row: Activity, now: int, claim: Call, enqueue: Call, release: Call): Attempt {
    var marked := Step(row, ClaimOverdue(now));
    match claim
    case Broke(applied) => Attempt(if applied then marked else row, 0, Err(()))
    case Fine =>
      if !ClaimsOverdue(row, now) then Attempt(row, 0, Ok(false))
      else if enqueue.Fine? then Attempt(marked, 1, Ok(true))
      else Attempt(if release.TookEffect() then Step(marked, ReleaseOverdue) else marked,
                   if enqueue.applied then 1 else 0, Err(()))
  }

  // ---------------------------------------------------------------- any number of scanners

  /** Where one scanner's call stands; `Failed` has seen the enqueue throw and must still release. */
  datatype Pc = Idle | Claimed | Failed(enqueued: bool)

  /** One row, the scanners at work on it, and the overdue events enqueued for it so far. */
  datatype State = State(row: Activity, scanners: seq<Pc>, events: nat)

  datatype Event =
    | Claim(scanner: nat, now: int, call: Call) | Enqueue(scanner: nat, call: Call) | Release(scanner: nat, call: Call)
    | Crash(scanner: nat) | Edit(op: Op)

  predicate Stands(s: State, i: nat) {
    i < |s.scanners|
  }

  predicate At(s: State, i: nat, pc: Pc) {
    Stands(s, i) && s.scanners[i] == pc
  }

  predicate HasFailed(s: State, i: nat) {
    Stands(s, i) && s.scanners[i].Failed?
  }

  predicate Holds(s: State, i: nat) {
    At(s, i, Claimed) || HasFailed(s, i)
  }

  /** Users' calls and reminder claims; the overdue claim itself belongs to the scanners. */
  predicate IsEdit(op: Op) {
    !op.ClaimOverdue? && !op.ReleaseOverdue?
  }

  /** The claim finds a row it can mark. */
  predicate Marks(s: State, e: Event) {
    e.Claim? && At(s, e.scanner, Idle) && ClaimsOverdue(s.row, e.now) && e.call.TookEffect()
  }

  /** An event that is not enabled changes nothing. */
  function Next(s: State, e: Event): State {
    match e
    case Claim(i, now, call) =>
      if Marks(s, e) then Moved(s, i, if call.Fine? then Claimed else Idle).(row := Step(s.row, ClaimOverdue(now)))
      else s
    case Enqueue(i, call) =>
      if At(s, i, Claimed)
      then Moved(s, i, if call.Fine? then Idle else Failed(call.applied))
           .(events := s.events + if call.TookEffect() then 1 else 0)
      else s
    case Release(i, call) =>
      if HasFailed(s, i)
      then Moved(s, i, Idle).(row := if call.TookEffect() then Step(s.row, ReleaseOverdue) else s.row)
      else s
    case Crash(i) => if Stands(s, i) then Moved(s, i, Idle) else s
    case Edit(op) => if IsEdit(op) then s.(row := Step(s.row, op)) else s
  }

  function Moved(s: State, i: nat, pc: Pc): State
    requires Stands(s, i)
  {
    s.(scanners := s.scanners[i := pc])
  }

  function After(s: State, es: seq<Event>): State {
    if es == [] then s else Next(After(s, es[..|es| - 1]), es[|es| - 1])
  }

  lemma AfterSnoc(s: State, es: seq<Event>, e: Event)
    ensures After(s, es + [e]) == Next(After(s, es), e)
  {
    assert (es + [e])[..|es|] == es;
  }

  /** One undisturbed call is such a run. */
  lemma PublishIsARun(row: Activity, n: nat, now: int, claim: Call, enqueue: Call, release: Call)
    ensures var a := Publish(row, now, claim, enqueue, release);
            After(State(row, [Idle], n), [] + [Claim(0, now, claim)] + [Enqueue(0, enqueue)] + [Release(0, release)])
            == State(a.row, [Idle], n + a.events)
  {
    var s, first := State(row, [Idle], n), [] + [Claim(0, now, claim)];
    AfterSnoc(s, [], Claim(0, now, claim));
    AfterSnoc(s, first, Enqueue(0, enqueue));
    AfterSnoc(s, first + [Enqueue(0, enqueue)], Release(0, release));
    PublishSteps(row, n, now, claim, enqueue, release);
  }

  lemma PublishSteps(row: Activity, n: nat, now: int, claim: Call, enqueue: Call, release: Call)
    ensures var a := Publish(row, now, claim, enqueue, release);
            var s := State(row, [Idle], n);
            Next(Next(Next(s, Claim(0, now, claim)), Enqueue(0, enqueue)), Release(0, release))
            == State(a.row, [Idle], n + a.events)
  {
    assert [Claimed][0 := Idle] == [Idle];
  }

  predicate Fresh(s: State) {
    !s.row.overdueNotified && s.events == 0 && forall i :: 0 <= i < |s.scanners| ==> s.scanners[i] == Idle
  }

  /** At most one scanner holds the claim, and while it does the row is marked. */
  ghost predicate OneHolder(s: State) {
    && (forall i: nat, j: nat :: Holds(s, i) && Holds(s, j) ==> i == j)
    && (forall i: nat :: Holds(s, i) ==> s.row.overdueNotified)
  }

  ghost predicate Pending(s: State) {
    exists i: nat :: Holds(s, i)
  }

  lemma EditsKeepTheMark(a: Activity, op: Op)
    requires IsEdit(op)
    ensures Step(a, op).overdueNotified == a.overdueNotified
  {
  }

  lemma HoldersAfter(s: State, e: Event, i: nat)
    ensures Holds(Next(s, e), i) ==> Holds(s, i) || (Marks(s, e) && e.scanner == i && e.call.Fine?)
    ensures Holds(s, i) && !Holds(Next(s, e), i) ==> (e.Enqueue? || e.Release? || e.Crash?) && e.scanner == i
  {
  }

  lemma NextKeepsOneHolder(s: State, e: Event)
    requires OneHolder(s)
    ensures OneHolder(Next(s, e))
  {
    var t := Next(s, e);
    if e.Edit? && IsEdit(e.op) {
      EditsKeepTheMark(s.row, e.op);
    }
    forall i: nat ensures Holds(t, i) ==> Holds(s, i) || (Marks(s, e) && e.scanner == i) {
      HoldersAfter(s, e, i);
    }
    assert e.Release? && HasFailed(s, e.scanner) ==> Holds(s, e.scanner) && !Holds(t, e.scanner);
  }

  lemma {:induction false} AfterKeepsOneHolder(s: State, es: seq<Event>)
    requires Fresh(s)
    ensures OneHolder(After(s, es))
  {
    if es != [] {
      AfterKeepsOneHolder(s, es[..|es| - 1]);
      NextKeepsOneHolder(After(s, es[..|es| - 1]), es[|es| - 1]);
    }
  }

  // ---------------------------------------------------------------- how many events

  /** A claim is given back although its event was enqueued: the enqueue threw after taking effect. */
  predicate Repeats(s: State, e: Event) {
    e.Release? && At(s, e.scanner, Failed(true)) && e.call.TookEffect()
  }

  function CountRepeats(s: State, es: seq<Event>): nat {
    if es == [] then 0
    else
      var most := es[..|es| - 1];
      CountRepeats(s, most) + if Repeats(After(s, most), es[|es| - 1]) then 1 else 0
  }

  /** Nothing has been enqueued yet under the present claim. */
  predicate HoldsSilently(s: State, i: nat) {
    At(s, i, Claimed) || At(s, i, Failed(false))
  }

  /** `n` events belong to claims that were given back, one more at most to the present mark. */
  ghost predicate Within(s: State, n: nat) {
    && s.events <= n + 1
    && (!s.row.overdueNotified ==> s.events <= n)
    && (forall i: nat :: HoldsSilently(s, i) ==> s.events <= n)
  }

  lemma NextKeepsWithin(s: State, e: Event, n: nat)
    requires OneHolder(s) && Within(s, n)
    ensures Within(Next(s, e), n + if Repeats(s, e) then 1 else 0)
  {
    var t := Next(s, e);
    if e.Edit? && IsEdit(e.op) {
      EditsKeepTheMark(s.row, e.op);
    }
    forall i: nat ensures HoldsSilently(t, i) ==> HoldsSilently(s, i) || Marks(s, e) || (e.Enqueue? && e.scanner == i) {
    }
    if e.Enqueue? && At(s, e.scanner, Claimed) {
      assert HoldsSilently(s, e.scanner) && Holds(s, e.scanner);
      forall i: nat ensures HoldsSilently(t, i) ==> i == e.scanner {
        assert Holds(s, i) ==> i == e.scanner;
      }
    }
    if e.Release? && HasFailed(s, e.scanner) {
      assert Holds(s, e.scanner) && (At(s, e.scanner, Failed(false)) ==> HoldsSilently(s, e.scanner));
    }
  }

  /** Any scanners, errors, crashes and edits: events exceed the claims given back after an enqueue by at most one. */
  lemma {:induction false} EventsAreBounded(s: State, es: seq<Event>)
    requires Fresh(s)
    ensures After(s, es).events <= CountRepeats(s, es) + 1
    ensures Within(After(s, es), CountRepeats(s, es))
  {
    if es != [] {
      var most := es[..|es| - 1];
      EventsAreBounded(s, most);
      AfterKeepsOneHolder(s, most);
      NextKeepsWithin(After(s, most), es[|es| - 1], CountRepeats(s, most));
    }
  }

  /** An enqueue that throws enqueued nothing. */
  predicate Honest(es: seq<Event>) {
    forall e :: e in es && e.Enqueue? ==> e.call != Broke(true)
  }

  lemma {:induction false} HonestNeverRepeats(s: State, es: seq<Event>)
    requires Fresh(s) && Honest(es)
    ensures CountRepeats(s, es) == 0 && forall i: nat :: !At(After(s, es), i, Failed(true))
  {
    if es != [] {
      var n := |es| - 1;
      assert es[n] in es && forall e :: e in es[..n] ==> e in es;
      HonestNeverRepeats(s, es[..n]);
      forall i: nat ensures !At(After(s, es), i, Failed(true)) {
        assert !At(After(s, es[..n]), i, Failed(true));
      }
    }
  }

  /** So with an enqueue that is all or nothing there is at most one overdue event per activity. */
  lemma AtMostOneOverdueEvent(s: State, es: seq<Event>)
    requires Fresh(s) && Honest(es)
    ensures After(s, es).events <= 1
  {
    EventsAreBounded(s, es);
    HonestNeverRepeats(s, es);
  }

  /** `n` times the enqueue takes effect and throws, and the claim is given back. */
  function Storm(now: int, n: nat): seq<Event> {
    if n == 0 then []
    else Storm(now, n - 1) + [Claim(0, now, Fine)] + [Enqueue(0, Broke(true))] + [Release(0, Fine)]
  }

  lemma OneMore(s: State, es: seq<Event>, e: Event)
    ensures After(s, es + [e]) == Next(After(s, es), e)
    ensures CountRepeats(s, es + [e]) == CountRepeats(s, es) + if Repeats(After(s, es), e) then 1 else 0
  {
    assert (es + [e])[..|es|] == es;
  }

  lemma {:induction false} StormCounts(row: Activity, now: int, n: nat)
    requires ClaimsOverdue(row, now)
    ensures After(State(row, [Idle], 0), Storm(now, n)) == State(row, [Idle], n)
    ensures CountRepeats(State(row, [Idle], 0), Storm(now, n)) == n
  {
    if n > 0 {
      StormCounts(row, now, n - 1);
      var s, es := State(row, [Idle], 0), Storm(now, n - 1);
      OneRepeat(s, es, now, row, n - 1);
    }
  }

  /** A lone scanner's claim, its late throw and its release, state by state. */
  lemma LateThrow(row: Activity, now: int, n: nat)
    requires ClaimsOverdue(row, now)
    ensures var a, b, c := Claim(0, now, Fine), Enqueue(0, Broke(true)), Release(0, Fine);
            var s, marked := State(row, [Idle], n), Step(row, ClaimOverdue(now));
            && Next(s, a) == State(marked, [Claimed], n) && !Repeats(s, a)
            && Next(Next(s, a), b) == State(marked, [Failed(true)], n + 1) && !Repeats(Next(s, a), b)
            && Next(Next(Next(s, a), b), c) == State(row, [Idle], n + 1) && Repeats(Next(Next(s, a), b), c)
  {
  }

  lemma OneRepeat(s: State, es: seq<Event>, now: int, row: Activity, n: nat)
    requires After(s, es) == State(row, [Idle], n) && ClaimsOverdue(row, now)
    ensures var more := es + [Claim(0, now, Fine)] + [Enqueue(0, Broke(true))] + [Release(0, Fine)];
            After(s, more) == State(row, [Idle], n + 1) && CountRepeats(s, more) == CountRepeats(s, es) + 1
  {
    var a, b, c := Claim(0, now, Fine), Enqueue(0, Broke(true)), Release(0, Fine);
    LateThrow(row, now, n);
    OneMore(s, es, a);
    OneMore(s, es + [a], b);
    OneMore(s, es + [a] + [b], c);
  }

  lemma OneEvent(s: State, es: seq<Event>, now: int, row: Activity, n: nat)
    requires After(s, es) == State(row, [Idle], n) && ClaimsOverdue(row, now)
    ensures var more := es + [Claim(0, now, Fine)] + [Enqueue(0, Fine)];
            After(s, more).events == n + 1 && CountRepeats(s, more) == CountRepeats(s, es)
  {
    var a, b := Claim(0, now, Fine), Enqueue(0, Fine);
    LateThrow(row, now, n);
    OneMore(s, es, a);
    OneMore(s, es + [a], b);
  }

  ghost predicate RepeatsEvent(s: State, es: seq<Event>, row: Activity, n: nat) {
    Fresh(s) && s.row == row && CountRepeats(s, es) == n && After(s, es).events == n + 1
  }

  /** The bound is met for every claimable row and every number of late throws. */
  lemma LateThrowsRepeatTheEvent(row: Activity, now: int, n: nat)
    requires ClaimsOverdue(row, now)
    ensures exists s, es :: RepeatsEvent(s, es, row, n)
  {
    var s := State(row, [Idle], 0);
    var more := Storm(now, n) + [Claim(0, now, Fine)] + [Enqueue(0, Fine)];
    StormCounts(row, now, n);
    OneEvent(s, Storm(now, n), now, row, n);
    assert RepeatsEvent(s, more, row, n);
  }

  /**
   * After a failed claim is released, a row that is still live, open and overdue can be claimed by any idle scanner.
   */
  lemma ReleasedClaimIsClaimableAgain(s: State, i: nat, j: nat, now: int)
    requires HasFailed(s, i) && At(Next(s, Release(i, Fine)), j, Idle)
    ensures var t := Next(s, Release(i, Fine));
            && t.events == s.events
            && (ClaimsOverdue(t.row, now) <==>
                 !s.row.deleted && !Terminal(s.row.status) && s.row.due.Some?
                 && 0 < s.row.due.value < now)
            && (At(Next(t, Claim(j, now, Fine)), j, Claimed) <==> ClaimsOverdue(t.row, now))
  {
  }

  // ---------------------------------------------------------------- what is lost

  /** A marked row has an event or a scanner still working on it. */
  ghost predicate NothingLost(s: State) {
    s.row.overdueNotified ==> s.events >= 1 || Pending(s)
  }

  /** The mark is left behind: its holder crashes, its release fails, or the claim's reply never arrives. */
  predicate LeavesMark(s: State, e: Event) {
    || (e.Crash? && Holds(s, e.scanner))
    || (e.Release? && HasFailed(s, e.scanner) && e.call == Broke(false))
    || (Marks(s, e) && e.call == Broke(true))
  }

  /** That happens before any event was enqueued. */
  ghost predicate Loses(s: State, es: seq<Event>) {
    es != [] &&
    var before := After(s, es[..|es| - 1]);
    Loses(s, es[..|es| - 1]) || (before.events == 0 && LeavesMark(before, es[|es| - 1]))
  }

  /** The claim was abandoned: the row is marked, nobody works on it, and there is no event. */
  ghost predicate Abandoned(s: State) {
    s.row.overdueNotified && !Pending(s) && s.events == 0
  }

  lemma NextKeepsNothingLost(s: State, e: Event)
    requires OneHolder(s) && NothingLost(s) && !(s.events == 0 && LeavesMark(s, e))
    ensures NothingLost(Next(s, e))
  {
    var t := Next(s, e);
    if e.Edit? && IsEdit(e.op) {
      EditsKeepTheMark(s.row, e.op);
    }
    if s.events == 0 && Marks(s, e) {
      assert Holds(t, e.scanner);
    } else if s.events == 0 && Pending(s) {
      var i: nat :| Holds(s, i);
      HoldersAfter(s, e, i);
      assert Holds(t, i) || t.events == 1 || !t.row.overdueNotified;
    } else {
      assert (e.Enqueue? || e.Release?) ==> s.events >= 1 || !Holds(s, e.scanner);
    }
  }

  lemma LeftMarkIsAbandoned(s: State, e: Event)
    requires OneHolder(s) && s.events == 0 && LeavesMark(s, e)
    ensures Abandoned(Next(s, e))
  {
    if !Marks(s, e) {
      assert Holds(s, e.scanner) && !Holds(Next(s, e), e.scanner);
    }
    forall j: nat ensures !Holds(Next(s, e), j) {
      HoldersAfter(s, e, j);
      assert Holds(s, j) ==> s.row.overdueNotified;
    }
  }

  /** An abandoned row stays so: no continuation ever enqueues its event. */
  lemma AbandonedStepStaysSilent(s: State, e: Event)
    requires Abandoned(s)
    ensures Abandoned(Next(s, e))
  {
    if e.Edit? && IsEdit(e.op) {
      EditsKeepTheMark(s.row, e.op);
    }
    assert (e.Enqueue? || e.Release?) ==> !Holds(s, e.scanner);
    forall i: nat ensures !Holds(Next(s, e), i) {
      HoldersAfter(s, e, i);
    }
  }

  lemma {:induction false} AbandonedClaimStaysSilent(s: State, es: seq<Event>)
    requires Abandoned(s)
    ensures Abandoned(After(s, es))
  {
    if es != [] {
      AbandonedClaimStaysSilent(s, es[..|es| - 1]);
      AbandonedStepStaysSilent(After(s, es[..|es| - 1]), es[|es| - 1]);
    }
  }

  /**
   * From a fresh row, in every run: the escalation is lost exactly when, before any event was enqueued, the holder of
   * the claim crashes, its release throws without taking effect, or a claim throws after taking effect. Then the row
   * is marked for good and no scanner will ever enqueue its event.
   */
  lemma {:induction false} EscalationLostExactlyWhen(s: State, es: seq<Event>)
    requires Fresh(s)
    ensures NothingLost(After(s, es)) <==> !Loses(s, es)
    ensures Loses(s, es) ==> Abandoned(After(s, es))
  {
    if es != [] {
      var most, e := es[..|es| - 1], es[|es| - 1];
      var before := After(s, most);
      EscalationLostExactlyWhen(s, most);
      AfterKeepsOneHolder(s, most);
      if Loses(s, most) {
        AbandonedStepStaysSilent(before, e);
      } else if before.events == 0 && LeavesMark(before, e) {
        LeftMarkIsAbandoned(before, e);
      } else {
        NextKeepsNothingLost(before, e);
      }
    }
  }
}
