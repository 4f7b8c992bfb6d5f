/** The activity state machine (activity/src/activity/activity.service.ts): reminders and their claims. */
module Activity {
  import opened Wrappers

  datatype Kind = Task | Call | Meeting | Note | UnknownKind

  datatype Status = Planned | InProgress | Completed | Cancelled | UnknownStatus

  /** `Empty` is the empty string, which an update stores as it is. */
  datatype Offset = NoOffset | Empty | AtTime | Minutes15 | Hour1 | Day1 | UnknownOffset

  datatype ReminderState = NotSet | Scheduled | Fired | Dropped

  datatype Error = NotFound | Denied | Invalid | Precondition

  /** Times are epoch milliseconds; `direction` says whether one is stored. */
  datatype Activity = Activity(
    kind: Kind, status: Status, due: Option<int>, start: Option<int>, end: Option<int>, direction: bool,
    offset: Offset, fireAt: Option<int>, reminder: ReminderState, deleted: bool, overdueNotified: bool)

  const DAY := 86400000

  predicate Terminal(s: Status) {
    s == Completed || s == Cancelled
  }

  predicate Off(o: Offset) {
    o == NoOffset || o == Empty
  }

  function OffsetMs(o: Offset): int {
    match o
    case Minutes15 => 15 * 60000
    case Hour1 => 60 * 60000
    case Day1 => DAY
    case _ => 0
  }

  // ---------------------------------------------------------------- reminders

  datatype Reminder = Reminder(offset: Offset, fireAt: Option<int>, state: ReminderState)

  function Anchor(kind: Kind, due: Option<int>, start: Option<int>): Option<int> {
    match kind
    case Note => None
    case Meeting => start
    case _ => due
  }

  function ReminderFor(offset: Offset, kind: Kind, due: Option<int>, start: Option<int>): Result<Reminder, Error> {
    if Off(offset) then Ok(Reminder(offset, None, NotSet))
    else if Anchor(kind, due, start).None? then Err(Invalid)
    else Ok(Reminder(offset, Some(Anchor(kind, due, start).value - OffsetMs(offset)), Scheduled))
  }

  /** A scheduled or fired reminder has an offset and fires that long before the anchor of the activity's own type. */
  predicate ReminderOk(a: Activity) {
    if a.reminder == Scheduled || a.reminder == Fired then
      !Off(a.offset) && Anchor(a.kind, a.due, a.start).Some?
          && a.fireAt == Some(Anchor(a.kind, a.due, a.start).value - OffsetMs(a.offset))
    else a.fireAt == None
  }

  // ---------------------------------------------------------------- type profiles

  /** The fields the profile looks at; the last four say whether a non-blank value came in. */
  datatype Profile = Profile(
    due: Option<int>, start: Option<int>, end: Option<int>, offset: Offset, direction: bool,
    duration: bool, location: bool, participants: bool, priority: bool)

  predicate ProfileOk(kind: Kind, p: Profile, isCreate: bool) {
    && kind != UnknownKind
    && (kind == Note ==> p.due.None? && Off(p.offset))
    && (if kind == Call then isCreate ==> p.direction else !p.direction)
    && (kind == Meeting && isCreate ==> p.start.Some? && p.end.Some?)
    && (p.start.Some? && p.end.Some? ==> p.start.value <= p.end.value)
    && p.offset != UnknownOffset
    && (kind == Task ==> !p.duration && !p.location && !p.participants)
    && (kind == Call ==> !p.location && !p.participants && !p.priority)
    && (kind == Meeting ==> !p.priority)
  }

  // ---------------------------------------------------------------- create

  datatype CreateData = CreateData(
    kind: Kind, hasAssignee: bool, hasTitle: bool, status: Option<Status>, hasDueDate: bool, due: Option<int>,
    start: Option<int>, end: Option<int>, offset: Option<Offset>, direction: bool,
    duration: bool, location: bool, participants: bool, priority: bool)

  /** Tasks and calls without any word about a due date are due in a day. */
  function DueOnCreate(d: CreateData, now: int): Option<int> {
    if d.due.None? && (d.kind == Task || d.kind == Call) && !d.hasDueDate then Some(now + DAY) else d.due
  }

  function OffsetOnCreate(d: CreateData): Offset {
    if d.offset.None? || d.offset == Some(Empty) then NoOffset else d.offset.value
  }

  function Created(d: CreateData, now: int): Result<Activity, Error> {
    var due, offset, status := DueOnCreate(d, now), OffsetOnCreate(d), d.status.GetOr(Planned);
    var profile := Profile(due, d.start, d.end, offset, d.direction, d.duration, d.location, d.participants,
                           d.priority);
    if !d.hasAssignee || status == UnknownStatus || Terminal(status) || (d.direction && d.kind != Call)
       || (d.kind != Note && !d.hasTitle) || !ProfileOk(d.kind, profile, true) then Err(Invalid)
    else
      var rem := ReminderFor(offset, d.kind, if d.kind == Note then None else due, d.start);
      if rem.Err? then Err(rem.error)
      else
        Ok(Activity(d.kind, status, if d.kind == Note then None else due, d.start, d.end, d.direction,
                    rem.value.offset, rem.value.fireAt, rem.value.state, false, false))
  }

  /** A new activity is live and open, its reminder is in step, and a task or call without a due date was asked for. */
  lemma CreatedIsSound(d: CreateData, now: int)
    requires Created(d, now).Ok?
    ensures var a := Created(d, now).value;
            && ReminderOk(a) && a.reminder != Fired && !a.deleted && !a.overdueNotified && !Terminal(a.status)
            && (a.reminder == Scheduled <==> !Off(a.offset)) && a.kind != UnknownKind
            && (a.due.None? ==> a.kind == Note || a.kind == Meeting || d.hasDueDate)
  {
  }

  /** When reminders fire: at the anchor, or a quarter of an hour, an hour or a day before it, in milliseconds. */
  lemma FireTimes(kind: Kind, due: Option<int>, start: Option<int>, at: int)
    requires kind != Note && at == (if kind == Meeting then start.GetOr(0) else due.GetOr(0))
    requires if kind == Meeting then start.Some? else due.Some?
    ensures ReminderFor(AtTime, kind, due, start) == Ok(Reminder(AtTime, Some(at), Scheduled))
    ensures ReminderFor(Minutes15, kind, due, start) == Ok(Reminder(Minutes15, Some(at - 900_000), Scheduled))
    ensures ReminderFor(Hour1, kind, due, start) == Ok(Reminder(Hour1, Some(at - 3_600_000), Scheduled))
    ensures ReminderFor(Day1, kind, due, start) == Ok(Reminder(Day1, Some(at - 86_400_000), Scheduled))
  {
  }

  /** Without an offset nothing is scheduled; an offset without its date is refused, and so is one on a note. */
  lemma NoFireTime(kind: Kind, due: Option<int>, start: Option<int>, offset: Offset)
    ensures offset == NoOffset || offset == Empty ==>
              ReminderFor(offset, kind, due, start) == Ok(Reminder(offset, None, NotSet))
    ensures offset != NoOffset && offset != Empty &&
            (kind == Note || (kind == Meeting && start.None?) || (kind != Meeting && due.None?)) ==>
              ReminderFor(offset, kind, due, start) == Err(Invalid)
  {
  }

  /** What is accepted, type by type, and what is stored of it. */
  lemma CreatedExactlyWhen(d: CreateData, now: int)
    ensures var reminds := d.offset.Some? && d.offset.value != NoOffset && d.offset.value != Empty;
            var dated := d.due.Some? || !d.hasDueDate;
            Created(d, now).Ok? <==>
            && d.hasAssignee && d.status in {None, Some(Planned), Some(InProgress)} && d.offset != Some(UnknownOffset)
            && (d.start.Some? && d.end.Some? ==> d.start.value <= d.end.value)
            && match d.kind
               case Task => d.hasTitle && !d.direction && !d.duration && !d.location && !d.participants
                            && (reminds ==> dated)
               case Call => d.hasTitle && d.direction && !d.location && !d.participants && !d.priority
                            && (reminds ==> dated)
               case Meeting => d.hasTitle && !d.direction && !d.priority && d.start.Some? && d.end.Some?
               case Note => !d.direction && d.due.None? && !reminds
               case UnknownKind => false
    ensures Created(d, now).Err? ==> Created(d, now) == Err(Invalid)
    ensures Created(d, now).Ok? ==>
              var a := Created(d, now).value;
              && a.kind == d.kind && a.status == d.status.GetOr(Planned) && a.start == d.start && a.end == d.end
              && a.direction == d.direction
              && a.offset == (if d.offset in {None, Some(Empty)} then NoOffset else d.offset.value)
              && a.due == (if d.due.Some? || d.hasDueDate || d.kind == Meeting || d.kind == Note then d.due
                           else Some(now + 86_400_000))
  {
  }

  // ---------------------------------------------------------------- update

  /** A field of the request: absent, or given (possibly as null). */
  datatype UpdateData = UpdateData(
    kind: Option<Kind>, status: Option<Status>, due: Option<Option<int>>, start: Option<Option<int>>,
    end: Option<Option<int>>,
    offset: Option<Offset>, direction: Option<bool>, assignee: Option<string>,
    duration: bool, location: bool, participants: bool, priority: bool)

  /** The `$set` an update writes. */
  datatype Patch = Patch(
    status: Option<Status>, due: Option<Option<int>>, start: Option<Option<int>>, end: Option<Option<int>>,
    direction: Option<bool>, reminder: Option<Reminder>)

  predicate TouchesReminder(d: UpdateData) {
    d.due.Some? || d.offset.Some? || d.start.Some?
  }

  /** The type the rules are applied for; it is not stored. */
  function EffectiveKind(a: Activity, d: UpdateData): Kind {
    d.kind.GetOr(a.kind)
  }

  function EffectiveOffset(a: Activity, d: UpdateData): Offset {
    d.offset.GetOr(a.offset)
  }

  /** Completion goes through `complete`, and nothing leaves a terminal status for an open one. */
  function StatusProblem(cur: Status, next: Option<Status>): Option<Error> {
    if next.None? then None
    else if next.value == UnknownStatus then Some(Invalid)
    else if next.value == Completed && cur != Completed then Some(Precondition)
    else if Terminal(cur) && !Terminal(next.value) then Some(Precondition)
    else None
  }

  /** A date given as null falls back to the stored one here, as `??` does. */
  function MergedDate(given: Option<Option<int>>, stored: Option<int>): Option<int> {
    if given.Some? && given.value.Some? then given.value else stored
  }

  function ReminderPatch(a: Activity, d: UpdateData): Result<Option<Reminder>, Error> {
    var kind, due := EffectiveKind(a, d), d.due.GetOr(a.due);
    if !TouchesReminder(d) then Ok(None)
    else
      var rem := ReminderFor(EffectiveOffset(a, d), kind, if kind == Note then None else due, d.start.GetOr(a.start));
      if rem.Err? then Err(rem.error) else Ok(Some(rem.value))
  }

  /** What an update computes from the row it has read. */
  function PatchFor(a: Activity, d: UpdateData): Result<Patch, Error> {
    var kind, due := EffectiveKind(a, d), d.due.GetOr(a.due);
    var profile := Profile(if kind == Note then None else due, MergedDate(d.start, a.start), MergedDate(d.end, a.end),
                           EffectiveOffset(a, d), d.direction.GetOr(a.direction), d.duration, d.location,
                           d.participants, d.priority);
    var rem := ReminderPatch(a, d);
    if d.direction == Some(true) && kind != Call then Err(Invalid)
    else if StatusProblem(a.status, d.status).Some? then Err(StatusProblem(a.status, d.status).value)
    else if d.assignee == Some("") then Err(Invalid)
    else if rem.Err? then Err(rem.error)
    else if !ProfileOk(kind, profile, false) then Err(Invalid)
    else Ok(Patch(d.status, d.due, d.start, d.end, d.direction, rem.value))
  }

  function Patched(a: Activity, p: Patch): Activity {
    var b := a.(status := p.status.GetOr(a.status), due := p.due.GetOr(a.due), start := p.start.GetOr(a.start),
                end := p.end.GetOr(a.end), direction := p.direction.GetOr(a.direction));
    if p.reminder.None? then b
    else b.(offset := p.reminder.value.offset, fireAt := p.reminder.value.fireAt, reminder := p.reminder.value.state)
  }

  function Updated(a: Activity, d: UpdateData): Result<Activity, Error> {
    var p := PatchFor(a, d);
    if p.Err? then Err(p.error) else Ok(Patched(a, p.value))
  }

  /** The statuses an update may set, by the present one. */
  lemma StatusMoves(a: Activity, next: Status)
    ensures var d := UpdateData(None, Some(next), None, None, None, None, None, None, false, false, false, false);
            StatusProblem(a.status, d.status).None? <==>
            match a.status
            case Completed => next in {Completed, Cancelled}
            case Cancelled => next == Cancelled
            case _ => next in {Planned, InProgress, Cancelled}
  {
  }

  /** An update sets the fields it is given and no others, and schedules anew when it brings a date or an offset. */
  lemma UpdateSetsExactly(a: Activity, d: UpdateData)
    requires Updated(a, d).Ok?
    ensures var b := Updated(a, d).value;
            && b.kind == a.kind && b.deleted == a.deleted && b.overdueNotified == a.overdueNotified
            && b.status == (if d.status.Some? then d.status.value else a.status)
            && b.due == (if d.due.Some? then d.due.value else a.due)
            && b.start == (if d.start.Some? then d.start.value else a.start)
            && b.end == (if d.end.Some? then d.end.value else a.end)
            && b.direction == (if d.direction.Some? then d.direction.value else a.direction)
            && (d.due.None? && d.start.None? && d.offset.None? ==>
                  b.offset == a.offset && b.fireAt == a.fireAt && b.reminder == a.reminder)
            && (d.due.Some? || d.start.Some? || d.offset.Some? ==>
                  && b.offset == (if d.offset.Some? then d.offset.value else a.offset)
                  && (b.reminder == Scheduled <==> b.offset != NoOffset && b.offset != Empty)
                  && (b.reminder == Scheduled || b.reminder == NotSet))
  {
  }

  /** Which updates of an open activity under its own type are accepted. */
  lemma UpdatedExactlyWhen(a: Activity, d: UpdateData)
    requires d.kind.None? && !Terminal(a.status)
    ensures var due, start, end := d.due.GetOr(a.due), d.start.GetOr(a.start), d.end.GetOr(a.end);
            var from := if d.start in {None, Some(None)} then a.start else start;
            var till := if d.end in {None, Some(None)} then a.end else end;
            var offset := d.offset.GetOr(a.offset);
            var reminds := offset != NoOffset && offset != Empty;
            var direction := d.direction.GetOr(a.direction);
            Updated(a, d).Ok? <==>
            && d.status in {None, Some(Planned), Some(InProgress), Some(Cancelled)} && d.assignee != Some("")
            && offset != UnknownOffset && (from.Some? && till.Some? ==> from.value <= till.value)
            && (reminds && (d.due.Some? || d.start.Some? || d.offset.Some?) ==>
                  if a.kind == Meeting then start.Some? else due.Some?)
            && match a.kind
               case Task => !direction && !d.duration && !d.location && !d.participants
               case Call => !d.location && !d.participants && !d.priority
               case Meeting => !direction && !d.priority
               case Note => !direction && !reminds
               case UnknownKind => false
  {
  }

  /** How updates are refused: a status that may not be set is a failed precondition, all else is invalid. */
  lemma UpdateRefusedAs(a: Activity, d: UpdateData)
    requires Updated(a, d).Err?
    ensures var callsOnly := d.direction == Some(true) && d.kind.GetOr(a.kind) != Call;
            var closes := d.status == Some(Completed) && a.status != Completed;
            var reopens := Terminal(a.status) && d.status.Some? && !Terminal(d.status.value)
                           && d.status.value != UnknownStatus;
            Updated(a, d) == Err(if !callsOnly && (closes || reopens) then Precondition else Invalid)
  {
  }

  predicate SameAnchorField(k: Kind, l: Kind) {
    (k == Meeting) == (l == Meeting)
  }

  /**
   * When an update leaves the reminder in step with the stored type: unless it reschedules under a foreign type
   * whose anchor is another date, or reschedules a note.
   */
  predicate ReschedulesInStep(a: Activity, d: UpdateData) {
    || !TouchesReminder(d) || Off(EffectiveOffset(a, d))
    || (a.kind != Note
        && (SameAnchorField(EffectiveKind(a, d), a.kind) || d.due.GetOr(a.due) == d.start.GetOr(a.start)))
  }

  lemma UpdateKeepsReminderExactlyWhen(a: Activity, d: UpdateData)
    requires ReminderOk(a) && Updated(a, d).Ok?
    ensures ReminderOk(Updated(a, d).value) <==> ReschedulesInStep(a, d)
  {
  }

  /**
   * The failing family has members: a task updated "as a meeting" fires by its start date. The branch is latent: the
   * update request of the gRPC interface (proto/fairflow/activity/v1/activity.proto:161-185) carries no type.
   */
  lemma ForeignTypeMisplacesReminder()
    ensures exists a, d :: ReminderOk(a) && Updated(a, d).Ok? && !ReminderOk(Updated(a, d).value)
  {
    var a := Activity(Task, Planned, Some(5 * DAY), Some(3 * DAY), None, false, NoOffset, None, NotSet, false, false);
    var d := UpdateData(Some(Meeting), None, None, None, None, Some(Day1), None, None, false, false, false, false);
    assert PatchFor(a, d) == Ok(Patch(None, None, None, None, None, Some(Reminder(Day1, Some(2 * DAY), Scheduled))));
    assert ReminderOk(a) && Updated(a, d).Ok? && !ReminderOk(Updated(a, d).value);
  }

  // ---------------------------------------------------------------- the other operations on one row

  function CompletedRow(a: Activity): Result<Activity, Error> {
    if a.status == Completed then Ok(a)
    else if a.status == Cancelled then Err(Precondition)
    else Ok(a.(status := Completed, reminder := Dropped, fireAt := None))
  }

  function RemovedRow(a: Activity): Activity {
    a.(deleted := true, reminder := Dropped, fireAt := None)
  }

  function RestoredRow(a: Activity, now: int): Activity {
    var b := a.(deleted := false);
    if a.fireAt.Some? && a.fireAt.value < now then b.(reminder := NotSet, fireAt := None) else b
  }

  predicate ClaimsReminder(a: Activity, fireAt: int) {
    fireAt > 0 && !a.deleted && !Terminal(a.status) && a.reminder == Scheduled && a.fireAt == Some(fireAt)
  }

  predicate ReleasesReminder(a: Activity, fireAt: int) {
    a.reminder == Fired && a.fireAt == Some(fireAt)
  }

  predicate ClaimsOverdue(a: Activity, now: int) {
    !a.deleted && !Terminal(a.status) && a.due.Some? && 0 < a.due.value < now && !a.overdueNotified
  }

  /** Completing, removing and restoring: what each changes, and that it changes nothing else. */
  lemma OtherMutations(a: Activity, now: int)
    ensures a.status == Cancelled ==> CompletedRow(a) == Err(Precondition)
    ensures a.status == Completed ==> CompletedRow(a) == Ok(a)
    ensures a.status != Completed && a.status != Cancelled ==>
              CompletedRow(a) == Ok(Activity(a.kind, Completed, a.due, a.start, a.end, a.direction, a.offset, None,
                                             Dropped, a.deleted, a.overdueNotified))
    ensures RemovedRow(a) == Activity(a.kind, a.status, a.due, a.start, a.end, a.direction, a.offset, None, Dropped,
                                      true, a.overdueNotified)
    ensures var lapsed := a.fireAt.Some? && a.fireAt.value < now;
            RestoredRow(a, now) == Activity(a.kind, a.status, a.due, a.start, a.end, a.direction, a.offset,
                                            if lapsed then None else a.fireAt, if lapsed then NotSet else a.reminder,
                                            false, a.overdueNotified)
  {
  }

  // ---------------------------------------------------------------- runs of one activity

  datatype Op =
    | Update(data: UpdateData) | Complete | Remove | Restore(now: int)
    | ClaimReminder(fireAt: int) | ReleaseReminder(fireAt: int)
    | ClaimOverdue(now: int) | ReleaseOverdue

  /** One call; a rejected one changes nothing. Updates, completion and removal reach live rows only. */
  function Step(a: Activity, op: Op): Activity {
    match op
    case Update(d) => if !a.deleted && Updated(a, d).Ok? then Updated(a, d).value else a
    case Complete => if !a.deleted && CompletedRow(a).Ok? then CompletedRow(a).value else a
    case Remove => if !a.deleted then RemovedRow(a) else a
    case Restore(now) => if a.deleted then RestoredRow(a, now) else a
    case ClaimReminder(f) => if ClaimsReminder(a, f) then a.(reminder := Fired) else a
    case ReleaseReminder(f) => if ReleasesReminder(a, f) then a.(reminder := Scheduled) else a
    case ClaimOverdue(now) => if ClaimsOverdue(a, now) then a.(overdueNotified := true) else a
    case ReleaseOverdue => a.(overdueNotified := false)
  }

  /** Rows in the trash can only be restored, and only they can. */
  lemma TrashIsOutOfReach(a: Activity, d: UpdateData, now: int)
    ensures a.deleted ==> Step(a, Update(d)) == a && Step(a, Complete) == a && Step(a, Remove) == a
    ensures a.deleted ==> Step(a, Restore(now)) == RestoredRow(a, now) && !Step(a, Restore(now)).deleted
    ensures !a.deleted ==> Step(a, Restore(now)) == a && Step(a, Remove).deleted
    ensures !a.deleted && Updated(a, d).Ok? ==> Step(a, Update(d)) == Updated(a, d).value
    ensures !a.deleted && CompletedRow(a).Ok? ==> Step(a, Complete) == CompletedRow(a).value
  {
  }

  /** Updates name no other type than the stored one. */
  predicate KeepsType(kind: Kind, op: Op) {
    op.Update? ==> op.data.kind.None? || op.data.kind.value == kind
  }

  lemma StepKeepsReminder(a: Activity, op: Op)
    requires ReminderOk(a) && KeepsType(a.kind, op)
    ensures ReminderOk(Step(a, op)) && Step(a, op).kind == a.kind
  {
    if op.Update? && Updated(a, op.data).Ok? {
      UpdateKeepsReminderExactlyWhen(a, op.data);
      if a.kind == Note {
        NoteNeverSchedules(a, op.data);
      }
    }
  }

  lemma NoteNeverSchedules(a: Activity, d: UpdateData)
    requires EffectiveKind(a, d) == Note && Updated(a, d).Ok?
    ensures Off(EffectiveOffset(a, d))
  {
  }

  function Run(a: Activity, ops: seq<Op>): Activity {
    if ops == [] then a else Step(Run(a, ops[..|ops| - 1]), ops[|ops| - 1])
  }

  /**
   * In every state an activity can reach with its type left alone, the reminder is in step with its anchor. Mutations
   * are atomic here; module ActivityRaces lets others write between their read and their write.
   */
  lemma {:induction false} ReminderAlwaysInStep(d: CreateData, now: int, ops: seq<Op>)
    requires Created(d, now).Ok? && forall i :: 0 <= i < |ops| ==> KeepsType(d.kind, ops[i])
    ensures ReminderOk(Run(Created(d, now).value, ops)) && Run(Created(d, now).value, ops).kind == d.kind
  {
    CreatedIsSound(d, now);
    if ops != [] {
      var before := ops[..|ops| - 1];
      ReminderAlwaysInStep(d, now, before);
      StepKeepsReminder(Run(Created(d, now).value, before), ops[|ops| - 1]);
    }
  }

  /**
   * What is closed stays closed: no run of atomic mutations brings a completed or cancelled activity back to an open
   * status. Module ActivityRaces says exactly when that holds for mutations that read first and write later.
   */
  lemma {:induction false} TerminalForGood(a: Activity, ops: seq<Op>)
    requires Terminal(a.status)
    ensures Terminal(Run(a, ops).status)
  {
    if ops != [] {
      TerminalForGood(a, ops[..|ops| - 1]);
    }
  }

  /** A reminder that was claimed and given back can be claimed again exactly while its row is live and open. */
  lemma ReleasedReminderIsClaimableAgain(a: Activity, fireAt: int)
    requires a.reminder == Fired && a.fireAt == Some(fireAt)
    ensures var b := Step(a, ReleaseReminder(fireAt));
            && b == a.(reminder := Scheduled)
            && (ClaimsReminder(b, fireAt) <==>
                 fireAt > 0 && !a.deleted && a.status != Completed && a.status != Cancelled)
            && (ClaimsReminder(b, fireAt) ==> Step(b, ClaimReminder(fireAt)) == a)
            && forall other :: other != fireAt ==>
                                 Step(b, ClaimReminder(other)) == b && Step(a, ReleaseReminder(other)) == a
  {
  }

  // ---------------------------------------------------------------- claims and releases

  /** Whether a call, made in state `a`, fires the reminder, gives the claim back, or schedules anew. */
  predicate IsClaim(a: Activity, op: Op) {
    op.ClaimReminder? && ClaimsReminder(a, op.fireAt)
  }

  predicate IsRelease(a: Activity, op: Op) {
    op.ReleaseReminder? && ReleasesReminder(a, op.fireAt)
  }

  predicate IsReschedule(a: Activity, op: Op) {
    op.Update? && !a.deleted && Updated(a, op.data).Ok? && TouchesReminder(op.data)
  }

  function Claims(a: Activity, ops: seq<Op>): nat {
    if ops == [] then 0
    else
      var before := ops[..|ops| - 1];
      Claims(a, before) + if IsClaim(Run(a, before), ops[|ops| - 1]) then 1 else 0
  }

  function Releases(a: Activity, ops: seq<Op>): nat {
    if ops == [] then 0
    else
      var before := ops[..|ops| - 1];
      Releases(a, before) + if IsRelease(Run(a, before), ops[|ops| - 1]) then 1 else 0
  }

  predicate NoReschedule(a: Activity, ops: seq<Op>) {
    ops == [] || (NoReschedule(a, ops[..|ops| - 1]) && !IsReschedule(Run(a, ops[..|ops| - 1]), ops[|ops| - 1]))
  }

  lemma StepBalance(a: Activity, op: Op)
    requires !IsReschedule(a, op)
    ensures IsClaim(a, op) ==> a.reminder == Scheduled && Step(a, op).reminder == Fired && !IsRelease(a, op)
    ensures IsRelease(a, op) ==> a.reminder == Fired && Step(a, op).reminder == Scheduled
    ensures !IsClaim(a, op) && !IsRelease(a, op) ==>
              Step(a, op).reminder == a.reminder || Step(a, op).reminder == NotSet || Step(a, op).reminder == Dropped
  {
  }

  /**
   * Between two reschedulings the reminder is delivered at most once more than deliveries are given back: claims
   * and releases alternate, whoever makes them and whatever else happens to the row.
   */
  lemma {:induction false} ClaimsExceedReleasesByAtMostOne(a: Activity, ops: seq<Op>)
    requires a.reminder != Fired && NoReschedule(a, ops)
    ensures Releases(a, ops) <= Claims(a, ops) <= Releases(a, ops) + 1
    ensures Run(a, ops).reminder == Scheduled ==> Claims(a, ops) == Releases(a, ops)
    ensures Run(a, ops).reminder == Fired ==> Claims(a, ops) == Releases(a, ops) + 1
  {
    if ops != [] {
      var before := ops[..|ops| - 1];
      ClaimsExceedReleasesByAtMostOne(a, before);
      StepBalance(Run(a, before), ops[|ops| - 1]);
    }
  }
}
