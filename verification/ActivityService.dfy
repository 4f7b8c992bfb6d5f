/**
 * The service over the stored activities (activity/src/activity/activity.service.ts): every method is the row
 * transition of module Activity on the one row it addresses, or an error that changes nothing.
 */
module ActivityService {
  import opened Wrappers
  import opened Activity
  import ActivityOverdue

  datatype Row = Row(projectId: string, activity: Activity)

  /** The caller's rights on the row, as the visibility scope and the access gate decide them. */
  datatype Caller = Caller(sees: bool, mayMutate: bool)

  type Rows = map<string, Row>

  predicate Has(rows: Rows, projectId: string, id: string) {
    id in rows && rows[id].projectId == projectId
  }

  /** What a claim or a release can find: the empty project id and the empty activity id are refused beforehand. */
  predicate Finds(rows: Rows, projectId: string, id: string) {
    projectId != "" && id != "" && Has(rows, projectId, id)
  }

  /** The row a mutation starts from; `inTrash` for restoring. */
  function Fetched(rows: Rows, projectId: string, id: string, caller: Caller, inTrash: bool): Result<Activity, Error> {
    if projectId == "" then Err(Invalid)
    else if !Has(rows, projectId, id) || rows[id].activity.deleted != inTrash || !caller.sees then Err(NotFound)
    else if !caller.mayMutate then Err(Denied)
    else Ok(rows[id].activity)
  }

  /** Who gets past the gate, and how the others are refused: nobody learns of a row that is not theirs to see. */
  lemma GateExactly(rows: Rows, projectId: string, id: string, caller: Caller, inTrash: bool)
    ensures projectId == "" ==> Fetched(rows, projectId, id, caller, inTrash) == Err(Invalid)
    ensures projectId != "" ==>
              if id in rows && rows[id].projectId == projectId && rows[id].activity.deleted == inTrash && caller.sees
              then Fetched(rows, projectId, id, caller, inTrash) ==
                   if caller.mayMutate then Ok(rows[id].activity) else Err(Denied)
              else Fetched(rows, projectId, id, caller, inTrash) == Err(NotFound)
  {
  }

  /** What a mutation returns: the error of the gate, or that of the transition, or the new row. */
  function Outcome(fetched: Result<Activity, Error>, then_: Activity -> Result<Activity, Error>)
    : Result<Activity, Error>
  {
    if fetched.Err? then fetched else then_(fetched.value)
  }

  function Stored(rows: Rows, projectId: string, id: string, r: Result<Activity, Error>): Rows {
    if r.Ok? then rows[id := Row(projectId, r.value)] else rows
  }

  class ActivityStore {
    var rows: Rows
    /** The activities whose overdue event has been enqueued, in order. */
    var overdueEvents: seq<string>

    constructor ()
      ensures rows == map[] && overdueEvents == []
    {
      rows, overdueEvents := map[], [];
    }

    /** `id` is the fresh object id. */
    method Create(projectId: string, id: string, data: CreateData, now: int) returns (r: Result<Activity, Error>)
      requires id !in rows
      modifies this`rows
      ensures r == if projectId == "" then Err(Invalid) else Created(data, now)
      ensures rows == Stored(old(rows), projectId, id, r)
    {
      if projectId == "" || !data.hasAssignee {
        return Err(Invalid);
      }
      var due := data.due;
      if due.None? && (data.kind == Task || data.kind == Call) && !data.hasDueDate {
        due := Some(now + DAY);
      }
      var offset := if data.offset.Some? && data.offset.value != Empty then data.offset.value else NoOffset;
      var status := data.status.GetOr(Planned);
      if status == UnknownStatus || Terminal(status) || (data.direction && data.kind != Call)
          || (data.kind != Note && !data.hasTitle) {
        return Err(Invalid);
      }
      var profile := Profile(due, data.start, data.end, offset, data.direction, data.duration, data.location,
                             data.participants, data.priority);
      if !ProfileOk(data.kind, profile, true) {
        return Err(Invalid);
      }
      if data.kind == Note {
        due := None;
      }
      var rem := ReminderFor(offset, data.kind, due, data.start);
      if rem.Err? {
        return Err(rem.error);
      }
      var doc := Activity(data.kind, status, due, data.start, data.end, data.direction,
                          rem.value.offset, rem.value.fireAt, rem.value.state, false, false);
      rows := rows[id := Row(projectId, doc)];
      return Ok(doc);
    }

    method Update(projectId: string, id: string, data: UpdateData, caller: Caller) returns (r: Result<Activity, Error>)
      modifies this`rows
      ensures r == Outcome(Fetched(old(rows), projectId, id, caller, false), a => Updated(a, data))
      ensures rows == Stored(old(rows), projectId, id, r)
      ensures !caller.sees || !caller.mayMutate ==> r.Err? && rows == old(rows)
      ensures r.Err? ==> rows == old(rows)
      ensures r.Ok? ==> id in old(rows) && old(rows)[id].projectId == projectId && !old(rows)[id].activity.deleted &&
                        r == Updated(old(rows)[id].activity, data) && rows == old(rows)[id := Row(projectId, r.value)]
    {
      var fetched := Fetched(rows, projectId, id, caller, false);
      if fetched.Err? {
        return fetched;
      }
      var doc := fetched.value;
      var patch := BuildPatch(doc, data);
      if patch.Err? {
        return Err(patch.error);
      }
      rows := rows[id := Row(projectId, Patched(doc, patch.value))];
      return Ok(rows[id].activity);
    }

    /** Collects the `$set` field by field, in the order of the checks. */
    method BuildPatch(doc: Activity, data: UpdateData) returns (r: Result<Patch, Error>)
      ensures r == PatchFor(doc, data)
    {
      var kind := data.kind.GetOr(doc.kind);
      var u := Patch(None, None, data.start, data.end, None, None);
      if data.direction.Some? {
        if data.direction.value && kind != Call {
          return Err(Invalid);
        }
        u := u.(direction := data.direction);
      }
      if data.status.Some? {
        var next := data.status.value;
        if next == UnknownStatus {
          return Err(Invalid);
        }
        if next == Completed && doc.status != Completed {
          return Err(Precondition);
        }
        if Terminal(doc.status) && !Terminal(next) {
          return Err(Precondition);
        }
        u := u.(status := Some(next));
      }
      if data.assignee == Some("") {
        return Err(Invalid);
      }
      var nextDue := doc.due;
      if data.due.Some? {
        nextDue := data.due.value;
        u := u.(due := Some(nextDue));
      }
      var nextStart := data.start.GetOr(doc.start);
      var offset := data.offset.GetOr(doc.offset);
      var dueForKind := if kind == Note then None else nextDue;
      if data.due.Some? || data.offset.Some? || data.start.Some? {
        var rem := ReminderFor(offset, kind, dueForKind, nextStart);
        if rem.Err? {
          return Err(rem.error);
        }
        u := u.(reminder := Some(rem.value));
      }
      var profile := Profile(dueForKind, MergedDate(u.start, doc.start), MergedDate(u.end, doc.end), offset,
                             u.direction.GetOr(doc.direction), data.duration, data.location, data.participants,
                             data.priority);
      if !ProfileOk(kind, profile, false) {
        return Err(Invalid);
      }
      return Ok(u);
    }

    method Complete(projectId: string, id: string, caller: Caller) returns (r: Result<Activity, Error>)
      modifies this`rows
      ensures r == Outcome(Fetched(old(rows), projectId, id, caller, false), a => CompletedRow(a))
      ensures rows == Stored(old(rows), projectId, id, r)
      ensures !caller.sees || !caller.mayMutate ==> r.Err? && rows == old(rows)
      ensures r.Err? ==> rows == old(rows)
      ensures r.Ok? ==> id in old(rows) && old(rows)[id].projectId == projectId && !old(rows)[id].activity.deleted &&
                        r == CompletedRow(old(rows)[id].activity) && rows == old(rows)[id := Row(projectId, r.value)]
    {
      var fetched := Fetched(rows, projectId, id, caller, false);
      if fetched.Err? {
        return fetched;
      }
      var doc := fetched.value;
      if doc.status == Completed {
        assert rows == rows[id := Row(projectId, doc)];
        return Ok(doc);
      }
      if doc.status == Cancelled {
        return Err(Precondition);
      }
      rows := rows[id := Row(projectId, doc.(status := Completed, reminder := Dropped, fireAt := None))];
      return Ok(rows[id].activity);
    }

    method Remove(projectId: string, id: string, caller: Caller) returns (r: Result<Activity, Error>)
      modifies this`rows
      ensures r == Outcome(Fetched(old(rows), projectId, id, caller, false), a => Ok(RemovedRow(a)))
      ensures rows == Stored(old(rows), projectId, id, r)
      ensures !caller.sees || !caller.mayMutate ==> r.Err? && rows == old(rows)
      ensures r.Err? ==> rows == old(rows)
      ensures r.Ok? ==> id in old(rows) && old(rows)[id].projectId == projectId && !old(rows)[id].activity.deleted &&
                        r == Ok(RemovedRow(old(rows)[id].activity)) && rows == old(rows)[id := Row(projectId, r.value)]
    {
      var fetched := Fetched(rows, projectId, id, caller, false);
      if fetched.Err? {
        return fetched;
      }
      rows := rows[id := Row(projectId, fetched.value.(deleted := true, reminder := Dropped, fireAt := None))];
      return Ok(rows[id].activity);
    }

    method Restore(projectId: string, id: string, caller: Caller, now: int) returns (r: Result<Activity, Error>)
      modifies this`rows
      ensures r == Outcome(Fetched(old(rows), projectId, id, caller, true), a => Ok(RestoredRow(a, now)))
      ensures rows == Stored(old(rows), projectId, id, r)
      ensures !caller.sees || !caller.mayMutate ==> r.Err? && rows == old(rows)
      ensures r.Err? ==> rows == old(rows)
      ensures r.Ok? ==> id in old(rows) && old(rows)[id].projectId == projectId && old(rows)[id].activity.deleted &&
                        r == Ok(RestoredRow(old(rows)[id].activity, now)) &&
                        rows == old(rows)[id := Row(projectId, r.value)]
    {
      var fetched := Fetched(rows, projectId, id, caller, true);
      if fetched.Err? {
        return fetched;
      }
      var doc := fetched.value.(deleted := false);
      if doc.fireAt.Some? && doc.fireAt.value < now {
        doc := doc.(reminder := NotSet, fireAt := None);
      }
      rows := rows[id := Row(projectId, doc)];
      return Ok(doc);
    }

    /** Exactly one of any competing claims of a scheduled reminder succeeds: the first one moves it to fired. */
    method ClaimReminderFire(projectId: string, id: string, fireAt: int) returns (claimed: Option<Activity>)
      modifies this`rows
      ensures claimed.Some? <==> Finds(old(rows), projectId, id) && ClaimsReminder(old(rows)[id].activity, fireAt)
      ensures claimed.Some? ==>
              claimed.value == Step(old(rows)[id].activity, ClaimReminder(fireAt))
              && !ClaimsReminder(claimed.value, fireAt)
      ensures projectId == "" || id == "" || id !in old(rows) || old(rows)[id].projectId != projectId ==> claimed.None?
      ensures rows == if claimed.Some? then old(rows)[id := Row(projectId, claimed.value)] else old(rows)
    {
      if projectId == "" || id == "" || fireAt <= 0 || !Has(rows, projectId, id) {
        return None;
      }
      var doc := rows[id].activity;
      if doc.deleted || Terminal(doc.status) || doc.reminder != Scheduled || doc.fireAt != Some(fireAt) {
        return None;
      }
      rows := rows[id := Row(projectId, doc.(reminder := Fired))];
      return Some(rows[id].activity);
    }

    method ReleaseReminderFire(projectId: string, id: string, fireAt: int)
      modifies this`rows
      ensures projectId == "" || id == "" ==> rows == old(rows)
      ensures rows == if Finds(old(rows), projectId, id)
                      then old(rows)[id := Row(projectId, Step(old(rows)[id].activity, ReleaseReminder(fireAt)))]
                          else old(rows)
    {
      if projectId == "" || id == "" {
        return;
      }
      if Has(rows, projectId, id) && rows[id].activity.reminder == Fired && rows[id].activity.fireAt == Some(fireAt) {
        rows := rows[id := Row(projectId, rows[id].activity.(reminder := Scheduled))];
      } else if Has(rows, projectId, id) {
        assert rows == rows[id := Row(projectId, rows[id].activity)];
      }
    }

    method ClaimOverdueNotification(projectId: string, id: string, now: int) returns (claimed: bool)
      modifies this`rows
      ensures claimed <==> Finds(old(rows), projectId, id) && ClaimsOverdue(old(rows)[id].activity, now)
      ensures projectId == "" || id == "" || id !in old(rows) || old(rows)[id].projectId != projectId ==> !claimed
      ensures rows == if claimed then old(rows)[id := Row(projectId, Step(old(rows)[id].activity, ClaimOverdue(now)))]
              else old(rows)
    {
      if projectId == "" || id == "" || !Has(rows, projectId, id) {
        return false;
      }
      var doc := rows[id].activity;
      if doc.deleted || Terminal(doc.status) || doc.due.None? || !(0 < doc.due.value < now) || doc.overdueNotified {
        return false;
      }
      rows := rows[id := Row(projectId, doc.(overdueNotified := true))];
      return true;
    }

    method ReleaseOverdueNotification(projectId: string, id: string)
      modifies this`rows
      ensures projectId == "" || id == "" ==> rows == old(rows)
      ensures rows == if Finds(old(rows), projectId, id)
                      then old(rows)[id := Row(projectId, Step(old(rows)[id].activity, ReleaseOverdue))] else old(rows)
    {
      if projectId != "" && id != "" && Has(rows, projectId, id) {
        rows := rows[id := Row(projectId, rows[id].activity.(overdueNotified := false))];
      }
    }

    /** `claim`, `enqueue` and `release` are how the three calls end; an error of the outbox is passed on. */
    method PublishOverdueEvent(projectId: string, id: string, now: int, claim: Call, enqueue: Call, release: Call)
      returns (r: Result<bool, ()>)
      modifies this`rows, this`overdueEvents
      ensures Finds(old(rows), projectId, id) ==>
                var a := ActivityOverdue.Publish(old(rows)[id].activity, now, claim, enqueue, release);
                && r == a.reply
                && rows == old(rows)[id := Row(projectId, a.row)]
                && overdueEvents == if a.events == 1 then old(overdueEvents) + [id] else old(overdueEvents)
      ensures !Finds(old(rows), projectId, id) ==>
                && rows == old(rows) && overdueEvents == old(overdueEvents)
                && r == if projectId != "" && id != "" && claim.Broke? then Err(()) else Ok(false)
    {
      if projectId == "" || id == "" {
        return Ok(false);
      }
      var claimed := false;
      if claim.TookEffect() {
        claimed := ClaimOverdueNotification(projectId, id, now);
      }
      if claim.Broke? {
        return Err(());
      }
      if !claimed {
        return Ok(false);
      }
      if enqueue.TookEffect() {
        overdueEvents := overdueEvents + [id];
      }
      if enqueue.Fine? {
        return Ok(true);
      }
      if release.TookEffect() {
        ReleaseOverdueNotification(projectId, id);
      }
      return Err(());
    }
  }
}
