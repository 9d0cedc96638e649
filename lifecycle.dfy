/**
 * The application as a state machine over `AppState`: the commands a user
 * can issue, which of them the interface offers in a given state (the
 * render-time guards of App.tsx), the invariant the offered commands keep,
 * and the life cycle of a service order's status that follows from them.
 */
module Lifecycle {
  import opened Base
  import opened Domain
  import opened Calendar
  import opened Transitions

  /** One user action, with the inputs its handler reads. */
  datatype Command =
    | SignIn(email: string, password: string)
    | SignUp(form: AuthForm, freshId: string)
    | AddStaff(form: AuthForm, freshId: string)
    | RemoveStaff(userId: string)
    | SignOut
    | NewOS(order: ScheduleForm, freshId: string)
    | Accept(scheduleId: string)
    | Finish(selection: Option<string>, workDone: string, amount: Option<real>, today: CalendarDate)
    | Postpone(selection: Option<string>, date: string, time: string)
    | Delegate(selection: Option<string>, newTechId: string, reason: string, now: Clock)

  /** The handler a command runs. */
  function Step(s: AppState, cmd: Command): Result<AppState, AppError>
  {
    match cmd
    case SignIn(email, password) => Login(s, email, password)
    case SignUp(form, id) => Register(s, form, id)
    case AddStaff(form, id) => AddMember(s, form, id)
    case RemoveStaff(id) => Ok(DeleteMember(s, id))
    case SignOut => Ok(Logout(s))
    case NewOS(form, id) => Ok(CreateOrder(s, form, id))
    case Accept(id) => Ok(UpdateStatus(s, id, ACCEPTED))
    case Finish(sel, work, amount, today) => Conclude(s, sel, work, amount, today)
    case Postpone(sel, date, time) => Reschedule(s, sel, date, time)
    case Delegate(sel, tech, reason, now) => Transfer(s, sel, tech, reason, now)
  }

  /** The state after the command: the handler's new state, or the old one when it returned early. */
  function Next(s: AppState, cmd: Command): (t: AppState)
    ensures Step(s, cmd).Err? ==> t == s
  {
    match Step(s, cmd)
    case Ok(t) => t
    case Err(_) => s
  }

  // ---------------------------------------------------------------------
  // What the interface offers

  /** The signed-in technician sees, in their list, an order with this id and status. */
  predicate OwnOrderWith(s: AppState, id: string, status: ScheduleStatus)
  {
    s.currentUser.Some? &&
    exists i :: 0 <= i < |s.schedules| && s.schedules[i].id == id &&
      s.schedules[i].technicianId == s.currentUser.value.id && s.schedules[i].status == status
  }

  /**
   * The command can be issued from what is on the screen. Sign-in and sign-up
   * are shown only when nobody is signed in (App.tsx:278); the staff list and
   * its forms only to an administrator, without a remove button on the seed
   * administrator (App.tsx:454, 468); "Nova OS" to everyone but technicians,
   * with the technician picked among technicians (App.tsx:383, 538); Accept
   * and Transfer on a technician's own PENDING orders (App.tsx:422-427), the
   * transfer target among the other technicians (App.tsx:508); Conclude and
   * Reschedule on their own ACCEPTED orders (App.tsx:429-434).
   */
  predicate Offered(s: AppState, cmd: Command)
  {
    match cmd
    case SignIn(_, _) => s.currentUser.None?
    case SignUp(_, _) => s.currentUser.None?
    case AddStaff(_, _) => SignedInAs(s, ADMIN)
    case RemoveStaff(id) => SignedInAs(s, ADMIN) && id != SeedAdminId && HasUserId(s.users, id)
    case SignOut => s.currentUser.Some?
    case NewOS(form, _) =>
      s.currentUser.Some? && s.currentUser.value.role != TECHNICIAN && IsTechnicianId(s.users, form.technicianId)
    case Accept(id) => SignedInAs(s, TECHNICIAN) && OwnOrderWith(s, id, PENDING)
    case Finish(sel, _, _, _) => SignedInAs(s, TECHNICIAN) && sel.Some? && OwnOrderWith(s, sel.value, ACCEPTED)
    case Postpone(sel, _, _) => SignedInAs(s, TECHNICIAN) && sel.Some? && OwnOrderWith(s, sel.value, ACCEPTED)
    case Delegate(sel, tech, _, _) =>
      SignedInAs(s, TECHNICIAN) && sel.Some? && OwnOrderWith(s, sel.value, PENDING) &&
      IsTechnicianId(s.users, tech) && tech != s.currentUser.value.id
  }

  /** The id a command generates (`crypto.randomUUID()`) is not in use yet. */
  predicate FreshFor(s: AppState, cmd: Command)
  {
    match cmd
    case SignUp(_, id) => !HasUserId(s.users, id)
    case AddStaff(_, id) => !HasUserId(s.users, id)
    case NewOS(_, id) => !HasScheduleId(s.schedules, id)
    case _ => true
  }

  // ---------------------------------------------------------------------
  // The invariant

  predicate UniqueUserIds(users: seq<User>)
  {
    forall i, j :: 0 <= i < j < |users| ==> users[i].id != users[j].id
  }

  predicate UniqueEmails(users: seq<User>)
  {
    forall i, j :: 0 <= i < j < |users| ==> users[i].email != users[j].email
  }

  predicate UniqueScheduleIds(schedules: seq<Schedule>)
  {
    forall i, j :: 0 <= i < j < |schedules| ==> schedules[i].id != schedules[j].id
  }

  /** Nothing in the application ever sets CANCELLED. */
  predicate NoneCancelled(schedules: seq<Schedule>)
  {
    forall i :: 0 <= i < |schedules| ==> schedules[i].status != CANCELLED
  }

  /** A concluded order carries its final value and completion date. */
  predicate ConcludedRecorded(schedules: seq<Schedule>)
  {
    forall i :: 0 <= i < |schedules| && schedules[i].status == CONCLUDED ==>
      schedules[i].finalValue.Some? && schedules[i].completionDate.Some?
  }

  predicate Invariant(s: AppState)
  {
    UniqueUserIds(s.users) && UniqueEmails(s.users) && HasUserId(s.users, SeedAdminId) &&
    UniqueScheduleIds(s.schedules) && NoneCancelled(s.schedules) && ConcludedRecorded(s.schedules)
  }

  lemma SeedInvariant()
    ensures Invariant(Seed())
  {
    assert Seed().users[0].id == SeedAdminId;
  }

  /** Signing up or adding a member never creates a second account with the same e-mail or id. */
  lemma NewMemberKeepsAccountsUnique(s: AppState, form: AuthForm, freshId: string)
    requires UniqueUserIds(s.users) && UniqueEmails(s.users) && !HasUserId(s.users, freshId)
    ensures Register(s, form, freshId).Ok? ==>
      var t := Register(s, form, freshId).value;
      UniqueUserIds(t.users) && UniqueEmails(t.users) && |t.users| == |s.users| + 1
    ensures AddMember(s, form, freshId).Ok? ==>
      var t := AddMember(s, form, freshId).value;
      UniqueUserIds(t.users) && UniqueEmails(t.users) && |t.users| == |s.users| + 1
  {
    var users := s.users + [NewMember(form, freshId)];
    if !EmailTaken(s.users, form.email) {
      forall i, j | 0 <= i < j < |users|
        ensures users[i].id != users[j].id && users[i].email != users[j].email
      {
        if j == |s.users| {
          assert users[i] == s.users[i];
        }
      }
    }
  }

  /** Filtering users keeps ids and e-mails pairwise distinct. */
  lemma {:induction false} FilterKeepsAccountsUnique(users: seq<User>, p: User -> bool)
    requires UniqueUserIds(users) && UniqueEmails(users)
    ensures UniqueUserIds(Filter(users, p)) && UniqueEmails(Filter(users, p))
  {
    if |users| > 0 {
      var tail := users[1..];
      var rest := Filter(tail, p);
      FilterKeepsAccountsUnique(tail, p);
      FilterMembers(tail, p);
      if p(users[0]) {
        var r := [users[0]] + rest;
        assert Filter(users, p) == r;
        forall i, j | 0 <= i < j < |r|
          ensures r[i].id != r[j].id && r[i].email != r[j].email
        {
          if i == 0 {
            assert r[j] == rest[j - 1];
            assert rest[j - 1] in tail;
            var k :| 0 <= k < |tail| && tail[k] == rest[j - 1];
            assert users[k + 1] == r[j];
          } else {
            assert r[i] == rest[i - 1] && r[j] == rest[j - 1];
          }
        }
      }
    }
  }

  /** Removing a member other than the seed administrator keeps the invariant. */
  lemma DeleteMemberKeepsInvariant(s: AppState, id: string)
    requires Invariant(s) && id != SeedAdminId
    ensures Invariant(DeleteMember(s, id))
  {
    FilterKeepsAccountsUnique(s.users, HasIdOtherThan(id));
    var k :| 0 <= k < |s.users| && s.users[k].id == SeedAdminId;
    var r := DeleteMember(s, id).users;
    assert s.users[k] in r;
    var m :| 0 <= m < |r| && r[m] == s.users[k];
  }

  /** A map over the schedules that keeps ids, never cancels and records what it concludes. */
  lemma MapKeepsScheduleInvariant(ss: seq<Schedule>, id: string, f: Schedule -> Schedule, ts: seq<Schedule>)
    requires UniqueScheduleIds(ss) && NoneCancelled(ss) && ConcludedRecorded(ss)
    requires UpdatedById(ss, ts, id, f)
    requires forall x :: f(x).id == x.id && f(x).status != CANCELLED
    requires forall x :: f(x).status == CONCLUDED ==> f(x).finalValue.Some? && f(x).completionDate.Some?
    ensures UniqueScheduleIds(ts) && NoneCancelled(ts) && ConcludedRecorded(ts)
  {
    forall i | 0 <= i < |ts| ensures ts[i].id == ss[i].id {
    }
  }

  /** Appending a fresh PENDING order keeps the schedule part of the invariant. */
  lemma CreateOrderKeepsInvariant(s: AppState, form: ScheduleForm, freshId: string)
    requires Invariant(s) && !HasScheduleId(s.schedules, freshId)
    ensures Invariant(CreateOrder(s, form, freshId))
  {
    var ts := CreateOrder(s, form, freshId).schedules;
    forall i, j | 0 <= i < j < |ts| ensures ts[i].id != ts[j].id {
      assert ts[i] == s.schedules[i];
      if j < |s.schedules| {
        assert ts[j] == s.schedules[j];
      }
    }
    forall i | 0 <= i < |ts| ensures ts[i].status != CANCELLED {
      if i < |s.schedules| {
        assert ts[i] == s.schedules[i];
      }
    }
    forall i | 0 <= i < |ts| && ts[i].status == CONCLUDED
      ensures ts[i].finalValue.Some? && ts[i].completionDate.Some?
    {
      assert ts[i] == s.schedules[i];
    }
  }

  /**
   * Every command the interface offers, with fresh generated ids, keeps
   * account ids and e-mails unique, the seed administrator present, order
   * ids unique, no order cancelled and every concluded order's value and
   * completion date recorded.
   */
  lemma StepPreservesInvariant(s: AppState, cmd: Command)
    requires Invariant(s) && Offered(s, cmd) && FreshFor(s, cmd)
    ensures Invariant(Next(s, cmd))
  {
    match cmd
    case SignIn(email, password) => {}
    case SignUp(form, id) => {
      NewMemberKeepsAccountsUnique(s, form, id);
      if Step(s, cmd).Ok? {
        var k :| 0 <= k < |s.users| && s.users[k].id == SeedAdminId;
        assert Next(s, cmd).users[k] == s.users[k];
      }
    }
    case AddStaff(form, id) => {
      NewMemberKeepsAccountsUnique(s, form, id);
      if Step(s, cmd).Ok? {
        var k :| 0 <= k < |s.users| && s.users[k].id == SeedAdminId;
        assert Next(s, cmd).users[k] == s.users[k];
      }
    }
    case RemoveStaff(id) => DeleteMemberKeepsInvariant(s, id);
    case SignOut => {}
    case NewOS(form, id) => CreateOrderKeepsInvariant(s, form, id);
    case Accept(id) =>
      MapKeepsScheduleInvariant(s.schedules, id, WithStatus(ACCEPTED), Next(s, cmd).schedules);
    case Finish(sel, work, amount, today) =>
      if Step(s, cmd).Ok? {
        MapKeepsScheduleInvariant(s.schedules, sel.value, Concluding(work, amount.value, today), Next(s, cmd).schedules);
      }
    case Postpone(sel, date, time) =>
      if Step(s, cmd).Ok? {
        MapKeepsScheduleInvariant(s.schedules, sel.value, Rescheduling(date, time), Next(s, cmd).schedules);
      }
    case Delegate(sel, tech, reason, now) =>
      if Step(s, cmd).Ok? {
        var target := Find(s.users, HasId(tech)).value;
        var entry := TransferEntry(s.currentUser.value, target, reason, now);
        MapKeepsScheduleInvariant(s.schedules, sel.value, Reassigning(entry), Next(s, cmd).schedules);
      }
  }

  // ---------------------------------------------------------------------
  // The life cycle of an order's status

  /**
   * The moves the interface allows: PENDING to ACCEPTED (accept), PENDING to
   * PENDING with a new technician (transfer), ACCEPTED to CONCLUDED or
   * RESCHEDULED, or no change.
   */
  predicate Moves(from: ScheduleStatus, to: ScheduleStatus)
  {
    from == to || (from == PENDING && to == ACCEPTED) ||
    (from == ACCEPTED && (to == CONCLUDED || to == RESCHEDULED))
  }

  /** Statuses no control of the interface leads out of. */
  predicate Settled(st: ScheduleStatus)
  {
    st == RESCHEDULED || st == CONCLUDED || st == CANCELLED
  }

  /** With unique ids, the order an offered command names is the only one with that id. */
  lemma TargetIsTheOffered(s: AppState, id: string, status: ScheduleStatus, i: int)
    requires UniqueScheduleIds(s.schedules) && OwnOrderWith(s, id, status)
    requires 0 <= i < |s.schedules| && s.schedules[i].id == id
    ensures s.schedules[i].status == status
  {
    var k :| 0 <= k < |s.schedules| && s.schedules[k].id == id &&
      s.schedules[k].technicianId == s.currentUser.value.id && s.schedules[k].status == status;
    assert i == k;
  }

  lemma MapFollowsMoves(s: AppState, id: string, status: ScheduleStatus, f: Schedule -> Schedule, ts: seq<Schedule>)
    requires UniqueScheduleIds(s.schedules) && OwnOrderWith(s, id, status)
    requires UpdatedById(s.schedules, ts, id, f)
    requires forall x: Schedule :: x.status == status ==> f(x).id == x.id && Moves(status, f(x).status)
    requires !Settled(status)
    ensures forall i :: 0 <= i < |s.schedules| ==>
      ts[i].id == s.schedules[i].id && Moves(s.schedules[i].status, ts[i].status) &&
      (Settled(s.schedules[i].status) ==> ts[i] == s.schedules[i])
  {
    forall i | 0 <= i < |s.schedules|
      ensures ts[i].id == s.schedules[i].id && Moves(s.schedules[i].status, ts[i].status) &&
        (Settled(s.schedules[i].status) ==> ts[i] == s.schedules[i])
    {
      if s.schedules[i].id == id {
        TargetIsTheOffered(s, id, status, i);
      }
    }
  }

  /**
   * Under the interface's guards every existing order keeps its id and moves
   * only along `Moves`; an order that is RESCHEDULED, CONCLUDED or CANCELLED
   * is left exactly as it was; a new order starts PENDING.
   */
  lemma OfferedStepsFollowLifeCycle(s: AppState, cmd: Command)
    requires Invariant(s) && Offered(s, cmd)
    ensures var t := Next(s, cmd);
      |s.schedules| <= |t.schedules| &&
      (forall i :: 0 <= i < |s.schedules| ==>
        t.schedules[i].id == s.schedules[i].id && Moves(s.schedules[i].status, t.schedules[i].status)) &&
      (forall i :: 0 <= i < |s.schedules| && Settled(s.schedules[i].status) ==> t.schedules[i] == s.schedules[i]) &&
      (forall i :: |s.schedules| <= i < |t.schedules| ==> t.schedules[i].status == PENDING)
  {
    var t := Next(s, cmd);
    match cmd
    case NewOS(form, id) => {
      forall i | 0 <= i < |s.schedules| ensures t.schedules[i] == s.schedules[i] {
      }
    }
    case Accept(id) =>
      MapFollowsMoves(s, id, PENDING, WithStatus(ACCEPTED), t.schedules);
    case Finish(sel, work, amount, today) =>
      if Step(s, cmd).Ok? {
        MapFollowsMoves(s, sel.value, ACCEPTED, Concluding(work, amount.value, today), t.schedules);
      }
    case Postpone(sel, date, time) =>
      MapFollowsMoves(s, sel.value, ACCEPTED, Rescheduling(date, time), t.schedules);
    case Delegate(sel, tech, reason, now) =>
      if Step(s, cmd).Ok? {
        var target := Find(s.users, HasId(tech)).value;
        var entry := TransferEntry(s.currentUser.value, target, reason, now);
        MapFollowsMoves(s, sel.value, PENDING, Reassigning(entry), t.schedules);
      }
    case _ => {}
  }

  /**
   * With unique ids, removing the account at position `k` keeps every other
   * account, once each and in the order the list had (App.tsx:469, `filter`).
   */
  lemma DeleteMemberKeepsOrder(s: AppState, k: nat)
    requires UniqueUserIds(s.users) && k < |s.users|
    ensures DeleteMember(s, s.users[k].id).users == s.users[..k] + s.users[k + 1..]
  {
    FilterDropsOne(s.users, k, HasIdOtherThan(s.users[k].id));
  }

  /** Signing in twice with the same credentials gives the same session. */
  lemma LoginIdempotent(s: AppState, email: string, password: string)
    requires Login(s, email, password).Ok?
    ensures Login(Login(s, email, password).value, email, password) == Login(s, email, password)
  {
    var t := Login(s, email, password).value;
    assert t.users == s.users;
  }

  /** With unique e-mails, whoever signs in is the one account with that e-mail. */
  lemma LoginFindsTheAccount(s: AppState, email: string, password: string)
    requires UniqueEmails(s.users) && Login(s, email, password).Ok?
    ensures var u := Login(s, email, password).value.currentUser.value;
      u.email == email && u.password == Some(password) &&
      forall j :: 0 <= j < |s.users| && s.users[j].email == email ==> s.users[j] == u
  {
    var r := Login(s, email, password);
    var i :| 0 <= i < |s.users| && Credentials(s.users[i], email, password) &&
      r.value == s.(currentUser := Some(s.users[i]));
    forall j | 0 <= j < |s.users| && s.users[j].email == email ensures s.users[j] == s.users[i] {
      if j != i {
        assert false;
      }
    }
  }

  /**
   * The invariant does not include "the signed-in user exists": an
   * administrator other than the seed one may remove their own account,
   * and the session then names a user no longer in the list.
   */
  lemma RemovingOneselfLeavesSession()
    ensures var other := User("x", "Outro", "x@click.com", None, Some("1"), ADMIN, None, 0, 0);
      var s := Seed().(users := Seed().users + [other], currentUser := Some(other));
      var t := Next(s, RemoveStaff("x"));
      Invariant(s) && Offered(s, RemoveStaff("x")) &&
      t.currentUser == Some(other) && !HasUserId(t.users, "x")
  {
    var other := User("x", "Outro", "x@click.com", None, Some("1"), ADMIN, None, 0, 0);
    var s := Seed().(users := Seed().users + [other], currentUser := Some(other));
    var t := Next(s, RemoveStaff("x"));
    assert s.users[1].id == "x";
    assert s.users[0].id == SeedAdminId;
    assert "x" != SeedAdminId;
    assert s.users[0].email != s.users[1].email;
    assert t.users == Filter(s.users, HasIdOtherThan("x"));
    assert Filter(s.users, HasIdOtherThan("x")) == [s.users[0]] by {
      assert s.users[1..][1..] == [];
    }
  }
}
