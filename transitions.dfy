/**
 * The handlers of App.tsx as pure transitions on the application snapshot.
 * Each takes the current `AppState` and the handler's inputs (form fields,
 * the selected service order, the clock reading, a freshly generated id) and
 * returns the next snapshot, or the reason the handler returned early with
 * the state left as it was. As in the source, the handlers themselves do not
 * check a service order's status: those guards live in the rendering and are
 * modelled by `Lifecycle.Offered`.
 */
module Transitions {
  import opened Base
  import opened Domain
  import opened Calendar

  /**
   * Why a handler stopped without changing the state. The first three are
   * reported with an `alert`; MissingSelection and UnknownUser are silent
   * early returns; NoSession is the TypeError raised by `state.currentUser!.id`
   * when nobody is signed in (App.tsx:220).
   */
  datatype AppError =
    | InvalidCredentials
    | EmailAlreadyUsed
    | InvalidAmount
    | MissingSelection
    | UnknownUser
    | NoSession

  /** The sign-in / sign-up / add-member form (App.tsx:122). */
  datatype AuthForm = AuthForm(name: string, email: string, password: string, role: UserRole)

  /** The new-service-order form (App.tsx:123). */
  datatype ScheduleForm = ScheduleForm(
    clientName: string, clientPhone: string, clientAddress: string, clientNumber: string,
    date: string, time: string, technicianId: string, description: string)

  /** The new snapshot differs from the old one at most in its schedules. */
  predicate SchedulesOnly(s: AppState, t: AppState)
  {
    t == s.(schedules := t.schedules)
  }

  /**
   * `schedules.map(x => x.id === id ? f(x) : x)`: every schedule with the
   * given id is replaced by `f` of itself, every other one stays as it was.
   */
  predicate UpdatedById(before: seq<Schedule>, after: seq<Schedule>, id: string, f: Schedule -> Schedule)
  {
    |after| == |before| &&
    forall i :: 0 <= i < |before| ==> after[i] == if before[i].id == id then f(before[i]) else before[i]
  }

  function UpdateWhere(ss: seq<Schedule>, id: string, f: Schedule -> Schedule): (r: seq<Schedule>)
    ensures UpdatedById(ss, r, id, f)
  {
    seq(|ss|, i requires 0 <= i < |ss| => if ss[i].id == id then f(ss[i]) else ss[i])
  }

  // ---------------------------------------------------------------------
  // Session

  predicate Credentials(u: User, email: string, password: string)
  {
    u.email == email && u.password == Some(password)
  }

  function CredentialsMatch(email: string, password: string): User -> bool
  {
    u => Credentials(u, email, password)
  }

  /** handleLogin (App.tsx:137-144). */
  function Login(s: AppState, email: string, password: string): (r: Result<AppState, AppError>)
    ensures r.Ok? <==> exists i :: 0 <= i < |s.users| && Credentials(s.users[i], email, password)
    ensures r.Err? ==> r.error == InvalidCredentials
    ensures r.Ok? ==>
      exists i :: 0 <= i < |s.users| && Credentials(s.users[i], email, password) &&
        (forall j :: 0 <= j < i ==> !Credentials(s.users[j], email, password)) &&
        r.value == s.(currentUser := Some(s.users[i]))
  {
    match Find(s.users, CredentialsMatch(email, password))
    case None => Err(InvalidCredentials)
    case Some(u) => Ok(s.(currentUser := Some(u)))
  }

  /** The logout button (App.tsx:326). */
  function Logout(s: AppState): (r: AppState)
    ensures r.currentUser == None
    ensures r.(currentUser := s.currentUser) == s
  {
    s.(currentUser := None)
  }

  // ---------------------------------------------------------------------
  // Staff accounts

  /** The account built from the form, with no ratings yet (App.tsx:152-160, 584). */
  function NewMember(form: AuthForm, id: string): User
  {
    User(id, form.name, form.email, None, Some(form.password), form.role, None, 0, 0)
  }

  /** handleRegister (App.tsx:146-167): sign up and sign in at once. */
  function Register(s: AppState, form: AuthForm, freshId: string): (r: Result<AppState, AppError>)
    ensures r.Err? <==> EmailTaken(s.users, form.email)
    ensures r.Err? ==> r.error == EmailAlreadyUsed
    ensures r.Ok? ==>
      var u := NewMember(form, freshId);
      r.value == s.(users := s.users + [u], currentUser := Some(u)) &&
      u.id == freshId && u.email == form.email && u.ratingCount == 0 && u.ratingSum == 0
  {
    if EmailTaken(s.users, form.email) then Err(EmailAlreadyUsed)
    else
      var u := NewMember(form, freshId);
      Ok(s.(users := s.users + [u], currentUser := Some(u)))
  }

  /** The administrator's "Novo Membro" form (App.tsx:581-588): like Register, but nobody is signed in. */
  function AddMember(s: AppState, form: AuthForm, freshId: string): (r: Result<AppState, AppError>)
    ensures r.Err? <==> EmailTaken(s.users, form.email)
    ensures r.Err? ==> r.error == EmailAlreadyUsed
    ensures r.Ok? ==>
      var u := NewMember(form, freshId);
      r.value == s.(users := s.users + [u]) &&
      u.id == freshId && u.email == form.email && u.ratingCount == 0 && u.ratingSum == 0
  {
    if EmailTaken(s.users, form.email) then Err(EmailAlreadyUsed)
    else Ok(s.(users := s.users + [NewMember(form, freshId)]))
  }

  function HasIdOtherThan(id: string): User -> bool
  {
    (u: User) => u.id != id
  }

  /** The remove button of the staff list (App.tsx:469): drops every user with that id. */
  function DeleteMember(s: AppState, id: string): (r: AppState)
    ensures forall k :: 0 <= k < |r.users| ==> r.users[k].id != id && r.users[k] in s.users
    ensures forall j :: 0 <= j < |s.users| && s.users[j].id != id ==> s.users[j] in r.users
    ensures r == s.(users := r.users)
  {
    FilterMembers(s.users, HasIdOtherThan(id));
    s.(users := Filter(s.users, HasIdOtherThan(id)))
  }

  // ---------------------------------------------------------------------
  // Service orders

  /** The order built from the form, attributed to whoever is signed in (App.tsx:518-522). */
  function NewOrder(s: AppState, form: ScheduleForm, id: string): (o: Schedule)
    ensures o.id == id && o.status == PENDING && o.transfers == Some([])
    ensures o.technicianId == form.technicianId
    ensures o.attendantId == (if s.currentUser.Some? then Some(s.currentUser.value.id) else None)
    ensures o.attendantName == (if s.currentUser.Some? then s.currentUser.value.name else "")
    ensures o.finalValue == None && o.completionDate == None && o.workDoneDescription == None
  {
    Schedule(
      id, form.clientName, form.clientPhone, form.clientAddress, Some(form.clientNumber),
      form.date, form.time, form.technicianId,
      if s.currentUser.Some? then Some(s.currentUser.value.id) else None,
      if s.currentUser.Some? then s.currentUser.value.name else "",
      form.description, PENDING, None, None, None, Some([]))
  }

  /** The "Nova OS" form submit (App.tsx:516-523): appends one order, touches nothing else. */
  function CreateOrder(s: AppState, form: ScheduleForm, freshId: string): (r: AppState)
    ensures SchedulesOnly(s, r)
    ensures |r.schedules| == |s.schedules| + 1
    ensures r.schedules[..|s.schedules|] == s.schedules
    ensures r.schedules[|s.schedules|] == NewOrder(s, form, freshId)
  {
    s.(schedules := s.schedules + [NewOrder(s, form, freshId)])
  }

  function WithStatus(status: ScheduleStatus): Schedule -> Schedule
  {
    (x: Schedule) => x.(status := status)
  }

  /** handleUpdateStatus (App.tsx:169-174); the UI calls it with ACCEPTED only. */
  function UpdateStatus(s: AppState, id: string, status: ScheduleStatus): (r: AppState)
    ensures SchedulesOnly(s, r)
    ensures UpdatedById(s.schedules, r.schedules, id, WithStatus(status))
  {
    s.(schedules := UpdateWhere(s.schedules, id, WithStatus(status)))
  }

  /** What concluding does to the selected order (App.tsx:184-190). */
  function Concluding(workDone: string, amount: real, today: CalendarDate): Schedule -> Schedule
  {
    (x: Schedule) => x.(status := CONCLUDED, workDoneDescription := Some(workDone),
            finalValue := Some(amount), completionDate := Some(FormatDate(today)))
  }

  /**
   * handleConcludeOS (App.tsx:176-195). `amount` is what `parseFloat` made of
   * the typed value, `None` standing for NaN; any number, negative ones
   * included, is accepted.
   */
  function Conclude(s: AppState, selection: Option<string>, workDone: string, amount: Option<real>, today: CalendarDate)
    : (r: Result<AppState, AppError>)
    ensures selection.None? ==> r == Err(MissingSelection)
    ensures selection.Some? && amount.None? ==> r == Err(InvalidAmount)
    ensures r.Ok? <==> selection.Some? && amount.Some?
    ensures r.Ok? ==> SchedulesOnly(s, r.value)
    ensures r.Ok? ==> UpdatedById(s.schedules, r.value.schedules, selection.value, Concluding(workDone, amount.value, today))
  {
    if selection.None? then Err(MissingSelection)
    else if amount.None? then Err(InvalidAmount)
    else Ok(s.(schedules := UpdateWhere(s.schedules, selection.value, Concluding(workDone, amount.value, today))))
  }

  /** What rescheduling does to the selected order (App.tsx:202-207). */
  function Rescheduling(date: string, time: string): Schedule -> Schedule
  {
    (x: Schedule) => x.(status := RESCHEDULED, appointmentDate := date, appointmentTime := time)
  }

  /** handleReschedule (App.tsx:197-211). */
  function Reschedule(s: AppState, selection: Option<string>, date: string, time: string): (r: Result<AppState, AppError>)
    ensures r.Err? <==> selection.None?
    ensures r.Err? ==> r.error == MissingSelection
    ensures r.Ok? ==> SchedulesOnly(s, r.value)
    ensures r.Ok? ==> UpdatedById(s.schedules, r.value.schedules, selection.value, Rescheduling(date, time))
  {
    if selection.None? then Err(MissingSelection)
    else Ok(s.(schedules := UpdateWhere(s.schedules, selection.value, Rescheduling(date, time))))
  }

  /** The transfer log of an order, an absent one read as empty (`s.transfers || []`). */
  function PriorTransfers(x: Schedule): seq<TransferHistory>
  {
    if x.transfers.Some? then x.transfers.value else []
  }

  /** The log entry of a transfer from `from` to `to` (App.tsx:219-223). */
  function TransferEntry(from: User, to: User, reason: string, now: Clock): (e: TransferHistory)
    ensures e.fromId == from.id && e.fromName == from.name && e.toId == to.id && e.toName == to.name
    ensures e.reason == reason && e.date == FormatDate(now.date) && e.time == FormatTime(now.time)
  {
    TransferHistory(from.id, from.name, to.id, to.name, reason, FormatDate(now.date), FormatTime(now.time))
  }

  /** What a transfer does to the selected order (App.tsx:228). */
  function Reassigning(entry: TransferHistory): Schedule -> Schedule
  {
    (x: Schedule) => x.(technicianId := entry.toId, transfers := Some(PriorTransfers(x) + [entry]), status := PENDING)
  }

  function HasId(id: string): User -> bool
  {
    (u: User) => u.id == id
  }

  /** handleTransfer (App.tsx:213-234). */
  function Transfer(s: AppState, selection: Option<string>, newTechId: string, reason: string, now: Clock)
    : (r: Result<AppState, AppError>)
    ensures selection.None? ==> r == Err(MissingSelection)
    ensures selection.Some? && !HasUserId(s.users, newTechId) ==> r == Err(UnknownUser)
    ensures selection.Some? && HasUserId(s.users, newTechId) && s.currentUser.None? ==> r == Err(NoSession)
    ensures r.Ok? <==> selection.Some? && HasUserId(s.users, newTechId) && s.currentUser.Some?
    ensures r.Ok? ==>
      var target := Find(s.users, HasId(newTechId)).value;
      target.id == newTechId && target in s.users &&
      SchedulesOnly(s, r.value) &&
      UpdatedById(s.schedules, r.value.schedules, selection.value,
                  Reassigning(TransferEntry(s.currentUser.value, target, reason, now)))
  {
    if selection.None? then Err(MissingSelection)
    else
      match Find(s.users, HasId(newTechId))
      case None => Err(UnknownUser)
      case Some(target) =>
        if s.currentUser.None? then Err(NoSession)
        else
          var entry := TransferEntry(s.currentUser.value, target, reason, now);
          Ok(s.(schedules := UpdateWhere(s.schedules, selection.value, Reassigning(entry))))
  }

  /** A transfer keeps the earlier log entries and adds exactly one after them. */
  lemma TransferLogAppendOnly(x: Schedule, entry: TransferHistory)
    ensures var y := Reassigning(entry)(x);
      |PriorTransfers(y)| == |PriorTransfers(x)| + 1 &&
      PriorTransfers(y)[..|PriorTransfers(x)|] == PriorTransfers(x) &&
      PriorTransfers(y)[|PriorTransfers(x)|] == entry &&
      y.technicianId == entry.toId && y.status == PENDING
  {
  }
}
