/**
 * The records and closed enumerations of the service-order application
 * (types.ts). Optional TypeScript fields (`x?: T`) are `Option`s; `number`
 * money fields are `real`; dates and times that the application stores as
 * locale text stay `string`s.
 */
module Domain {
  import opened Base

  /** types.ts:2-6 */
  datatype UserRole = ADMIN | TECHNICIAN | ATTENDANT

  /** types.ts:8-14 */
  datatype ScheduleStatus = PENDING | ACCEPTED | CONCLUDED | RESCHEDULED | CANCELLED

  /** One entry of a service order's transfer log (types.ts:26-34). */
  datatype TransferHistory = TransferHistory(
    fromId: string, fromName: string,
    toId: string, toName: string,
    reason: string, date: string, time: string)

  /** A staff account (types.ts:46-56). */
  datatype User = User(
    id: string,
    name: string,
    email: string,
    phone: Option<string>,
    password: Option<string>,
    role: UserRole,
    specialty: Option<string>,
    ratingCount: int,
    ratingSum: int)

  /**
   * A service order, "OS" (types.ts:87-118). The fields no code path reads or
   * writes (start/end/cancellation times, deposit and balance values, review,
   * reminder and chat fields) are not part of this record.
   */
  datatype Schedule = Schedule(
    id: string,
    clientName: string,
    clientPhone: string,
    clientAddress: string,
    clientNumber: Option<string>,
    appointmentDate: string,
    appointmentTime: string,
    technicianId: string,
    attendantId: Option<string>,
    attendantName: string,
    description: string,
    status: ScheduleStatus,
    workDoneDescription: Option<string>,
    finalValue: Option<real>,
    completionDate: Option<string>,
    transfers: Option<seq<TransferHistory>>)

  /** Collections no handler of the core touches; they are carried along unchanged. */
  datatype Sale = Sale(id: string)
  datatype Expense = Expense(id: string)
  datatype CommissionPayment = CommissionPayment(id: string)
  datatype Notification = Notification(id: string)

  /** The whole application snapshot (types.ts:120-128). */
  datatype AppState = AppState(
    users: seq<User>,
    schedules: seq<Schedule>,
    sales: seq<Sale>,
    expenses: seq<Expense>,
    commissionPayments: seq<CommissionPayment>,
    currentUser: Option<User>,
    notifications: seq<Notification>)

  /** The id of the administrator account the application is seeded with. */
  const SeedAdminId: string := "admin-1"

  /** The state used when nothing was persisted yet (App.tsx:106-109). */
  function Seed(): (s: AppState)
    ensures |s.users| == 1 && s.users[0].id == SeedAdminId && s.users[0].role == ADMIN
    ensures s.users[0].email == "admin@click.com" && s.users[0].password == Some("123")
    ensures s.schedules == [] && s.sales == [] && s.expenses == []
    ensures s.commissionPayments == [] && s.notifications == [] && s.currentUser == None
  {
    AppState(
      [User(SeedAdminId, "Administrador Principal", "admin@click.com", None, Some("123"), ADMIN, None, 0, 0)],
      [], [], [], [], None, [])
  }

  /** `state.currentUser?.role === role` (App.tsx:132-133). */
  predicate SignedInAs(s: AppState, role: UserRole)
  {
    s.currentUser.Some? && s.currentUser.value.role == role
  }

  /** Some user of the list has this id. */
  predicate HasUserId(users: seq<User>, id: string)
  {
    exists i :: 0 <= i < |users| && users[i].id == id
  }

  /** Some user of the list has this e-mail (`users.some(u => u.email === email)`). */
  predicate EmailTaken(users: seq<User>, email: string)
  {
    exists i :: 0 <= i < |users| && users[i].email == email
  }

  /** Some schedule of the list has this id. */
  predicate HasScheduleId(schedules: seq<Schedule>, id: string)
  {
    exists i :: 0 <= i < |schedules| && schedules[i].id == id
  }

  /** Some user of the list is a technician with this id. */
  predicate IsTechnicianId(users: seq<User>, id: string)
  {
    exists i :: 0 <= i < |users| && users[i].id == id && users[i].role == TECHNICIAN
  }
}
