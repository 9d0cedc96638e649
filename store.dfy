/**
 * The running application (App.tsx:103-130): one `AppState` held by the
 * component, replaced by every handler, and written to the browser's local
 * storage after each change. The handlers compute their new state with the
 * transition functions; the store adds the replacement and the write.
 */
module AppStore {
  import opened Base
  import opened Domain
  import opened Calendar
  import opened Transitions
  import opened Lifecycle

  // The texts of the `alert` calls of App.tsx.
  const WrongCredentials := "E-mail ou senha incorretos."        // App.tsx:143
  const EmailInUse := "Este e-mail já está sendo utilizado."     // App.tsx:149
  const InvalidValue := "Insira um valor numérico válido."       // App.tsx:180
  const VisitFinished := "Visita finalizada com sucesso!"        // App.tsx:194
  const Rescheduled := "Chamado reagendado."                     // App.tsx:210
  const Transferred := "OS transferida para o novo técnico."     // App.tsx:233
  const OrderScheduled := "OS Agendada com sucesso!"             // App.tsx:526
  const EmailRegistered := "E-mail já cadastrado."               // App.tsx:583
  const MemberAdded := "Novo membro adicionado com sucesso!"     // App.tsx:588

  /** The handlers that end with a confirmation `alert` when they succeed. */
  predicate ConfirmsSuccess(cmd: Command)
  {
    cmd.AddStaff? || cmd.NewOS? || cmd.Finish? || cmd.Postpone? || cmd.Delegate?
  }

  /**
   * The text of the `alert` a handler calls, if any, given what its
   * transition returned. Failures are reported except the silent early
   * returns (no selection, unknown target) and the `currentUser!` TypeError;
   * the handlers that confirm success do so with their own text.
   */
  function AlertShown(cmd: Command, r: Result<AppState, AppError>): (m: Option<string>)
    ensures r.Err? && r.error in {MissingSelection, UnknownUser, NoSession} ==> m.None?
    ensures r.Err? && r.error in {InvalidCredentials, EmailAlreadyUsed, InvalidAmount} ==> m.Some?
    ensures r.Ok? ==> (m.Some? <==> ConfirmsSuccess(cmd))
    ensures m.Some? ==> m.value != ""
  {
    match r
    case Err(e) =>
      if e == InvalidCredentials then Some(WrongCredentials)
      else if e == InvalidAmount then Some(InvalidValue)
      else if e == EmailAlreadyUsed then Some(if cmd.AddStaff? then EmailRegistered else EmailInUse)
      else None
    case Ok(_) =>
      match cmd
      case AddStaff(_, _) => Some(MemberAdded)
      case NewOS(_, _) => Some(OrderScheduled)
      case Finish(_, _, _, _) => Some(VisitFinished)
      case Postpone(_, _, _) => Some(Rescheduled)
      case Delegate(_, _, _, _) => Some(Transferred)
      case _ => None
  }

  /** The three outcomes of the conclude form: silence without a selection, the value alert, the confirmation. */
  lemma ConcludeMessage(s: AppState, selection: Option<string>, workDone: string, amount: Option<real>, today: CalendarDate)
    ensures AlertShown(Finish(selection, workDone, amount, today), Conclude(s, selection, workDone, amount, today))
      == if selection.None? then None else if amount.None? then Some(InvalidValue) else Some(VisitFinished)
  {
  }

  /** The reschedule form: silence without a selection, otherwise the confirmation. */
  lemma RescheduleMessage(s: AppState, selection: Option<string>, date: string, time: string)
    ensures AlertShown(Postpone(selection, date, time), Reschedule(s, selection, date, time))
      == if selection.None? then None else Some(Rescheduled)
  {
  }

  /** The transfer form confirms exactly when the transfer happens; every early stop is silent. */
  lemma TransferMessage(s: AppState, selection: Option<string>, newTechId: string, reason: string, now: Clock)
    ensures AlertShown(Delegate(selection, newTechId, reason, now), Transfer(s, selection, newTechId, reason, now))
      == if selection.Some? && HasUserId(s.users, newTechId) && s.currentUser.Some? then Some(Transferred) else None
  {
  }

  /** Sign-up and the staff form report a taken e-mail with different texts; only the staff form confirms. */
  lemma MemberMessages(s: AppState, form: AuthForm, freshId: string)
    ensures AlertShown(SignUp(form, freshId), Register(s, form, freshId))
      == if EmailTaken(s.users, form.email) then Some(EmailInUse) else None
    ensures AlertShown(AddStaff(form, freshId), AddMember(s, form, freshId))
      == if EmailTaken(s.users, form.email) then Some(EmailRegistered) else Some(MemberAdded)
  {
  }

  class Store {
    /** The component's `state`. */
    var state: AppState
    /** What local storage holds under the application's key. */
    var saved: AppState

    /** The storage write of App.tsx:128-130 has caught up with the state. */
    predicate Valid()
      reads this
    {
      saved == state
    }

    /**
     * The initial state (App.tsx:104-109): the stored snapshot when there is
     * one, otherwise the seed with its single administrator; then written back.
     */
    constructor(stored: Option<AppState>)
      ensures Valid()
      ensures stored.Some? ==> state == stored.value
      ensures stored.None? ==> state == Seed() && Invariant(state)
    {
      match stored {
        case Some(t) => state := t;
        case None => state := Seed();
      }
      saved := state;
      SeedInvariant();
    }

    /**
     * Runs the handler of `cmd`: the state becomes its new state, or stays as
     * it was when the handler returned early; storage follows. `shown` is the
     * text of the `alert` the handler calls, if any. A command the interface
     * offers keeps the application's invariant.
     */
    method Run(cmd: Command) returns (shown: Option<string>)
      requires Valid()
      modifies this
      ensures Valid()
      ensures state == Next(old(state), cmd)
      ensures shown == AlertShown(cmd, Step(old(state), cmd))
      ensures Step(old(state), cmd).Err? ==> state == old(state)
      ensures Invariant(old(state)) && Offered(old(state), cmd) && FreshFor(old(state), cmd) ==> Invariant(state)
    {
      if Invariant(state) && Offered(state, cmd) && FreshFor(state, cmd) {
        StepPreservesInvariant(state, cmd);
      }
      var r := Step(state, cmd);
      shown := AlertShown(cmd, r);
      match r {
        case Ok(t) => state := t;
        case Err(_) =>
      }
      saved := state;
    }

    /** A page reload: the state is read back from storage (App.tsx:104-105). */
    method Reload()
      requires Valid()
      modifies this
      ensures Valid()
      ensures state == old(state)
    {
      state := saved;
    }

    /** handleLogin (App.tsx:137-144). */
    method HandleLogin(email: string, password: string) returns (shown: Option<string>)
      requires Valid()
      modifies this
      ensures Valid() && state == Next(old(state), SignIn(email, password))
      ensures shown.None? <==> exists i :: 0 <= i < |old(state).users| && Credentials(old(state).users[i], email, password)
      ensures shown.Some? ==> shown.value == WrongCredentials && state == old(state)
      ensures shown.None? ==> state.currentUser.Some? && Credentials(state.currentUser.value, email, password)
    {
      shown := Run(SignIn(email, password));
    }

    /** handleRegister (App.tsx:146-167): an alert only for a taken e-mail. */
    method HandleRegister(form: AuthForm, freshId: string) returns (shown: Option<string>)
      requires Valid()
      modifies this
      ensures Valid() && state == Next(old(state), SignUp(form, freshId))
      ensures shown == if EmailTaken(old(state).users, form.email) then Some(EmailInUse) else None
      ensures shown.Some? ==> state == old(state)
      ensures shown.None? ==> state.users == old(state).users + [NewMember(form, freshId)]
      ensures shown.None? ==> state.currentUser == Some(NewMember(form, freshId))
      ensures Invariant(old(state)) && old(state).currentUser.None? && !HasUserId(old(state).users, freshId) ==> Invariant(state)
    {
      MemberMessages(state, form, freshId);
      shown := Run(SignUp(form, freshId));
    }

    /** The administrator's "Novo Membro" form (App.tsx:581-588): an alert either way. */
    method AddUser(form: AuthForm, freshId: string) returns (shown: Option<string>)
      requires Valid()
      modifies this
      ensures Valid() && state == Next(old(state), AddStaff(form, freshId))
      ensures EmailTaken(old(state).users, form.email) ==> shown == Some(EmailRegistered) && state == old(state)
      ensures !EmailTaken(old(state).users, form.email) ==>
        shown == Some(MemberAdded) && state == old(state).(users := old(state).users + [NewMember(form, freshId)])
      ensures Invariant(old(state)) && SignedInAs(old(state), ADMIN) && !HasUserId(old(state).users, freshId) ==> Invariant(state)
    {
      MemberMessages(state, form, freshId);
      shown := Run(AddStaff(form, freshId));
    }

    /** The remove button of the staff list (App.tsx:468-469), after `confirm`; no alert. */
    method DeleteUser(id: string)
      requires Valid()
      modifies this
      ensures Valid() && state == DeleteMember(old(state), id)
      ensures forall k :: 0 <= k < |state.users| ==> state.users[k].id != id
      ensures Invariant(old(state)) && SignedInAs(old(state), ADMIN) && id != SeedAdminId && HasUserId(old(state).users, id) ==> Invariant(state)
    {
      var shown := Run(RemoveStaff(id));
    }

    /** The logout button (App.tsx:326); no alert. */
    method Logout()
      requires Valid()
      modifies this
      ensures Valid() && state == old(state).(currentUser := None)
    {
      var shown := Run(SignOut);
    }

    /** The "Nova OS" form submit (App.tsx:516-526), confirmed with an alert. */
    method CreateOS(form: ScheduleForm, freshId: string) returns (shown: Option<string>)
      requires Valid()
      modifies this
      ensures Valid() && state == CreateOrder(old(state), form, freshId)
      ensures state.schedules == old(state).schedules + [NewOrder(old(state), form, freshId)]
      ensures state.schedules[|old(state).schedules|].status == PENDING
      ensures shown == Some(OrderScheduled)
    {
      shown := Run(NewOS(form, freshId));
    }

    /** handleUpdateStatus (App.tsx:169-174), reached from the accept button; no alert. */
    method HandleUpdateStatus(id: string)
      requires Valid()
      modifies this
      ensures Valid() && state == UpdateStatus(old(state), id, ACCEPTED)
      ensures forall i :: 0 <= i < |state.schedules| && state.schedules[i].id == id ==> state.schedules[i].status == ACCEPTED
    {
      var shown := Run(Accept(id));
    }

    /**
     * handleConcludeOS (App.tsx:176-195): silent without a selection, the
     * value alert for NaN, otherwise the order is concluded and confirmed.
     */
    method HandleConcludeOS(selection: Option<string>, workDone: string, amount: Option<real>, today: CalendarDate)
      returns (shown: Option<string>)
      requires Valid()
      modifies this
      ensures Valid() && state == Next(old(state), Finish(selection, workDone, amount, today))
      ensures selection.None? ==> shown == None && state == old(state)
      ensures selection.Some? && amount.None? ==> shown == Some(InvalidValue) && state == old(state)
      ensures selection.Some? && amount.Some? ==>
        shown == Some(VisitFinished) && state == Conclude(old(state), selection, workDone, amount, today).value
    {
      ConcludeMessage(state, selection, workDone, amount, today);
      shown := Run(Finish(selection, workDone, amount, today));
    }

    /** handleReschedule (App.tsx:197-211): silent without a selection, otherwise confirmed. */
    method HandleReschedule(selection: Option<string>, date: string, time: string) returns (shown: Option<string>)
      requires Valid()
      modifies this
      ensures Valid() && state == Next(old(state), Postpone(selection, date, time))
      ensures selection.None? ==> shown == None && state == old(state)
      ensures selection.Some? ==> shown == Some(Rescheduled) && state == Reschedule(old(state), selection, date, time).value
    {
      RescheduleMessage(state, selection, date, time);
      shown := Run(Postpone(selection, date, time));
    }

    /**
     * handleTransfer (App.tsx:213-234): silent and unchanged without a
     * selection, with an unknown target or without a session; otherwise the
     * order is transferred and confirmed.
     */
    method HandleTransfer(selection: Option<string>, newTechId: string, reason: string, now: Clock)
      returns (shown: Option<string>)
      requires Valid()
      modifies this
      ensures Valid() && state == Next(old(state), Delegate(selection, newTechId, reason, now))
      ensures shown.Some? <==> selection.Some? && HasUserId(old(state).users, newTechId) && old(state).currentUser.Some?
      ensures shown.Some? ==> shown.value == Transferred && state == Transfer(old(state), selection, newTechId, reason, now).value
      ensures shown.None? ==> state == old(state)
    {
      TransferMessage(state, selection, newTechId, reason, now);
      shown := Run(Delegate(selection, newTechId, reason, now));
    }
  }

  /**
   * A session of handler calls from the seed: sign in as the administrator,
   * add a technician, open an order for them. The stored snapshot then holds
   * the order, pending, and the application's invariant.
   */
  method SeededSession(tech: AuthForm, techId: string, order: ScheduleForm, orderId: string)
    returns (store: Store)
    requires tech.email != "admin@click.com" && techId != SeedAdminId
    ensures store.Valid() && Invariant(store.state)
    ensures |store.saved.users| == 2 && store.saved.users[1] == NewMember(tech, techId)
    ensures |store.saved.schedules| == 1 && store.saved.schedules[0].status == PENDING
    ensures store.saved.schedules[0].id == orderId
  {
    store := new Store(None);
    assert Credentials(store.state.users[0], "admin@click.com", "123");
    var a1 := store.HandleLogin("admin@click.com", "123");
    var s1 := store.state;
    assert SignedInAs(s1, ADMIN) && s1.users == Seed().users;
    assert !EmailTaken(s1.users, tech.email) && !HasUserId(s1.users, techId);
    var a2 := store.AddUser(tech, techId);
    var s2 := store.state;
    assert Invariant(s2) && s2.schedules == [];
    var a3 := store.CreateOS(order, orderId);
    CreateOrderKeepsInvariant(s2, order, orderId);
  }
}
