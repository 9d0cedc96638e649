# Field-service orders: a verified Dafny model

This project models the core of a single-page field-service application for
an appliance-repair company. The application keeps staff accounts and service
orders ("OS", *ordens de serviço*) in one snapshot in the browser's local
storage. Users sign in as an administrator, a technician or an attendant.
Attendants and administrators open orders for a technician. The technician
accepts, transfers, concludes or reschedules each order. The dashboard shows
the technician's earnings and commission for today, the last 7 days and the
last 30 days. Each order can be printed as an OS document (App.tsx:573).
services/pdfService.ts also builds an appointment receipt, but the
application imports it (App.tsx:5) and never calls it; the receipt's derived
values are modelled from that uncalled code.

Modules, in dependency order:

- `Base` (base.dfy): `Option`, `Result`, and the array operations the
  application uses (`find`, `filter`, `reverse`) with their properties.
- `Domain` (domain.dfy): the records and enumerations of types.ts, and the
  seed snapshot.
- `Calendar` (calendar.dfy): the dd/mm/yyyy text that
  `toLocaleDateString('pt-BR')` writes, reading it back with `split('/')` and
  `Number`, and the day number of `new Date(y, m - 1, d)` (ECMAScript
  MakeDay, including the 0..99 → 1900s rule).
- `Transitions` (transitions.dfy): each state handler of App.tsx as a pure
  function from the old snapshot to the new one or to the reason it stopped
  early.
- `Lifecycle` (lifecycle.dfy): the handlers as one state machine, and which
  commands the interface offers in a state (the render-time guards). It also
  holds the invariant the offered commands keep and the life cycle of an
  order's status.
- `Finance` (finance.dfy): `financialStats`/`calculateForPeriod`,
  `filteredSchedules` and the two administrator counters.
- `Documents` (documents.dfy): `formatPhone`, the OS number and receipt
  protocol, and the fallback texts of the two documents.
- `AppStore` (store.dfy): the running application as a class. Its `state`
  field is replaced by each handler, and its `saved` field is the
  local-storage copy written after every change.

## Model

| member | source | states |
|---|---|---|
| Base.Find | App.tsx:139 | `Array.prototype.find`: `None` exactly when no element satisfies the predicate; otherwise the first element that does |
| Base.Filter | App.tsx:239 | `Array.prototype.filter`: never longer than its input, and every kept element satisfies the predicate |
| Base.FilterMembers | App.tsx:239 | every kept element comes from the input, and every input element that satisfies the predicate is kept |
| Base.FilterDropsOne | App.tsx:469 | filtering out exactly one element leaves the elements before and after it, once each and in order |
| Base.Reverse | App.tsx:273 | `slice().reverse()`: same length, element k is the input's element counted k from the end |
| Domain.Seed | App.tsx:106-109 | the initial snapshot: only the administrator `admin-1` with password `123`, empty collections, nobody signed in |
| Calendar.NumberOf | App.tsx:253 | `Number` on a part of the date: a value exactly when the part is all digits |
| Calendar.SplitFirst | App.tsx:252 | `split('/')` of a text whose first segment has no slash yields that segment followed by the split of the rest |
| Calendar.ParseFormatRoundTrip | App.tsx:189 | reading back, by split and `Number`, a completion date written by `toLocaleDateString('pt-BR')` gives the same day, month and year |
| Calendar.DayNumberChronological | App.tsx:253 | for real dates the day number of `new Date(y, m - 1, d)` is strictly increasing in calendar order, and equal day numbers mean equal dates |
| Transitions.Login | App.tsx:137-144 | signs in the first account whose e-mail and password both match; fails with the credentials alert exactly when none matches |
| Transitions.Logout | App.tsx:326 | clears the session and changes nothing else |
| Transitions.Register | App.tsx:146-167 | fails exactly when the e-mail is taken; otherwise appends the new account (no ratings yet) and signs it in |
| Transitions.AddMember | App.tsx:581-588 | fails exactly when the e-mail is taken; otherwise appends the new account and leaves the session alone |
| Transitions.DeleteMember | App.tsx:469 | removes every account with the id and keeps every other account; nothing else changes |
| Lifecycle.DeleteMemberKeepsOrder | App.tsx:469 | with unique ids, removing the account at position k leaves the accounts before it and after it, each once and in their order |
| Transitions.NewOrder | App.tsx:516-523 | the new order is PENDING with an empty transfer log, no value or completion date, the chosen technician, and the signed-in user as attendant (empty name when nobody is signed in) |
| Transitions.CreateOrder | App.tsx:523 | appends exactly the new order after the existing ones; nothing else changes |
| Transitions.UpdateWhere | App.tsx:172 | `map(s => s.id === id ? f(s) : s)`: orders with the id are replaced by their update and all others are untouched |
| Transitions.UpdateStatus | App.tsx:169-174 | sets the status of the orders with the id; nothing else changes |
| Transitions.Conclude | App.tsx:176-195 | no selection: no change; a NaN value: the amount alert; otherwise the selected order becomes CONCLUDED with work text, value and today's pt-BR date |
| Transitions.Reschedule | App.tsx:197-211 | no selection: no change; otherwise the selected order becomes RESCHEDULED with the new date and time |
| Transitions.TransferEntry | App.tsx:219-223 | the log entry names the sender, the target, the reason, and the pt-BR date and time of the clock |
| Transitions.Transfer | App.tsx:213-234 | fails when there is no selection, no account with the target id, or no session (the `currentUser!` TypeError); otherwise reassigns the selected order to the first account with that id, logs the transfer and sets it PENDING |
| Transitions.TransferLogAppendOnly | App.tsx:228 | a transfer keeps every earlier log entry, adds exactly one after them, and moves the order to the target as PENDING |
| Lifecycle.Next | App.tsx:143 | a handler that returns early leaves the snapshot as it was |
| Lifecycle.SeedInvariant | App.tsx:106-109 | the seed satisfies the invariant: unique ids and e-mails, `admin-1` present, unique order ids, no CANCELLED order, every CONCLUDED order has a value and a date |
| Lifecycle.NewMemberKeepsAccountsUnique | App.tsx:148 | signing up or adding a member with a fresh id never creates a second account with the same id or e-mail |
| Lifecycle.FilterKeepsAccountsUnique | App.tsx:469 | removing accounts keeps ids and e-mails unique |
| Lifecycle.DeleteMemberKeepsInvariant | App.tsx:468 | removing any account other than `admin-1` keeps the invariant |
| Lifecycle.MapKeepsScheduleInvariant | App.tsx:172 | an id-keeping update that never cancels, and that gives every order it concludes a value and a date, keeps the order invariant |
| Lifecycle.CreateOrderKeepsInvariant | App.tsx:516-523 | opening an order with a fresh id keeps the invariant |
| Lifecycle.StepPreservesInvariant | App.tsx:422-434 | every command the interface offers, with fresh ids, keeps the invariant |
| Lifecycle.TargetIsTheOffered | App.tsx:422 | with unique ids, the order an offered button names has the status the button was shown for |
| Lifecycle.MapFollowsMoves | App.tsx:422-434 | an update of the offered order that moves only along the life cycle moves every order only along it, and leaves settled orders unchanged |
| Lifecycle.OfferedStepsFollowLifeCycle | App.tsx:422-434 | under the interface's guards existing orders keep their ids and only go PENDING→ACCEPTED, ACCEPTED→CONCLUDED or ACCEPTED→RESCHEDULED; settled orders stay exactly as they were; new orders start PENDING |
| Lifecycle.LoginIdempotent | App.tsx:137-144 | signing in again with the same credentials gives the same session |
| Lifecycle.LoginFindsTheAccount | App.tsx:139 | with unique e-mails the signed-in user is the one account with that e-mail, and its password matches |
| Lifecycle.RemovingOneselfLeavesSession | App.tsx:469 | an administrator other than `admin-1` may remove their own account, and the session then names a user who is no longer in the list |
| Finance.CountedIsOneFilter | App.tsx:239-254 | the orders `calculateForPeriod` sums are one filter of the snapshot: the signed-in user's CONCLUDED orders whose completion day is on or after the threshold |
| Finance.CountedExactly | App.tsx:239-254 | an order is summed exactly when it is in the snapshot, it is the signed-in technician's, it is CONCLUDED, and its date (if there is a window) reads back to a day on or after `today - (days - 1)` |
| Finance.TotalAppend | App.tsx:258 | the `reduce` sum of two lists is the sum of their sums, with a missing value counted as 0 |
| Finance.FilterTotalAtMost | App.tsx:258 | with non-negative values, the sum of a filtered list is at most the sum of the whole list |
| Finance.FilterTotalOneMore | App.tsx:258 | when one position newly passes a filter, the filtered sum grows by exactly that order's value |
| Finance.CalculateForPeriod | App.tsx:241-261 | the period's commission is computed at `COMMISSION_RATE || 0.07` |
| Finance.WindowsNest | App.tsx:245-254 | the shorter window is the longer window filtered by its own threshold, so whatever counts today counts in 7 days, and whatever counts in 7 days counts in 30 |
| Finance.WindowTotalsOrdered | App.tsx:245-259 | with non-negative values, a shorter window never sums more than a longer one |
| Finance.TotalsOrdered | App.tsx:263-267 | with non-negative values, today ≤ week ≤ month for the totals |
| Finance.CommissionsOrdered | App.tsx:259 | with non-negative values and a non-negative rate, today ≤ week ≤ month for the commissions |
| Finance.SignedOutEarnsNothing | App.tsx:239 | nobody signed in: every window totals 0 |
| Finance.CountedOneMore | App.tsx:258 | when one order starts to count and nothing else changes, the period total grows by exactly its value |
| Finance.ConcludeCountsInEveryWindow | App.tsx:184-190 | concluding one of the signed-in technician's orders that was not yet CONCLUDED adds its value to every window's total |
| Finance.CountedIgnoresAppended | App.tsx:523 | an order appended in a status other than CONCLUDED counts in no window |
| Finance.CreateOrderKeepsEarnings | App.tsx:516-523 | opening an order never changes any earnings figure |
| Finance.ReadBackCompletionDay | App.tsx:252-253 | the completion day of an order concluded on a date is that date's day number |
| Finance.ExampleWindows | App.tsx:245-259 | orders of the technician dated today, 5 days ago and 20 days ago (100, 200, 300), plus another technician's order: windows of 1, 7 and 30 days total 100, 300 and 600 |
| Finance.EarningsExample | App.tsx:238-267 | the same example with real pt-BR dates around 14/10/2026: `financialStats` totals 100, 300 and 600, with commissions 7, 21 and 42 |
| Finance.FilteredSchedulesMembers | App.tsx:269-274 | an order is listed exactly when it is in the snapshot, assigned to the signed-in user if that user is a technician, and of the chosen status if an administrator chose one |
| Finance.UnfilteredListNewestFirst | App.tsx:273 | with no role filter the list is every order, newest first |
| Finance.NewOrderListedFirst | App.tsx:273 | for whoever sees all orders, a newly opened order heads the list |
| Finance.TechnicianCount | App.tsx:368 | "Técnicos Ativos" never exceeds the number of accounts |
| Finance.CreateOrderCounted | App.tsx:364 | opening an order adds one to the order counter and leaves the technician counter alone |
| Finance.AddMemberCounted | App.tsx:368 | adding a member adds one to the technician counter exactly when the new member is a technician |
| Documents.DigitsOnly | services/pdfService.ts:6 | `replace(/\D/g, '')` leaves only ASCII digits and never lengthens the text |
| Documents.DigitsOnlyOfDigits | services/pdfService.ts:6 | a text of digits only is left as it is |
| Documents.DigitsOnlyAppend | services/pdfService.ts:6 | stripping a concatenation strips each part |
| Documents.DigitsOnlyIdempotent | services/pdfService.ts:6 | stripping twice is stripping once |
| Documents.MaskDigits | services/pdfService.ts:8 | the parentheses, space and dash of the mask contribute no digits, so the mask's digits are exactly the cleaned digits |
| Documents.FormatPhoneKeepsDigits | services/pdfService.ts:5-13 | round trip: the digits of the formatted phone are exactly the digits of the input |
| Documents.FormatPhoneShape | services/pdfService.ts:5-13 | 11 digits: `(DD) DDDDD-DDDD`; 10 digits: `(DD) DDDD-DDDD`; in both cases the digits read in order are the input's digits; any other count: the input unchanged |
| Documents.FormatPhoneIdempotent | services/pdfService.ts:5-13 | formatting an already formatted phone changes nothing |
| Documents.FormatPhoneDependsOnDigits | services/pdfService.ts:6-11 | two 10- or 11-digit phones with the same digits print alike, however they were typed |
| Documents.FormatPhoneShortExample | services/pdfService.ts:12 | a text with two digits is printed as typed |
| Documents.OsNumber | services/pdfService.ts:52 | `id.slice(0, 8)`: a prefix of the id, eight characters long when the id has at least eight, the whole id otherwise |
| Documents.OsNumberCollides | services/pdfService.ts:52 | ids of at least eight characters share an OS number exactly when their first eight characters agree |
| Documents.DistinctOrdersSameOsNumber | services/pdfService.ts:52 | two different orders can be printed under the same OS number |
| Documents.UpperChar | services/pdfService.ts:170 | a lowercase ASCII letter becomes its own capital (same position in the alphabet), and every other character is unchanged |
| Documents.ToUpperAscii | services/pdfService.ts:170 | `toUpperCase` keeps the length, turns each lowercase ASCII letter into its own capital in place, and changes no other character |
| Documents.ToUpperIdempotent | services/pdfService.ts:170 | upper-casing twice is upper-casing once |
| Documents.ToUpperKeepsDigits | services/pdfService.ts:170 | upper-casing keeps every digit of the id |
| Documents.ProtocolCode | services/pdfService.ts:170 | the receipt protocol is as long as the OS number and has no lowercase letter |
| Documents.ProtocolIsOsNumberUpperCased | services/pdfService.ts:170 | the protocol is the OS number upper-cased, upper-casing it again changes nothing, and each of its characters is the id's character upper-cased |
| Documents.OrElse | services/pdfService.ts:60 | `value` or else `fallback`: a present, non-empty text is shown as it is; a missing or empty one gives the fallback; so a non-empty fallback never leaves the field blank |
| Documents.AddressNumber | services/pdfService.ts:60 | the address number is never blank: `S/N` when absent or empty (the same text on the receipt, line 177), otherwise the number as stored |
| Documents.CompletionDateText | services/pdfService.ts:68 | the completion date is never blank: `---` when absent or empty, otherwise the stored date |
| Documents.WorkReport | services/pdfService.ts:78 | the technical report is never blank: a stock sentence when none or an empty one was written, otherwise the stored text |
| Documents.TotalText | services/pdfService.ts:81 | the total is never blank: `0,00` when the order has no value, otherwise the locale text of the value |
| Documents.TechnicianName | services/pdfService.ts:69 | the resolved technician's non-empty name; the fallback when the technician is not resolved or has an empty name |
| Documents.OsTechnicianName | services/pdfService.ts:69 | the OS shows `Não atribuído` when the technician is not resolved or has an empty name, and never a blank |
| Documents.ReceiptTechnicianName | services/pdfService.ts:173 | the receipt shows `A definir` when the technician is not resolved or has an empty name, and never a blank |
| Documents.ResolveTechnician | App.tsx:573 | `users.find(u => u.id === technicianId)`: an account with the order's technician id, or none exactly when no account has it |
| Documents.OsShowsFirstMatchingTechnician | App.tsx:573 | the OS prints the name of the first account with the order's technician id |
| Documents.RemovedTechnicianUnresolved | services/pdfService.ts:69 | once the technician's account is removed, the OS prints `Não atribuído` and the receipt `A definir`, while the orders keep the removed id |
| AppStore.AlertShown | App.tsx:143-588 | the text of the `alert` a handler calls: none for the silent early returns (no selection, unknown target, the `currentUser!` TypeError); a text for the credentials, e-mail and value failures; on success, a confirmation exactly for the staff form, a new order, conclude, reschedule and transfer |
| AppStore.ConcludeMessage | App.tsx:176-194 | the conclude form shows nothing without a selection, the value alert for NaN, and `Visita finalizada com sucesso!` otherwise |
| AppStore.RescheduleMessage | App.tsx:197-210 | the reschedule form shows nothing without a selection and `Chamado reagendado.` otherwise |
| AppStore.TransferMessage | App.tsx:213-233 | the transfer form shows `OS transferida para o novo técnico.` exactly when there is a selection, a target with the id and a session, and nothing otherwise |
| AppStore.MemberMessages | App.tsx:146-149 | a taken e-mail gives `Este e-mail já está sendo utilizado.` on sign-up and `E-mail já cadastrado.` on the staff form (App.tsx:583); only the staff form confirms success (App.tsx:588) |
| AppStore.Store.constructor | App.tsx:104-109 | the stored snapshot when there is one, otherwise the seed, which satisfies the invariant; storage holds the state |
| AppStore.Store.Run | App.tsx:128-130 | the state becomes the handler's new state, or stays the same when the handler returns early; storage is written with it; the text shown is `AlertShown` of the outcome; an offered command with fresh ids keeps the invariant |
| AppStore.Store.Reload | App.tsx:104-105 | a reload reads back exactly the state held before it |
| AppStore.Store.HandleLogin | App.tsx:137-144 | the credentials alert exactly when no account matches, with the state unchanged; otherwise the session is an account with those credentials |
| AppStore.Store.HandleRegister | App.tsx:146-167 | the e-mail alert exactly when the e-mail is taken, and no alert otherwise; otherwise the new account is appended and signed in; the invariant is kept when nobody was signed in and the id is fresh |
| AppStore.Store.AddUser | App.tsx:581-588 | a taken e-mail: `E-mail já cadastrado.` and no change; otherwise `Novo membro adicionado com sucesso!` and only the account list grows, by the new member; the invariant is kept for an administrator and a fresh id |
| AppStore.Store.DeleteUser | App.tsx:469 | no account with the id remains; the invariant is kept when the button is offered |
| AppStore.Store.Logout | App.tsx:326 | only the session changes, to none |
| AppStore.Store.CreateOS | App.tsx:516-526 | the order list grows by exactly the new PENDING order at its end, confirmed with `OS Agendada com sucesso!` |
| AppStore.Store.HandleUpdateStatus | App.tsx:169-174 | every order with the id is ACCEPTED afterwards |
| AppStore.Store.HandleConcludeOS | App.tsx:176-195 | no selection: nothing shown and no change; NaN: the value alert and no change; otherwise the conclude transition's state and `Visita finalizada com sucesso!` |
| AppStore.Store.HandleReschedule | App.tsx:197-211 | no selection: nothing shown and no change; otherwise the reschedule transition's state and `Chamado reagendado.` |
| AppStore.Store.HandleTransfer | App.tsx:213-234 | a confirmation exactly when there is a selection, a target with the id and a session, and then the transfer transition's state; otherwise nothing shown and no change |
| AppStore.SeededSession | App.tsx:103-130 | from an empty storage: sign in as the seed administrator, add a technician, open an order. Storage then holds two accounts and one PENDING order, and the invariant |

## Where the code departs from its documented intent

The model follows the code in each case.

- There is no transition from RESCHEDULED back to ACCEPTED. No control of the
  interface is shown for a RESCHEDULED order (App.tsx:422-434), so
  `Lifecycle.Settled` counts RESCHEDULED as final.
- Concluding accepts any number `parseFloat` reads, negative ones included.
  Only NaN is rejected (App.tsx:179).
- The invariant "the signed-in user exists in the account list" does not
  hold. An administrator other than `admin-1` may remove their own account
  (App.tsx:468-469), and the session keeps the removed account
  (`Lifecycle.RemovingOneselfLeavesSession`).
- The stored snapshot is taken as it is (App.tsx:105). There is no fallback
  when it cannot be parsed, and no check that it satisfies the invariant. The
  constructor of `AppStore.Store` promises the invariant only for the seed.
- The transfer target is looked up by id only (App.tsx:216). Its being a
  technician other than the sender is a property of the options offered
  (App.tsx:508), so it is a guard of `Lifecycle.Offered`.

## Left out

- Local-storage I/O and `JSON.parse`/`JSON.stringify` (App.tsx:104-105,
  128-130): I/O. Storage is the `saved` field of `AppStore.Store`, and the
  stored snapshot is a constructor parameter.
- `crypto.randomUUID` (App.tsx:153, 519, 584): randomness. Fresh ids are
  parameters, and their freshness is a precondition of the invariant lemmas.
- The clock, `setHours` and millisecond arithmetic (App.tsx:189, 222,
  242-248): clock and locale calls. "Today" and the current time are
  parameters. A JavaScript `Date` at local midnight is a day number, so
  daylight-saving shifts are not modelled.
- Floating point: money is `real`. The result of `parseFloat` is an
  `Option<real>` parameter, with `None` for NaN.
- `COMMISSION_RATE`: the constant lives in constants.ts, which is not part
  of this model. It is the parameter `rate`, with the `|| 0.07` fallback
  modelled.
- `Number` on a date part reads digits only (an empty part reads as 0).
  Signs, blanks, decimal points and exponents give `None`. Dates the
  application writes contain none of them.
- Currency formatting (`formatCurrency`, App.tsx:9-11, and `toLocaleString`,
  services/pdfService.ts:81) is locale formatting. The OS total takes the
  formatting as the parameter `money`. The commission preview of the
  conclude form (App.tsx:490) is not modelled.
- HTML assembly, `window.open`, `document.write` and printing
  (services/pdfService.ts:19-20, 22-106, 113-197) are rendering. Only the
  values the documents derive from an order are modelled.
- `getGoogleMapsUrl` (App.tsx:13-16) is a thin wrapper over
  `encodeURIComponent`.
- `alert` and `confirm` are UI calls. The text of each `alert` is the
  `Option<string>` the store's handlers return (`AppStore.AlertShown`):
  failures at App.tsx:143, 149, 180 and 583, confirmations at 194, 210,
  233, 526 and 588, and nothing at the silent returns of 178, 199, 215 and
  217 or the TypeError at 220. A transition's `AppError` is why it stopped,
  not what is shown. A confirmed removal is the `RemoveStaff` command.
- React rendering, tabs, modal flags and form state are UI. The selected
  order is the `selection` parameter of the handlers, and the typed forms are
  `AuthForm` and `ScheduleForm`.
- Sales, expenses, commission payments, notifications, chat, reviews,
  reminders and cancellation fields: no handler of the core touches them.
  The collections are carried along unchanged.
- The schedule fields `startTime`, `endTime`, `totalServiceValue`,
  `depositValue` and `balanceValue` (types.ts:95-107) are dropped from the
  `Schedule` record: no handler of the core reads or writes them.
- Finance.CompletionDay: does not model the range of a JavaScript `Date`.
  A time more than 8.64e15 ms from the epoch is an Invalid Date, which
  compares false in every window (App.tsx:254), but the model gives a day
  number for every parsed date, so a stored year after 275760 would be
  counted. The application only writes today's date.
- Documents.OsNumber: `slice(0, 8)` counts UTF-16 code units and a Dafny
  string counts code points; the two agree on the ASCII ids
  `crypto.randomUUID` produces, and the model assumes ASCII ids.
- Documents.ToUpperAscii: upper-cases ASCII letters only, because
  `toUpperCase` on other scripts follows Unicode case tables. The ids that
  reach it come from `crypto.randomUUID` and are ASCII.
- Finance.ConcludeCountsInEveryWindow: states the growth of each window's
  total, not of its commission. The commission is the total times the
  applied rate (`PeriodStats.Commission`), and `Finance.CommissionMonotone`
  relates the two.
- Finance.CalculateForPeriod: its own contract fixes only the applied rate.
  What it sums is stated by `Finance.CountedExactly` and the window lemmas.
- Calendar.DayNumberChronological: holds for real dates from year 100 on
  (`ValidDate`). The 0..99 → 1900s rule of `new Date` is modelled in
  `DateValue` but not proved about, because the application writes
  four-digit years.
