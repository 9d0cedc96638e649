/**
 * The text the two printable documents derive from a service order
 * (services/pdfService.ts): the phone mask, the OS number and protocol code,
 * and the fallbacks shown when a field is missing. The HTML around these
 * values, the print window and the currency formatting are not modelled.
 */
module Documents {
  import opened Base
  import opened Domain
  import opened Calendar
  import opened Transitions

  // ---------------------------------------------------------------------
  // formatPhone (services/pdfService.ts:5-13)
  // ---------------------------------------------------------------------

  /** `phone.replace(/\D/g, '')`: the ASCII digits of the text, in order (`\D` is any other character). */
  function DigitsOnly(s: string): (r: string)
    ensures AllDigits(r)
    ensures |r| <= |s|
  {
    if s == [] then []
    else if IsDigit(s[0]) then [s[0]] + DigitsOnly(s[1..])
    else DigitsOnly(s[1..])
  }

  /** A text of digits only has nothing to remove. */
  lemma DigitsOnlyOfDigits(s: string)
    requires AllDigits(s)
    ensures DigitsOnly(s) == s
  {
    KeepDigits(s, []);
    assert s + [] == s;
  }

  /** Removing the non-digits of a concatenation removes them part by part. */
  lemma {:induction false} DigitsOnlyAppend(a: string, b: string)
    ensures DigitsOnly(a + b) == DigitsOnly(a) + DigitsOnly(b)
  {
    if a == [] {
      assert a + b == b;
    } else {
      assert (a + b)[1..] == a[1..] + b;
      DigitsOnlyAppend(a[1..], b);
    }
  }

  /** Removing the non-digits twice is removing them once. */
  lemma DigitsOnlyIdempotent(s: string)
    ensures DigitsOnly(DigitsOnly(s)) == DigitsOnly(s)
  {
    DigitsOnlyOfDigits(DigitsOnly(s));
  }

  /**
   * The phone mask of both documents: eleven digits become `(DD) DDDDD-DDDD`,
   * ten digits `(DD) DDDD-DDDD`, and any other text is shown as it was typed.
   */
  function FormatPhone(phone: string): string
  {
    var c := DigitsOnly(phone);
    if |c| == 11 then "(" + c[..2] + ") " + c[2..7] + "-" + c[7..]
    else if |c| == 10 then "(" + c[..2] + ") " + c[2..6] + "-" + c[6..]
    else phone
  }

  /**
   * `r` is the mask with its dash after `dash` characters: an area code of two
   * digits in parentheses, a space, the first block, a dash, the last four.
   */
  predicate Masked(r: string, dash: nat)
  {
    |r| == dash + 5 && dash >= 6
    && r[0] == '(' && r[3] == ')' && r[4] == ' ' && r[dash] == '-'
    && IsDigit(r[1]) && IsDigit(r[2])
    && (forall i :: 5 <= i < dash ==> IsDigit(r[i]))
    && (forall i :: dash < i < |r| ==> IsDigit(r[i]))
  }

  /** Characters that are not digits vanish from the front of a text. */
  lemma {:induction false} SkipNonDigits(p: string, x: string)
    requires forall i :: 0 <= i < |p| ==> !IsDigit(p[i])
    ensures DigitsOnly(p + x) == DigitsOnly(x)
  {
    if p == [] {
      assert p + x == x;
    } else {
      assert (p + x)[0] == p[0] && (p + x)[1..] == p[1..] + x;
      SkipNonDigits(p[1..], x);
    }
  }

  /** Digits at the front of a text are kept, in order. */
  lemma {:induction false} KeepDigits(d: string, x: string)
    requires AllDigits(d)
    ensures DigitsOnly(d + x) == d + DigitsOnly(x)
  {
    if d == [] {
      assert d + x == x;
    } else {
      assert (d + x)[0] == d[0] && (d + x)[1..] == d[1..] + x;
      assert AllDigits(d[1..]) by {
        forall i | 0 <= i < |d[1..]| ensures IsDigit(d[1..][i]) {
          assert d[1..][i] == d[i + 1];
        }
      }
      KeepDigits(d[1..], x);
      assert [d[0]] + (d[1..] + DigitsOnly(x)) == d + DigitsOnly(x);
    }
  }

  /** A text is its three consecutive slices put back together. */
  lemma ThreeParts(c: string, i: nat, j: nat)
    requires i <= j <= |c|
    ensures c[..i] + (c[i..j] + c[j..]) == c
  {
    assert c[..i] + (c[i..j] + c[j..]) == c[..i] + c[i..j] + c[j..];
    assert c[..i] + c[i..j] == c[..j];
  }

  /** The parts the mask is made of, with the digits they contribute. */
  lemma MaskDigits(c: string, cut: nat)
    requires AllDigits(c) && 2 <= cut <= |c|
    ensures DigitsOnly("(" + c[..2] + ") " + c[2..cut] + "-" + c[cut..]) == c
  {
    var area, first, last := c[..2], c[2..cut], c[cut..];
    assert AllDigits(area) && AllDigits(first) && AllDigits(last);
    var m3 := "-" + last;
    var m2 := first + m3;
    var m1 := ") " + m2;
    var m0 := area + m1;
    assert "(" + area + ") " + first + "-" + last == "(" + m0;
    DigitsOnlyOfDigits(last);
    SkipNonDigits("-", last);
    KeepDigits(first, m3);
    SkipNonDigits(") ", m2);
    KeepDigits(area, m1);
    SkipNonDigits("(", m0);
    ThreeParts(c, 2, cut);
  }

  /** Formatting never adds, drops or reorders a digit. */
  lemma FormatPhoneKeepsDigits(phone: string)
    ensures DigitsOnly(FormatPhone(phone)) == DigitsOnly(phone)
  {
    var c := DigitsOnly(phone);
    if |c| == 11 {
      MaskDigits(c, 7);
    } else if |c| == 10 {
      MaskDigits(c, 6);
    } else {
      DigitsOnlyIdempotent(phone);
    }
  }

  /**
   * With eleven digits the result is the mobile mask, with ten the landline
   * mask, and in both cases its digits read in order are the input's digits;
   * with any other number of digits the input comes back unchanged.
   */
  lemma FormatPhoneShape(phone: string)
    ensures |DigitsOnly(phone)| == 11 ==>
      Masked(FormatPhone(phone), 10) && DigitsOnly(FormatPhone(phone)) == DigitsOnly(phone)
    ensures |DigitsOnly(phone)| == 10 ==>
      Masked(FormatPhone(phone), 9) && DigitsOnly(FormatPhone(phone)) == DigitsOnly(phone)
    ensures |DigitsOnly(phone)| != 11 && |DigitsOnly(phone)| != 10 ==> FormatPhone(phone) == phone
  {
    FormatPhoneKeepsDigits(phone);
  }

  /** Formatting an already formatted phone changes nothing. */
  lemma FormatPhoneIdempotent(phone: string)
    ensures FormatPhone(FormatPhone(phone)) == FormatPhone(phone)
  {
    FormatPhoneKeepsDigits(phone);
  }

  /** Two phones with the same digits print the same whenever either one is masked. */
  lemma FormatPhoneDependsOnDigits(p: string, q: string)
    requires DigitsOnly(p) == DigitsOnly(q)
    requires |DigitsOnly(p)| == 10 || |DigitsOnly(p)| == 11
    ensures FormatPhone(p) == FormatPhone(q)
  {
  }

  /** A text with too few digits is printed as typed. */
  lemma FormatPhoneShortExample()
    ensures FormatPhone("ramal 12") == "ramal 12"
  {
    DigitsOnlyOfDigits("12");
    DigitsOnlyAppend("ramal ", "12");
    assert "ramal 12" == "ramal " + "12";
  }

  // ---------------------------------------------------------------------
  // OS number and protocol code (services/pdfService.ts:52, 170)
  // ---------------------------------------------------------------------

  /** `schedule.id.slice(0, 8)`: at most the first eight characters of the id. */
  function OsNumber(id: string): (r: string)
    ensures |r| <= 8 && r <= id
    ensures |id| >= 8 ==> |r| == 8
    ensures |id| <= 8 ==> r == id
  {
    if |id| <= 8 then id else id[..8]
  }

  /** Ids from eight characters on share an OS number exactly when they share their first eight characters. */
  lemma OsNumberCollides(a: string, b: string)
    requires |a| >= 8 && |b| >= 8
    ensures OsNumber(a) == OsNumber(b) <==> a[..8] == b[..8]
  {
  }

  /** So two different orders can be printed under the same number. */
  lemma DistinctOrdersSameOsNumber()
    ensures "1f2e3d4c-aaaa" != "1f2e3d4c-bbbb"
    ensures OsNumber("1f2e3d4c-aaaa") == OsNumber("1f2e3d4c-bbbb") == "1f2e3d4c"
  {
  }

  /** `toUpperCase` on one character, for the ASCII letters. */
  function UpperChar(c: char): (r: char)
    ensures !('a' <= r <= 'z')
    ensures 'a' <= c <= 'z' ==> 'A' <= r <= 'Z' && r as int - 'A' as int == c as int - 'a' as int
    ensures 'a' <= c <= 'z' || r == c
  {
    if 'a' <= c <= 'z' then (c as int - 'a' as int + 'A' as int) as char else c
  }

  /** `toUpperCase` on a text whose letters are ASCII. */
  function ToUpperAscii(s: string): (r: string)
    ensures |r| == |s|
    ensures forall i :: 0 <= i < |r| ==> !('a' <= r[i] <= 'z')
    ensures forall i :: 0 <= i < |r| ==> r[i] == s[i] || 'a' <= s[i] <= 'z'
    ensures forall i :: 0 <= i < |r| && 'a' <= s[i] <= 'z' ==>
      'A' <= r[i] <= 'Z' && r[i] as int - 'A' as int == s[i] as int - 'a' as int
  {
    seq(|s|, i requires 0 <= i < |s| => UpperChar(s[i]))
  }

  /** Upper-casing twice is upper-casing once. */
  lemma ToUpperIdempotent(s: string)
    ensures ToUpperAscii(ToUpperAscii(s)) == ToUpperAscii(s)
  {
  }

  /** The digits of an id survive upper-casing where they stand. */
  lemma ToUpperKeepsDigits(s: string)
    ensures DigitsOnly(ToUpperAscii(s)) == DigitsOnly(s)
  {
    if s != [] {
      assert ToUpperAscii(s)[1..] == ToUpperAscii(s[1..]);
      ToUpperKeepsDigits(s[1..]);
    }
  }

  /** The receipt's protocol: the OS number upper-cased (services/pdfService.ts:170). */
  function ProtocolCode(id: string): (r: string)
    ensures |r| == |OsNumber(id)|
    ensures forall i :: 0 <= i < |r| ==> !('a' <= r[i] <= 'z')
  {
    ToUpperAscii(OsNumber(id))
  }

  /** The protocol and the OS number of the same order differ only in letter case. */
  lemma ProtocolIsOsNumberUpperCased(id: string)
    ensures ProtocolCode(id) == ToUpperAscii(OsNumber(id))
    ensures ProtocolCode(id) == ToUpperAscii(ProtocolCode(id))
    ensures forall i :: 0 <= i < |ProtocolCode(id)| ==> UpperChar(id[i]) == ProtocolCode(id)[i]
  {
    ToUpperIdempotent(OsNumber(id));
  }

  // ---------------------------------------------------------------------
  // Field fallbacks (services/pdfService.ts:60, 68, 69, 78, 81, 173, 177)
  // ---------------------------------------------------------------------

  /** `value || fallback` for an optional text: a missing or empty text gives way. */
  function OrElse(value: Option<string>, fallback: string): (r: string)
    ensures value.Some? && value.value != "" ==> r == value.value
    ensures value.None? || value.value == "" ==> r == fallback
    ensures fallback != "" ==> r != ""
  {
    if value.Some? && value.value != "" then value.value else fallback
  }

  /** The address number, `S/N` when there is none or it is empty (services/pdfService.ts:60, 177). */
  function AddressNumber(x: Schedule): (r: string)
    ensures r != ""
    ensures x.clientNumber.Some? && x.clientNumber.value != "" ==> r == x.clientNumber.value
    ensures x.clientNumber.None? || x.clientNumber.value == "" ==> r == "S/N"
  {
    OrElse(x.clientNumber, "S/N")
  }

  /** The completion date of the OS, `---` when it is absent or empty (services/pdfService.ts:68). */
  function CompletionDateText(x: Schedule): (r: string)
    ensures r != ""
    ensures x.completionDate.None? || x.completionDate.value == "" ==> r == "---"
    ensures x.completionDate.Some? && x.completionDate.value != "" ==> r == x.completionDate.value
  {
    OrElse(x.completionDate, "---")
  }

  /** The technical report of the OS, a stock sentence when none or an empty one was written (services/pdfService.ts:78). */
  function WorkReport(x: Schedule): (r: string)
    ensures r != ""
    ensures x.workDoneDescription.None? || x.workDoneDescription.value == "" ==> r == "<i>Serviço concluído.</i>"
    ensures x.workDoneDescription.Some? && x.workDoneDescription.value != "" ==> r == x.workDoneDescription.value
  {
    OrElse(x.workDoneDescription, "<i>Serviço concluído.</i>")
  }

  /**
   * The total of the OS: the locale text of the final value, or `0,00` when
   * there is no value (services/pdfService.ts:81). The locale formatting is
   * the parameter `money`.
   */
  function TotalText(x: Schedule, money: real -> string): (r: string)
    ensures r != ""
    ensures x.finalValue.None? ==> r == "0,00"
    ensures x.finalValue.Some? && money(x.finalValue.value) != "" ==> r == money(x.finalValue.value)
  {
    OrElse(if x.finalValue.Some? then Some(money(x.finalValue.value)) else None, "0,00")
  }

  /** `technician?.name || fallback`. */
  function TechnicianName(technician: Option<User>, fallback: string): (r: string)
    ensures technician.Some? && technician.value.name != "" ==> r == technician.value.name
    ensures technician.None? || technician.value.name == "" ==> r == fallback
    ensures fallback != "" ==> r != ""
  {
    OrElse(if technician.Some? then Some(technician.value.name) else None, fallback)
  }

  /** The technician line of the OS (services/pdfService.ts:69). */
  function OsTechnicianName(technician: Option<User>): (r: string)
    ensures r != ""
    ensures technician.None? || technician.value.name == "" ==> r == "Não atribuído"
  {
    TechnicianName(technician, "Não atribuído")
  }

  /** The technician line of the receipt (services/pdfService.ts:173). */
  function ReceiptTechnicianName(technician: Option<User>): (r: string)
    ensures r != ""
    ensures technician.None? || technician.value.name == "" ==> r == "A definir"
  {
    TechnicianName(technician, "A definir")
  }

  /** The technician handed to the OS: `users.find(u => u.id === schedule.technicianId)` (App.tsx:573). */
  function ResolveTechnician(users: seq<User>, x: Schedule): (r: Option<User>)
    ensures r.Some? ==> r.value in users && r.value.id == x.technicianId
    ensures r.None? <==> !HasUserId(users, x.technicianId)
  {
    Find(users, HasId(x.technicianId))
  }

  /** The OS shows the name of the first account with the order's technician id. */
  lemma OsShowsFirstMatchingTechnician(users: seq<User>, x: Schedule, i: nat)
    requires i < |users| && users[i].id == x.technicianId && users[i].name != ""
    requires forall j :: 0 <= j < i ==> users[j].id != x.technicianId
    ensures OsTechnicianName(ResolveTechnician(users, x)) == users[i].name
  {
    FirstIndexUnique(users, HasId(x.technicianId), i);
    assert ResolveTechnician(users, x) == Some(users[i]);
  }

  /**
   * Once the assigned technician's account is removed, the order prints
   * "Não atribuído" on the OS and "A definir" on the receipt, while the order
   * keeps the removed id.
   */
  lemma RemovedTechnicianUnresolved(s: AppState, x: Schedule)
    ensures OsTechnicianName(ResolveTechnician(DeleteMember(s, x.technicianId).users, x)) == "Não atribuído"
    ensures ReceiptTechnicianName(ResolveTechnician(DeleteMember(s, x.technicianId).users, x)) == "A definir"
    ensures DeleteMember(s, x.technicianId).schedules == s.schedules
  {
  }
}
