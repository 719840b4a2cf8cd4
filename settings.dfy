/**
 * The settings page: a record of eight notification switches, each flipped
 * on its own by a toggle handler, and the general-settings form whose schema
 * puts minimum lengths on three text fields. Whether an e-mail address or a
 * URL is well formed is decided by the validation library and enters the
 * model as the predicates emailOk and urlOk.
 */
module Settings {

  datatype Key = Email | Sms | Push | System | Appointments | PatientAdmission | CriticalAlerts | Updates

  datatype Notifications = Notifications(
    email: bool, sms: bool, push: bool, system: bool,
    appointments: bool, patientAdmission: bool, criticalAlerts: bool, updates: bool)

  /** `notifications[key]`. */
  function Get(n: Notifications, k: Key): bool
  {
    match k
    case Email => n.email
    case Sms => n.sms
    case Push => n.push
    case System => n.system
    case Appointments => n.appointments
    case PatientAdmission => n.patientAdmission
    case CriticalAlerts => n.criticalAlerts
    case Updates => n.updates
  }

  /** `{...prev, [key]: !prev[key]}`: the switch named by the key is negated
      and every other switch is copied. */
  function Toggled(n: Notifications, k: Key): Notifications
  {
    Notifications(
      n.email != (k == Email), n.sms != (k == Sms), n.push != (k == Push), n.system != (k == System),
      n.appointments != (k == Appointments), n.patientAdmission != (k == PatientAdmission),
      n.criticalAlerts != (k == CriticalAlerts), n.updates != (k == Updates))
  }

  /** A toggle flips switch k and leaves every other switch as it was. */
  lemma ToggledSwitch(n: Notifications, k: Key, j: Key)
    ensures Get(Toggled(n, k), j) == (Get(n, j) != (j == k))
  {
  }

  /** Toggling the same switch twice changes nothing. */
  lemma ToggleTwice(n: Notifications, k: Key)
    ensures Toggled(Toggled(n, k), k) == n
  {
  }

  /** Toggles of two switches can happen in either order. */
  lemma TogglesCommute(n: Notifications, j: Key, k: Key)
    ensures Toggled(Toggled(n, j), k) == Toggled(Toggled(n, k), j)
  {
  }

  const InitialNotifications := Notifications(true, false, true, true, true, true, true, false)

  /** Initially SMS and product updates are off and the other six are on. */
  lemma InitialSwitches(k: Key)
    ensures Get(InitialNotifications, k) <==> k != Sms && k != Updates
  {
  }

  /** The notification preferences panel's state. */
  class NotificationSettings {
    var notifications: Notifications

    constructor()
      ensures notifications == InitialNotifications
    {
      notifications := InitialNotifications;
    }

    /** `handleToggle(key)`. */
    method HandleToggle(k: Key)
      modifies this
      ensures notifications == Toggled(old(notifications), k)
    {
      notifications := Toggled(notifications, k);
    }
  }

  datatype GeneralForm = GeneralForm(hospitalName: string, email: string, phone: string, address: string, website: string)

  datatype Field = HospitalName | EmailAddress | Phone | Address | Website

  datatype Issue = Issue(field: Field, message: string)

  const HospitalNameMessage := "Hospital name must be at least 2 characters."
  const EmailMessage := "Please enter a valid email address."
  const PhoneMessage := "Please enter a valid phone number."
  const AddressMessage := "Address must be at least 5 characters."
  const WebsiteMessage := "Please enter a valid URL."

  /** The schema's rule for one field. */
  predicate FieldOk(f: GeneralForm, field: Field, emailOk: string -> bool, urlOk: string -> bool)
  {
    match field
    case HospitalName => |f.hospitalName| >= 2
    case EmailAddress => emailOk(f.email)
    case Phone => |f.phone| >= 10
    case Address => |f.address| >= 5
    case Website => urlOk(f.website)
  }

  function Message(field: Field): string
  {
    match field
    case HospitalName => HospitalNameMessage
    case EmailAddress => EmailMessage
    case Phone => PhoneMessage
    case Address => AddressMessage
    case Website => WebsiteMessage
  }

  function IssueIf(ok: bool, field: Field): seq<Issue>
  {
    if ok then [] else [Issue(field, Message(field))]
  }

  /** The fields an issue list complains about, in order. */
  function IssueFields(r: seq<Issue>): seq<Field>
  {
    seq(|r|, i requires 0 <= i < |r| => r[i].field)
  }

  /** `generalFormSchema.safeParse(values)`: one issue per failing field, in
      the schema's field order, each with the schema's message. */
  function Validate(f: GeneralForm, emailOk: string -> bool, urlOk: string -> bool): seq<Issue>
  {
    IssueIf(|f.hospitalName| >= 2, HospitalName)
      + IssueIf(emailOk(f.email), EmailAddress)
      + IssueIf(|f.phone| >= 10, Phone)
      + IssueIf(|f.address| >= 5, Address)
      + IssueIf(urlOk(f.website), Website)
  }

  lemma IssueFieldsAppend(a: seq<Issue>, b: seq<Issue>)
    ensures IssueFields(a + b) == IssueFields(a) + IssueFields(b)
  {
  }

  function FieldIf(ok: bool, field: Field): seq<Field>
  {
    if ok then [] else [field]
  }

  /** The fields Validate reports, written out. */
  lemma ValidateFields(f: GeneralForm, emailOk: string -> bool, urlOk: string -> bool)
    ensures IssueFields(Validate(f, emailOk, urlOk)) ==
      FieldIf(|f.hospitalName| >= 2, HospitalName) + FieldIf(emailOk(f.email), EmailAddress)
      + FieldIf(|f.phone| >= 10, Phone) + FieldIf(|f.address| >= 5, Address) + FieldIf(urlOk(f.website), Website)
  {
    var a := IssueIf(|f.hospitalName| >= 2, HospitalName);
    var b := IssueIf(emailOk(f.email), EmailAddress);
    var c := IssueIf(|f.phone| >= 10, Phone);
    var d := IssueIf(|f.address| >= 5, Address);
    var e := IssueIf(urlOk(f.website), Website);
    IssueFieldsAppend(a, b);
    IssueFieldsAppend(a + b, c);
    IssueFieldsAppend(a + b + c, d);
    IssueFieldsAppend(a + b + c + d, e);
    IssueFieldsIf(|f.hospitalName| >= 2, HospitalName);
    IssueFieldsIf(emailOk(f.email), EmailAddress);
    IssueFieldsIf(|f.phone| >= 10, Phone);
    IssueFieldsIf(|f.address| >= 5, Address);
    IssueFieldsIf(urlOk(f.website), Website);
  }

  lemma IssueFieldsIf(ok: bool, field: Field)
    ensures IssueFields(IssueIf(ok, field)) == FieldIf(ok, field)
  {
  }

  /** The position of a field among the schema's keys. */
  function Rank(field: Field): nat
  {
    match field
    case HospitalName => 0
    case EmailAddress => 1
    case Phone => 2
    case Address => 3
    case Website => 4
  }

  /** Every issue's field comes before the next issue's field in the schema. */
  ghost predicate InSchemaOrder(r: seq<Issue>)
  {
    forall i, j :: 0 <= i < j < |r| ==> Rank(r[i].field) < Rank(r[j].field)
  }

  /** Every issue's field ranks below n. */
  ghost predicate RanksBelow(r: seq<Issue>, n: nat)
  {
    forall i :: 0 <= i < |r| ==> Rank(r[i].field) < n
  }

  /** Appending the issue of a later field keeps the list in schema order. */
  lemma AppendLaterField(r: seq<Issue>, ok: bool, field: Field)
    requires InSchemaOrder(r) && RanksBelow(r, Rank(field))
    ensures InSchemaOrder(r + IssueIf(ok, field))
    ensures RanksBelow(r + IssueIf(ok, field), Rank(field) + 1)
  {
    var t := r + IssueIf(ok, field);
    forall i, j | 0 <= i < j < |t| ensures Rank(t[i].field) < Rank(t[j].field) {
      if j >= |r| {
        assert t[j].field == field && t[i] == r[i];
      }
    }
  }

  /** The issues come in the schema's key order, so each field at most once. */
  lemma ValidateInSchemaOrder(f: GeneralForm, emailOk: string -> bool, urlOk: string -> bool)
    ensures InSchemaOrder(Validate(f, emailOk, urlOk))
    ensures |Validate(f, emailOk, urlOk)| <= 5
  {
    var a := IssueIf(|f.hospitalName| >= 2, HospitalName);
    AppendLaterField([], |f.hospitalName| >= 2, HospitalName);
    assert [] + a == a;
    AppendLaterField(a, emailOk(f.email), EmailAddress);
    var b := a + IssueIf(emailOk(f.email), EmailAddress);
    AppendLaterField(b, |f.phone| >= 10, Phone);
    var c := b + IssueIf(|f.phone| >= 10, Phone);
    AppendLaterField(c, |f.address| >= 5, Address);
    var d := c + IssueIf(|f.address| >= 5, Address);
    AppendLaterField(d, urlOk(f.website), Website);
  }

  /** A field is reported exactly when its rule fails. */
  lemma ValidateReports(f: GeneralForm, emailOk: string -> bool, urlOk: string -> bool)
    ensures forall field :: field in IssueFields(Validate(f, emailOk, urlOk)) <==> !FieldOk(f, field, emailOk, urlOk)
  {
    ValidateFields(f, emailOk, urlOk);
  }

  /** Every issue carries its own field's message. */
  lemma ValidateMessages(f: GeneralForm, emailOk: string -> bool, urlOk: string -> bool)
    ensures forall i :: 0 <= i < |Validate(f, emailOk, urlOk)| ==>
              Validate(f, emailOk, urlOk)[i].message == Message(Validate(f, emailOk, urlOk)[i].field)
  {
  }

  /** The form is valid exactly when the hospital name has at least 2
      characters, the phone at least 10, the address at least 5, and the
      e-mail and website pass their checks. */
  lemma ValidIff(f: GeneralForm, emailOk: string -> bool, urlOk: string -> bool)
    ensures Validate(f, emailOk, urlOk) == [] <==>
      |f.hospitalName| >= 2 && emailOk(f.email) && |f.phone| >= 10 && |f.address| >= 5 && urlOk(f.website)
  {
  }

  const DefaultForm := GeneralForm(
    "MedCare General Hospital",
    "admin@medcare.hospital",
    "555-123-4567",
    "123 Healthcare Ave, Medical District, MD 12345",
    "https://medcare.hospital")

  /** The default values meet the three length rules, so they are valid as
      soon as the e-mail and the URL pass their checks. */
  lemma DefaultsMeetLengthRules(emailOk: string -> bool, urlOk: string -> bool)
    ensures |DefaultForm.hospitalName| >= 2 && |DefaultForm.phone| >= 10 && |DefaultForm.address| >= 5
    ensures Validate(DefaultForm, emailOk, urlOk) == [] <==> emailOk(DefaultForm.email) && urlOk(DefaultForm.website)
  {
    ValidIff(DefaultForm, emailOk, urlOk);
  }
}
