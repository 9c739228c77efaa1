/** The Application document: its enumerations, nested sections, defaults and
    the validation the schema applies on every save, plus the collection
    that stores the documents (backend/models/Application.js). */
module ApplicationModel {
  import opened Common

  datatype Status =
    | Draft | Submitted | UnderReview | Approved | Rejected | PendingVerification | AuditFlagged

  datatype AuditStatus = NotSelected | Selected | Completed | Flagged

  /** Ration-card categories; `NoCard` is the schema's 'none'. */
  datatype RationCategory = BPL | APL | AAY | NoCard

  datatype Gender = Male | Female | Other

  /** The six upload slots of the `documents` section. */
  datatype DocKind = Aadhaar | RationCard | IncomeCertificate | ElectricityBill | Pan | AddressProof

  /** Each section is a set of optional paths: `None` is a path that is not
      set. The same records serve as the partial payloads of create and
      update, where `None` is a key the payload does not carry. */
  datatype PersonalDetails = PersonalDetails(
    name: Option<string>,
    fatherName: Option<string>,
    dateOfBirth: Option<int>,
    gender: Option<Gender>,
    aadhaarNumber: Option<string>,
    panNumber: Option<string>)

  datatype Address = Address(
    street: Option<string>, city: Option<string>, state: Option<string>, pincode: Option<string>)

  datatype HouseholdDetails = HouseholdDetails(
    familySize: Option<int>,
    rationCardNumber: Option<string>,
    rationCardCategory: Option<RationCategory>,
    address: Option<Address>)

  datatype IncomeDetails = IncomeDetails(
    annualIncome: Option<int>,
    incomeCertificateAmount: Option<int>,
    itrFiled: Option<bool>,
    selfDeclared: Option<bool>)

  const EmptyPersonal := PersonalDetails(None, None, None, None, None, None)
  const EmptyHousehold := HouseholdDetails(None, None, None, None)
  const EmptyIncome := IncomeDetails(None, None, None, None)

  datatype Breakdown = Breakdown(
    rationCardScore: int,
    incomeScore: int,
    electricityScore: int,
    itrScore: int,
    familySizeScore: int,
    totalScore: int)

  const ZeroBreakdown := Breakdown(0, 0, 0, 0, 0, 0)

  datatype Verification = Verification(
    verifiedBy: Option<Id>,
    verifiedAt: Option<int>,
    remarks: Option<string>,
    isManualOverride: bool,
    isFraud: bool,
    fraudReason: Option<string>)

  const DefaultVerification := Verification(None, None, None, false, false, None)

  datatype Consent = Consent(accepted: bool, acceptedAt: Option<int>, ipAddress: Option<string>)

  datatype Application = Application(
    applicantId: Id,
    personal: PersonalDetails,
    household: HouseholdDetails,
    income: IncomeDetails,
    documents: map<DocKind, string>,
    eligibilityScore: int,
    breakdown: Breakdown,
    status: Status,
    verification: Verification,
    auditStatus: AuditStatus,
    auditDate: Option<int>,
    auditOfficer: Option<Id>,
    consent: Consent,
    rejectionReason: Option<string>,
    certificateNumber: Option<string>,
    certificateUrl: Option<string>,
    createdAt: int)

  /** Mongoose's `required` on a String path refuses a missing value and the
      empty string. */
  predicate RequiredString(s: Option<string>) {
    s.Some? && s.value != ""
  }

  /** The checks the schema runs on save: the four required paths and the
      minimum family size (enumerations are enforced by the types). */
  predicate SchemaValid(a: Application) {
    && RequiredString(a.personal.name)
    && RequiredString(a.personal.aadhaarNumber)
    && a.household.familySize.Some? && a.household.familySize.value >= 1
    && a.income.annualIncome.Some?
  }

  /** A freshly constructed document: every schema default applied on top of
      the supplied sections. */
  function WithDefaults(applicantId: Id, personal: PersonalDetails, household: HouseholdDetails,
                        income: IncomeDetails, documents: map<DocKind, string>,
                        consent: Consent, createdAt: int): (a: Application)
    ensures a.status == Draft && a.auditStatus == NotSelected
    ensures a.eligibilityScore == 0 && a.breakdown == ZeroBreakdown
    ensures a.income.itrFiled.Some? && a.income.selfDeclared.Some?
    ensures income.itrFiled.None? ==> a.income.itrFiled == Some(false)
    ensures income.selfDeclared.None? ==> a.income.selfDeclared == Some(false)
    ensures !a.verification.isManualOverride && !a.verification.isFraud
    ensures a.personal == personal && a.household == household && a.documents == documents
    ensures a.income.annualIncome == income.annualIncome
    ensures a.income.incomeCertificateAmount == income.incomeCertificateAmount
  {
    Application(
      applicantId, personal, household,
      income.(itrFiled := Some(income.itrFiled.GetOr(false)),
              selfDeclared := Some(income.selfDeclared.GetOr(false))),
      documents, 0, ZeroBreakdown, Draft, DefaultVerification, NotSelected, None, None,
      consent, None, None, None, createdAt)
  }

  /** The statuses of an application that is still in progress. */
  predicate IsActive(s: Status) {
    s == Draft || s == Submitted || s == UnderReview || s == PendingVerification
  }

  predicate Distinct<T(==)>(s: seq<T>) {
    forall i, j :: 0 <= i < j < |s| ==> s[i] != s[j]
  }

  /** Every id of the list names a stored application. */
  predicate AllIn(apps: map<Id, Application>, ids: seq<Id>) {
    forall i :: 0 <= i < |ids| ==> ids[i] in apps
  }

  /** The applications collection: documents by id, and the ids in the order
      the documents were inserted. */
  class ApplicationCollection {
    var apps: map<Id, Application>
    var order: seq<Id>

    ghost predicate Valid()
      reads this
    {
      && Distinct(order)
      && (forall id :: id in apps <==> id in order)
      && (forall id :: id in apps ==> SchemaValid(apps[id]))
      && (forall id :: id in apps ==> ApprovalRecorded(apps[id]))
    }

    constructor ()
      ensures Valid() && apps == map[] && order == []
    {
      apps := map[];
      order := [];
    }
  }

  /** An approved application carries the reviewer, the time of the
      review and a certificate number, and is marked as a manual decision. */
  predicate ApprovalRecorded(a: Application) {
    a.status == Approved ==>
      a.verification.verifiedBy.Some? && a.verification.verifiedAt.Some?
      && a.verification.isManualOverride && a.certificateNumber.Some?
  }
}
