/** The applicant's side of the lifecycle: create a draft, update it, submit
    it for scoring; and the paging arithmetic of the officers' list
    (backend/controllers/applicationController.js). The parsed request
    sections, the uploaded file names, the clock and the client address are
    parameters; the new document id is supplied by the caller (the
    database). */
module ApplicationController {
  import opened Common
  import opened ApplicationModel
  import opened ConfigModel
  import opened AuditTrailModel
  import opened Scoring

  const DuplicateApplication := Failure(BadRequest, "You already have a pending application")
  const CreateFailed := Failure(InternalError, "Failed to create application")
  const SubmitNotFound := Failure(NotFound, "Application not found")
  const AlreadySubmitted := Failure(BadRequest, "Application already submitted")
  const SubmitFailed := Failure(InternalError, "Failed to submit application")
  const UpdateNotFound := Failure(NotFound, "Application not found or cannot be updated")
  const UpdateFailed := Failure(InternalError, "Failed to update application")

  const UploadPrefix := "/uploads/"

  /** The document references made from the uploads of the given slots: a
      slot gets a reference only when a file name was uploaded for it. */
  function UploadedDocuments(files: map<DocKind, string>, kinds: set<DocKind>): map<DocKind, string> {
    map k | k in kinds && k in files && files[k] != "" :: UploadPrefix + files[k]
  }

  /** The document an applicant's create request produces. Consent is
      recorded as accepted exactly when the request flag is the string
      'true'; its time and address are recorded either way. */
  function NewApplication(applicantId: Id, personal: PersonalDetails, household: HouseholdDetails,
                          income: IncomeDetails, files: map<DocKind, string>,
                          consentFlag: Option<string>, now: int, ip: string): (a: Application)
    ensures a.applicantId == applicantId && a.status == Draft && a.createdAt == now
    ensures a.consent.accepted <==> consentFlag == Some("true")
    ensures a.consent.acceptedAt == Some(now) && a.consent.ipAddress == Some(ip)
    ensures forall k :: k in a.documents <==> (k in files && files[k] != "")
    ensures forall k :: k in a.documents ==> a.documents[k] == UploadPrefix + files[k]
    ensures ApprovalRecorded(a)
  {
    WithDefaults(applicantId, personal, household, income, UploadedDocuments(files, files.Keys),
                 Consent(consentFlag == Some("true"), Some(now), Some(ip)), now)
  }

  /** The applicant already owns a draft, submitted, under-review or
      pending-verification application. */
  predicate HasActiveApplication(apps: map<Id, Application>, applicant: Id) {
    exists id :: id in apps && apps[id].applicantId == applicant && IsActive(apps[id].status)
  }

  /** Owning only approved, rejected or audit-flagged applications does not
      block a new one. */
  lemma FinishedApplicationsDoNotBlock(apps: map<Id, Application>, applicant: Id)
    requires forall id :: id in apps && apps[id].applicantId == applicant ==>
               apps[id].status in {Approved, Rejected, AuditFlagged}
    ensures !HasActiveApplication(apps, applicant)
  {
  }

  method CreateApplication(coll: ApplicationCollection, trail: AuditTrailCollection, actor: Id, newId: Id,
                           personal: PersonalDetails, household: HouseholdDetails, income: IncomeDetails,
                           files: map<DocKind, string>, consentFlag: Option<string>, now: int, ip: string)
    returns (r: Result<Id>)
    requires coll.Valid() && newId !in coll.apps
    modifies coll, trail
    ensures coll.Valid()
    ensures var created := NewApplication(actor, personal, household, income, files, consentFlag, now, ip);
            if HasActiveApplication(old(coll.apps), actor) then
              r == Err(DuplicateApplication) && unchanged(coll, trail)
            else if !SchemaValid(created) then
              r == Err(CreateFailed) && unchanged(coll, trail)
            else
              && r == Ok(newId)
              && coll.apps == old(coll.apps)[newId := created]
              && coll.order == old(coll.order) + [newId]
              && trail.entries == old(trail.entries) + [Entry(Some(newId), actor, "created", StatusDetails(Draft), ip, now)]
  {
    if HasActiveApplication(coll.apps, actor) {
      return Err(DuplicateApplication);
    }
    var application := NewApplication(actor, personal, household, income, files, consentFlag, now, ip);
    if !SchemaValid(application) {
      return Err(CreateFailed);
    }
    coll.apps := coll.apps[newId := application];
    coll.order := coll.order + [newId];
    var _ := trail.Append(Entry(Some(newId), actor, "created", StatusDetails(Draft), ip, now));
    r := Ok(newId);
  }

  // ---------------------------------------------------------------------
  // Update

  /** A key of the payload overwrites, a key it does not carry is kept. */
  function Over<T>(current: Option<T>, payload: Option<T>): Option<T> {
    if payload.Some? then payload else current
  }

  function MergePersonal(p: PersonalDetails, q: PersonalDetails): PersonalDetails {
    PersonalDetails(Over(p.name, q.name), Over(p.fatherName, q.fatherName),
                    Over(p.dateOfBirth, q.dateOfBirth), Over(p.gender, q.gender),
                    Over(p.aadhaarNumber, q.aadhaarNumber), Over(p.panNumber, q.panNumber))
  }

  /** The address is one key of the section, so a payload address replaces
      the stored address whole. */
  function MergeHousehold(h: HouseholdDetails, q: HouseholdDetails): HouseholdDetails {
    HouseholdDetails(Over(h.familySize, q.familySize), Over(h.rationCardNumber, q.rationCardNumber),
                     Over(h.rationCardCategory, q.rationCardCategory), Over(h.address, q.address))
  }

  function MergeIncome(i: IncomeDetails, q: IncomeDetails): IncomeDetails {
    IncomeDetails(Over(i.annualIncome, q.annualIncome),
                  Over(i.incomeCertificateAmount, q.incomeCertificateAmount),
                  Over(i.itrFiled, q.itrFiled), Over(i.selfDeclared, q.selfDeclared))
  }

  /** The document an update request makes of a draft. */
  function ApplyUpdate(a: Application, personal: PersonalDetails, household: HouseholdDetails,
                       income: IncomeDetails, files: map<DocKind, string>,
                       consentFlag: Option<string>, now: int, ip: string): (r: Application)
    ensures r.(personal := a.personal, household := a.household, income := a.income,
               documents := a.documents, consent := a.consent) == a
    ensures r.consent == (if consentFlag == Some("true") then Consent(true, Some(now), Some(ip)) else a.consent)
    ensures forall k :: k in a.documents && k !in files ==> k in r.documents && r.documents[k] == a.documents[k]
    ensures forall k :: k in files && files[k] != "" ==> k in r.documents && r.documents[k] == UploadPrefix + files[k]
  {
    a.(personal := MergePersonal(a.personal, personal),
       household := MergeHousehold(a.household, household),
       income := MergeIncome(a.income, income),
       documents := a.documents + UploadedDocuments(files, files.Keys),
       consent := if consentFlag == Some("true") then Consent(true, Some(now), Some(ip)) else a.consent)
  }

  /** Applying the same payload twice gives the same document as applying it
      once. */
  lemma UpdateIdempotent(a: Application, personal: PersonalDetails, household: HouseholdDetails,
                         income: IncomeDetails, files: map<DocKind, string>,
                         consentFlag: Option<string>, now: int, ip: string)
    ensures var once := ApplyUpdate(a, personal, household, income, files, consentFlag, now, ip);
            ApplyUpdate(once, personal, household, income, files, consentFlag, now, ip) == once
  {
    var once := ApplyUpdate(a, personal, household, income, files, consentFlag, now, ip);
    var up := UploadedDocuments(files, files.Keys);
    assert once.documents + up == once.documents;
  }

  /** An update replaces exactly the uploaded slots, can set consent but
      never clears it, and leaves status, scores, review and audit data
      alone. */
  lemma UpdateEffect(a: Application, personal: PersonalDetails, household: HouseholdDetails,
                     income: IncomeDetails, files: map<DocKind, string>,
                     consentFlag: Option<string>, now: int, ip: string, k: DocKind)
    ensures var u := ApplyUpdate(a, personal, household, income, files, consentFlag, now, ip);
            && (k in files && files[k] != "" ==> k in u.documents && u.documents[k] == UploadPrefix + files[k])
            && (!(k in files && files[k] != "") ==>
                  (k in u.documents <==> k in a.documents)
                  && (k in a.documents ==> u.documents[k] == a.documents[k]))
            && (u.consent.accepted <==> a.consent.accepted || consentFlag == Some("true"))
            && u.status == a.status && u.breakdown == a.breakdown
            && u.eligibilityScore == a.eligibilityScore && u.verification == a.verification
            && u.auditStatus == a.auditStatus && u.applicantId == a.applicantId
  {
  }

  lemma UploadStep(files: map<DocKind, string>, done: set<DocKind>, k: DocKind)
    requires k in files
    ensures UploadedDocuments(files, done + {k})
            == if files[k] != "" then UploadedDocuments(files, done)[k := UploadPrefix + files[k]]
               else UploadedDocuments(files, done)
  {
  }

  /** The documents forEach of create and update: each uploaded slot gets
      its reference, every other slot keeps what it had. */
  method AddUploads(documents: map<DocKind, string>, files: map<DocKind, string>)
    returns (docs: map<DocKind, string>)
    ensures docs == documents + UploadedDocuments(files, files.Keys)
  {
    docs := documents;
    var pending := files.Keys;
    while pending != {}
      invariant pending <= files.Keys
      invariant docs == documents + UploadedDocuments(files, files.Keys - pending)
      decreases pending
    {
      var k :| k in pending;
      UploadStep(files, files.Keys - pending, k);
      assert files.Keys - (pending - {k}) == (files.Keys - pending) + {k};
      if files[k] != "" {
        docs := docs[k := UploadPrefix + files[k]];
      }
      pending := pending - {k};
    }
    assert files.Keys - pending == files.Keys;
  }

  method UpdateApplication(coll: ApplicationCollection, trail: AuditTrailCollection, actor: Id, id: Id,
                           personal: PersonalDetails, household: HouseholdDetails, income: IncomeDetails,
                           files: map<DocKind, string>, consentFlag: Option<string>, now: int, ip: string)
    returns (r: Result<Id>)
    requires coll.Valid()
    modifies coll, trail
    ensures coll.Valid()
    ensures if !(id in old(coll.apps) && old(coll.apps)[id].applicantId == actor
                 && old(coll.apps)[id].status == Draft) then
              r == Err(UpdateNotFound) && unchanged(coll, trail)
            else
              var updated := ApplyUpdate(old(coll.apps)[id], personal, household, income, files, consentFlag, now, ip);
              if !SchemaValid(updated) then
                r == Err(UpdateFailed) && unchanged(coll, trail)
              else
                && r == Ok(id)
                && coll.apps == old(coll.apps)[id := updated]
                && coll.order == old(coll.order)
                && trail.entries == old(trail.entries) + [Entry(Some(id), actor, "modified", StatusDetails(Draft), ip, now)]
  {
    if !(id in coll.apps && coll.apps[id].applicantId == actor && coll.apps[id].status == Draft) {
      return Err(UpdateNotFound);
    }
    var application := coll.apps[id];
    application := application.(personal := MergePersonal(application.personal, personal),
                                household := MergeHousehold(application.household, household),
                                income := MergeIncome(application.income, income));

    var docs := AddUploads(application.documents, files);
    application := application.(documents := docs);

    if consentFlag == Some("true") {
      application := application.(consent := Consent(true, Some(now), Some(ip)));
    }
    assert application == ApplyUpdate(coll.apps[id], personal, household, income, files, consentFlag, now, ip);

    if !SchemaValid(application) {
      return Err(UpdateFailed);
    }
    coll.apps := coll.apps[id := application];
    var _ := trail.Append(Entry(Some(id), actor, "modified", StatusDetails(Draft), ip, now));
    r := Ok(id);
  }

  // ---------------------------------------------------------------------
  // Submit

  /** The never-auto-approve rule: a suggestion of approval becomes pending
      verification. */
  function SubmissionStatus(suggested: Status): (s: Status)
    ensures s != Approved
    ensures suggested == Approved ==> s == PendingVerification
    ensures suggested != Approved ==> s == suggested
  {
    if suggested == Approved then PendingVerification else suggested
  }

  /** The document a successful submit stores: the scorer's breakdown, its
      total as the eligibility score, and the resolved status after the
      never-auto-approve rule. */
  function Submitted(a: Application, rules: ScoringRules, cfg: map<string, Value>): (s: Application)
    requires CalculateEligibilityScore(a, rules).Scored?
    ensures s.breakdown == CalculateEligibilityScore(a, rules).breakdown
    ensures s.eligibilityScore == s.breakdown.totalScore
    ensures s.status == SubmissionStatus(DetermineStatus(s.eligibilityScore, Lookup(cfg, "eligibilityThreshold"),
                                                         Lookup(cfg, "borderlineThreshold")))
    ensures s.status == PendingVerification || s.status == Rejected
    ensures s == a.(breakdown := s.breakdown, eligibilityScore := s.eligibilityScore, status := s.status)
  {
    var b := CalculateEligibilityScore(a, rules).breakdown;
    var suggested := DetermineStatus(b.totalScore, Lookup(cfg, "eligibilityThreshold"), Lookup(cfg, "borderlineThreshold"));
    a.(breakdown := b, eligibilityScore := b.totalScore, status := SubmissionStatus(suggested))
  }

  /** With no thresholds configured a submitted application is pending
      verification exactly when it scores at least 80, and rejected
      otherwise. */
  lemma SubmittedDefaultStatus(a: Application, rules: ScoringRules, cfg: map<string, Value>)
    requires CalculateEligibilityScore(a, rules).Scored?
    requires "eligibilityThreshold" !in cfg && "borderlineThreshold" !in cfg
    ensures var s := Submitted(a, rules, cfg);
            && (s.status == PendingVerification <==> s.eligibilityScore >= 80)
            && (s.status == Rejected <==> s.eligibilityScore < 80)
  {
    DefaultThresholds(CalculateEligibilityScore(a, rules).breakdown.totalScore);
  }

  /** What a submit answers: the score and the stored status. */
  datatype SubmitReply = SubmitReply(eligibilityScore: int, status: Status)

  method SubmitApplication(coll: ApplicationCollection, trail: AuditTrailCollection, actor: Id, id: Id,
                           cfg: map<string, Value>, now: int, ip: string)
    returns (r: Result<SubmitReply>)
    requires coll.Valid()
    modifies coll, trail
    ensures coll.Valid()
    ensures if !(id in old(coll.apps) && old(coll.apps)[id].applicantId == actor) then
              r == Err(SubmitNotFound) && unchanged(coll, trail)
            else if old(coll.apps)[id].status != Draft then
              r == Err(AlreadySubmitted) && unchanged(coll, trail)
            else
              var rules := RulesFrom(Lookup(cfg, "scoringRules"));
              if !CalculateEligibilityScore(old(coll.apps)[id], rules).Scored? then
                // the scorer threw, or the NaN total failed the save's cast to Number
                r == Err(SubmitFailed) && unchanged(coll, trail)
              else
                var s := Submitted(old(coll.apps)[id], rules, cfg);
                && r == Ok(SubmitReply(s.eligibilityScore, s.status))
                && coll.apps == old(coll.apps)[id := s]
                && coll.order == old(coll.order)
                && trail.entries == old(trail.entries)
                                    + [Entry(Some(id), actor, "submitted", SubmitDetails(s.eligibilityScore, s.status), ip, now)]
  {
    if !(id in coll.apps && coll.apps[id].applicantId == actor) {
      return Err(SubmitNotFound);
    }
    var application := coll.apps[id];
    if application.status != Draft {
      return Err(AlreadySubmitted);
    }
    var rules := RulesFrom(Lookup(cfg, "scoringRules"));
    if !CalculateEligibilityScore(application, rules).Scored? {
      return Err(SubmitFailed);
    }
    var submitted := Submitted(application, rules, cfg);
    assert SchemaValid(submitted) == SchemaValid(application);
    coll.apps := coll.apps[id := submitted];
    var _ := trail.Append(Entry(Some(id), actor, "submitted",
                                SubmitDetails(submitted.eligibilityScore, submitted.status), ip, now));
    r := Ok(SubmitReply(submitted.eligibilityScore, submitted.status));
  }

  /** With the default thresholds a score of 100 is suggested for approval,
      but the stored status after submit is pending verification. */
  lemma SubmitNeverApproves(a: Application, rules: ScoringRules, cfg: map<string, Value>)
    requires CalculateEligibilityScore(a, rules).Scored?
    requires CalculateEligibilityScore(a, rules).breakdown.totalScore == 100
    requires "eligibilityThreshold" !in cfg && "borderlineThreshold" !in cfg
    ensures DetermineStatus(100, Lookup(cfg, "eligibilityThreshold"), Lookup(cfg, "borderlineThreshold")) == Approved
    ensures Submitted(a, rules, cfg).status == PendingVerification
  {
  }

  /** A stored rules value that is not an object does not stop a submit that
      reads no rule: the application scores 0 and, with no thresholds
      configured, is stored as rejected. */
  lemma SubmitWithoutRuleObject(a: Application, cfg: map<string, Value>)
    requires "scoringRules" in cfg && Truthy(cfg["scoringRules"]) && !cfg["scoringRules"].Rules?
    requires "eligibilityThreshold" !in cfg && "borderlineThreshold" !in cfg
    requires !HasRationCategory(a) && !EarnsIncomeBonus(a) && !EarnsItrBonus(a)
    requires !EarnsElectricityBonus(a) && !LargeFamily(a)
    ensures CalculateEligibilityScore(a, RulesFrom(Lookup(cfg, "scoringRules"))).Scored?
    ensures var s := Submitted(a, RulesFrom(Lookup(cfg, "scoringRules")), cfg);
            s.eligibilityScore == 0 && s.status == Rejected
  {
    NoRuleReadScoresZero(a, NoRules, cfg["scoringRules"]);
    DefaultThresholds(0);
  }

  // ---------------------------------------------------------------------
  // Paging of the officers' list

  /** The documents of page `page` (from 1) of `limit` each: the query skips
      (page - 1) * limit and takes at most limit. */
  function Page<T>(items: seq<T>, page: int, limit: int): (p: seq<T>)
    requires page >= 1 && limit >= 1
    ensures |p| <= limit
    ensures (page - 1) * limit >= |items| ==> p == []
    ensures (page - 1) * limit < |items| ==>
              p == items[(page - 1) * limit .. Min(page * limit, |items|)]
  {
    var skip := (page - 1) * limit;
    assert page * limit == skip + limit;
    if skip >= |items| then [] else items[skip .. Min(skip + limit, |items|)]
  }

  /** Math.ceil(total / limit). */
  function TotalPages(total: nat, limit: int): (n: int)
    requires limit >= 1
    ensures n >= 0
    ensures (n - 1) * limit < total <= n * limit || (total == 0 && n == 0)
  {
    CeilDiv(total, limit)
  }

  /** Pages `page`, `page + 1`, ... concatenated. */
  function PagesFrom<T>(items: seq<T>, page: int, limit: int): seq<T>
    requires page >= 1 && limit >= 1
    decreases |items| - (page - 1) * limit
  {
    if (page - 1) * limit >= |items| then []
    else
      assert page * limit == (page - 1) * limit + limit;
      Page(items, page, limit) + PagesFrom(items, page + 1, limit)
  }

  lemma {:induction false} PagesFromSuffix<T>(items: seq<T>, page: int, limit: int)
    requires page >= 1 && limit >= 1
    ensures PagesFrom(items, page, limit) == items[Min((page - 1) * limit, |items|)..]
    decreases |items| - (page - 1) * limit
  {
    var skip := (page - 1) * limit;
    if skip < |items| {
      var next := page * limit;
      assert next == skip + limit;
      assert ((page + 1) - 1) * limit == next;
      var cut := Min(next, |items|);
      assert PagesFrom(items, page, limit) == items[skip..cut] + PagesFrom(items, page + 1, limit);
      PagesFromSuffix(items, page + 1, limit);
      assert items[skip..] == items[skip..cut] + items[cut..];
    }
  }

  lemma MulMonotone(a: int, b: int, c: int)
    requires a <= b && c >= 0
    ensures a * c <= b * c
  {
    assert b * c - a * c == (b - a) * c;
  }

  lemma PageNonEmpty<T>(items: seq<T>, page: int, limit: int)
    requires page >= 1 && limit >= 1
    ensures Page(items, page, limit) != [] <==> (page - 1) * limit < |items|
  {
    var skip := (page - 1) * limit;
    assert page * limit == skip + limit;
  }

  /** Page `page` starts before the end of the list exactly when `page` is at
      most ceil(total / limit). */
  lemma PageStartsBeforeEnd(total: nat, limit: int, page: int)
    requires limit >= 1 && page >= 1
    ensures (page - 1) * limit < total <==> page <= TotalPages(total, limit)
  {
    var n := TotalPages(total, limit);
    if page <= n {
      MulMonotone(page - 1, n - 1, limit);
    } else {
      MulMonotone(n, page - 1, limit);
    }
  }

  /** Reading pages 1, 2, ... in turn yields every document exactly once, in
      order, and a page is non-empty exactly when its number is at most
      TotalPages. */
  lemma PagesCoverAll<T>(items: seq<T>, limit: int, page: int)
    requires limit >= 1 && page >= 1
    ensures PagesFrom(items, 1, limit) == items
    ensures Page(items, page, limit) != [] <==> page <= TotalPages(|items|, limit)
  {
    PagesFromSuffix(items, 1, limit);
    assert (1 - 1) * limit == 0;
    PageNonEmpty(items, page, limit);
    PageStartsBeforeEnd(|items|, limit, page);
  }
}
