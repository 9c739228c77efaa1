/** The verification officer's side: the review decision (approve, reject,
    flag as fraud), the certificate number, the pending-verification queue
    and certificate issue (backend/controllers/verificationController.js).
    The clock is the parameter `now` (milliseconds since the epoch); PDF
    rendering is not modelled. */
module VerificationController {
  import opened Common
  import opened ApplicationModel
  import opened AuditTrailModel

  const ReviewNotFound := Failure(NotFound, "Application not found")
  const InvalidAction := Failure(BadRequest, "Invalid action")
  const NotApproved := Failure(BadRequest, "Application not approved")

  datatype ReviewAction = Approve | Reject | FlagFraud

  function ParseReviewAction(action: string): (r: Option<ReviewAction>)
    ensures r == Some(Approve) <==> action == "approve"
    ensures r == Some(Reject) <==> action == "reject"
    ensures r == Some(FlagFraud) <==> action == "flag_fraud"
  {
    if action == "approve" then Some(Approve)
    else if action == "reject" then Some(Reject)
    else if action == "flag_fraud" then Some(FlagFraud)
    else None
  }

  /** A template literal's rendering of an optional string: a missing value
      prints as "undefined". */
  function Render(s: Option<string>): string {
    if s.Some? then s.value else "undefined"
  }

  /** GAS-<milliseconds>-<last six characters of the id>. */
  function CertificateNumber(now: nat, id: Id): (r: string)
    ensures |r| > 4 && r[..4] == "GAS-"
    ensures var tail := SliceLast(id, 6); |r| > 4 + |tail| && r[|r| - |tail|..] == tail
  {
    "GAS-" + NatToString(now) + "-" + SliceLast(id, 6)
  }

  lemma CharsAt(a: string, x: string, b: string, y: string, m: int)
    requires 0 <= m <= |a| && 0 <= m <= |b|
    ensures (a + "-" + x)[m] == if m == |a| then '-' else a[m]
    ensures (b + "-" + y)[m] == if m == |b| then '-' else b[m]
  {
  }

  lemma DigitsBeforeDash(a: string, x: string, b: string, y: string)
    requires forall i :: 0 <= i < |a| ==> IsDigit(a[i])
    requires forall i :: 0 <= i < |b| ==> IsDigit(b[i])
    requires a + "-" + x == b + "-" + y
    ensures a == b && x == y
  {
    var s := a + "-" + x;
    if |a| != |b| {
      CharsAt(a, x, b, y, Min(|a|, |b|));
      assert false;
    }
    assert a == s[..|a|] == b;
    assert x == s[|a| + 1..] == y;
  }

  /** Two certificate numbers coincide exactly when they were issued in the
      same millisecond for ids with the same last six characters. */
  lemma CertificateNumberCollision(t1: nat, id1: Id, t2: nat, id2: Id)
    ensures CertificateNumber(t1, id1) == CertificateNumber(t2, id2)
            <==> t1 == t2 && SliceLast(id1, 6) == SliceLast(id2, 6)
  {
    var a, b := NatToString(t1), NatToString(t2);
    var x, y := SliceLast(id1, 6), SliceLast(id2, 6);
    assert CertificateNumber(t1, id1) == "GAS-" + (a + "-" + x);
    assert CertificateNumber(t2, id2) == "GAS-" + (b + "-" + y);
    if CertificateNumber(t1, id1) == CertificateNumber(t2, id2) {
      assert a + "-" + x == CertificateNumber(t1, id1)[4..];
      assert b + "-" + y == CertificateNumber(t2, id2)[4..];
      DigitsBeforeDash(a, x, b, y);
      NatToStringInjective(t1, t2);
    }
  }

  /** So two approvals in the same millisecond of applications whose ids end
      alike receive the same number: the numbers are not unique. */
  lemma CertificateNumbersCanCollide()
    ensures "65a1000000000000000abcde" != "65a2000000000000000abcde"
    ensures CertificateNumber(1700000000000, "65a1000000000000000abcde")
            == CertificateNumber(1700000000000, "65a2000000000000000abcde")
  {
    assert SliceLast("65a1000000000000000abcde", 6) == "0abcde";
    assert SliceLast("65a2000000000000000abcde", 6) == "0abcde";
  }

  /** The document a review decision leaves behind. */
  function Reviewed(a: Application, id: Id, act: ReviewAction, officer: Id, now: nat,
                    remarks: Option<string>, fraudReason: Option<string>): Application
  {
    match act
    case Approve =>
      a.(status := Approved,
         verification := a.verification.(verifiedBy := Some(officer), verifiedAt := Some(now),
                                          remarks := remarks, isManualOverride := true),
         certificateNumber := Some(CertificateNumber(now, id)))
    case Reject =>
      a.(status := Rejected,
         verification := a.verification.(verifiedBy := Some(officer), verifiedAt := Some(now),
                                          remarks := remarks),
         rejectionReason := remarks)
    case FlagFraud =>
      a.(status := Rejected,
         verification := a.verification.(isFraud := true, fraudReason := fraudReason),
         rejectionReason := Some("Fraud detected: " + Render(fraudReason)))
  }

  /** The outcome of each decision, and what it leaves untouched: the
      applicant's sections, documents and scores, so a document that passed
      validation still passes it, and an approval is always fully recorded. */
  lemma ReviewOutcome(a: Application, id: Id, act: ReviewAction, officer: Id, now: nat,
                      remarks: Option<string>, fraudReason: Option<string>)
    ensures var b := Reviewed(a, id, act, officer, now, remarks, fraudReason);
            && (b.status == Approved <==> act == Approve)
            && (b.status == Rejected <==> act != Approve)
            && ApprovalRecorded(b)
            && SchemaValid(b) == SchemaValid(a)
            && b.personal == a.personal && b.household == a.household && b.income == a.income
            && b.documents == a.documents && b.breakdown == a.breakdown
            && b.eligibilityScore == a.eligibilityScore && b.auditStatus == a.auditStatus
            && (act != FlagFraud ==> b.verification.verifiedBy == Some(officer) && b.verification.verifiedAt == Some(now)
                                     && b.verification.remarks == remarks)
            && (act == Approve ==> b.certificateNumber == Some(CertificateNumber(now, id)))
            && (act != Approve ==> b.certificateNumber == a.certificateNumber)
            && (act == Reject ==> b.rejectionReason == remarks)
            && (act == FlagFraud ==>
                  && b.verification == a.verification.(isFraud := true, fraudReason := fraudReason)
                  && b.rejectionReason == Some("Fraud detected: " + Render(fraudReason)))
  {
    ApproveOutcome(a, id, officer, now, remarks, fraudReason);
    RejectOutcome(a, id, officer, now, remarks, fraudReason);
    FlagOutcome(a, id, officer, now, remarks, fraudReason);
  }

  /** Approval records the officer, the time, the remarks and the manual
      override, and issues the certificate number; reasons and the fraud
      flag are kept. */
  lemma ApproveOutcome(a: Application, id: Id, officer: Id, now: nat,
                       remarks: Option<string>, fraudReason: Option<string>)
    ensures var b := Reviewed(a, id, Approve, officer, now, remarks, fraudReason);
            && b.verification == a.verification.(verifiedBy := Some(officer), verifiedAt := Some(now),
                                                 remarks := remarks, isManualOverride := true)
            && b.certificateNumber == Some(CertificateNumber(now, id))
            && b.rejectionReason == a.rejectionReason
  {
  }

  /** Rejection records the officer, the time and the remarks, which are
      also the rejection reason; the certificate number is kept. */
  lemma RejectOutcome(a: Application, id: Id, officer: Id, now: nat,
                      remarks: Option<string>, fraudReason: Option<string>)
    ensures var b := Reviewed(a, id, Reject, officer, now, remarks, fraudReason);
            && b.verification == a.verification.(verifiedBy := Some(officer), verifiedAt := Some(now),
                                                 remarks := remarks)
            && b.rejectionReason == remarks
            && b.certificateNumber == a.certificateNumber
  {
  }

  /** A fraud flag sets the flag and its reason and the rejection reason
      "Fraud detected: <reason>"; the officer, the time, the remarks and the
      certificate number are kept. */
  lemma FlagOutcome(a: Application, id: Id, officer: Id, now: nat,
                    remarks: Option<string>, fraudReason: Option<string>)
    ensures var b := Reviewed(a, id, FlagFraud, officer, now, remarks, fraudReason);
            && b.verification == a.verification.(isFraud := true, fraudReason := fraudReason)
            && b.rejectionReason == Some("Fraud detected: " + Render(fraudReason))
            && b.certificateNumber == a.certificateNumber
  {
  }

  /** The decision does not look at the current status: a draft, or an
      application already decided, is reviewed the same way as a pending
      one. */
  lemma ReviewIgnoresStatus(a: Application, s1: Status, s2: Status, id: Id, act: ReviewAction,
                            officer: Id, now: nat, remarks: Option<string>, fraudReason: Option<string>)
    ensures Reviewed(a.(status := s1), id, act, officer, now, remarks, fraudReason)
            == Reviewed(a.(status := s2), id, act, officer, now, remarks, fraudReason)
  {
  }

  /** Flagging an approved application rejects it but keeps its certificate
      number; certificate issue is then refused. */
  lemma FraudAfterApproval(a: Application, id: Id, officer: Id, now: nat, later: nat,
                           remarks: Option<string>, fraudReason: Option<string>)
    ensures var approved := Reviewed(a, id, Approve, officer, now, remarks, None);
            var flagged := Reviewed(approved, id, FlagFraud, officer, later, None, fraudReason);
            && flagged.certificateNumber == Some(CertificateNumber(now, id))
            && flagged.status != Approved
            && flagged.rejectionReason == Some("Fraud detected: " + Render(fraudReason))
  {
  }

  /** A second flag replaces the fraud reason and the rejection reason, and
      a later approval leaves the fraud flag set on an approved document. */
  lemma FraudFlagPersists(a: Application, id: Id, officer: Id, now: nat, later: nat,
                          remarks: Option<string>, first: Option<string>, second: Option<string>)
    ensures var flagged := Reviewed(a, id, FlagFraud, officer, now, None, first);
            var reflagged := Reviewed(flagged, id, FlagFraud, officer, later, None, second);
            var approved := Reviewed(flagged, id, Approve, officer, later, remarks, None);
            && reflagged.verification.isFraud && reflagged.verification.fraudReason == second
            && reflagged.rejectionReason == Some("Fraud detected: " + Render(second))
            && approved.status == Approved && approved.verification.isFraud
            && approved.verification.fraudReason == first
  {
  }

  function ReviewEntry(id: Id, act: ReviewAction, officer: Id, remarks: Option<string>,
                       fraudReason: Option<string>, ip: string, now: int): (e: Entry)
    ensures e.applicationId == Some(id) && e.userId == officer && e.ipAddress == ip && e.createdAt == now
    ensures SchemaAccepts(e)
    ensures e.action == (match act case Approve => "approved" case Reject => "rejected"
                                   case FlagFraud => "fraud_marked")
  {
    match act
    case Approve => Entry(Some(id), officer, "approved", ApprovalDetails(remarks, true), ip, now)
    case Reject => Entry(Some(id), officer, "rejected", ReasonDetails(remarks), ip, now)
    case FlagFraud => Entry(Some(id), officer, "fraud_marked", ReasonDetails(fraudReason), ip, now)
  }

  method ReviewApplication(coll: ApplicationCollection, trail: AuditTrailCollection, officer: Id, id: Id,
                           action: string, remarks: Option<string>, fraudReason: Option<string>,
                           now: nat, ip: string)
    returns (r: Result<Application>)
    requires coll.Valid()
    modifies coll, trail
    ensures coll.Valid()
    ensures id !in old(coll.apps) ==> r == Err(ReviewNotFound) && unchanged(coll, trail)
    ensures id in old(coll.apps) && ParseReviewAction(action).None? ==>
              r == Err(InvalidAction) && unchanged(coll, trail)
    ensures id in old(coll.apps) && ParseReviewAction(action).Some? ==>
              var act := ParseReviewAction(action).value;
              var b := Reviewed(old(coll.apps)[id], id, act, officer, now, remarks, fraudReason);
              && r == Ok(b)
              && coll.apps == old(coll.apps)[id := b]
              && coll.order == old(coll.order)
              && trail.entries == old(trail.entries) + [ReviewEntry(id, act, officer, remarks, fraudReason, ip, now)]
  {
    if id !in coll.apps {
      return Err(ReviewNotFound);
    }
    var application := coll.apps[id];
    var act := ParseReviewAction(action);
    if act.None? {
      return Err(InvalidAction);
    }
    ReviewOutcome(application, id, act.value, officer, now, remarks, fraudReason);
    match act.value {
      case Approve =>
        application := application.(status := Approved);
        application := application.(verification := application.verification.(
          verifiedBy := Some(officer), verifiedAt := Some(now), remarks := remarks, isManualOverride := true));
        application := application.(certificateNumber := Some(CertificateNumber(now, id)));
      case Reject =>
        application := application.(status := Rejected);
        application := application.(verification := application.verification.(
          verifiedBy := Some(officer), verifiedAt := Some(now), remarks := remarks));
        application := application.(rejectionReason := remarks);
      case FlagFraud =>
        application := application.(verification := application.verification.(
          isFraud := true, fraudReason := fraudReason));
        application := application.(status := Rejected);
        application := application.(rejectionReason := Some("Fraud detected: " + Render(fraudReason)));
    }
    coll.apps := coll.apps[id := application];
    var _ := trail.Append(ReviewEntry(id, act.value, officer, remarks, fraudReason, ip, now));
    r := Ok(application);
  }

  // ---------------------------------------------------------------------
  // The pending-verification queue

  predicate AwaitsVerification(s: Status) {
    s == UnderReview || s == PendingVerification
  }

  predicate SortedByCreated(apps: map<Id, Application>, ids: seq<Id>)
    requires AllIn(apps, ids)
  {
    forall i, j :: 0 <= i < j < |ids| ==> apps[ids[i]].createdAt <= apps[ids[j]].createdAt
  }

  /** The ids of the queue's documents, in insertion order. */
  function AwaitingIds(apps: map<Id, Application>, order: seq<Id>): (r: seq<Id>)
    requires AllIn(apps, order)
    ensures AllIn(apps, r)
    ensures forall x :: multiset(r)[x] == if x in apps && AwaitsVerification(apps[x].status) then multiset(order)[x] else 0
  {
    if order == [] then []
    else
      assert order == [order[0]] + order[1..];
      var rest := AwaitingIds(apps, order[1..]);
      if AwaitsVerification(apps[order[0]].status) then [order[0]] + rest else rest
  }

  /** Insertion by creation time; a later-inserted id goes after the ids
      created at the same time. */
  function InsertByCreated(apps: map<Id, Application>, id: Id, sorted: seq<Id>): (r: seq<Id>)
    requires id in apps && AllIn(apps, sorted) && SortedByCreated(apps, sorted)
    ensures AllIn(apps, r) && SortedByCreated(apps, r)
    ensures multiset(r) == multiset(sorted) + multiset{id}
  {
    if sorted == [] then [id]
    else if apps[id].createdAt < apps[sorted[0]].createdAt then
      SortedCons(apps, id, sorted);
      [id] + sorted
    else
      assert sorted == [sorted[0]] + sorted[1..];
      var rest := InsertByCreated(apps, id, sorted[1..]);
      HeadBelowInserted(apps, id, sorted, rest);
      SortedCons(apps, sorted[0], rest);
      [sorted[0]] + rest
  }

  /** An id created no later than every member of a sorted list can be put
      in front of it. */
  lemma SortedCons(apps: map<Id, Application>, x: Id, rest: seq<Id>)
    requires x in apps && AllIn(apps, rest) && SortedByCreated(apps, rest)
    requires rest != [] ==> apps[x].createdAt <= apps[rest[0]].createdAt
    ensures AllIn(apps, [x] + rest) && SortedByCreated(apps, [x] + rest)
  {
    var s := [x] + rest;
    forall i, j | 0 <= i < j < |s| ensures apps[s[i]].createdAt <= apps[s[j]].createdAt {
      if i == 0 {
        assert s[j] == rest[j - 1];
        assert apps[rest[0]].createdAt <= apps[rest[j - 1]].createdAt;
      } else {
        assert s[i] == rest[i - 1] && s[j] == rest[j - 1];
      }
    }
  }

  /** The head of a sorted list is no later than any member of the tail with
      a later-or-equal id inserted. */
  lemma HeadBelowInserted(apps: map<Id, Application>, id: Id, sorted: seq<Id>, rest: seq<Id>)
    requires id in apps && sorted != [] && AllIn(apps, sorted) && SortedByCreated(apps, sorted)
    requires apps[sorted[0]].createdAt <= apps[id].createdAt
    requires AllIn(apps, rest) && multiset(rest) == multiset(sorted[1..]) + multiset{id}
    ensures rest != [] ==> apps[sorted[0]].createdAt <= apps[rest[0]].createdAt
  {
    if rest != [] {
      assert rest[0] in multiset(rest);
      if rest[0] != id {
        assert rest[0] in multiset(sorted[1..]);
        var j :| 0 <= j < |sorted[1..]| && sorted[1..][j] == rest[0];
        assert sorted[j + 1] == rest[0];
      }
    }
  }

  function SortByCreated(apps: map<Id, Application>, ids: seq<Id>): (r: seq<Id>)
    requires AllIn(apps, ids)
    ensures AllIn(apps, r) && SortedByCreated(apps, r)
    ensures multiset(r) == multiset(ids)
  {
    if ids == [] then []
    else
      assert ids == [ids[0]] + ids[1..];
      InsertByCreated(apps, ids[0], SortByCreated(apps, ids[1..]))
  }

  lemma {:induction false} DistinctCount(s: seq<Id>, x: Id)
    requires Distinct(s)
    ensures multiset(s)[x] == if x in s then 1 else 0
  {
    if s != [] {
      assert s == [s[0]] + s[1..];
      assert Distinct(s[1..]) by {
        forall i, j | 0 <= i < j < |s[1..]| ensures s[1..][i] != s[1..][j] {
          assert s[1..][i] == s[i + 1] && s[1..][j] == s[j + 1];
        }
      }
      DistinctCount(s[1..], x);
      if x == s[0] {
        forall i | 0 <= i < |s[1..]| ensures s[1..][i] != x {
          assert s[1..][i] == s[i + 1];
        }
      }
    }
  }

  /** getPendingVerifications: every application under review or pending
      verification, each exactly once, oldest first. */
  function PendingVerifications(apps: map<Id, Application>, order: seq<Id>): (r: seq<Id>)
    requires Distinct(order) && (forall id :: id in apps <==> id in order)
    ensures AllIn(apps, r) && SortedByCreated(apps, r)
    ensures forall x :: multiset(r)[x] == if x in apps && AwaitsVerification(apps[x].status) then 1 else 0
  {
    var r := SortByCreated(apps, AwaitingIds(apps, order));
    forall x ensures multiset(order)[x] == if x in order then 1 else 0 {
      DistinctCount(order, x);
    }
    r
  }

  // ---------------------------------------------------------------------
  // Certificate issue

  function CertificateFile(id: Id): string {
    "certificate-" + id + ".pdf"
  }

  method GenerateCertificate(coll: ApplicationCollection, id: Id) returns (r: Result<string>)
    requires coll.Valid()
    modifies coll
    ensures coll.Valid()
    ensures !(id in old(coll.apps) && old(coll.apps)[id].status == Approved) ==>
              r == Err(NotApproved) && unchanged(coll)
    ensures id in old(coll.apps) && old(coll.apps)[id].status == Approved ==>
              && r == Ok(CertificateFile(id))
              && coll.apps == old(coll.apps)[id := old(coll.apps)[id].(certificateUrl := Some(CertificateFile(id)))]
              && coll.order == old(coll.order)
  {
    if !(id in coll.apps && coll.apps[id].status == Approved) {
      return Err(NotApproved);
    }
    var filename := CertificateFile(id);
    coll.apps := coll.apps[id := coll.apps[id].(certificateUrl := Some(filename))];
    r := Ok(filename);
  }
}
