# Gas-subsidy eligibility portal — a Dafny model of its decision logic

This project models the backend of a portal where households apply for a
cooking-gas subsidy. It covers the following pieces:

- **Scoring.** A draft application is scored from its household, income and
  document facts, and the score is resolved to a status. The status is
  approved, pending verification or rejected, but submission never
  auto-approves.
- **Officer review.** Verification officers approve, reject or flag
  applications as fraud, and issue certificates for approved ones.
- **Monthly audit.** Each month a random share of the approved applications
  is marked for audit.
- **Administration.** Administrators edit the configuration, read the
  dashboard counts and manage staff accounts.
- **Accounts.** Users sign up, log in and edit their profile.
- **OTP helper.** A one-time-password helper exists but is not wired to the
  endpoints.

Each source file becomes one Dafny module:

| module | models |
|---|---|
| `Common` | options, results, error kinds with their HTTP codes, exact fractions for JavaScript numbers, `Math.ceil`, lowercase/trim, `slice(-k)`, decimal rendering |
| `ApplicationModel` | the Application document, its enums, defaults and save validation, and the collection |
| `ConfigModel` | configuration values with JavaScript truthiness, the default table, upsert, start-up initialisation |
| `AuditTrailModel` | the audit trail and the validation its schema applies to every entry |
| `Scoring` | `calculateEligibilityScore` and `determineStatus` |
| `UserModel` | the User document, the e-mail validator, the setters, the pre-save hook, the unique indexes |
| `ApplicationController` | create, update, submit, and the paging arithmetic of the officers' list |
| `VerificationController` | review, the pending queue, certificate issue |
| `AuditSampler` | `selectRandomAudits` |
| `AdminController` | dashboard, configuration update and listing, user creation and management |
| `AuthController` | signup, login, profile update, the disabled OTP endpoints |
| `Otp` | the OTP generator and its expiring, single-use store |

The form of each module follows its source:

- A Mongo collection is a class whose `map`/`seq` fields the handlers
  reassign under `modifies`.
- Each handler is a method whose postcondition gives the whole new state and
  the reply for every branch of the source. That postcondition is stated
  through pure functions (`NewApplication`, `ApplyUpdate`, `Submitted`,
  `Reviewed`, `Sample`, `MarkSelected`, `StoreStep`, `VerifyStep`, …), and
  the lemmas prove the properties of those functions.
- The loops of the source stay loops:
  - the upload `forEach`;
  - the upsert search;
  - the `initializeDefaults` loop;
  - the `getConfigs` `forEach`;
  - the audit marking loop.

Several behaviours of the code are modelled as written, with a lemma where
they matter:

- **Admin audit entries are refused.** `updateConfig`, `createUser` and
  `manageUsers` log entries with a `null` application id, and the user
  handlers also use actions outside the trail schema's closed list. The trail
  refuses those entries, so these handlers store their change and then
  answer 500.
- **Code versus design on status codes.** The design documentation calls for
  Conflict on a duplicate active application and InvalidState on an update of
  a non-draft. The code answers 400 and 404 (`Application not found or cannot
  be updated`), and the model follows the code.
- **Submission statuses.** Submission stores only pending-verification or
  rejected; the status `submitted` is never produced.
- **No guard on review.** Review does not look at the current status.
- **Certificate numbers can collide**
  (`VerificationController.CertificateNumbersCanCollide`).
- **The audit window is short of the month.** It ends at 23:59:59.000 of the
  last day, so the final 999 ms of the month are outside it.
- **Negative sampling rates are accepted.** A negative rate makes
  `slice(0, k)` keep all but the last |k| candidates.
- **E-mail lookups go through the setters.** Signup, login and createUser
  query `findOne({ email: email.toLowerCase() })`. Mongoose casts the filter
  value through the path's `lowercase` and `trim` setters, so the stored,
  normalised address is found under any spelling with other capitals or
  surrounding blanks (`AuthController.PaddedEmailIsLookedUp`).
- **Scoring rules the scorer cannot read.** A stored `scoringRules` value
  may be a partial object, or a truthy value that is not an object at all
  (which has no rule fields). The scorer reads only the rules the
  application needs. A missing ration-card or family-size table throws; a
  missing weight makes the total NaN, which the save's cast to Number
  refuses. Either way submit answers 500 and stores nothing. An application
  that needs no rule scores 0 under any value
  (`ApplicationController.SubmitWithoutRuleObject`).
- **createUser never checks the password length**, so a short password fails
  the `minlength` validation and the handler answers 500.
- **`update_role` can promote to admin.** It accepts any role of the enum,
  `admin` included.
- **Login reveals deactivated accounts.** It answers "deactivated" before it
  checks the password.
- **The OTP endpoints always answer 400**, whatever the request.

## Model

| member | source | states |
|---|---|---|
| `Scoring.FallbackMatchesDefaultConfig` | backend/utils/scoring.js:5-11 | the scorer's fallback rule set is the `scoringRules` entry of the default config table |
| `Scoring.RulesFrom` | backend/utils/scoring.js:4-11 | a missing or falsy stored value gives the fallback rules, a stored object is read as is (its missing fields `None`), and any other truthy value has no rule fields |
| `Scoring.CalculateEligibilityScore` | backend/utils/scoring.js:13-56 | throws iff a set ration category meets a missing table or a family above 4 meets a missing familySize rule; otherwise NaN iff an earned weight is missing; otherwise totalScore is the sum of the five sub-scores, each its rule: the table entry of a mapped category, the income bonus iff a non-zero certified amount, the ITR bonus iff itrFiled is not true, the electricity bonus iff a bill is uploaded, the family-size score with the literal cut-off 4 |
| `Scoring.CompleteRulesScore` | backend/utils/scoring.js:22-54 | a rule object with every field present scores every application |
| `Scoring.NoRuleReadScoresZero` | backend/utils/scoring.js:4-54 | an application that needs no rule scores 0 under any rules, and a truthy non-object value has no rule fields |
| `Scoring.NoRulesFail` | backend/utils/scoring.js:22-54 | with no rule fields, any application that needs a rule throws or gets a NaN total |
| `Scoring.FamilySizeMonotone` | backend/utils/scoring.js:44-47 | the family-size score never decreases as the family grows (non-negative rate) |
| `Scoring.FamilySizeCapped` | backend/utils/scoring.js:44-47 | the family-size score lies in [0, 2·perMember] and reaches the cap from six members on |
| `Scoring.FamilySizeDefaults` | backend/utils/scoring.js:44-47 | with the default rate 10: size ≤ 4 scores 0, size 5 scores 10, size ≥ 6 scores 20 |
| `Scoring.ScoreIgnoresMaxMembersAndBase` | backend/utils/scoring.js:43-47 | the configured `maxMembers` and `base` have no effect on the outcome |
| `Scoring.RationCardDefaults` | backend/utils/scoring.js:22-26 | under the fallback rules every application is scored, and AAY scores 70, BPL 50, APL, none and unset 0 |
| `Scoring.DefaultScoreBounds` | backend/utils/scoring.js:5-54 | under the fallback rules every application is scored, every sub-score is ≥ 0 and the total is in [0, 180] |
| `Scoring.IncomeBonusIgnoresAmount` | backend/utils/scoring.js:28-31 | any two non-zero certified amounts give the same outcome |
| `Scoring.DetermineStatus` | backend/utils/scoring.js:59-72 | approved iff the score reaches the threshold; pending verification iff it reaches the borderline but not the threshold; rejected iff it reaches neither; thresholds fall back to 100/80 when missing or falsy |
| `Scoring.DefaultThresholds` | backend/utils/scoring.js:63-72 | with nothing configured: ≥ 100 approved, 80–99 pending, < 80 rejected; 100, 80 and 79 as examples |
| `Scoring.FalsyThresholdFallsBack` | backend/utils/scoring.js:63-64 | a configured 0 (any falsy value) behaves exactly as no configuration |
| `ConfigModel.ValueOr` | backend/utils/scoring.js:63-64 | the `config?.value` fallback rule: the stored value iff present and truthy, else the fallback |
| `ConfigModel.Lookup` | backend/utils/scoring.js:60-61 | `findOne({ key })?.value`: present iff the key is stored, and then its value |
| `ConfigModel.ToMapAt` | backend/models/Config.js:5-9 | with unique keys, each document's key maps to that document's value |
| `ConfigModel.ToMapSize` | backend/models/Config.js:5-9 | with unique keys there is exactly one map entry per document |
| `ConfigModel.ToMapReplace` | backend/models/Config.js:5-9 | replacing the document holding a key keeps keys unique and changes only that key's value |
| `ConfigModel.DefaultConfigsUnique` | backend/models/Config.js:24-45 | the default table has unique keys |
| `ConfigModel.DefaultValues` | backend/models/Config.js:24-45 | the default table holds exactly the six keys with incomeLimit 50000, eligibilityThreshold 100, borderlineThreshold 80, auditSamplingRate 1/10, the default scoring rules and subsidyAmount 200 |
| `ConfigModel.ConfigCollection.Upsert` | backend/controllers/adminController.js:68-72 | keys stay unique and the map view becomes the old map with `key := value` |
| `ConfigModel.ConfigCollection.InitializeDefaults` | backend/models/Config.js:50-58 | the upsert loop leaves the map view equal to the old map overridden by the default table |
| `ConfigModel.InitializeDefaultsEffect` | backend/models/Config.js:50-58 | afterwards every default key holds its default whatever was stored; every other key is kept |
| `ConfigModel.DefaultsIdempotent` | backend/models/Config.js:50-58 | initialising twice equals initialising once |
| `ApplicationModel.WithDefaults` | backend/models/Application.js:38-105 | a new document is draft, not_selected, score 0, zero breakdown, itrFiled/selfDeclared false unless given, isManualOverride and isFraud false, and keeps the supplied sections and documents |
| `ApplicationModel.SchemaValid` | backend/models/Application.js:12-36 | the save validators: name and Aadhaar number present and non-empty, a family size of at least 1, an annual income present |
| `AuditTrailModel.AuditTrailCollection.Append` | backend/models/AuditTrail.js:5-31 | an entry is stored iff it has an application id and an action from the schema's list; a refused entry leaves the trail unchanged |
| `AuditTrailModel.SchemaAccepts` | backend/models/AuditTrail.js:5-31 | an entry is valid iff it references an application and its action is one of the twelve listed |
| `ApplicationController.NewApplication` | backend/controllers/applicationController.js:22-47 | the created draft belongs to the applicant; consent is accepted iff the flag is exactly 'true'; a document reference exists iff a file was uploaded for that slot, and is '/uploads/' + its name; the approval invariant holds |
| `ApplicationController.FinishedApplicationsDoNotBlock` | backend/controllers/applicationController.js:10-13 | owning only approved, rejected or audit-flagged applications does not count as an active application |
| `ApplicationController.HasActiveApplication` | backend/controllers/applicationController.js:9-13 | the applicant owns an application whose status is draft, submitted, under review or pending verification |
| `ApplicationController.CreateApplication` | backend/controllers/applicationController.js:5-63 | an active application gives 400 and no change; a document failing validation gives 500 and no change; otherwise the new draft is stored, its id appended, and one 'created' entry logged |
| `ApplicationController.UpdateIdempotent` | backend/controllers/applicationController.js:189-213 | applying the same update payload twice equals applying it once |
| `ApplicationController.ApplyUpdate` | backend/controllers/applicationController.js:189-221 | an update changes only the three detail sections, the documents and the consent; consent becomes accepted at now from ip iff the flag is the string 'true'; an uploaded file sets its document to "/uploads/<name>" and documents without an upload are kept |
| `ApplicationController.UpdateEffect` | backend/controllers/applicationController.js:208-221 | exactly the uploaded slots are replaced, others kept; consent afterwards is accepted iff it was or the flag is 'true' (set, never cleared); status, scores, review and audit data are unchanged |
| `ApplicationController.AddUploads` | backend/controllers/applicationController.js:209-213 | the forEach yields the old documents overridden by a reference for each uploaded file |
| `ApplicationController.UpdateApplication` | backend/controllers/applicationController.js:174-236 | anything but the caller's own draft gives 404 and no change; a merge failing validation gives 500 and no change; otherwise the merged document is stored and one 'modified' entry logged |
| `ApplicationController.SubmissionStatus` | backend/controllers/applicationController.js:87-90 | the stored status is never approved: approved becomes pending verification, anything else is kept |
| `ApplicationController.Submitted` | backend/controllers/applicationController.js:82-90 | the submitted document carries the scorer's breakdown, eligibilityScore equals its total, its status is `determineStatus` of that total with approved turned into pending verification (so pending verification or rejected), and nothing else changes |
| `ApplicationController.SubmittedDefaultStatus` | backend/controllers/applicationController.js:82-90 | with no thresholds configured a submission is pending verification iff it scores at least 80, and rejected iff below |
| `ApplicationController.SubmitApplication` | backend/controllers/applicationController.js:66-114 | not the caller's (or missing) gives 404, a non-draft 400, a scorer exception or NaN total 500, all with no change; otherwise the submitted document is stored, the reply carries its score and status, and one 'submitted' entry is logged |
| `ApplicationController.SubmitNeverApproves` | backend/controllers/applicationController.js:87-90 | a score of 100 is suggested for approval under the defaults, yet is stored as pending verification |
| `ApplicationController.SubmitWithoutRuleObject` | backend/controllers/applicationController.js:82-90 | a truthy non-object `scoringRules` value still lets an application that needs no rule be submitted, with score 0 and status rejected under the default thresholds |
| `ApplicationController.Page` | backend/controllers/applicationController.js:158-159 | a page holds at most `limit` documents: the slice after skipping (page−1)·limit, or nothing past the end |
| `ApplicationController.TotalPages` | backend/controllers/applicationController.js:165 | `Math.ceil(total / limit)`: the least n with total ≤ n·limit |
| `ApplicationController.PagesCoverAll` | backend/controllers/applicationController.js:154-168 | pages 1, 2, … concatenated are the whole list, and a page is non-empty iff its number is at most totalPages |
| `VerificationController.ParseReviewAction` | backend/controllers/verificationController.js:17-75 | exactly 'approve', 'reject' and 'flag_fraud' are actions |
| `VerificationController.CertificateNumberCollision` | backend/controllers/verificationController.js:25 | two certificate numbers "GAS-<ms>-<last 6 of id>" are equal iff the milliseconds and the last six id characters are |
| `VerificationController.CertificateNumbersCanCollide` | backend/controllers/verificationController.js:25 | two distinct ids approved in the same millisecond can receive the same number |
| `VerificationController.CertificateNumber` | backend/controllers/verificationController.js:25 | the number starts with "GAS-" and ends with the last six characters of the id (all of it when shorter) |
| `VerificationController.ReviewOutcome` | backend/controllers/verificationController.js:17-60 | approved iff the action is approve, rejected otherwise; approve and reject record the officer, verifiedAt = now and the remarks; approve issues the certificate number, the others keep it; reject sets rejectionReason to the remarks; flag sets isFraud and fraudReason and "Fraud detected: <reason>", and keeps the officer; sections, documents, scores and audit status are untouched and validity is preserved |
| `VerificationController.Reviewed` | backend/controllers/verificationController.js:17-60 | the document each of the three decisions leaves behind, as stated by `ReviewOutcome` and the three outcome lemmas |
| `VerificationController.ApproveOutcome` | backend/controllers/verificationController.js:17-25 | approval sets exactly verifiedBy, verifiedAt, remarks and isManualOverride of the record and the certificate number, and keeps the rejection reason |
| `VerificationController.RejectOutcome` | backend/controllers/verificationController.js:38-43 | rejection sets exactly verifiedBy, verifiedAt and remarks of the record, the rejection reason to the remarks, and keeps the certificate number |
| `VerificationController.FlagOutcome` | backend/controllers/verificationController.js:56-60 | a fraud flag sets exactly isFraud and fraudReason of the record and the "Fraud detected" reason, and keeps the certificate number |
| `VerificationController.ReviewIgnoresStatus` | backend/controllers/verificationController.js:12-17 | the outcome of a review does not depend on the current status |
| `VerificationController.FraudAfterApproval` | backend/controllers/verificationController.js:56-60 | flagging an approved document rejects it with "Fraud detected: <reason>" but keeps its certificate number |
| `VerificationController.FraudFlagPersists` | backend/controllers/verificationController.js:56-60 | re-flagging replaces the fraud and rejection reasons; a later approval leaves isFraud set |
| `VerificationController.ReviewApplication` | backend/controllers/verificationController.js:7-79 | a missing id gives 404 and an unknown action 400, both with no change and no entry; otherwise the reviewed document is stored and the action's entry appended |
| `VerificationController.ReviewEntry` | backend/controllers/verificationController.js:29-35 | the review's entry references the application, the officer and the request address, is accepted by the trail schema, and is 'approved', 'rejected' or 'fraud_marked' by action |
| `VerificationController.AwaitingIds` | backend/controllers/verificationController.js:83-85 | the filter keeps each id exactly as often as it occurs if under review or pending verification, else drops it |
| `VerificationController.InsertByCreated` | backend/controllers/verificationController.js:87 | inserting into a list sorted by createdAt keeps it sorted and adds exactly the id |
| `VerificationController.SortByCreated` | backend/controllers/verificationController.js:87 | the result is sorted by createdAt and a permutation of the input |
| `VerificationController.PendingVerifications` | backend/controllers/verificationController.js:81-93 | the queue holds each under-review or pending-verification application exactly once and nothing else, oldest first |
| `VerificationController.GenerateCertificate` | backend/controllers/verificationController.js:95-135 | a missing or non-approved application gives 400 and no change; otherwise certificateUrl becomes "certificate-<id>.pdf" and only that changes |
| `AuditSampler.WindowEdges` | backend/utils/audit.js:5-6 | the window contains its first millisecond and 23:59:59.000 of the last day, but not the last 999 ms of the month nor anything outside it |
| `AuditSampler.Candidates` | backend/utils/audit.js:9-13 | an id is a candidate iff it is stored, approved, created in the window and not_selected; no duplicates arise |
| `AuditSampler.SampleSize` | backend/utils/audit.js:16-19 | ceil(n·rate) for the configured-or-0.1 rate, NaN when the rate is not a number |
| `AuditSampler.SliceEnd` | backend/utils/audit.js:23 | the end index of `slice(0, end)`: 0 for NaN, min(end, n) for end ≥ 0, max(n + end, 0) for end < 0 |
| `AuditSampler.SampleCountPositiveRate` | backend/utils/audit.js:19-23 | for a positive rate p/q, min(n, ceil(n·p/q)) are selected, and none of no candidates |
| `AuditSampler.DefaultRateFallback` | backend/utils/audit.js:16-17 | a missing or falsy rate (a configured 0 included) acts as 0.1; 20 candidates give 2, one gives 1 |
| `AuditSampler.OddRates` | backend/utils/audit.js:17-23 | a rate of −1/2 on ten candidates selects five; a non-numeric rate selects none |
| `AuditSampler.Shuffled` | backend/utils/audit.js:22 | the candidates rearranged by the given permutation |
| `AuditSampler.Sample` | backend/utils/audit.js:22-23 | the selection has SampleCount members, all candidates, without duplicates |
| `AuditSampler.MarkSelected` | backend/utils/audit.js:26-29 | marking keeps the set of stored ids |
| `AuditSampler.SelectionEffect` | backend/utils/audit.js:9-29 | every selected application was approved, in the window and not_selected; afterwards it is selected, every other document is unchanged, and a rerun's candidates are exactly the earlier ones not selected |
| `AuditSampler.MarkKeepsInvariant` | backend/utils/audit.js:26-29 | marking preserves save validation and the approval invariant |
| `AuditSampler.MarkAll` | backend/utils/audit.js:26-29 | the loop leaves the collection equal to the marked map, ids unchanged |
| `AuditSampler.SelectRandomAudits` | backend/utils/audit.js:4-32 | returns the sample of the candidates under the permutation, duplicate-free, and the collection is the old one with exactly those marked selected |
| `AdminController.CountDisjoint` | backend/controllers/adminController.js:12-19 | counting two exclusive conditions separately equals counting their disjunction |
| `AdminController.CountIsMatchingSize` | backend/controllers/adminController.js:12-19 | over ids without repetitions the count is the number of applications matching the filter |
| `AdminController.Dashboard` | backend/controllers/adminController.js:10-19 | total is the number of applications; for a list without repetitions approved, rejected, pending (submitted, under review, pending verification), fraud and auditQueue are each the number of applications matching that filter; approved + rejected + pending never exceeds the total |
| `AdminController.UpdateConfig` | backend/controllers/adminController.js:60-86 | a missing/empty key or absent value gives 400 and no change; otherwise the store becomes old[key := value], the trail refuses the null-id entry, and the reply is 500 |
| `AdminController.GetConfigs` | backend/controllers/adminController.js:88-99 | the object has one entry per stored document, each key mapped to that document's value |
| `AdminController.CreateUserGuard` | backend/controllers/adminController.js:177-184 | 400 when a field is missing, then 400 unless the role is applicant or verification_officer; passing means a non-admin role of the enum |
| `AdminController.NewStaffUser` | backend/controllers/adminController.js:192-200 | the new account is verified, active, has the requested role and the normalised e-mail |
| `AdminController.CreateUser` | backend/controllers/adminController.js:173-223 | guard refusals, and an e-mail whose cast (lowercased, trimmed) form is registered, change nothing; otherwise the user is stored iff validation and the unique indexes accept it, and the reply is 500 either way |
| `AdminController.StoreStaffUser` | backend/controllers/adminController.js:192-208 | the new document is stored exactly when validation and the unique indexes accept it; the trail entry is refused, so the trail is unchanged and the reply is 500 |
| `AdminController.CreateUserNeverAdmin` | backend/controllers/adminController.js:182-184 | createUser can never create an admin; role 'admin' is refused as invalid |
| `AdminController.ManageUsers` | backend/controllers/adminController.js:225-283 | other actions list users with no change; a missing user is 404 and an admin 403, with no change; otherwise role or isActive is changed (an invalid role changes nothing) and the reply is 500 |
| `UserModel.ParseRole` | backend/models/User.js:35-39 | exactly the three role names are roles, and parsing inverts RoleName |
| `UserModel.RoleNameRoundTrip` | backend/models/User.js:35-39 | every role's name parses back to that role |
| `UserModel.EmailScanMatchesPattern` | backend/models/User.js:23-28 | the single-scan validator accepts a string iff it matches `^[^\s@]+@[^\s@]+\.[^\s@]+$` |
| `UserModel.EmailExamples` | backend/models/User.js:23-28 | a@b.c passes; a@b, @b.c, a@.c, a@b. and a@b@c.d fail |
| `UserModel.PreSave` | backend/models/User.js:58-63 | the password is replaced by its hash iff it was modified; nothing else changes |
| `UserModel.ResaveAccepted` | backend/models/User.js:6-29 | re-saving a stored user with unchanged name, e-mail and mobile and an unmodified password passes validation and the indexes |
| `UserModel.UserCollection.Save` | backend/models/User.js:6-63 | a save succeeds iff validation (name, e-mail format, password length when modified) and both unique indexes (sparse on mobile) accept it; then the hooked document is stored, else nothing changes |
| `UserModel.FindByEmail` | backend/controllers/authController.js:65 | a found id holds exactly the key; when none is found no listed user holds it |
| `UserModel.FindUserByEmail` | backend/models/User.js:17-22 | the query value is cast like a stored value: a found user holds the lowercased, trimmed value, and none found means nobody listed holds it |
| `UserModel.NormaliseEmail` | backend/models/User.js:17-22 | the `lowercase` then `trim` setters applied to a stored or queried e-mail |
| `UserModel.IsValidEmail` | backend/models/User.js:23-28 | the e-mail validator as a single scan, shown equal to the pattern by `EmailScanMatchesPattern` |
| `UserModel.UserSchemaValid` | backend/models/User.js:13-34 | the save validators: a non-empty name, a valid e-mail, and a modified password of at least six characters |
| `UserModel.Saveable` | backend/models/User.js:6-29 | save succeeds iff the validators pass and no other document holds the same e-mail, or the same mobile when both have one |
| `UserModel.FindByEmailExact` | backend/models/User.js:17-22 | with unique e-mails the lookup finds the one holder, and finds none iff nobody holds it |
| `AuthController.SignupGuard` | backend/controllers/authController.js:10-22 | missing fields, then a password under 6 characters, then a registered e-mail, each answered 400, in that order |
| `AuthController.NewApplicant` | backend/controllers/authController.js:25-31 | the new account is an applicant, verified, active, with the normalised e-mail |
| `AuthController.Signup` | backend/controllers/authController.js:5-52 | registered means some user holds the cast (lowercased, trimmed) e-mail; a refused request changes nothing; otherwise the applicant is stored (hashed password) iff save accepts it, else 500 with no change |
| `AuthController.SignupGuardOrder` | backend/controllers/authController.js:10-16 | a missing field is reported before a short password, and a short password before a taken e-mail |
| `AuthController.PaddedEmailIsLookedUp` | backend/controllers/authController.js:19-22 | the duplicate check's key for " A@b.c" is "a@b.c", so a stored "a@b.c" is found and signup answers "Email already registered" |
| `AuthController.LoginGuard` | backend/controllers/authController.js:60-79 | 400 for missing fields; 401 for an unknown e-mail or, on an active account, a wrong password; 403 for a deactivated account whatever the password; success iff active and the hash matches |
| `AuthController.LoginAnswers` | backend/controllers/authController.js:66-79 | an unknown e-mail and a wrong password get the same reply; a deactivated account is reported regardless of the password |
| `AuthController.SignupThenLogin` | backend/controllers/authController.js:25-79 | after signup stores an account, login under the submitted e-mail, or any spelling with the same lowercased, trimmed form, finds that account and accepts the same password |
| `AuthController.LoginTarget` | backend/controllers/authController.js:65 | a found account holds the submitted e-mail in its cast form; when none is found no listed user holds it |
| `AuthController.Login` | backend/controllers/authController.js:55-104 | the account is looked up by the cast e-mail; refusals change nothing; success answers the user's id and changes only its lastLogin |
| `AuthController.ProfileUpdate` | backend/controllers/authController.js:129-130 | name and e-mail change only when a non-empty value is given, the e-mail normalised; nothing else changes |
| `AuthController.UpdateProfile` | backend/controllers/authController.js:124-137 | a missing user gives 500; otherwise the updated user is stored iff save accepts it, else 500 with no change |
| `AuthController.OtpEndpoint` | backend/controllers/authController.js:107-113 | both OTP endpoints always answer the 400 "not enabled" failure |
| `Otp.GenerateOtp` | backend/utils/otp.js:4-6 | the code is six decimal digits whose value is 100000 + draw, within [100000, 999999], with a non-zero first digit |
| `Otp.LeadingDigitNonZero` | backend/utils/otp.js:5 | a six-digit string starting with 0 is worth less than 100000 |
| `Otp.GenerateOtpInjective` | backend/utils/otp.js:5 | different draws give different codes |
| `Otp.StoreStep` | backend/utils/otp.js:21-24 | storing sets the mobile's entry to the code with expiry now + 600000 and keeps every other entry |
| `Otp.VerifyStep` | backend/utils/otp.js:26-43 | valid iff an entry exists, now ≤ its expiry and the code matches; the three error messages by case; the entry is removed on success and on expiry and kept otherwise; other mobiles' entries never change |
| `Otp.StoreThenVerify` | backend/utils/otp.js:21-35 | a stored code is accepted up to and including its expiry instant and refused as expired one millisecond later |
| `Otp.SingleUse` | backend/utils/otp.js:26-42 | after a successful check a second check finds no entry |
| `Otp.RetryAfterMismatch` | backend/utils/otp.js:37-39 | a wrong code keeps the store unchanged, so the right code still succeeds within the lifetime |
| `Otp.StoreOverwrites` | backend/utils/otp.js:21-24 | storing again replaces the code: the earlier one is invalid, the later valid |
| `Otp.OtpStore.Store` | backend/utils/otp.js:21-24 | the store's map becomes StoreStep of the old map |
| `Otp.OtpStore.Verify` | backend/utils/otp.js:26-43 | the reply and the new map are VerifyStep of the old map |

## Left out

- HTTP and wiring. Routing, request parsing and response bodies are not
  modelled. Replies are `Result` values whose failures carry the source's
  status code and message. The authenticated actor's id comes in as a
  parameter, and token issue (JWT) is not modelled.
- Password hashing. bcrypt with its salt is the deterministic parameter
  `hash`. The password check compares `hash(candidate)` with the stored value.
- Persistence. Database failures are not modelled:
  - malformed ids (CastError);
  - connection errors;
  - the `populate` calls.
- The search regex of `getAllApplications` is not modelled; only its paging
  arithmetic is.
- `ApplicationController.Page`, `TotalPages` and `PagesCoverAll` require
  `page ≥ 1` and `limit ≥ 1`. The query parameters are strings in the source,
  and their coercion is not modelled.
- `getMyApplication`, `getApplicationById` and `getProfile` are reads, and are
  not modelled.
- The user listing of `manageUsers` is not modelled: its contents, the
  projection and the sort.
- Output files are not modelled: PDF rendering, the xlsx export, file-system
  writes and multer. Only the resulting fields, `certificateUrl` and the
  document references, are kept.
- Randomness comes in as parameters:
  - the audit shuffle is any permutation `perm`, and no claim is made about
    its distribution (a sort with a random comparator is not uniform);
  - `Math.random() * 900000` in the OTP generator is reduced to its whole
    part `draw`.
- Floating point. Numbers are exact fractions, so the rate arithmetic is
  exact where the source rounds in binary floating point. The dashboard's
  percentage fields (`approvalRate`, `toFixed`) are not modelled.
- Dates. Times are integer milliseconds. The month window is given as the two
  instants `monthStart` and `nextMonthStart`, and `triggerAudit`'s default of
  the current month is not modelled. The approval handler reads the clock
  twice, and the model uses one `now` for both reads.
- Value coercion. A numeric string in a configuration value is treated as NaN
  (`ToNumber` of `Text` is `None`); JavaScript's string-to-number parsing is
  not modelled.
- CalculateEligibilityScore: family size, income amounts and rule weights
  are whole numbers. A fractional family size such as 4.5, which the source
  scores as `perMember * 0.5` more than 4, is not represented. Rule fields
  are either absent or numbers (tables of numbers): a `null` weight, which
  JavaScript adds as 0, a string weight, which turns the sum into string
  concatenation, and a rule field that is not an object (a number where the
  ration-card table belongs) are not modelled.
- The dashboard's `recentApplications` and `fraudRisk` lists (the ten newest
  applications, and up to ten with a score below 80, a fraud flag or a
  flagged audit) are reads with an unspecified order and their `populate`,
  and are not modelled; `Dashboard` models the six counts.
- Lowercasing covers A–Z only. The Unicode case mapping of `toLowerCase` is
  not modelled.
- Lengths count Unicode scalar values, not UTF-16 code units.
- JSON `null` and `undefined` payload variants are not modelled. Request
  sections are records of optional fields: an absent key is `None`, and an
  explicit `null` inside a parsed section is not distinguished.
- Password length on re-save. The `minlength` check runs on every save, but a
  stored bcrypt hash always passes it. The model therefore checks the password
  length only when the password is modified.
- Ties in the pending queue. `PendingVerifications` fixes a stable order for
  applications created in the same millisecond. The database does not
  promise that order, so the contract only claims ascending `createdAt` plus
  the exact set.
- The OTP store is one in-memory map. Its entries survive only the process,
  and the SMS gateway, the log line and the one-second delay of `sendOTP` are
  not modelled.
- Concurrency is not modelled: the model is sequential. A mutation and its
  audit write are not atomic in the source, and neither are concurrent
  reviews.
- Frontend code and the one-shot maintenance scripts are not part of this
  model.
