/** The eligibility scorer and the status resolver (backend/utils/scoring.js).
    The two configuration reads of the source are parameters: the stored
    `scoringRules` value, and the stored threshold values. */
module Scoring {
  import opened Common
  import opened ApplicationModel
  import opened ConfigModel

  /** The rule set the scorer falls back to when none is configured. */
  const FallbackRules := ScoringRules(
    Some(map[AAY := 70, BPL := 50, APL := 0]), Some(50), Some(20), Some(20),
    Some(FamilySizeRule(Some(0), Some(10), Some(4))))

  /** The scorer's fallback rules are the rules of the default config table. */
  lemma FallbackMatchesDefaultConfig()
    ensures "scoringRules" in DefaultMap() && DefaultMap()["scoringRules"] == Rules(FallbackRules)
  {
    DefaultValues();
  }

  /** `config?.value || fallback` for the scoring rules, as the fields the
      scorer can read from it: a truthy value that is not an object (a
      number, a string, `true`) has none of them. */
  function RulesFrom(stored: Option<Value>): (r: ScoringRules)
    ensures stored.None? || !Truthy(stored.value) ==> r == FallbackRules
    ensures stored.Some? && stored.value.Rules? ==> r == stored.value.rules
    ensures stored.Some? && Truthy(stored.value) && !stored.value.Rules? ==> r == NoRules
  {
    var v := ValueOr(stored, Rules(FallbackRules));
    if v.Rules? then v.rules else NoRules
  }

  /** The family-size cut-off is the literal 4 of the source, not
      `rules.familySize.maxMembers`. */
  const FamilySizeCutoff := 4

  function FamilySizeScore(familySize: int, perMember: int): int {
    if familySize > FamilySizeCutoff then perMember * Min(familySize - FamilySizeCutoff, 2) else 0
  }

  // The facts of an application that make the scorer read a rule.

  predicate HasRationCategory(app: Application) {
    app.household.rationCardCategory.Some?
  }

  predicate EarnsIncomeBonus(app: Application) {
    app.income.incomeCertificateAmount.Some? && app.income.incomeCertificateAmount.value != 0
  }

  predicate EarnsItrBonus(app: Application) {
    app.income.itrFiled != Some(true)
  }

  predicate EarnsElectricityBonus(app: Application) {
    ElectricityBill in app.documents && app.documents[ElectricityBill] != ""
  }

  predicate LargeFamily(app: Application) {
    app.household.familySize.GetOr(0) > FamilySizeCutoff
  }

  /** The scorer throws when it reads a field of a missing table: the
      ration-card entry for a set category, or `perMember` for a family above
      the cut-off. */
  predicate ScorerThrows(app: Application, rules: ScoringRules) {
    || (HasRationCategory(app) && rules.rationCard.None?)
    || (LargeFamily(app) && rules.familySize.None?)
  }

  /** A weight the application earns but the rules lack is `undefined`, and
      it makes the total NaN. */
  predicate TotalIsNaN(app: Application, rules: ScoringRules) {
    || (EarnsIncomeBonus(app) && rules.incomeCertificate.None?)
    || (EarnsItrBonus(app) && rules.noITR.None?)
    || (EarnsElectricityBonus(app) && rules.electricityConsumption.None?)
    || (LargeFamily(app) && rules.familySize.Some? && rules.familySize.value.perMember.None?)
  }

  /** What a call of the scorer comes to: a breakdown; a breakdown whose
      total is NaN; or an exception. */
  datatype ScoreOutcome = Scored(breakdown: Breakdown) | NaNTotal | Threw

  /** A JavaScript number or `undefined` (`None`) in arithmetic, where
      `undefined` yields NaN, written `None` as well. */
  function JsAdd(x: Option<int>, y: Option<int>): Option<int> {
    if x.Some? && y.Some? then Some(x.value + y.value) else None
  }

  function CalculateEligibilityScore(app: Application, rules: ScoringRules): (o: ScoreOutcome)
    ensures o.Threw? <==> ScorerThrows(app, rules)
    ensures o.NaNTotal? <==> !ScorerThrows(app, rules) && TotalIsNaN(app, rules)
    ensures o.Scored? ==>
              var b := o.breakdown;
              && b.totalScore
                 == b.rationCardScore + b.incomeScore + b.electricityScore + b.itrScore + b.familySizeScore
              // a mapped category scores its table entry (a zero entry scores 0 either way)
              && b.rationCardScore
                 == (var c := app.household.rationCardCategory;
                     if c.Some? && c.value in rules.rationCard.value then rules.rationCard.value[c.value] else 0)
              // presence of a non-zero certified amount, not its size, earns the bonus
              && b.incomeScore == (if EarnsIncomeBonus(app) then rules.incomeCertificate.value else 0)
              && b.itrScore == (if app.income.itrFiled == Some(true) then 0 else rules.noITR.value)
              && b.electricityScore
                 == (if EarnsElectricityBonus(app) then rules.electricityConsumption.value else 0)
              && b.familySizeScore
                 == (if LargeFamily(app)
                     then FamilySizeScore(app.household.familySize.GetOr(0), rules.familySize.value.perMember.value)
                     else 0)
  {
    var category := app.household.rationCardCategory;
    if category.Some? && rules.rationCard.None? then Threw
    else
      var ration :=
        if category.Some? && category.value in rules.rationCard.value && rules.rationCard.value[category.value] != 0
        then rules.rationCard.value[category.value] else 0;
      var amount := app.income.incomeCertificateAmount;
      var income := if amount.Some? && amount.value != 0 then rules.incomeCertificate else Some(0);
      var itr := if !(app.income.itrFiled == Some(true)) then rules.noITR else Some(0);
      var electricity :=
        if ElectricityBill in app.documents && app.documents[ElectricityBill] != ""
        then rules.electricityConsumption else Some(0);
      var size := app.household.familySize.GetOr(0);
      if size > FamilySizeCutoff && rules.familySize.None? then Threw
      else
        var family :=
          if size > FamilySizeCutoff then
            var perMember := rules.familySize.value.perMember;
            if perMember.Some? then Some(FamilySizeScore(size, perMember.value)) else None
          else Some(0);
        var total := JsAdd(JsAdd(JsAdd(JsAdd(Some(ration), income), electricity), itr), family);
        if total.None? then NaNTotal
        else Scored(Breakdown(ration, income.value, electricity.value, itr.value, family.value, total.value))
  }

  /** Every field of the rule object is present. */
  predicate CompleteRules(rules: ScoringRules) {
    && rules.rationCard.Some? && rules.incomeCertificate.Some? && rules.noITR.Some?
    && rules.electricityConsumption.Some? && rules.familySize.Some? && rules.familySize.value.perMember.Some?
  }

  /** A complete rule object scores every application. */
  lemma CompleteRulesScore(app: Application, rules: ScoringRules)
    requires CompleteRules(rules)
    ensures CalculateEligibilityScore(app, rules).Scored?
  {
  }

  /** An application that reads none of the rules scores 0 whatever the
      rules are, so a stored value that is not an object (which has no rule
      fields at all) scores it 0 too. */
  lemma NoRuleReadScoresZero(app: Application, rules: ScoringRules, stored: Value)
    requires !HasRationCategory(app) && !EarnsIncomeBonus(app) && !EarnsItrBonus(app)
    requires !EarnsElectricityBonus(app) && !LargeFamily(app)
    requires Truthy(stored) && !stored.Rules?
    ensures CalculateEligibilityScore(app, rules) == Scored(ZeroBreakdown)
    ensures RulesFrom(Some(stored)) == NoRules
    ensures CalculateEligibilityScore(app, RulesFrom(Some(stored))) == Scored(ZeroBreakdown)
  {
  }

  /** With no rules, any rule the application needs is a failure: a ration
      category or a large family throws, and an earned bonus is NaN. */
  lemma NoRulesFail(app: Application)
    requires HasRationCategory(app) || LargeFamily(app) || EarnsIncomeBonus(app)
             || EarnsItrBonus(app) || EarnsElectricityBonus(app)
    ensures !CalculateEligibilityScore(app, NoRules).Scored?
  {
  }

  /** With a non-negative per-member rate the family-size score never
      decreases as the family grows, and it stops growing after two members
      above the cut-off. */
  lemma FamilySizeMonotone(a: int, b: int, perMember: int)
    requires a <= b && perMember >= 0
    ensures FamilySizeScore(a, perMember) <= FamilySizeScore(b, perMember)
  {
    var ma := if a > FamilySizeCutoff then Min(a - FamilySizeCutoff, 2) else 0;
    var mb := if b > FamilySizeCutoff then Min(b - FamilySizeCutoff, 2) else 0;
    assert 0 <= ma <= mb;
    assert FamilySizeScore(a, perMember) == perMember * ma;
    assert FamilySizeScore(b, perMember) == perMember * mb;
    assert perMember * (mb - ma) >= 0;
  }

  lemma FamilySizeCapped(size: int, perMember: int)
    requires perMember >= 0
    ensures 0 <= FamilySizeScore(size, perMember) <= 2 * perMember
    ensures size >= FamilySizeCutoff + 2 ==> FamilySizeScore(size, perMember) == 2 * perMember
  {
  }

  /** Under the fallback rules: families up to four score 0, five score 10,
      six or more score 20. */
  lemma FamilySizeDefaults(size: int)
    ensures size <= 4 ==> FamilySizeScore(size, 10) == 0
    ensures size == 5 ==> FamilySizeScore(size, 10) == 10
    ensures size >= 6 ==> FamilySizeScore(size, 10) == 20
  {
  }

  /** Neither `maxMembers` nor `base` of the configured rules has any effect. */
  lemma ScoreIgnoresMaxMembersAndBase(app: Application, rules: ScoringRules, f: FamilySizeRule,
                                      maxMembers: Option<int>, base: Option<int>)
    ensures CalculateEligibilityScore(app, rules.(familySize := Some(f.(maxMembers := maxMembers, base := base))))
            == CalculateEligibilityScore(app, rules.(familySize := Some(f)))
  {
  }

  /** The ration-card table of the fallback rules, category by category. */
  lemma RationCardDefaults(app: Application)
    ensures CalculateEligibilityScore(app, FallbackRules).Scored?
    ensures var s := CalculateEligibilityScore(app, FallbackRules).breakdown.rationCardScore;
            var c := app.household.rationCardCategory;
            && (c == Some(AAY) ==> s == 70)
            && (c == Some(BPL) ==> s == 50)
            && (c == Some(APL) || c == Some(NoCard) || c.None? ==> s == 0)
  {
  }

  /** Under the fallback rules no sub-score is negative and the total is at
      most 70 + 50 + 20 + 20 + 20 = 180. */
  lemma DefaultScoreBounds(app: Application)
    ensures CalculateEligibilityScore(app, FallbackRules).Scored?
    ensures var b := CalculateEligibilityScore(app, FallbackRules).breakdown;
            && b.rationCardScore >= 0 && b.incomeScore >= 0 && b.electricityScore >= 0
            && b.itrScore >= 0 && b.familySizeScore >= 0
            && 0 <= b.totalScore <= 180
  {
    var b := CalculateEligibilityScore(app, FallbackRules).breakdown;
    FamilySizeCapped(app.household.familySize.GetOr(0), 10);
    assert b.rationCardScore <= 70;
  }

  /** Two applications that differ only in a non-zero certified amount score
      the same. */
  lemma IncomeBonusIgnoresAmount(app: Application, rules: ScoringRules, amount: int)
    requires EarnsIncomeBonus(app)
    requires amount != 0
    ensures CalculateEligibilityScore(app.(income := app.income.(incomeCertificateAmount := Some(amount))), rules)
            == CalculateEligibilityScore(app, rules)
  {
  }

  // ---------------------------------------------------------------------
  // Status resolution

  /** `score >= bound` in JavaScript: false when the bound is NaN. */
  predicate Reaches(score: int, bound: Value) {
    var n := ToNumber(bound);
    n.Some? && AtLeast(score, n.value)
  }

  /** The resolver's three outcomes: approved at or above the eligibility
      threshold, pending verification at or above the borderline threshold,
      rejected below both. Each threshold is the stored value when it is
      present and truthy, and 100 or 80 otherwise. */
  function DetermineStatus(score: int, thresholdCfg: Option<Value>, borderlineCfg: Option<Value>): (s: Status)
    ensures s == Approved || s == PendingVerification || s == Rejected
    ensures var t := ValueOr(thresholdCfg, Num(FromInt(100)));
            var b := ValueOr(borderlineCfg, Num(FromInt(80)));
            && (s == Approved <==> Reaches(score, t))
            && (s == PendingVerification <==> !Reaches(score, t) && Reaches(score, b))
            && (s == Rejected <==> !Reaches(score, t) && !Reaches(score, b))
  {
    var threshold := ValueOr(thresholdCfg, Num(FromInt(100)));
    var borderline := ValueOr(borderlineCfg, Num(FromInt(80)));
    if Reaches(score, threshold) then Approved
    else if Reaches(score, borderline) then PendingVerification
    else Rejected
  }

  /** With nothing configured: 100 and above approved, 80 to 99 pending,
      below 80 rejected. */
  lemma DefaultThresholds(score: int)
    ensures DetermineStatus(score, None, None)
            == (if score >= 100 then Approved else if score >= 80 then PendingVerification else Rejected)
    ensures DetermineStatus(100, None, None) == Approved
    ensures DetermineStatus(80, None, None) == PendingVerification
    ensures DetermineStatus(79, None, None) == Rejected
  {
  }

  /** A configured threshold of 0 (or any falsy value) is replaced by the
      default, exactly as if nothing were configured. */
  lemma FalsyThresholdFallsBack(score: int, t: Value, b: Value)
    requires !Truthy(t) && !Truthy(b)
    ensures DetermineStatus(score, Some(t), Some(b)) == DetermineStatus(score, None, None)
  {
  }
}
