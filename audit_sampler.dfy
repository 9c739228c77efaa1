/** The monthly audit sampler (backend/utils/audit.js): the approved,
    not-yet-selected applications created in a month are shuffled, a prefix
    of ceil(n * rate) of them is taken, and each is marked selected.
    The shuffle is the parameter `perm` (any permutation; nothing is claimed
    about its distribution) and the calendar is reduced to the two epoch
    times `monthStart` (day 1, 00:00:00.000) and `nextMonthStart`. */
module AuditSampler {
  import opened Common
  import opened ApplicationModel
  import opened ConfigModel

  /** `new Date(year, month, 0, 23, 59, 59)`: the last whole second of the
      month, 1000 ms before the next month starts. */
  function WindowEnd(nextMonthStart: int): int {
    nextMonthStart - 1000
  }

  predicate InWindow(t: int, monthStart: int, nextMonthStart: int) {
    monthStart <= t <= WindowEnd(nextMonthStart)
  }

  /** The window holds 23:59:59.000 of the last day but not the remaining
      999 ms of it. */
  lemma WindowEdges(monthStart: int, nextMonthStart: int, t: int)
    requires monthStart < nextMonthStart - 1000
    ensures InWindow(monthStart, monthStart, nextMonthStart)
    ensures InWindow(nextMonthStart - 1000, monthStart, nextMonthStart)
    ensures nextMonthStart - 1000 < t < nextMonthStart ==> !InWindow(t, monthStart, nextMonthStart)
    ensures t < monthStart || t >= nextMonthStart ==> !InWindow(t, monthStart, nextMonthStart)
  {
  }

  /** The query: approved, created in the window, not selected before. */
  predicate AuditCandidate(a: Application, monthStart: int, nextMonthStart: int) {
    a.status == Approved && InWindow(a.createdAt, monthStart, nextMonthStart) && a.auditStatus == NotSelected
  }

  /** The candidates in insertion order. */
  function Candidates(apps: map<Id, Application>, order: seq<Id>, monthStart: int, nextMonthStart: int): (r: seq<Id>)
    requires AllIn(apps, order)
    ensures AllIn(apps, r)
    ensures forall x :: x in r <==> x in order && AuditCandidate(apps[x], monthStart, nextMonthStart)
    ensures Distinct(order) ==> Distinct(r)
  {
    if order == [] then []
    else
      var rest := Candidates(apps, order[1..], monthStart, nextMonthStart);
      assert forall x :: x in order[1..] ==> x in order;
      assert Distinct(order) ==> Distinct(order[1..]) && order[0] !in order[1..] by {
        if Distinct(order) {
          forall i, j | 0 <= i < j < |order[1..]| ensures order[1..][i] != order[1..][j] {
            assert order[1..][i] == order[i + 1] && order[1..][j] == order[j + 1];
          }
          forall i | 0 <= i < |order[1..]| ensures order[1..][i] != order[0] {
            assert order[1..][i] == order[i + 1];
          }
        }
      }
      if AuditCandidate(apps[order[0]], monthStart, nextMonthStart) then
        assert Distinct(order) ==> order[0] !in rest;
        [order[0]] + rest
      else rest
  }

  // ---------------------------------------------------------------------
  // The sample size

  const DefaultRate: Rational := Fraction(1, 10)

  /** `Math.ceil(n * (config?.value || 0.1))`; `None` is NaN. */
  function SampleSize(n: nat, rateCfg: Option<Value>): (k: Option<int>)
    ensures var rate := ToNumber(ValueOr(rateCfg, Num(DefaultRate)));
            && (rate.None? <==> k.None?)
            && (rate.Some? ==> (k.value - 1) * rate.value.den < n * rate.value.num <= k.value * rate.value.den)
  {
    match ToNumber(ValueOr(rateCfg, Num(DefaultRate)))
    case None => None
    case Some(rate) => Some(CeilDiv(n * rate.num, rate.den))
  }

  /** The end index `slice(0, end)` uses on an array of length n: NaN is 0,
      a negative end counts back from the end of the array. */
  function SliceEnd(n: nat, end: Option<int>): (e: nat)
    ensures e <= n
    ensures end.None? ==> e == 0
    ensures end.Some? && end.value >= 0 ==> e == Min(end.value, n)
    ensures end.Some? && end.value < 0 ==> e == Max(n + end.value, 0)
  {
    match end
    case None => 0
    case Some(k) => if k < 0 then Max(n + k, 0) else Min(k, n)
  }

  function SampleCount(n: nat, rateCfg: Option<Value>): nat {
    SliceEnd(n, SampleSize(n, rateCfg))
  }

  lemma CeilDivNonNegative(a: int, b: int)
    requires a >= 0 && b > 0
    ensures CeilDiv(a, b) >= 0
  {
    var c := CeilDiv(a, b);
    if c < 0 {
      MulNegative(c, b);
      assert false;
    }
  }

  lemma MulNegative(c: int, b: int)
    requires c < 0 && b > 0
    ensures c * b < 0
  {
  }

  /** For a positive rate p/q the sample has min(n, ceil(n * p / q))
      members, and an empty candidate list gives an empty sample. */
  lemma SampleCountPositiveRate(n: nat, p: nat, q: int)
    requires q > 0 && p > 0
    ensures SampleCount(n, Some(Num(Fraction(p, q)))) == Min(n, CeilDiv(n * p, q))
    ensures SampleCount(0, Some(Num(Fraction(p, q)))) == 0
  {
    var rate: Rational := Fraction(p, q);
    assert Truthy(Num(rate));
    assert ToNumber(ValueOr(Some(Num(rate)), Num(DefaultRate))) == Some(rate);
    var k := CeilDiv(n * p, q);
    CeilDivNonNegative(n * p, q);
    assert SampleSize(n, Some(Num(rate))) == Some(k);
    assert SampleSize(0, Some(Num(rate))) == Some(CeilDiv(0 * p, q));
    assert CeilDiv(0 * p, q) == 0;
  }

  /** The rate falls back to 10% when it is missing or falsy, a configured
      0 included; 20 candidates then give 2, and a single candidate gives
      1. */
  lemma DefaultRateFallback(n: nat, stored: Value)
    requires !Truthy(stored)
    ensures SampleCount(n, Some(stored)) == SampleCount(n, None) == Min(n, CeilDiv(n, 10))
    ensures SampleCount(20, None) == 2 && SampleCount(1, None) == 1 && SampleCount(0, None) == 0
  {
    assert CeilDiv(n * 1, 10) == CeilDiv(n, 10);
    CeilDivNonNegative(n, 10);
    assert CeilDiv(20, 10) == 2;
    assert CeilDiv(1, 10) == 1;
    assert CeilDiv(0, 10) == 0;
  }

  /** A negative rate is not refused: slice(0, k) with negative k keeps all
      but the last |k| entries, so a rate of -1/2 on ten candidates selects
      five of them; a rate that is not a number selects none. */
  lemma OddRates()
    ensures SampleCount(10, Some(Num(Fraction(-1, 2)))) == 5
    ensures SampleCount(10, Some(Text("half"))) == 0
  {
    assert CeilDiv(-10, 2) == -5;
  }

  // ---------------------------------------------------------------------
  // The sample

  predicate IsPermutation(perm: seq<int>, n: nat) {
    && |perm| == n
    && (forall i :: 0 <= i < n ==> 0 <= perm[i] < n)
    && (forall i, j :: 0 <= i < j < n ==> perm[i] != perm[j])
  }

  /** The candidate list rearranged by the permutation. */
  function Shuffled(ids: seq<Id>, perm: seq<int>): (s: seq<Id>)
    requires IsPermutation(perm, |ids|)
    ensures |s| == |ids|
    ensures forall i :: 0 <= i < |s| ==> s[i] == ids[perm[i]]
  {
    seq(|ids|, i requires 0 <= i < |ids| => ids[perm[i]])
  }

  /** The selection: the first SampleCount members of the shuffled list. */
  function Sample(ids: seq<Id>, perm: seq<int>, rateCfg: Option<Value>): (s: seq<Id>)
    requires IsPermutation(perm, |ids|)
    ensures |s| == SampleCount(|ids|, rateCfg)
    ensures forall x :: x in s ==> x in ids
    ensures Distinct(ids) ==> Distinct(s)
  {
    var sh := Shuffled(ids, perm);
    var s := sh[..SampleCount(|ids|, rateCfg)];
    forall x | x in s ensures x in ids {
      var i :| 0 <= i < |s| && s[i] == x;
      assert x == ids[perm[i]];
    }
    s
  }

  /** The collection after the selected ids are marked. */
  function MarkSelected(apps: map<Id, Application>, selected: seq<Id>): (m: map<Id, Application>)
    ensures m.Keys == apps.Keys
  {
    map id | id in apps :: if id in selected then apps[id].(auditStatus := Selected) else apps[id]
  }

  /** Every selected application was a candidate: approved, created in the
      window and not selected before; it is marked selected afterwards and is
      therefore no longer a candidate, so a second run on the same window
      draws only from the rest. */
  lemma SelectionEffect(apps: map<Id, Application>, order: seq<Id>, monthStart: int, nextMonthStart: int,
                        perm: seq<int>, rateCfg: Option<Value>, x: Id)
    requires AllIn(apps, order)
    requires IsPermutation(perm, |Candidates(apps, order, monthStart, nextMonthStart)|)
    ensures var selected := Sample(Candidates(apps, order, monthStart, nextMonthStart), perm, rateCfg);
            var after := MarkSelected(apps, selected);
            && (x in selected ==> x in apps && apps[x].status == Approved && apps[x].auditStatus == NotSelected
                                  && InWindow(apps[x].createdAt, monthStart, nextMonthStart))
            && (x in selected ==> after[x].auditStatus == Selected)
            && (x in apps && x !in selected ==> after[x] == apps[x])
            && (x in Candidates(after, order, monthStart, nextMonthStart)
                <==> x in Candidates(apps, order, monthStart, nextMonthStart) && x !in selected)
  {
  }

  lemma MarkStep(apps: map<Id, Application>, s: seq<Id>, id: Id)
    requires id in apps
    ensures MarkSelected(apps, s + [id]) == MarkSelected(apps, s)[id := apps[id].(auditStatus := Selected)]
  {
  }

  /** Marking changes only the audit status, which neither the schema nor
      the approval invariant looks at. */
  lemma MarkKeepsInvariant(apps: map<Id, Application>, s: seq<Id>)
    requires forall id :: id in apps ==> SchemaValid(apps[id]) && ApprovalRecorded(apps[id])
    ensures var m := MarkSelected(apps, s);
            forall id :: id in m ==> SchemaValid(m[id]) && ApprovalRecorded(m[id])
  {
  }

  /** The marking loop: each selected document gets auditStatus 'selected'
      and is saved. */
  method MarkAll(coll: ApplicationCollection, selected: seq<Id>)
    requires coll.Valid() && AllIn(coll.apps, selected)
    modifies coll
    ensures coll.Valid()
    ensures coll.apps == MarkSelected(old(coll.apps), selected)
    ensures coll.order == old(coll.order)
  {
    ghost var start := coll.apps;
    assert start == MarkSelected(start, selected[..0]);
    for i := 0 to |selected|
      invariant coll.order == old(coll.order)
      invariant coll.apps == MarkSelected(start, selected[..i])
    {
      var id := selected[i];
      assert selected[..i + 1] == selected[..i] + [id];
      MarkStep(start, selected[..i], id);
      coll.apps := coll.apps[id := coll.apps[id].(auditStatus := Selected)];
    }
    assert selected[..|selected|] == selected;
    MarkKeepsInvariant(start, selected);
  }

  method SelectRandomAudits(coll: ApplicationCollection, monthStart: int, nextMonthStart: int,
                            rateCfg: Option<Value>, perm: seq<int>)
    returns (selected: seq<Id>)
    requires coll.Valid()
    requires IsPermutation(perm, |Candidates(coll.apps, coll.order, monthStart, nextMonthStart)|)
    modifies coll
    ensures coll.Valid()
    ensures selected == Sample(Candidates(old(coll.apps), old(coll.order), monthStart, nextMonthStart), perm, rateCfg)
    ensures Distinct(selected)
    ensures coll.apps == MarkSelected(old(coll.apps), selected)
    ensures coll.order == old(coll.order)
  {
    var candidates := Candidates(coll.apps, coll.order, monthStart, nextMonthStart);
    var shuffled := Shuffled(candidates, perm);
    selected := shuffled[..SampleCount(|candidates|, rateCfg)];
    assert selected == Sample(candidates, perm, rateCfg);
    MarkAll(coll, selected);
  }
}
