/** The configuration collection: one document per unique key holding an
    arbitrary JSON value, the default table, and the start-up loop that
    writes the defaults (backend/models/Config.js). */
module ConfigModel {
  import opened Common
  import opened ApplicationModel

  /** The `familySize` rule. Here and in `ScoringRules` a field that the
      stored object lacks is `None`, so partial rule objects are values too. */
  datatype FamilySizeRule = FamilySizeRule(base: Option<int>, perMember: Option<int>, maxMembers: Option<int>)

  /** A stored `scoringRules` object. A `rationCard` or `familySize` that is
      present but not an object reads as a table without entries. */
  datatype ScoringRules = ScoringRules(
    rationCard: Option<map<RationCategory, int>>,
    incomeCertificate: Option<int>,
    noITR: Option<int>,
    electricityConsumption: Option<int>,
    familySize: Option<FamilySizeRule>)

  /** What every field read of a value that is not an object yields:
      nothing. */
  const NoRules := ScoringRules(None, None, None, None, None)

  /** A stored configuration value (Mongoose `Mixed`); `Rules` is an
      object. */
  datatype Value = Null | Bool(b: bool) | Num(n: Rational) | Text(s: string) | Rules(rules: ScoringRules)

  /** JavaScript truthiness of a value that is present. */
  predicate Truthy(v: Value) {
    match v
    case Null => false
    case Bool(b) => b
    case Num(n) => n.num != 0
    case Text(s) => s != ""
    case Rules(_) => true
  }

  /** The number a value becomes in a relational comparison; `None` is NaN
      (an object, or a string, whose numeric parsing is not modelled). */
  function ToNumber(v: Value): Option<Rational> {
    match v
    case Null => Some(FromInt(0))
    case Bool(b) => Some(FromInt(if b then 1 else 0))
    case Num(n) => Some(n)
    case Text(_) => None
    case Rules(_) => None
  }

  /** `config?.value || fallback`: the stored value when it is present and
      truthy, the fallback otherwise. */
  function ValueOr(stored: Option<Value>, fallback: Value): (v: Value)
    ensures stored.Some? && Truthy(stored.value) ==> v == stored.value
    ensures stored.None? || !Truthy(stored.value) ==> v == fallback
  {
    if stored.Some? && Truthy(stored.value) then stored.value else fallback
  }

  /** `Config.findOne({ key })?.value` over a snapshot of the collection. */
  function Lookup(cfg: map<string, Value>, key: string): (v: Option<Value>)
    ensures v.Some? <==> key in cfg
    ensures v.Some? ==> v.value == cfg[key]
  {
    if key in cfg then Some(cfg[key]) else None
  }

  const DefaultScoringRules := ScoringRules(
    Some(map[AAY := 70, BPL := 50, APL := 0]), Some(50), Some(20), Some(20),
    Some(FamilySizeRule(Some(0), Some(10), Some(4))))

  datatype ConfigDoc = ConfigDoc(key: string, value: Value)

  /** The default table, in declaration order. */
  const DefaultConfigs: seq<ConfigDoc> := [
    ConfigDoc("incomeLimit", Num(FromInt(50000))),
    ConfigDoc("eligibilityThreshold", Num(FromInt(100))),
    ConfigDoc("borderlineThreshold", Num(FromInt(80))),
    ConfigDoc("auditSamplingRate", Num(Fraction(1, 10))),
    ConfigDoc("scoringRules", Rules(DefaultScoringRules)),
    ConfigDoc("subsidyAmount", Num(FromInt(200)))
  ]

  predicate UniqueKeys(docs: seq<ConfigDoc>) {
    forall i, j :: 0 <= i < j < |docs| ==> docs[i].key != docs[j].key
  }

  /** The key-to-value view of a sequence of documents (a later document
      wins, which never matters when the keys are unique). */
  function ToMap(docs: seq<ConfigDoc>): map<string, Value> {
    if docs == [] then map[]
    else ToMap(docs[..|docs| - 1])[docs[|docs| - 1].key := docs[|docs| - 1].value]
  }

  lemma {:induction false} ToMapKeys(docs: seq<ConfigDoc>)
    ensures forall k :: k in ToMap(docs) <==> exists i :: 0 <= i < |docs| && docs[i].key == k
  {
    if docs != [] {
      var init := docs[..|docs| - 1];
      ToMapKeys(init);
      forall k | exists i :: 0 <= i < |docs| && docs[i].key == k
        ensures k in ToMap(docs)
      {
        var i :| 0 <= i < |docs| && docs[i].key == k;
        if i < |docs| - 1 { assert init[i].key == k; }
      }
      forall k | k in ToMap(docs)
        ensures exists i :: 0 <= i < |docs| && docs[i].key == k
      {
        if k != docs[|docs| - 1].key {
          assert k in ToMap(init);
          var i :| 0 <= i < |init| && init[i].key == k;
          assert docs[i].key == k;
        }
      }
    }
  }

  lemma {:induction false} ToMapAt(docs: seq<ConfigDoc>, i: int)
    requires UniqueKeys(docs) && 0 <= i < |docs|
    ensures docs[i].key in ToMap(docs) && ToMap(docs)[docs[i].key] == docs[i].value
  {
    if i < |docs| - 1 {
      var init := docs[..|docs| - 1];
      assert init[i] == docs[i];
      ToMapAt(init, i);
    }
  }

  /** With unique keys there is one map entry per document. */
  lemma {:induction false} ToMapSize(docs: seq<ConfigDoc>)
    requires UniqueKeys(docs)
    ensures |ToMap(docs)| == |docs|
  {
    if docs != [] {
      var init := docs[..|docs| - 1];
      var last := docs[|docs| - 1];
      ToMapSize(init);
      ToMapKeys(init);
      forall i | 0 <= i < |init| ensures init[i].key != last.key {
        assert init[i] == docs[i];
      }
      assert last.key !in ToMap(init);
    }
  }

  lemma ToMapAppend(docs: seq<ConfigDoc>, d: ConfigDoc)
    ensures ToMap(docs + [d]) == ToMap(docs)[d.key := d.value]
  {
    assert (docs + [d])[..|docs|] == docs;
  }

  /** Replacing the document that holds a key updates only that key. */
  lemma ToMapReplace(docs: seq<ConfigDoc>, i: int, d: ConfigDoc)
    requires UniqueKeys(docs) && 0 <= i < |docs| && docs[i].key == d.key
    ensures UniqueKeys(docs[i := d])
    ensures ToMap(docs[i := d]) == ToMap(docs)[d.key := d.value]
  {
    var docs' := docs[i := d];
    var m, m' := ToMap(docs), ToMap(docs');
    ToMapKeys(docs);
    ToMapKeys(docs');
    forall k | k in m'
      ensures k in m[d.key := d.value] && m'[k] == m[d.key := d.value][k]
    {
      var j :| 0 <= j < |docs'| && docs'[j].key == k;
      ToMapAt(docs', j);
      if j != i {
        assert docs'[j] == docs[j];
        ToMapAt(docs, j);
      }
    }
    forall k | k in m[d.key := d.value] ensures k in m' {
      if k != d.key {
        assert k in m;
        var j :| 0 <= j < |docs| && docs[j].key == k;
        assert j != i && docs'[j] == docs[j];
        assert 0 <= j < |docs'| && docs'[j].key == k;
      } else {
        assert 0 <= i < |docs'| && docs'[i].key == k;
      }
    }
  }

  function DefaultMap(): map<string, Value> {
    ToMap(DefaultConfigs)
  }

  lemma DefaultConfigsUnique()
    ensures UniqueKeys(DefaultConfigs)
  {
  }

  /** The default table holds the documented values for its six keys. */
  lemma DefaultValues()
    ensures DefaultMap().Keys == {"incomeLimit", "eligibilityThreshold", "borderlineThreshold",
                                   "auditSamplingRate", "scoringRules", "subsidyAmount"}
    ensures DefaultMap()["eligibilityThreshold"] == Num(FromInt(100))
    ensures DefaultMap()["borderlineThreshold"] == Num(FromInt(80))
    ensures DefaultMap()["auditSamplingRate"] == Num(Fraction(1, 10))
    ensures DefaultMap()["subsidyAmount"] == Num(FromInt(200))
    ensures DefaultMap()["incomeLimit"] == Num(FromInt(50000))
    ensures DefaultMap()["scoringRules"] == Rules(DefaultScoringRules)
  {
    var d := DefaultConfigs;
    assert d[..0] == [];
    forall i | 0 <= i < |d| ensures ToMap(d[..i + 1]) == ToMap(d[..i])[d[i].key := d[i].value] {
      assert d[..i + 1] == d[..i] + [d[i]];
      ToMapAppend(d[..i], d[i]);
    }
    assert ToMap(d[..1]) == map["incomeLimit" := Num(FromInt(50000))];
    assert ToMap(d[..2]) == ToMap(d[..1])["eligibilityThreshold" := Num(FromInt(100))];
    assert ToMap(d[..3]) == ToMap(d[..2])["borderlineThreshold" := Num(FromInt(80))];
    assert ToMap(d[..4]) == ToMap(d[..3])["auditSamplingRate" := Num(Fraction(1, 10))];
    assert ToMap(d[..5]) == ToMap(d[..4])["scoringRules" := Rules(DefaultScoringRules)];
    assert ToMap(d[..6]) == ToMap(d[..5])["subsidyAmount" := Num(FromInt(200))];
    assert d[..6] == d;
  }

  /** Writing the defaults a second time changes nothing. */
  lemma DefaultsIdempotent(m: map<string, Value>)
    ensures (m + DefaultMap()) + DefaultMap() == m + DefaultMap()
  {
  }

  /** The config collection: documents with unique keys. */
  class ConfigCollection {
    var docs: seq<ConfigDoc>

    ghost predicate Valid()
      reads this
    {
      UniqueKeys(docs)
    }

    function AsMap(): map<string, Value>
      reads this
    {
      ToMap(docs)
    }

    constructor ()
      ensures Valid() && docs == []
    {
      docs := [];
    }

    /** findOneAndUpdate({ key }, { key, value }, { upsert: true }). */
    method Upsert(key: string, value: Value)
      requires Valid()
      modifies this
      ensures Valid()
      ensures AsMap() == old(AsMap())[key := value]
    {
      var i := 0;
      while i < |docs| && docs[i].key != key
        invariant 0 <= i <= |docs|
        invariant forall j :: 0 <= j < i ==> docs[j].key != key
      {
        i := i + 1;
      }
      if i < |docs| {
        ToMapReplace(docs, i, ConfigDoc(key, value));
        docs := docs[i := ConfigDoc(key, value)];
      } else {
        ToMapAppend(docs, ConfigDoc(key, value));
        docs := docs + [ConfigDoc(key, value)];
      }
    }

    /** initializeDefaults: upsert every entry of the default table. */
    method InitializeDefaults()
      requires Valid()
      modifies this
      ensures Valid()
      ensures AsMap() == old(AsMap()) + DefaultMap()
    {
      ghost var start := AsMap();
      var defaults := DefaultConfigs;
      for i := 0 to |defaults|
        invariant Valid()
        invariant AsMap() == start + ToMap(defaults[..i])
      {
        var d := defaults[i];
        DefaultsPrefixStep(start, defaults, i);
        Upsert(d.key, d.value);
      }
      assert defaults[..|defaults|] == defaults;
    }
  }

  /** One more default written on top of a prefix of the table. */
  lemma DefaultsPrefixStep(start: map<string, Value>, docs: seq<ConfigDoc>, i: int)
    requires 0 <= i < |docs|
    ensures (start + ToMap(docs[..i]))[docs[i].key := docs[i].value] == start + ToMap(docs[..i + 1])
  {
    assert docs[..i + 1] == docs[..i] + [docs[i]];
    ToMapAppend(docs[..i], docs[i]);
  }

  /** After start-up every default key holds its default value, whatever an
      administrator stored there, and every other key is unchanged. */
  lemma InitializeDefaultsEffect(m: map<string, Value>, k: string)
    ensures k in DefaultMap() ==> (m + DefaultMap())[k] == DefaultMap()[k]
    ensures k !in DefaultMap() ==> (k in m + DefaultMap() <==> k in m)
    ensures k !in DefaultMap() && k in m ==> (m + DefaultMap())[k] == m[k]
  {
  }
}
