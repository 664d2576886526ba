/** The Eidolon: an agent with four tiers of attributes (core, personality,
    dynamic states, ledger) and a nested map of affinities towards others. */
module TheEidolon {
  import opened Wrappers
  import opened Hyle

  /** Tier 1: the core attributes, all defaulting to 0. */
  const CoreDefaults: map<string, Value> := map[
    "strength" := Int(0), "agility" := Int(0), "intellect" := Int(0), "charisma" := Int(0),
    "resilience" := Int(0), "passion" := Int(0), "perception" := Int(0), "composure" := Int(0)
  ]

  /** Tier 2: the personality traits, all defaulting to 0. */
  const PersonalityDefaults: map<string, Value> := map[
    "openness" := Int(0), "conscientiousness" := Int(0), "extraversion" := Int(0),
    "agreeableness" := Int(0), "neuroticism" := Int(0)
  ]

  /** Tier 3: the dynamic states; resources default to 100, the mood to neutral. */
  const DynamicDefaults: map<string, Value> := map[
    "health" := Int(100), "stamina" := Int(100), "social_battery" := Int(100),
    "emotional_state" := Text("neutral"), "sanity" := Int(100)
  ]

  /** Tier 4: the ledger; no trauma, no secrets, no grievances, reputation 0. */
  const LedgerDefaults: map<string, Value> := map[
    "trauma" := Int(0), "secrets" := Array([]), "grievances" := Table([]), "reputation" := Int(0)
  ]

  /** A tier as the constructor builds it: `kwargs.get(key, default)` for
      each of the tier's keys; keyword arguments outside the tier are ignored. */
  function Tier(defaults: map<string, Value>, kwargs: map<string, Value>): (m: map<string, Value>)
    ensures m.Keys == defaults.Keys
    ensures forall k :: k in m && k in kwargs ==> m[k] == kwargs[k]
    ensures forall k :: k in m && k !in kwargs ==> m[k] == defaults[k]
  {
    map k | k in defaults :: if k in kwargs then kwargs[k] else defaults[k]
  }

  /** Every attribute of a tier that no keyword argument names takes the
      documented default: 0 for core and personality, 100 or "neutral" for
      dynamic states, and the empty ledger. */
  lemma UnsetAttributesDefault(kwargs: map<string, Value>)
    ensures forall k :: k in CoreDefaults && k !in kwargs ==> Tier(CoreDefaults, kwargs)[k] == Int(0)
    ensures forall k :: k in PersonalityDefaults && k !in kwargs ==> Tier(PersonalityDefaults, kwargs)[k] == Int(0)
    ensures forall k :: k in DynamicDefaults && k !in kwargs && k != "emotional_state"
              ==> Tier(DynamicDefaults, kwargs)[k] == Int(100)
    ensures "emotional_state" !in kwargs ==> Tier(DynamicDefaults, kwargs)["emotional_state"] == Text("neutral")
    ensures "trauma" !in kwargs ==> Tier(LedgerDefaults, kwargs)["trauma"] == Int(0)
    ensures "reputation" !in kwargs ==> Tier(LedgerDefaults, kwargs)["reputation"] == Int(0)
    ensures "secrets" !in kwargs ==> Tier(LedgerDefaults, kwargs)["secrets"] == Array([])
    ensures "grievances" !in kwargs ==> Tier(LedgerDefaults, kwargs)["grievances"] == Table([])
  {
    ZeroDefaults(CoreDefaults);
    ZeroDefaults(PersonalityDefaults);
    ResourceDefaults(DynamicDefaults);
  }

  lemma ZeroDefaults(defaults: map<string, Value>)
    requires defaults == CoreDefaults || defaults == PersonalityDefaults
    ensures forall k :: k in defaults ==> defaults[k] == Int(0)
  {
  }

  lemma ResourceDefaults(defaults: map<string, Value>)
    requires defaults == DynamicDefaults
    ensures forall k :: k in defaults && k != "emotional_state" ==> defaults[k] == Int(100)
  {
  }

  /** `d[key] = value` on a tier that must already hold `key`; None stands
      for the ValueError the source raises. */
  function UpdateKnown(m: map<string, Value>, key: string, value: Value): (r: Option<map<string, Value>>)
    ensures r.Some? <==> key in m
    ensures r.Some? ==> r.value.Keys == m.Keys && r.value[key] == value
    ensures r.Some? ==> forall k :: k in m && k != key ==> r.value[k] == m[k]
  {
    if key in m then Some(m[key := value]) else None
  }

  type Affinities = map<string, map<string, Value>>

  /** `get_affinity`: the stored value, or 0 when there is none. */
  function AffinityOf(affinities: Affinities, target: string, kind: string): (r: Value)
    ensures target in affinities && kind in affinities[target] ==> r == affinities[target][kind]
    ensures !(target in affinities && kind in affinities[target]) ==> r == Int(0)
  {
    if target in affinities && kind in affinities[target] then affinities[target][kind] else Int(0)
  }

  /** `update_affinity`: creates the inner map for `target` when it is
      missing, then sets one entry. */
  function WithAffinity(affinities: Affinities, target: string, kind: string, value: Value): (r: Affinities)
    ensures r.Keys == affinities.Keys + {target}
    ensures target in affinities ==> r[target] == affinities[target][kind := value]
    ensures target !in affinities ==> r[target] == map[kind := value]
    ensures forall t :: t in affinities && t != target ==> r[t] == affinities[t]
  {
    var inner := if target in affinities then affinities[target] else map[];
    affinities[target := inner[kind := value]]
  }

  /** Reading an affinity right after writing it gives the written value;
      every other (target, kind) pair reads as before. */
  lemma AffinityReadAfterWrite(affinities: Affinities, target: string, kind: string, value: Value,
                               otherTarget: string, otherKind: string)
    ensures AffinityOf(WithAffinity(affinities, target, kind, value), target, kind) == value
    ensures (otherTarget, otherKind) != (target, kind)
            ==> AffinityOf(WithAffinity(affinities, target, kind, value), otherTarget, otherKind)
                == AffinityOf(affinities, otherTarget, otherKind)
  {
  }

  /** Sanity, `(resilience + composure) / 2`: true division, so always a
      float; None stands for the TypeError of a non-number. */
  function Sanity(core: map<string, Value>): (r: Option<Value>)
    requires "resilience" in core && "composure" in core
    ensures r.Some? <==> IsNumber(core["resilience"]) && IsNumber(core["composure"])
    ensures r.Some? ==> r == Some(Float((AsReal(core["resilience"]) + AsReal(core["composure"])) / 2.0))
  {
    match Add(core["resilience"], core["composure"])
    case None => None
    case Some(total) => Some(Float(AsReal(total) / 2.0))
  }

  /** Reputation, `charisma + extraversion - sum(grievances.values())`,
      evaluated in Python's order: the addition first (two strings or two
      lists concatenate), then `.values()` on the grievances, then `sum`,
      then the subtraction. */
  function Reputation(core: map<string, Value>, personality: map<string, Value>,
                      ledger: map<string, Value>): (r: Result<Value, PyError>)
    requires "charisma" in core && "extraversion" in personality && "grievances" in ledger
    ensures Plus(core["charisma"], personality["extraversion"]).None? ==> r == Err(TypeError)
    ensures Plus(core["charisma"], personality["extraversion"]).Some? && !ledger["grievances"].Table?
            ==> r == Err(AttributeError)
    ensures r.Ok? ==> IsNumber(core["charisma"]) && IsNumber(personality["extraversion"]) && r.value.Int? != r.value.Float?
    ensures Plus(core["charisma"], personality["extraversion"]).Some? && ledger["grievances"].Table?
            && Sum(Values(ledger["grievances"].entries)).None?
            ==> r == Err(TypeError)
    ensures Plus(core["charisma"], personality["extraversion"]).Some?
            && !(IsNumber(core["charisma"]) && IsNumber(personality["extraversion"]))
            && ledger["grievances"].Table?
            ==> r == Err(TypeError)
    ensures r.Ok? <==> (IsNumber(core["charisma"]) && IsNumber(personality["extraversion"])
                        && ledger["grievances"].Table?
                        && forall i :: 0 <= i < |ledger["grievances"].entries|
                             ==> IsNumber(ledger["grievances"].entries[i].1))
    ensures r.Ok? ==> var scores := Values(ledger["grievances"].entries);
                      AsReal(r.value) == AsReal(core["charisma"]) + AsReal(personality["extraversion"]) - RealTotal(scores)
                      && (r.value.Float? <==> (core["charisma"].Float? || personality["extraversion"].Float?
                                              || exists i :: 0 <= i < |scores| && scores[i].Float?))
  {
    match Plus(core["charisma"], personality["extraversion"])
    case None => Err(TypeError)
    case Some(base) =>
      match ledger["grievances"]
      case Table(grievances) =>
        (match Sum(Values(grievances))
         case None => Err(TypeError)
         case Some(total) =>
           match Sub(base, total)
           case None => Err(TypeError)
           case Some(v) => Ok(v))
      case _ => Err(AttributeError)
  }

  /** The grievance scores of an integer-only grievance table. */
  predicate IntegerScores(grievances: Entries)
  {
    forall i :: 0 <= i < |grievances| ==> IsInteger(grievances[i].1)
  }

  /** Once the addition and the sum have succeeded, reputation is their
      difference. */
  lemma ReputationOfParts(core: map<string, Value>, personality: map<string, Value>,
                          ledger: map<string, Value>, base: Value, total: Value)
    requires "charisma" in core && "extraversion" in personality && "grievances" in ledger
    requires Plus(core["charisma"], personality["extraversion"]) == Some(base)
    requires ledger["grievances"].Table? && Sum(Values(ledger["grievances"].entries)) == Some(total)
    requires Sub(base, total).Some?
    ensures Reputation(core, personality, ledger) == Ok(Sub(base, total).value)
  {
  }

  lemma PlusOfIntegers(a: Value, b: Value)
    requires IsInteger(a) && IsInteger(b)
    ensures Plus(a, b) == Some(Int(AsInt(a) + AsInt(b)))
  {
  }

  lemma IntegerGrievanceTotal(g: Entries)
    requires IntegerScores(g)
    ensures Sum(Values(g)) == Some(Int(IntTotal(AsInts(Values(g)))))
  {
    var vs := Values(g);
    assert forall i :: 0 <= i < |vs| ==> IsInteger(vs[i]) by {
      forall i | 0 <= i < |vs| ensures IsInteger(vs[i]) {
        assert vs[i] == g[i].1;
      }
    }
    SumOfIntegers(vs);
  }

  /** With integer attributes and scores, reputation is the integer
      charisma + extraversion minus the total of the grievance scores. */
  lemma IntegerReputation(core: map<string, Value>, personality: map<string, Value>,
                          ledger: map<string, Value>)
    requires "charisma" in core && "extraversion" in personality && "grievances" in ledger
    requires IsInteger(core["charisma"]) && IsInteger(personality["extraversion"])
    requires ledger["grievances"].Table? && IntegerScores(ledger["grievances"].entries)
    ensures Reputation(core, personality, ledger)
            == Ok(Int(AsInt(core["charisma"]) + AsInt(personality["extraversion"])
                      - IntTotal(AsInts(Values(ledger["grievances"].entries)))))
  {
    var g := ledger["grievances"].entries;
    IntegerGrievanceTotal(g);
    PlusOfIntegers(core["charisma"], personality["extraversion"]);
    var total := IntTotal(AsInts(Values(g)));
    var base := AsInt(core["charisma"]) + AsInt(personality["extraversion"]);
    ReputationOfParts(core, personality, ledger, Int(base), Int(total));
  }

  lemma MoreScores(g: Entries, who: string, score: int)
    requires IntegerScores(g)
    ensures IntegerScores(g + [(who, Int(score))])
    ensures AsInts(Values(g + [(who, Int(score))])) == AsInts(Values(g)) + [score]
  {
    var more := g + [(who, Int(score))];
    assert forall i :: 0 <= i < |g| ==> more[i] == g[i];
    var vs := Values(more);
    assert vs[..|vs| - 1] == Values(g);
  }

  /** Recording a grievance against someone not yet in the table
      (`grievances[who] = s`) lowers an integer reputation by exactly `s`. */
  lemma GrievanceLowersReputation(core: map<string, Value>, personality: map<string, Value>,
                                  ledger: map<string, Value>, who: string, score: int)
    requires "charisma" in core && "extraversion" in personality && "grievances" in ledger
    requires IsInteger(core["charisma"]) && IsInteger(personality["extraversion"])
    requires ledger["grievances"].Table? && IntegerScores(ledger["grievances"].entries)
    requires !HasKey(ledger["grievances"].entries, who)
    ensures var more := ledger["grievances" := Table(ledger["grievances"].entries + [(who, Int(score))])];
            Reputation(core, personality, ledger).Ok? && Reputation(core, personality, ledger).value.Int?
            && Reputation(core, personality, more) == Ok(Int(Reputation(core, personality, ledger).value.i - score))
  {
    var g := ledger["grievances"].entries;
    var more := ledger["grievances" := Table(g + [(who, Int(score))])];
    MoreScores(g, who, score);
    assert more["grievances"].entries == g + [(who, Int(score))];
    IntegerReputation(core, personality, ledger);
    IntegerReputation(core, personality, more);
    IntTotalSnoc(AsInts(Values(g)), score);
  }

  class Eidolon {
    const name: string
    var coreAttributes: map<string, Value>
    var personality: map<string, Value>
    var dynamicStates: map<string, Value>
    /** target id to affinity kind to value */
    var affinities: Affinities
    var ledger: map<string, Value>

    /** Each tier keeps exactly its documented keys. */
    ghost predicate Valid()
      reads this
    {
      && coreAttributes.Keys == CoreDefaults.Keys
      && personality.Keys == PersonalityDefaults.Keys
      && dynamicStates.Keys == DynamicDefaults.Keys
      && ledger.Keys == LedgerDefaults.Keys
    }

    /** `Eidolon(name, **kwargs)`. */
    constructor (name: string, kwargs: map<string, Value>)
      ensures Valid()
      ensures this.name == name
      ensures coreAttributes == Tier(CoreDefaults, kwargs)
      ensures personality == Tier(PersonalityDefaults, kwargs)
      ensures dynamicStates == Tier(DynamicDefaults, kwargs)
      ensures ledger == Tier(LedgerDefaults, kwargs)
      ensures affinities == map[]
    {
      this.name := name;
      coreAttributes := Tier(CoreDefaults, kwargs);
      personality := Tier(PersonalityDefaults, kwargs);
      dynamicStates := Tier(DynamicDefaults, kwargs);
      affinities := map[];
      ledger := Tier(LedgerDefaults, kwargs);
    }

    method UpdateCoreAttribute(attribute: string, value: Value) returns (outcome: Outcome<PyError>)
      requires Valid()
      modifies this`coreAttributes
      ensures Valid()
      ensures attribute in old(coreAttributes) ==> outcome == Pass && coreAttributes == old(coreAttributes)[attribute := value]
      ensures attribute !in old(coreAttributes)
              ==> outcome == Fail(ValueError("Core attribute '" + attribute + "' not found."))
                  && coreAttributes == old(coreAttributes)
    {
      match UpdateKnown(coreAttributes, attribute, value)
      case Some(updated) =>
        coreAttributes := updated;
        outcome := Pass;
      case None =>
        outcome := Fail(ValueError("Core attribute '" + attribute + "' not found."));
    }

    method UpdateDynamicState(state: string, value: Value) returns (outcome: Outcome<PyError>)
      requires Valid()
      modifies this`dynamicStates
      ensures Valid()
      ensures state in old(dynamicStates) ==> outcome == Pass && dynamicStates == old(dynamicStates)[state := value]
      ensures state !in old(dynamicStates)
              ==> outcome == Fail(ValueError("Dynamic state '" + state + "' not found."))
                  && dynamicStates == old(dynamicStates)
    {
      match UpdateKnown(dynamicStates, state, value)
      case Some(updated) =>
        dynamicStates := updated;
        outcome := Pass;
      case None =>
        outcome := Fail(ValueError("Dynamic state '" + state + "' not found."));
    }

    method UpdateAffinity(targetId: string, kind: string, value: Value)
      modifies this`affinities
      ensures affinities == WithAffinity(old(affinities), targetId, kind, value)
      ensures GetAffinity(targetId, kind) == value
    {
      var inner := if targetId in affinities then affinities[targetId] else map[];
      affinities := affinities[targetId := inner[kind := value]];
    }

    function GetAffinity(targetId: string, kind: string): (r: Value)
      reads this
      ensures r == AffinityOf(affinities, targetId, kind)
    {
      AffinityOf(affinities, targetId, kind)
    }

    /** `calculate_derived_stats`: sanity is stored first, so an exception in
        the reputation step leaves the new sanity in place. */
    method CalculateDerivedStats() returns (outcome: Outcome<PyError>)
      requires Valid()
      modifies this`dynamicStates, this`ledger
      ensures Valid()
      ensures Sanity(old(coreAttributes)).None?
              ==> outcome == Fail(TypeError) && dynamicStates == old(dynamicStates) && ledger == old(ledger)
      ensures Sanity(old(coreAttributes)).Some?
              ==> dynamicStates == old(dynamicStates)["sanity" := Sanity(old(coreAttributes)).value]
      ensures Sanity(old(coreAttributes)).Some?
              ==> match Reputation(old(coreAttributes), old(personality), old(ledger))
                  case Ok(reputation) => outcome == Pass && ledger == old(ledger)["reputation" := reputation]
                  case Err(e) => outcome == Fail(e) && ledger == old(ledger)
    {
      var sanity := Sanity(coreAttributes);
      if sanity.None? {
        return Fail(TypeError);
      }
      dynamicStates := dynamicStates["sanity" := sanity.value];
      var reputation := Reputation(coreAttributes, personality, ledger);
      if reputation.Err? {
        return Fail(reputation.error);
      }
      ledger := ledger["reputation" := reputation.value];
      outcome := Pass;
    }
  }
}
