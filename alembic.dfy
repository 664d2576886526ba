/** The Alembic: keeps the sections of loaded Hyle documents and distils a
    character definition into a new Eidolon. */
module TheAlembic {
  import opened Wrappers
  import opened Hyle
  import opened TheEidolon

  /** The tiers of a character definition whose attributes become keyword
      arguments of the Eidolon constructor. */
  const Tiers: seq<string> := ["core", "personality", "dynamic_states", "ledger"]

  /** How one attribute's value is obtained: copied as written, or drawn by
      `random.randint(lo, hi)`, which yields an integer in `[lo, hi]`. */
  datatype Draw = Fixed(value: Value) | Between(lo: int, hi: int)

  /** What one attribute definition contributes: a draw, nothing (None: a
      procedural definition of a type other than `range`), or the exception
      `random.randint` raises for non-integer bounds or an empty range. */
  function AttributeDraw(definition: Value): (r: Result<Option<Draw>, PyError>)
    ensures !(definition.Table? && HasKey(definition.entries, "type")) ==> r == Ok(Some(Fixed(definition)))
    ensures (definition.Table? && HasKey(definition.entries, "type")
             && Lookup(definition.entries, "type") != Some(Text("range"))) ==> r == Ok(None)
    ensures r.Ok? && r.value.Some? && r.value.value.Between?
            ==> definition.Table?
                && var lo := GetOr(definition.entries, "min", Int(0));
                   var hi := GetOr(definition.entries, "max", Int(100));
                   IsInteger(lo) && IsInteger(hi) && r.value.value == Between(AsInt(lo), AsInt(hi))
                   && AsInt(lo) <= AsInt(hi)
    ensures definition.Table? && Lookup(definition.entries, "type") == Some(Text("range")) && r.Ok?
            ==> r.value.Some? && r.value.value.Between?
    ensures definition.Table? && Lookup(definition.entries, "type") == Some(Text("range"))
            ==> var lo := GetOr(definition.entries, "min", Int(0));
                var hi := GetOr(definition.entries, "max", Int(100));
                (!(IsInteger(lo) && IsInteger(hi)) ==> r == Err(TypeError))
                && (IsInteger(lo) && IsInteger(hi) && AsInt(lo) > AsInt(hi) ==> r.Err? && r.error.ValueError?)
                && (IsInteger(lo) && IsInteger(hi) && AsInt(lo) <= AsInt(hi)
                    ==> r == Ok(Some(Between(AsInt(lo), AsInt(hi)))))
  {
    if definition.Table? && HasKey(definition.entries, "type") then
      if Lookup(definition.entries, "type") == Some(Text("range")) then
        var lo := GetOr(definition.entries, "min", Int(0));
        var hi := GetOr(definition.entries, "max", Int(100));
        if !(IsInteger(lo) && IsInteger(hi)) then Err(TypeError)
        else if AsInt(lo) > AsInt(hi) then Err(ValueError("empty range in randrange"))
        else Ok(Some(Between(AsInt(lo), AsInt(hi))))
      else Ok(None)
    else Ok(Some(Fixed(definition)))
  }

  /** A range without bounds draws from 0 to 100. */
  lemma RangeDefaultBounds()
    ensures AttributeDraw(Table([("type", Text("range"))])) == Ok(Some(Between(0, 100)))
  {
    var entries := [("type", Text("range"))];
    assert !HasKey(entries, "min") && !HasKey(entries, "max");
  }

  type Plan = seq<(string, Draw)>

  /** The draws of one tier's attributes, in order, or the first exception. */
  function TierDraws(attributes: Entries): Result<Plan, PyError>
    decreases |attributes|
  {
    if |attributes| == 0 then Ok([])
    else
      match TierDraws(attributes[..|attributes| - 1])
      case Err(e) => Err(e)
      case Ok(p) =>
        var (name, definition) := attributes[|attributes| - 1];
        match AttributeDraw(definition)
        case Err(e) => Err(e)
        case Ok(None) => Ok(p)
        case Ok(Some(d)) => Ok(p + [(name, d)])
  }

  /** The draws over the whole definition, tier by tier in order; entries
      that are not tiers are passed over, and a tier that is not a table
      raises AttributeError (`.items()`). */
  function PlanOf(definition: Entries): Result<Plan, PyError>
    decreases |definition|
  {
    if |definition| == 0 then Ok([])
    else
      match PlanOf(definition[..|definition| - 1])
      case Err(e) => Err(e)
      case Ok(p) =>
        var (tier, data) := definition[|definition| - 1];
        if tier !in Tiers then Ok(p)
        else if !data.Table? then Err(AttributeError)
        else
          match TierDraws(data.entries)
          case Err(e) => Err(e)
          case Ok(q) => Ok(p + q)
  }

  predicate Planned(plan: Plan, name: string)
  {
    exists i :: 0 <= i < |plan| && plan[i].0 == name
  }

  /** The last draw for `name`: later assignments to a keyword win. */
  function LastDraw(plan: Plan, name: string): Draw
    requires Planned(plan, name)
    decreases |plan|
  {
    var n := |plan| - 1;
    if plan[n].0 == name then plan[n].1
    else
      assert Planned(plan[..n], name) by {
        var i :| 0 <= i < |plan| && plan[i].0 == name;
        assert plan[..n][i] == plan[i];
      }
      LastDraw(plan[..n], name)
  }

  /** The last draw is the one of the last entry for `name`. */
  lemma {:induction false} LastDrawIsLast(plan: Plan, name: string)
    requires Planned(plan, name)
    ensures exists i :: 0 <= i < |plan| && plan[i] == (name, LastDraw(plan, name))
                        && forall j :: i < j < |plan| ==> plan[j].0 != name
    decreases |plan|
  {
    var n := |plan| - 1;
    if plan[n].0 == name {
      assert plan[n] == (name, LastDraw(plan, name));
    } else {
      var init := plan[..n];
      assert Planned(init, name) by {
        var i :| 0 <= i < |plan| && plan[i].0 == name;
        assert init[i] == plan[i];
      }
      LastDrawIsLast(init, name);
      var i :| 0 <= i < n && init[i] == (name, LastDraw(init, name))
               && forall j :: i < j < n ==> init[j].0 != name;
      assert LastDraw(plan, name) == LastDraw(init, name);
      assert plan[i] == init[i];
      forall j | i < j < |plan| ensures plan[j].0 != name {
        if j < n { assert plan[j] == init[j]; }
      }
    }
  }

  predicate Meets(d: Draw, v: Value)
  {
    match d
    case Fixed(x) => v == x
    case Between(lo, hi) => v.Int? && lo <= v.i <= hi
  }

  /** `kwargs` is a possible outcome of carrying out `plan` on `start`: every
      planned keyword holds a value its last draw allows, every other one
      keeps its starting value. */
  ghost predicate Realizes(plan: Plan, start: map<string, Value>, kwargs: map<string, Value>)
  {
    && (forall k :: k in kwargs <==> k in start || Planned(plan, k))
    && (forall k :: k in kwargs && Planned(plan, k) ==> Meets(LastDraw(plan, k), kwargs[k]))
    && (forall k :: k in kwargs && !Planned(plan, k) ==> kwargs[k] == start[k])
  }

  lemma RealizesStep(plan: Plan, start: map<string, Value>, kwargs: map<string, Value>,
                     name: string, d: Draw, v: Value)
    requires Realizes(plan, start, kwargs) && Meets(d, v)
    ensures Realizes(plan + [(name, d)], start, kwargs[name := v])
  {
    var longer := plan + [(name, d)];
    assert longer[..|plan|] == plan;
    forall k ensures Planned(longer, k) <==> Planned(plan, k) || k == name {
      if Planned(plan, k) {
        var i :| 0 <= i < |plan| && plan[i].0 == k;
        assert longer[i] == plan[i];
      }
      if Planned(longer, k) && k != name {
        var i :| 0 <= i < |longer| && longer[i].0 == k;
        assert i < |plan| && plan[i] == longer[i];
      }
      if k == name {
        assert longer[|plan|].0 == name;
      }
    }
  }

  lemma {:induction false} TierDrawsAfterFailure(attributes: Entries, k: nat)
    requires k <= |attributes| && TierDraws(attributes[..k]).Err?
    ensures TierDraws(attributes) == TierDraws(attributes[..k])
    decreases |attributes| - k
  {
    if k < |attributes| {
      assert attributes[..k + 1][..k] == attributes[..k];
      TierDrawsAfterFailure(attributes, k + 1);
    } else {
      assert attributes[..k] == attributes;
    }
  }

  lemma {:induction false} PlanAfterFailure(definition: Entries, k: nat)
    requires k <= |definition| && PlanOf(definition[..k]).Err?
    ensures PlanOf(definition) == PlanOf(definition[..k])
    decreases |definition| - k
  {
    if k < |definition| {
      assert definition[..k + 1][..k] == definition[..k];
      PlanAfterFailure(definition, k + 1);
    } else {
      assert definition[..k] == definition;
    }
  }

  /** A tier fails exactly when the definition of one of its attributes fails. */
  lemma {:induction false} TierDrawsFails(attributes: Entries)
    ensures TierDraws(attributes).Err? <==> exists i :: 0 <= i < |attributes| && AttributeDraw(attributes[i].1).Err?
    decreases |attributes|
  {
    if |attributes| > 0 {
      var n := |attributes| - 1;
      var init := attributes[..n];
      TierDrawsFails(init);
      if TierDraws(init).Err? {
        var i :| 0 <= i < n && AttributeDraw(init[i].1).Err?;
        assert attributes[i] == init[i];
      } else if AttributeDraw(attributes[n].1).Ok? {
        forall i | 0 <= i < |attributes| ensures AttributeDraw(attributes[i].1).Ok? {
          if i < n { assert init[i] == attributes[i]; }
        }
      }
    }
  }

  /** Each draw of a tier comes from one of its attributes: under that
      attribute's name, as its definition gives it. */
  lemma {:induction false} TierDrawsFromAttributes(attributes: Entries)
    requires TierDraws(attributes).Ok?
    ensures var p := TierDraws(attributes).value;
            |p| <= |attributes|
            && forall k :: 0 <= k < |p| ==>
                 exists i :: 0 <= i < |attributes| && attributes[i].0 == p[k].0
                             && AttributeDraw(attributes[i].1) == Ok(Some(p[k].1))
    decreases |attributes|
  {
    if |attributes| > 0 {
      var n := |attributes| - 1;
      var init := attributes[..n];
      TierDrawsFromAttributes(init);
      var p := TierDraws(attributes).value;
      var q := TierDraws(init).value;
      forall k | 0 <= k < |p|
        ensures exists i :: 0 <= i < |attributes| && attributes[i].0 == p[k].0
                            && AttributeDraw(attributes[i].1) == Ok(Some(p[k].1))
      {
        if k < |q| {
          assert p[k] == q[k];
          var i :| 0 <= i < n && init[i].0 == q[k].0 && AttributeDraw(init[i].1) == Ok(Some(q[k].1));
          assert attributes[i] == init[i];
        } else {
          assert attributes[n].0 == p[k].0 && AttributeDraw(attributes[n].1) == Ok(Some(p[k].1));
        }
      }
    }
  }

  /** A definition fails exactly when one of its tiers is not a table or has
      a failing attribute; entries that are not tiers never fail. */
  lemma {:induction false} PlanOfFails(definition: Entries)
    ensures PlanOf(definition).Err?
            <==> exists i :: 0 <= i < |definition| && definition[i].0 in Tiers
                             && (!definition[i].1.Table? || TierDraws(definition[i].1.entries).Err?)
    decreases |definition|
  {
    if |definition| > 0 {
      var n := |definition| - 1;
      var init := definition[..n];
      PlanOfFails(init);
      if i :| 0 <= i < n && init[i].0 in Tiers && (!init[i].1.Table? || TierDraws(init[i].1.entries).Err?) {
        assert definition[i] == init[i];
      }
      if i :| 0 <= i < |definition| && definition[i].0 in Tiers
              && (!definition[i].1.Table? || TierDraws(definition[i].1.entries).Err?) {
        if i < n { assert init[i] == definition[i]; }
      }
    }
  }

  lemma TierDrawsStep(attributes: Entries, j: nat)
    requires j < |attributes|
    ensures TierDraws(attributes[..j + 1])
            == match TierDraws(attributes[..j])
               case Err(e) => Err(e)
               case Ok(p) =>
                 match AttributeDraw(attributes[j].1)
                 case Err(e) => Err(e)
                 case Ok(None) => Ok(p)
                 case Ok(Some(d)) => Ok(p + [(attributes[j].0, d)])
  {
    assert attributes[..j + 1][..j] == attributes[..j];
  }

  lemma PlanStep(definition: Entries, i: nat)
    requires i < |definition|
    ensures PlanOf(definition[..i + 1])
            == match PlanOf(definition[..i])
               case Err(e) => Err(e)
               case Ok(p) =>
                 if definition[i].0 !in Tiers then Ok(p)
                 else if !definition[i].1.Table? then Err(AttributeError)
                 else
                   match TierDraws(definition[i].1.entries)
                   case Err(e) => Err(e)
                   case Ok(q) => Ok(p + q)
  {
    assert definition[..i + 1][..i] == definition[..i];
  }

  /** Carries out one draw: `random.randint(lo, hi)` may return any integer
      of the range, so the choice is left open. */
  method Realize(d: Draw) returns (v: Value)
    requires d.Between? ==> d.lo <= d.hi
    ensures Meets(d, v)
  {
    match d {
      case Fixed(x) =>
        v := x;
      case Between(lo, hi) =>
        var picked :| lo <= picked <= hi;
        v := Int(picked);
    }
  }

  /** The inner loop of `create_eidolon`: one tier's attributes added to
      `kwargs`, or the exception that stopped them. */
  method FlattenTier(attributes: Entries, ghost plan: Plan, ghost start: map<string, Value>,
                     kwargs: map<string, Value>) returns (r: Result<map<string, Value>, PyError>)
    requires Realizes(plan, start, kwargs)
    ensures TierDraws(attributes).Err? ==> r == Err(TierDraws(attributes).error)
    ensures TierDraws(attributes).Ok? ==> r.Ok? && Realizes(plan + TierDraws(attributes).value, start, r.value)
  {
    var current := kwargs;
    ghost var tierPlan: Plan := [];
    assert plan + tierPlan == plan;
    var j := 0;
    while j < |attributes|
      invariant 0 <= j <= |attributes|
      invariant TierDraws(attributes[..j]) == Ok(tierPlan)
      invariant Realizes(plan + tierPlan, start, current)
    {
      TierDrawsStep(attributes, j);
      var (attribute, definition) := attributes[j];
      var draw := AttributeDraw(definition);
      if draw.Err? {
        TierDrawsAfterFailure(attributes, j + 1);
        return Err(draw.error);
      }
      if draw.value.Some? {
        var v := Realize(draw.value.value);
        RealizesStep(plan + tierPlan, start, current, attribute, draw.value.value, v);
        assert (plan + tierPlan) + [(attribute, draw.value.value)] == plan + (tierPlan + [(attribute, draw.value.value)]);
        current := current[attribute := v];
        tierPlan := tierPlan + [(attribute, draw.value.value)];
      }
      j := j + 1;
    }
    assert attributes[..j] == attributes;
    r := Ok(current);
  }

  /** The nested loops of `create_eidolon`: the keyword arguments, starting
      from `{"name": name}`, or the exception that stopped them. */
  method FlattenTiers(definition: Entries, name: Value) returns (r: Result<map<string, Value>, PyError>)
    ensures PlanOf(definition).Err? ==> r == Err(PlanOf(definition).error)
    ensures PlanOf(definition).Ok? ==> r.Ok? && Realizes(PlanOf(definition).value, map["name" := name], r.value)
  {
    var kwargs := map["name" := name];
    ghost var plan: Plan := [];
    var i := 0;
    while i < |definition|
      invariant 0 <= i <= |definition|
      invariant PlanOf(definition[..i]) == Ok(plan)
      invariant Realizes(plan, map["name" := name], kwargs)
    {
      PlanStep(definition, i);
      var (tier, data) := definition[i];
      if tier in Tiers {
        if !data.Table? {
          PlanAfterFailure(definition, i + 1);
          return Err(AttributeError);
        }
        var added := FlattenTier(data.entries, plan, map["name" := name], kwargs);
        if added.Err? {
          PlanAfterFailure(definition, i + 1);
          return Err(added.error);
        }
        kwargs := added.value;
        plan := plan + TierDraws(data.entries).value;
      }
      i := i + 1;
    }
    assert definition[..i] == definition;
    r := Ok(kwargs);
  }

  /** Entries that are not one of the four tiers contribute nothing, wherever
      they stand. */
  lemma {:induction false} PlanIgnoresOtherEntries(definition: Entries, k: nat)
    requires k < |definition| && definition[k].0 !in Tiers
    ensures PlanOf(definition) == PlanOf(definition[..k] + definition[k + 1..])
    decreases |definition|
  {
    var n := |definition|;
    var shorter := definition[..k] + definition[k + 1..];
    if k == n - 1 {
      assert shorter == definition[..n - 1];
    } else {
      var init := definition[..n - 1];
      assert init[k] == definition[k];
      PlanIgnoresOtherEntries(init, k);
      assert shorter[..|shorter| - 1] == init[..k] + init[k + 1..];
      assert shorter[|shorter| - 1] == definition[n - 1];
    }
  }

  /** Flattening forgets the tier: moving one tier entry's attributes under
      another tier name leaves the draws of the whole definition unchanged. */
  lemma {:induction false} TierNameIrrelevant(definition: Entries, k: nat, tier: string)
    requires k < |definition| && definition[k].0 in Tiers && tier in Tiers
    ensures PlanOf(definition[k := (tier, definition[k].1)]) == PlanOf(definition)
    decreases |definition|
  {
    var n := |definition| - 1;
    var renamed := definition[k := (tier, definition[k].1)];
    if k < n {
      var init := definition[..n];
      TierNameIrrelevant(init, k, tier);
      assert renamed[..n] == init[k := (tier, definition[k].1)];
      assert renamed[n] == definition[n];
    } else {
      assert renamed[..n] == definition[..n];
    }
  }

  /** The outcome for a planned attribute: a copied value as written, a drawn
      value within the range. */
  lemma PlannedValue(plan: Plan, start: map<string, Value>, kwargs: map<string, Value>, name: string)
    requires Realizes(plan, start, kwargs) && Planned(plan, name)
    ensures name in kwargs
    ensures LastDraw(plan, name).Fixed? ==> kwargs[name] == LastDraw(plan, name).value
    ensures LastDraw(plan, name).Between?
            ==> kwargs[name].Int? && LastDraw(plan, name).lo <= kwargs[name].i <= LastDraw(plan, name).hi
  {
  }

  /** An attribute that nothing in the definition assigns gets the
      constructor's default. */
  lemma UnplannedAttributeDefaults(plan: Plan, name: Value, kwargs: map<string, Value>, attribute: string)
    requires Realizes(plan, map["name" := name], kwargs) && !Planned(plan, attribute)
    requires attribute in CoreDefaults
    ensures Tier(CoreDefaults, kwargs - {"name"})[attribute] == Int(0)
  {
    assert attribute !in kwargs;
  }

  /** The pieces `create_eidolon` reads before the loops: the name the
      constructor starts from and the draws. */
  datatype Blueprint = Blueprint(name: Value, plan: Plan)

  /** The guards of `create_eidolon`: None when no characters section is
      loaded or the definition is missing or empty, an exception when a
      value that must be a table is not one. */
  function Prepare(loaded: map<string, Value>, eidolonId: string): (r: Result<Option<Blueprint>, PyError>)
    ensures "characters" !in loaded ==> r == Ok(None)
    ensures "characters" in loaded && !loaded["characters"].Table? ==> r == Err(AttributeError)
    ensures "characters" in loaded && loaded["characters"].Table?
            ==> var d := Lookup(loaded["characters"].entries, eidolonId);
                ((d.None? || !Truthy(d.value)) ==> r == Ok(None))
                && (d.Some? && Truthy(d.value) && !d.value.Table? ==> r == Err(AttributeError))
                && (d.Some? && d.value.Table? && d.value.entries != []
                    ==> r == (match PlanOf(d.value.entries)
                              case Err(e) => Err(e)
                              case Ok(p) => Ok(Some(Blueprint(GetOr(d.value.entries, "name", Text(eidolonId)), p)))))
  {
    if "characters" !in loaded then Ok(None)
    else if !loaded["characters"].Table? then Err(AttributeError)
    else
      var found := Lookup(loaded["characters"].entries, eidolonId);
      if found.None? || !Truthy(found.value) then Ok(None)
      else if !found.value.Table? then Err(AttributeError)
      else
        var definition := found.value.entries;
        match PlanOf(definition)
        case Err(e) => Err(e)
        case Ok(p) => Ok(Some(Blueprint(GetOr(definition, "name", Text(eidolonId)), p)))
  }

  /** A definition without a `name` key names the Eidolon after its id. */
  lemma NameDefaultsToId(loaded: map<string, Value>, eidolonId: string, definition: Entries)
    requires "characters" in loaded && loaded["characters"].Table?
    requires Lookup(loaded["characters"].entries, eidolonId) == Some(Table(definition))
    requires definition != [] && !HasKey(definition, "name") && PlanOf(definition).Ok?
    ensures Prepare(loaded, eidolonId) == Ok(Some(Blueprint(Text(eidolonId), PlanOf(definition).value)))
  {
  }

  /** The constructor's `name` argument once the loops are done: a `name`
      attribute inside a tier overrides the starting name. None when it is
      not a string. */
  function FinalName(bp: Blueprint): (r: Option<string>)
  {
    if Planned(bp.plan, "name") then
      match LastDraw(bp.plan, "name")
      case Fixed(Text(s)) => Some(s)
      case _ => None
    else if bp.name.Text? then Some(bp.name.s) else None
  }

  lemma FinalNameOf(bp: Blueprint, kwargs: map<string, Value>)
    requires Realizes(bp.plan, map["name" := bp.name], kwargs)
    ensures "name" in kwargs
    ensures FinalName(bp).Some? <==> kwargs["name"].Text?
    ensures FinalName(bp).Some? ==> FinalName(bp).value == kwargs["name"].s
  {
  }

  /** The result of `create_eidolon`. `NameNotText` stands for an Eidolon the
      source would build with a name that is not a string, which the model's
      Eidolon (whose name is a string) cannot hold. */
  datatype Creation = Created(eidolon: Eidolon) | NoneReturned | Raised(error: PyError) | NameNotText(name: Value)

  /** The new Eidolon was built by the constructor from these keyword arguments. */
  ghost predicate BuiltFrom(e: Eidolon, kwargs: map<string, Value>)
    reads e
  {
    && e.Valid()
    && e.coreAttributes == Tier(CoreDefaults, kwargs)
    && e.personality == Tier(PersonalityDefaults, kwargs)
    && e.dynamicStates == Tier(DynamicDefaults, kwargs)
    && e.ledger == Tier(LedgerDefaults, kwargs)
    && e.affinities == map[]
  }

  /** The stored section of a document when present, otherwise no change. */
  function StoreSection(loaded: map<string, Value>, doc: Option<Entries>, sectionName: string): (r: map<string, Value>)
    ensures doc.Some? && HasKey(doc.value, sectionName)
            ==> r == loaded[sectionName := Lookup(doc.value, sectionName).value]
    ensures !(doc.Some? && HasKey(doc.value, sectionName)) ==> r == loaded
  {
    if doc.Some? && HasKey(doc.value, sectionName) then loaded[sectionName := Lookup(doc.value, sectionName).value]
    else loaded
  }

  class Alembic {
    /** Section name to the section's parsed value. */
    var loadedHyle: map<string, Value>

    constructor ()
      ensures loadedHyle == map[]
    {
      loadedHyle := map[];
    }

    /** `load_hyle_file` over the parsed document; None stands for a file
        that is missing or not valid TOML, which the source only reports. */
    method LoadHyleFile(doc: Option<Entries>, sectionName: string)
      modifies this`loadedHyle
      ensures loadedHyle == StoreSection(old(loadedHyle), doc, sectionName)
    {
      if doc.Some? {
        var section := Lookup(doc.value, sectionName);
        if section.Some? {
          loadedHyle := loadedHyle[sectionName := section.value];
        }
      }
    }

    /** `create_eidolon`. */
    method CreateEidolon(eidolonId: string) returns (r: Creation)
      ensures Prepare(loadedHyle, eidolonId) == Ok(None) ==> r == NoneReturned
      ensures Prepare(loadedHyle, eidolonId).Err? ==> r == Raised(Prepare(loadedHyle, eidolonId).error)
      ensures Prepare(loadedHyle, eidolonId).Ok? && Prepare(loadedHyle, eidolonId).value.Some?
              ==> var bp := Prepare(loadedHyle, eidolonId).value.value;
                  (FinalName(bp).None? ==> r.NameNotText?)
                  && (FinalName(bp).Some?
                      ==> r.Created? && fresh(r.eidolon) && r.eidolon.name == FinalName(bp).value
                          && exists kwargs :: Realizes(bp.plan, map["name" := bp.name], kwargs)
                                              && BuiltFrom(r.eidolon, kwargs - {"name"}))
    {
      if "characters" !in loadedHyle {
        return NoneReturned;
      }
      var characters := loadedHyle["characters"];
      if !characters.Table? {
        return Raised(AttributeError);
      }
      var found := Lookup(characters.entries, eidolonId);
      if found.None? || !Truthy(found.value) {
        return NoneReturned;
      }
      if !found.value.Table? {
        return Raised(AttributeError);
      }
      var definition := found.value.entries;
      var name := GetOr(definition, "name", Text(eidolonId));
      var flattened := FlattenTiers(definition, name);
      if flattened.Err? {
        return Raised(flattened.error);
      }
      var kwargs := flattened.value;
      ghost var bp := Blueprint(name, PlanOf(definition).value);
      FinalNameOf(bp, kwargs);
      if !kwargs["name"].Text? {
        return NameNotText(kwargs["name"]);
      }
      var eidolon := new Eidolon(kwargs["name"].s, kwargs - {"name"});
      r := Created(eidolon);
    }
  }
}

/** The two characters of the Alembic's own example document. */
module AlembicExamples {
  import opened Wrappers
  import opened Hyle
  import opened TheEidolon
  import opened TheAlembic

  const Gregor: Entries := [
    ("name", Text("Gregor the Guard")),
    ("generation_type", Text("static")),
    ("core", Table([("strength", Int(15)), ("agility", Int(8))])),
    ("personality", Table([("openness", Int(20))]))
  ]

  function RangeOf(lo: int, hi: int): Value
  {
    Table([("type", Text("range")), ("min", Int(lo)), ("max", Int(hi))])
  }

  const Bandit: Entries := Template((8, 12), (10, 14), (-20, 0))

  lemma RangeOfDraws(lo: int, hi: int)
    requires lo <= hi
    ensures AttributeDraw(RangeOf(lo, hi)) == Ok(Some(Between(lo, hi)))
  {
    var e := [("type", Text("range")), ("min", Int(lo)), ("max", Int(hi))];
    assert e[0].0 == "type";
    assert e[1].0 == "min" && e[1].0 != "type";
    assert e[2].0 == "max" && e[2].0 != "min" && e[2].0 != "type";
  }

  lemma TierDrawsOne(n: string, v: Value, d: Draw)
    requires AttributeDraw(v) == Ok(Some(d))
    ensures TierDraws([(n, v)]) == Ok([(n, d)])
  {
    TierDrawsStep([(n, v)], 0);
    assert [(n, v)][..0] == [];
    assert [(n, v)][..1] == [(n, v)];
    assert [] + [(n, d)] == [(n, d)];
  }

  lemma TierDrawsTwo(n1: string, v1: Value, d1: Draw, n2: string, v2: Value, d2: Draw)
    requires AttributeDraw(v1) == Ok(Some(d1)) && AttributeDraw(v2) == Ok(Some(d2))
    ensures TierDraws([(n1, v1), (n2, v2)]) == Ok([(n1, d1), (n2, d2)])
  {
    TierDrawsOne(n1, v1, d1);
    TierDrawsStep([(n1, v1), (n2, v2)], 1);
    assert [(n1, v1), (n2, v2)][..1] == [(n1, v1)];
    assert [(n1, v1), (n2, v2)][..2] == [(n1, v1), (n2, v2)];
    assert [(n1, d1)] + [(n2, d2)] == [(n1, d1), (n2, d2)];
  }

  /** A character of two leading non-tier entries, a core tier and a
      personality tier. */
  lemma PlanOfCharacter(name: Value, kind: Value, core: Entries, personality: Entries, p: Plan, q: Plan)
    requires TierDraws(core) == Ok(p) && TierDraws(personality) == Ok(q)
    ensures PlanOf([("name", name), ("generation_type", kind), ("core", Table(core)),
                    ("personality", Table(personality))]) == Ok(p + q)
  {
    var c := [("name", name), ("generation_type", kind), ("core", Table(core)), ("personality", Table(personality))];
    assert "name" !in Tiers && "generation_type" !in Tiers;
    assert "core" in Tiers && "personality" in Tiers;
    PlanStep(c, 0);
    assert c[..0] == [];
    assert PlanOf(c[..1]) == Ok([]);
    PlanStep(c, 1);
    assert PlanOf(c[..2]) == Ok([]);
    PlanStep(c, 2);
    assert [] + p == p;
    assert PlanOf(c[..3]) == Ok(p);
    PlanStep(c, 3);
    assert c[..4] == c;
  }

  /** Gregor's values are copied as written. */
  lemma GregorPlan()
    ensures PlanOf(Gregor) == Ok([("strength", Fixed(Int(15))), ("agility", Fixed(Int(8))), ("openness", Fixed(Int(20)))])
  {
    TierDrawsTwo("strength", Int(15), Fixed(Int(15)), "agility", Int(8), Fixed(Int(8)));
    TierDrawsOne("openness", Int(20), Fixed(Int(20)));
    PlanOfCharacter(Text("Gregor the Guard"), Text("static"),
                    [("strength", Int(15)), ("agility", Int(8))], [("openness", Int(20))],
                    [("strength", Fixed(Int(15))), ("agility", Fixed(Int(8)))], [("openness", Fixed(Int(20)))]);
    assert [("strength", Fixed(Int(15))), ("agility", Fixed(Int(8)))] + [("openness", Fixed(Int(20)))]
        == [("strength", Fixed(Int(15))), ("agility", Fixed(Int(8))), ("openness", Fixed(Int(20)))];
  }

  /** The bandit's definition with its ranges as parameters. */
  function Template(strength: (int, int), agility: (int, int), agreeableness: (int, int)): Entries
  {
    [("name", Text("Bandit")), ("generation_type", Text("template")),
     ("core", Table([("strength", RangeOf(strength.0, strength.1)), ("agility", RangeOf(agility.0, agility.1))])),
     ("personality", Table([("agreeableness", RangeOf(agreeableness.0, agreeableness.1))]))]
  }

  /** The bandit's shape, with any three attribute definitions. */
  lemma PlanOfBanditShape(v1: Value, v2: Value, v3: Value, d1: Draw, d2: Draw, d3: Draw)
    requires AttributeDraw(v1) == Ok(Some(d1)) && AttributeDraw(v2) == Ok(Some(d2))
    requires AttributeDraw(v3) == Ok(Some(d3))
    ensures PlanOf([("name", Text("Bandit")), ("generation_type", Text("template")),
                    ("core", Table([("strength", v1), ("agility", v2)])),
                    ("personality", Table([("agreeableness", v3)]))])
            == Ok([("strength", d1), ("agility", d2), ("agreeableness", d3)])
  {
    TierDrawsTwo("strength", v1, d1, "agility", v2, d2);
    TierDrawsOne("agreeableness", v3, d3);
    PlanOfCharacter(Text("Bandit"), Text("template"), [("strength", v1), ("agility", v2)],
                    [("agreeableness", v3)], [("strength", d1), ("agility", d2)], [("agreeableness", d3)]);
    assert [("strength", d1), ("agility", d2)] + [("agreeableness", d3)]
        == [("strength", d1), ("agility", d2), ("agreeableness", d3)];
  }

  /** Each of the bandit's attributes is drawn from its own range. */
  lemma TemplatePlan(strength: (int, int), agility: (int, int), agreeableness: (int, int))
    requires strength.0 <= strength.1 && agility.0 <= agility.1 && agreeableness.0 <= agreeableness.1
    ensures PlanOf(Template(strength, agility, agreeableness))
            == Ok([("strength", Between(strength.0, strength.1)), ("agility", Between(agility.0, agility.1)),
                   ("agreeableness", Between(agreeableness.0, agreeableness.1))])
  {
    RangeOfDraws(strength.0, strength.1);
    RangeOfDraws(agility.0, agility.1);
    RangeOfDraws(agreeableness.0, agreeableness.1);
    PlanOfBanditShape(RangeOf(strength.0, strength.1), RangeOf(agility.0, agility.1),
                      RangeOf(agreeableness.0, agreeableness.1), Between(strength.0, strength.1),
                      Between(agility.0, agility.1), Between(agreeableness.0, agreeableness.1));
  }

  lemma BanditPlan()
    ensures PlanOf(Bandit) == Ok([("strength", Between(8, 12)), ("agility", Between(10, 14)), ("agreeableness", Between(-20, 0))])
  {
    TemplatePlan((8, 12), (10, 14), (-20, 0));
  }

  lemma TemplateBlueprint(loaded: map<string, Value>, other: Value,
                          strength: (int, int), agility: (int, int), agreeableness: (int, int))
    requires strength.0 <= strength.1 && agility.0 <= agility.1 && agreeableness.0 <= agreeableness.1
    requires "characters" in loaded
    requires loaded["characters"] == Table([("gregor_the_guard", other), ("generic_bandit", Table(Template(strength, agility, agreeableness)))])
    ensures Prepare(loaded, "generic_bandit")
            == Ok(Some(Blueprint(Text("Bandit"),
                                 [("strength", Between(strength.0, strength.1)), ("agility", Between(agility.0, agility.1)),
                                  ("agreeableness", Between(agreeableness.0, agreeableness.1))])))
  {
    TemplatePlan(strength, agility, agreeableness);
    var definition := Template(strength, agility, agreeableness);
    var characters := [("gregor_the_guard", other), ("generic_bandit", Table(definition))];
    assert "gregor_the_guard" != "generic_bandit";
    assert Lookup(characters, "generic_bandit") == Some(Table(definition)) by {
      assert characters[1..] == [("generic_bandit", Table(definition))];
    }
    assert definition[0] == ("name", Text("Bandit"));
    assert GetOr(definition, "name", Text("generic_bandit")) == Text("Bandit");
  }

  /** The last draws of a plan with three differently named draws. */
  lemma ThreeDraws(draws: Plan, a: string, b: string, c: string, other: string)
    requires |draws| == 3 && draws[0].0 == a && draws[1].0 == b && draws[2].0 == c
    requires a != b && a != c && b != c && other != a && other != b && other != c
    ensures Planned(draws, a) && LastDraw(draws, a) == draws[0].1
    ensures Planned(draws, b) && LastDraw(draws, b) == draws[1].1
    ensures Planned(draws, c) && LastDraw(draws, c) == draws[2].1
    ensures !Planned(draws, other)
  {
    assert draws[..2][..1] == [draws[0]] && draws[..2][1] == draws[1];
    assert LastDraw(draws[..2][..1], a) == draws[0].1;
    assert LastDraw(draws[..2], a) == draws[0].1;
    assert LastDraw(draws[..2], b) == draws[1].1;
  }

  /** Whatever the draws, the bandit's strength, agility and agreeableness
      lie in their ranges and everything else keeps its default. */
  lemma TemplateStats(kwargs: map<string, Value>, strength: (int, int), agility: (int, int), agreeableness: (int, int))
    requires Realizes([("strength", Between(strength.0, strength.1)), ("agility", Between(agility.0, agility.1)),
                       ("agreeableness", Between(agreeableness.0, agreeableness.1))],
                      map["name" := Text("Bandit")], kwargs)
    ensures var core := Tier(CoreDefaults, kwargs - {"name"});
            core["strength"].Int? && strength.0 <= core["strength"].i <= strength.1
            && core["agility"].Int? && agility.0 <= core["agility"].i <= agility.1
            && core["intellect"] == Int(0)
    ensures var personality := Tier(PersonalityDefaults, kwargs - {"name"});
            personality["agreeableness"].Int? && agreeableness.0 <= personality["agreeableness"].i <= agreeableness.1
            && personality["openness"] == Int(0)
  {
    var draws := [("strength", Between(strength.0, strength.1)), ("agility", Between(agility.0, agility.1)),
                  ("agreeableness", Between(agreeableness.0, agreeableness.1))];
    StatValues(draws, kwargs);
    ThreeDraws(draws, "strength", "agility", "agreeableness", "intellect");
    UnplannedAttributeDefaults(draws, Text("Bandit"), kwargs, "intellect");
  }

  /** The three drawn stats and the untouched openness of a bandit. */
  lemma StatValues(draws: Plan, kwargs: map<string, Value>)
    requires |draws| == 3 && draws[0].0 == "strength" && draws[1].0 == "agility" && draws[2].0 == "agreeableness"
    requires draws[0].1.Between? && draws[1].1.Between? && draws[2].1.Between?
    requires Realizes(draws, map["name" := Text("Bandit")], kwargs)
    ensures var core := Tier(CoreDefaults, kwargs - {"name"});
            core["strength"].Int? && draws[0].1.lo <= core["strength"].i <= draws[0].1.hi
            && core["agility"].Int? && draws[1].1.lo <= core["agility"].i <= draws[1].1.hi
    ensures var personality := Tier(PersonalityDefaults, kwargs - {"name"});
            personality["agreeableness"].Int? && draws[2].1.lo <= personality["agreeableness"].i <= draws[2].1.hi
            && personality["openness"] == Int(0)
  {
    var start := map["name" := Text("Bandit")];
    ThreeDraws(draws, "strength", "agility", "agreeableness", "openness");
    DrawnStat(draws, start, kwargs, CoreDefaults, 0);
    DrawnStat(draws, start, kwargs, CoreDefaults, 1);
    DrawnStat(draws, start, kwargs, PersonalityDefaults, 2);
    assert "openness" !in kwargs;
  }

  /** A tier attribute whose last draw is a range holds an integer in it. */
  lemma DrawnStat(plan: Plan, start: map<string, Value>, kwargs: map<string, Value>,
                  defaults: map<string, Value>, i: nat)
    requires Realizes(plan, start, kwargs) && i < |plan| && plan[i].0 in defaults && plan[i].0 != "name"
    requires Planned(plan, plan[i].0) && LastDraw(plan, plan[i].0) == plan[i].1 && plan[i].1.Between?
    ensures var t := Tier(defaults, kwargs - {"name"});
            t[plan[i].0].Int? && plan[i].1.lo <= t[plan[i].0].i <= plan[i].1.hi
  {
    PlannedValue(plan, start, kwargs, plan[i].0);
  }

  lemma TemplateName(strength: (int, int), agility: (int, int), agreeableness: (int, int))
    ensures FinalName(Blueprint(Text("Bandit"),
                                [("strength", Between(strength.0, strength.1)), ("agility", Between(agility.0, agility.1)),
                                 ("agreeableness", Between(agreeableness.0, agreeableness.1))])) == Some("Bandit")
  {
    var draws := [("strength", Between(strength.0, strength.1)), ("agility", Between(agility.0, agility.1)),
                  ("agreeableness", Between(agreeableness.0, agreeableness.1))];
    assert "name" != "strength" && "name" != "agility" && "name" != "agreeableness";
    assert !Planned(draws, "name");
  }

  lemma UndefinedCharacter(loaded: map<string, Value>, gregor: Value, bandit: Value)
    requires "characters" in loaded
    requires loaded["characters"] == Table([("gregor_the_guard", gregor), ("generic_bandit", bandit)])
    ensures Prepare(loaded, "merchant") == Ok(None)
  {
    var characters := [("gregor_the_guard", gregor), ("generic_bandit", bandit)];
    assert "merchant" != "gregor_the_guard" && "merchant" != "generic_bandit";
    assert !HasKey(characters, "merchant");
  }

  /** The Alembic's own example: load the characters, then distil a bandit
      with any ranges for its three attributes. */
  method TemplateWalkthrough(gregor: Value, strength: (int, int), agility: (int, int), agreeableness: (int, int))
      returns (bandit: Creation)
    requires strength.0 <= strength.1 && agility.0 <= agility.1 && agreeableness.0 <= agreeableness.1
    ensures bandit.Created? && bandit.eidolon.name == "Bandit"
    ensures var core := bandit.eidolon.coreAttributes;
            "strength" in core && core["strength"].Int? && strength.0 <= core["strength"].i <= strength.1
            && "agility" in core && core["agility"].Int? && agility.0 <= core["agility"].i <= agility.1
    ensures var personality := bandit.eidolon.personality;
            "agreeableness" in personality && personality["agreeableness"].Int?
            && agreeableness.0 <= personality["agreeableness"].i <= agreeableness.1
            && "openness" in personality && personality["openness"] == Int(0)
  {
    var characters := Table([("gregor_the_guard", gregor), ("generic_bandit", Table(Template(strength, agility, agreeableness)))]);
    var alembic := new Alembic();
    alembic.LoadHyleFile(Some([("characters", characters)]), "characters");
    assert [("characters", characters)][0].0 == "characters";
    assert alembic.loadedHyle == map["characters" := characters];
    TemplateBlueprint(alembic.loadedHyle, gregor, strength, agility, agreeableness);
    TemplateName(strength, agility, agreeableness);
    ghost var draws := [("strength", Between(strength.0, strength.1)), ("agility", Between(agility.0, agility.1)),
                        ("agreeableness", Between(agreeableness.0, agreeableness.1))];
    bandit := alembic.CreateEidolon("generic_bandit");
    assert bandit.Created? && bandit.eidolon.name == "Bandit";
    ghost var kwargs :| Realizes(draws, map["name" := Text("Bandit")], kwargs)
                        && BuiltFrom(bandit.eidolon, kwargs - {"name"});
    TemplateStats(kwargs, strength, agility, agreeableness);
  }

  /** The same document asked for a character it does not define. */
  method UndefinedWalkthrough(gregor: Value, bandit: Value) returns (missing: Creation)
    ensures missing == NoneReturned
  {
    var characters := Table([("gregor_the_guard", gregor), ("generic_bandit", bandit)]);
    var alembic := new Alembic();
    alembic.LoadHyleFile(Some([("characters", characters)]), "characters");
    assert [("characters", characters)][0].0 == "characters";
    UndefinedCharacter(alembic.loadedHyle, gregor, bandit);
    missing := alembic.CreateEidolon("merchant");
  }
}
