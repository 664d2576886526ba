/** The Moirai: a table of named formulas, filled from the `formulas` section
    of a parsed Hyle document, and the rewrite that prepares a formula's
    expression for Python's `eval`. */
module TheMoirai {
  import opened Wrappers
  import opened Hyle
  import opened PyString
  import TheEidolon

  /** One `str.replace(old, new)` step of the rewrite: (old, new). */
  type Rule = (string, string)

  /** The rules applied one after another, each to the whole result of the
      previous one. */
  function ApplyRules(s: string, rules: seq<Rule>): string
    decreases |rules|
  {
    if |rules| == 0 then s
    else ApplyRules(ReplaceAll(s, rules[0].0, rules[0].1), rules[1..])
  }

  /** `actor.<group>.` opens a dictionary subscript on the actor's group. */
  const ActorGroupRules: seq<Rule> := [
    ("actor.core.", "actor.core_attributes[\""),
    ("actor.personality.", "actor.personality[\""),
    ("actor.dynamic_states.", "actor.dynamic_states[\""),
    ("actor.ledger.", "actor.ledger[\"")
  ]

  /** The same for `target.<group>.`, applied only when a target is given. */
  const TargetGroupRules: seq<Rule> := [
    ("target.core.", "target.core_attributes[\""),
    ("target.personality.", "target.personality[\""),
    ("target.dynamic_states.", "target.dynamic_states[\""),
    ("target.ledger.", "target.ledger[\"")
  ]

  /** Each of these names gets the subscript closed after it, in this order. */
  const AttributeNames: seq<string> := [
    "strength", "agility", "intellect", "charisma", "resilience", "passion",
    "perception", "composure",
    "openness", "conscientiousness", "extraversion", "agreeableness", "neuroticism",
    "health", "stamina", "social_battery", "emotional_state", "sanity",
    "trauma", "secrets", "grievances", "reputation"
  ]

  /** The rules `name` to `name"]`. */
  function CloseRules(names: seq<string>): (rules: seq<Rule>)
    ensures |rules| == |names|
    ensures forall i :: 0 <= i < |names| ==> rules[i] == (names[i], names[i] + "\"]")
  {
    if |names| == 0 then [] else [(names[0], names[0] + "\"]")] + CloseRules(names[1..])
  }

  /** The whole chain, in the order the source applies it. */
  function Rules(withTarget: bool): seq<Rule>
  {
    ActorGroupRules + (if withTarget then TargetGroupRules else []) + CloseRules(AttributeNames)
  }

  /** The processed expression handed to `eval`. */
  function Rewrite(expression: string, withTarget: bool): string
  {
    ApplyRules(expression, Rules(withTarget))
  }

  /** Applying two lists of rules is applying the first, then the second. */
  lemma {:induction false} ApplyRulesAppend(s: string, first: seq<Rule>, second: seq<Rule>)
    ensures ApplyRules(s, first + second) == ApplyRules(ApplyRules(s, first), second)
    decreases |first|
  {
    if |first| == 0 {
      assert first + second == second;
    } else {
      assert (first + second)[0] == first[0];
      assert (first + second)[1..] == first[1..] + second;
      ApplyRulesAppend(ReplaceAll(s, first[0].0, first[0].1), first[1..], second);
    }
  }

  /** A string in which no rule's pattern occurs passes through unchanged. */
  lemma {:induction false} ApplyRulesUnchanged(s: string, rules: seq<Rule>)
    requires forall i :: 0 <= i < |rules| ==> !Occurs(s, rules[i].0)
    ensures ApplyRules(s, rules) == s
    decreases |rules|
  {
    if |rules| > 0 {
      ReplaceAllAbsent(s, rules[0].0, rules[0].1);
      assert forall i :: 0 <= i < |rules| - 1 ==> rules[1..][i] == rules[i + 1];
      ApplyRulesUnchanged(s, rules[1..]);
    }
  }

  /** The target rules are part of the chain exactly when a target is given;
      both chains share the actor stage and the closing stage. */
  lemma RewriteStages(expression: string)
    ensures Rewrite(expression, false)
         == ApplyRules(ApplyRules(expression, ActorGroupRules), CloseRules(AttributeNames))
    ensures Rewrite(expression, true)
         == ApplyRules(ApplyRules(ApplyRules(expression, ActorGroupRules), TargetGroupRules),
                       CloseRules(AttributeNames))
  {
    var close := CloseRules(AttributeNames);
    ApplyRulesAppend(expression, ActorGroupRules + [], close);
    assert ActorGroupRules + [] == ActorGroupRules;
    ApplyRulesAppend(expression, ActorGroupRules + TargetGroupRules, close);
    ApplyRulesAppend(expression, ActorGroupRules, TargetGroupRules);
  }

  /** Supplying a target changes nothing for an expression that, after the
      actor stage, holds no `target.<group>.` text. */
  lemma TargetIrrelevantWithoutTargetPaths(expression: string)
    requires forall i :: 0 <= i < |TargetGroupRules|
               ==> !Occurs(ApplyRules(expression, ActorGroupRules), TargetGroupRules[i].0)
    ensures Rewrite(expression, true) == Rewrite(expression, false)
  {
    RewriteStages(expression);
    ApplyRulesUnchanged(ApplyRules(expression, ActorGroupRules), TargetGroupRules);
  }

  /** An expression holding none of the chain's patterns (a plain number, a
      call such as `actor.get_affinity(target.name, 'platonic')`) is passed
      to `eval` as written. */
  lemma RewriteLeavesPlainText(expression: string, withTarget: bool)
    requires forall i :: 0 <= i < |Rules(withTarget)| ==> !Occurs(expression, Rules(withTarget)[i].0)
    ensures Rewrite(expression, withTarget) == expression
  {
    ApplyRulesUnchanged(expression, Rules(withTarget));
  }

  /** What one iteration of the loading loop does with `formula_data`: the
      expression to store, None to skip it (the source prints a warning), or
      the exception that `'expression' in formula_data` or
      `formula_data['expression']` raises. */
  function EntryExpression(data: Value): (r: Result<Option<Value>, PyError>)
    ensures data.Table? ==> r == Ok(Lookup(data.entries, "expression"))
    ensures data.Text? ==> r == (if Occurs(data.s, "expression") then Err(TypeError) else Ok(None))
    ensures IsNumber(data) ==> r == Err(TypeError)
    ensures data.Array? ==> r == (if Text("expression") in data.items then Err(TypeError) else Ok(None))
  {
    match data
    case Table(entries) => Ok(Lookup(entries, "expression"))
    case Text(s) => if Occurs(s, "expression") then Err(TypeError) else Ok(None)
    case Array(items) => if Text("expression") in items then Err(TypeError) else Ok(None)
    case _ => Err(TypeError)
  }

  /** The formula table after the loop has run over `entries`, and whether an
      exception stopped it; entries before the failing one stay stored. */
  function Fill(table: map<string, Value>, entries: Entries): (map<string, Value>, Outcome<PyError>)
    decreases |entries|
  {
    if |entries| == 0 then (table, Pass)
    else
      var (t, o) := Fill(table, entries[..|entries| - 1]);
      if o.Fail? then (t, o)
      else
        match EntryExpression(entries[|entries| - 1].1)
        case Err(e) => (t, Fail(e))
        case Ok(None) => (t, Pass)
        case Ok(Some(expression)) => (t[entries[|entries| - 1].0 := expression], Pass)
  }

  /** `load_formulas_from_hyle` over the parsed document; `None` stands for a
      file that is missing or not valid TOML, which the source only reports. */
  function Load(table: map<string, Value>, doc: Option<Entries>): (r: (map<string, Value>, Outcome<PyError>))
    ensures doc.None? ==> r == (table, Pass)
    ensures doc.Some? && !HasKey(doc.value, "formulas") ==> r == (table, Pass)
    ensures doc.Some? && HasKey(doc.value, "formulas") && !Lookup(doc.value, "formulas").value.Table?
            ==> r == (table, Fail(AttributeError))
    ensures doc.Some? && HasKey(doc.value, "formulas") && Lookup(doc.value, "formulas").value.Table?
            ==> r == Fill(table, Lookup(doc.value, "formulas").value.entries)
  {
    match doc
    case None => (table, Pass)
    case Some(d) =>
      match Lookup(d, "formulas")
      case None => (table, Pass)
      case Some(Table(entries)) => Fill(table, entries)
      case Some(_) => (table, Fail(AttributeError))
  }

  /** The entry at key `name` stores an expression. */
  predicate Stores(entries: Entries, name: string)
  {
    exists i :: 0 <= i < |entries| && entries[i].0 == name && EntryExpression(entries[i].1).Ok?
                && EntryExpression(entries[i].1).value.Some?
  }

  lemma {:induction false} FillAfterFailure(table: map<string, Value>, entries: Entries, k: nat)
    requires k <= |entries| && Fill(table, entries[..k]).1.Fail?
    ensures Fill(table, entries) == Fill(table, entries[..k])
    decreases |entries| - k
  {
    if k < |entries| {
      assert entries[..k + 1][..k] == entries[..k];
      FillAfterFailure(table, entries, k + 1);
    } else {
      assert entries[..k] == entries;
    }
  }

  /** A name under which no entry stores an expression keeps its previous
      entry, or stays absent, whether or not loading fails. */
  lemma {:induction false} FillKeepsOtherNames(table: map<string, Value>, entries: Entries, name: string)
    requires !Stores(entries, name)
    ensures var t := Fill(table, entries).0;
            (name in t <==> name in table) && (name in table ==> t[name] == table[name])
    decreases |entries|
  {
    if |entries| > 0 {
      var init := entries[..|entries| - 1];
      FillKeepsOtherNames(table, init, name);
      var last := entries[|entries| - 1];
      if last.0 == name && EntryExpression(last.1).Ok? && EntryExpression(last.1).value.Some? {
        assert false;
      }
    }
  }

  /** Every entry that has an expression is stored under its name, replacing
      whatever the table held there, when the loop runs to the end. */
  lemma {:induction false} FillStoresExpressions(table: map<string, Value>, entries: Entries, i: nat)
    requires DistinctKeys(entries) && Fill(table, entries).1.Pass?
    requires i < |entries| && EntryExpression(entries[i].1).Ok? && EntryExpression(entries[i].1).value.Some?
    ensures var t := Fill(table, entries).0;
            entries[i].0 in t && t[entries[i].0] == EntryExpression(entries[i].1).value.value
    decreases |entries|
  {
    var init := entries[..|entries| - 1];
    var last := entries[|entries| - 1];
    if Fill(table, init).1.Fail? {
      assert false;
    }
    if i < |entries| - 1 {
      assert init[i] == entries[i];
      assert DistinctKeys(init) by {
        forall a, b | 0 <= a < b < |init| ensures init[a].0 != init[b].0 {
          assert init[a] == entries[a] && init[b] == entries[b];
        }
      }
      FillStoresExpressions(table, init, i);
      assert last.0 != entries[i].0;
    }
  }

  /** An exception raised for one entry stops the load: the entries before it
      are stored and the rest are not looked at. */
  lemma {:induction false} FillFailure(table: map<string, Value>, entries: Entries)
    requires Fill(table, entries).1.Fail?
    ensures exists j :: 0 <= j < |entries| && Fill(table, entries[..j]).1.Pass?
              && EntryExpression(entries[j].1).Err?
              && Fill(table, entries) == (Fill(table, entries[..j]).0, Fail(EntryExpression(entries[j].1).error))
    decreases |entries|
  {
    var n := |entries|;
    var init := entries[..n - 1];
    if Fill(table, init).1.Fail? {
      FillFailure(table, init);
      var j :| 0 <= j < |init| && Fill(table, init[..j]).1.Pass? && EntryExpression(init[j].1).Err?
               && Fill(table, init) == (Fill(table, init[..j]).0, Fail(EntryExpression(init[j].1).error));
      assert init[..j] == entries[..j] && init[j] == entries[j];
    } else {
      assert entries[..n - 1] == init;
    }
  }

  /** The message of the ValueError for a formula that was never loaded. */
  function UnknownFormula(formulaName: string): string
  {
    "Formula '" + formulaName + "' not found in The Moirai's repertoire."
  }

  class Moirai {
    /** Formula name to the `expression` value loaded for it. */
    var formulas: map<string, Value>

    constructor ()
      ensures formulas == map[]
    {
      formulas := map[];
    }

    /** The loading loop of `load_formulas_from_hyle`. */
    method LoadFormulasFromHyle(doc: Option<Entries>) returns (outcome: Outcome<PyError>)
      modifies this`formulas
      ensures (formulas, outcome) == Load(old(formulas), doc)
    {
      outcome := Pass;
      if doc.None? {
        return;
      }
      var section := Lookup(doc.value, "formulas");
      if section.None? {
        return;
      }
      if !section.value.Table? {
        outcome := Fail(AttributeError);
        return;
      }
      var entries := section.value.entries;
      var i := 0;
      while i < |entries|
        invariant 0 <= i <= |entries|
        invariant Fill(old(formulas), entries[..i]) == (formulas, Pass)
      {
        assert entries[..i + 1][..i] == entries[..i];
        var (name, data) := entries[i];
        var step := EntryExpression(data);
        if step.Err? {
          outcome := Fail(step.error);
          FillAfterFailure(old(formulas), entries, i + 1);
          assert entries[..|entries|] == entries;
          return;
        }
        if step.value.Some? {
          formulas := formulas[name := step.value.value];
        }
        i := i + 1;
      }
      assert entries[..i] == entries;
    }

    /** `evaluate_formula` up to the call of `eval`: the processed expression,
        or the exception raised before `eval` is reached. A target object is
        always truthy, so `if target:` holds exactly when one is passed. */
    function EvaluateFormula(formulaName: string, target: TheEidolon.Eidolon?): (r: Result<string, PyError>)
      reads this
      ensures formulaName !in formulas
              ==> r == Err(ValueError(UnknownFormula(formulaName)))
      ensures formulaName in formulas && formulas[formulaName].Text?
              ==> r == Ok(Rewrite(formulas[formulaName].s, target != null))
      ensures formulaName in formulas && !formulas[formulaName].Text? ==> r == Err(AttributeError)
    {
      if formulaName !in formulas then
        Err(ValueError(UnknownFormula(formulaName)))
      else
        match formulas[formulaName]
        case Text(expression) => Ok(Rewrite(expression, target != null))
        case _ => Err(AttributeError)
    }
  }
}

/** The rewrite worked through on the example the source's own comment
    gives, and on an attribute name inside a longer identifier. The string
    facts are proved piece by piece: each pattern that must not occur lacks a
    character of the string, or is kept from it by a separator it lacks. */
module MoiraiExamples {
  import opened PyString
  import opened TheMoirai

  lemma CloseAtQuote(pat: string, rep: string)
    requires pat == "strength" && rep == "strength\"]"
    ensures ReplaceAll("[\"" + pat, pat, rep) == "[\"" + rep
  {
    ReplaceAllSkip("[\"", pat, pat, rep);
    assert pat == pat + "";
    ReplaceAllAtStart(pat, "", rep);
  }
  lemma CloseAfterMismatch(pat: string, rep: string)
    requires pat == "strength" && rep == "strength\"]"
    ensures ReplaceAll("s[\"" + pat, pat, rep) == "s[\"" + rep
  {
    var tail := "s[\"" + pat;
    assert tail[..|pat|] != pat by { assert tail[1] != pat[1]; }
    ReplaceAllMismatch(tail, pat, rep);
    assert tail[1..] == "[\"" + pat;
    CloseAtQuote(pat, rep);
  }
  lemma CloseAfterPrefix(head: string, pat: string, rep: string)
    requires head == "actor.core_attribute" && pat == "strength" && rep == "strength\"]"
    ensures ReplaceAll(head + ("s[\"" + pat), pat, rep) == head + ("s[\"" + rep)
  {
    assert pat[0] !in head;
    ReplaceAllSkip(head, "s[\"" + pat, pat, rep);
    CloseAfterMismatch(pat, rep);
  }

  lemma ActorFirst(s0: string, open: string, name: string)
    requires s0 == "actor.core.strength" && open == "actor.core_attributes[\"" && name == "strength"
    ensures ReplaceAll(s0, ActorGroupRules[0].0, ActorGroupRules[0].1) == open + name
  {
    var pat := "actor.core.";
    assert ActorGroupRules[0] == (pat, open);
    assert s0 == pat + name;
    ReplaceAllAtStart(pat, name, open);
    ReplaceAllMissingChar(name, pat, open, '.');
  }

  /** The partly rewritten example lacks `p`, `y` and `l`. */
  lemma OpenedLacks(s1: string, pat: string, c: char)
    requires s1 == "actor.core_attributes[\"strength"
    requires (c == 'p' || c == 'y' || c == 'l') && c in pat
    ensures !Occurs(s1, pat)
  {
    assert c !in s1;
    AbsentMissingChar(s1, pat, c);
  }

  lemma ActorRest(s1: string)
    requires s1 == "actor.core_attributes[\"strength"
    ensures ApplyRules(s1, ActorGroupRules[1..]) == s1
  {
    var rest := ActorGroupRules[1..];
    assert rest == [ActorGroupRules[1], ActorGroupRules[2], ActorGroupRules[3]];
    assert 'p' in rest[0].0 && 'y' in rest[1].0 && 'l' in rest[2].0;
    OpenedLacks(s1, rest[0].0, 'p');
    OpenedLacks(s1, rest[1].0, 'y');
    OpenedLacks(s1, rest[2].0, 'l');
    ApplyRulesUnchanged(s1, rest);
  }

  /** A name without `_` that holds a character missing left of an
      underscore and one missing right of it does not occur. */
  lemma AbsentAroundUnderscore(left: string, right: string, n: string, cl: char, cr: char)
    requires '_' !in n && cl in n && cl !in left && cr in n && cr !in right
    ensures !Occurs(left + ['_'] + right, n)
  {
    AbsentMissingChar(left, n, cl);
    AbsentMissingChar(right, n, cr);
    AbsentAcross(left, '_', right, n);
  }

  lemma CloseRest(f: string, names: seq<string>, k: nat)
    requires f == "actor.core_attributes[\"strength\"]"
    requires names == AttributeNames && 1 <= k < |names|
    ensures !Occurs(f, names[k])
  {
    if k == 9 || k == 19 {
      assert 's' in names[k] && 'c' in names[k] && '_' !in names[k];
      ClosedSplit(f, names[k]);
    } else {
      var c := if k == 1 || k == 17 then 'y'
               else if k == 2 || k == 4 || k == 11 || k == 13 || k == 15 then 'l'
               else if k == 5 || k == 6 || k == 7 || k == 8 || k == 21 then 'p'
               else if k == 10 then 'x' else if k == 20 then 'v' else 'm';
      ClosedLacks(f, c);
      LacksChar(f, names, k, c);
    }
  }

  /** A name with `s` and `c` and no `_` is kept from the closed example by
      its underscore. */
  lemma ClosedSplit(f: string, n: string)
    requires f == "actor.core_attributes[\"strength\"]"
    requires 's' in n && 'c' in n && '_' !in n
    ensures !Occurs(f, n)
  {
    assert f == "actor.core" + ['_'] + "attributes[\"strength\"]";
    AbsentAroundUnderscore("actor.core", "attributes[\"strength\"]", n, 's', 'c');
  }

  /** Characters missing from the closed example. */
  lemma ClosedLacks(f: string, c: char)
    requires f == "actor.core_attributes[\"strength\"]"
    requires c == 'y' || c == 'l' || c == 'p' || c == 'x' || c == 'v' || c == 'm'
    ensures c !in f
  {
  }

  lemma ActorStage(e: string, s1: string)
    requires e == "actor.core.strength" && s1 == "actor.core_attributes[\"strength"
    ensures ApplyRules(e, ActorGroupRules) == s1
  {
    ActorFirst(e, "actor.core_attributes[\"", "strength");
    assert "actor.core_attributes[\"" + "strength" == s1;
    ActorRest(s1);
    assert ApplyRules(e, ActorGroupRules)
        == ApplyRules(ReplaceAll(e, ActorGroupRules[0].0, ActorGroupRules[0].1), ActorGroupRules[1..]);
  }

  lemma TargetCoreAbsent(s1: string)
    requires s1 == "actor.core_attributes[\"strength"
    ensures !Occurs(s1, TargetGroupRules[0].0)
  {
    var pat := TargetGroupRules[0].0;
    var left, right := "actor.core_attributes[", "strength";
    assert s1 == left + ['"'] + right;
    assert 'g' in pat && 'g' !in left && '.' in pat && '.' !in right && '"' !in pat;
    AbsentMissingChar(left, pat, 'g');
    AbsentMissingChar(right, pat, '.');
    AbsentAcross(left, '"', right, pat);
  }

  lemma TargetStage(s1: string)
    requires s1 == "actor.core_attributes[\"strength"
    ensures ApplyRules(s1, TargetGroupRules) == s1
  {
    var t := TargetGroupRules;
    TargetCoreAbsent(s1);
    assert 'p' in t[1].0 && 'y' in t[2].0 && 'l' in t[3].0;
    OpenedLacks(s1, t[1].0, 'p');
    OpenedLacks(s1, t[2].0, 'y');
    OpenedLacks(s1, t[3].0, 'l');
    ApplyRulesUnchanged(s1, t);
  }

  lemma CloseStage(s1: string, f: string, names: seq<string>)
    requires s1 == "actor.core_attributes[\"strength" && f == "actor.core_attributes[\"strength\"]"
    requires names == AttributeNames
    ensures ApplyRules(s1, CloseRules(names)) == f
  {
    CloseFirst(s1, f, names);
    CloseOthers(f, names);
  }

  lemma CloseFirst(s1: string, f: string, names: seq<string>)
    requires s1 == "actor.core_attributes[\"strength" && f == "actor.core_attributes[\"strength\"]"
    requires names == AttributeNames
    ensures ReplaceAll(s1, CloseRules(names)[0].0, CloseRules(names)[0].1) == f
  {
    var n := names[0];
    assert n == "strength";
    assert n + "\"]" == "strength\"]";
    assert CloseRules(names)[0] == (n, n + "\"]");
    CloseStrength(s1, f, CloseRules(names)[0]);
  }

  lemma CloseStrength(s1: string, f: string, rule: Rule)
    requires s1 == "actor.core_attributes[\"strength" && f == "actor.core_attributes[\"strength\"]"
    requires rule == ("strength", "strength\"]")
    ensures ReplaceAll(s1, rule.0, rule.1) == f
  {
    var head, pat, rep := "actor.core_attribute", "strength", "strength\"]";
    assert s1 == head + ("s[\"" + pat) && f == head + ("s[\"" + rep);
    CloseAfterPrefix(head, pat, rep);
  }

  lemma CloseOthers(f: string, names: seq<string>)
    requires f == "actor.core_attributes[\"strength\"]"
    requires names == AttributeNames
    ensures ApplyRules(f, CloseRules(names)[1..]) == f
  {
    var rest := CloseRules(names)[1..];
    OthersAbsent(f, names);
    forall i | 0 <= i < |rest| ensures !Occurs(f, rest[i].0) {
      assert rest[i].0 == names[i + 1];
    }
    ApplyRulesUnchanged(f, rest);
  }

  lemma OthersAbsent(f: string, names: seq<string>)
    requires f == "actor.core_attributes[\"strength\"]"
    requires names == AttributeNames
    ensures forall k :: 1 <= k < |names| ==> !Occurs(f, names[k])
  {
    forall k | 1 <= k < |names| ensures !Occurs(f, names[k]) {
      CloseRest(f, names, k);
    }
  }

  lemma CommentExample(e: string, withTarget: bool)
    requires e == "actor.core.strength"
    ensures Rewrite(e, withTarget) == "actor.core_attributes[\"strength\"]"
  {
    var s1 := "actor.core_attributes[\"strength";
    ActorStage(e, s1);
    TargetStage(s1);
    CloseStage(s1, "actor.core_attributes[\"strength\"]", AttributeNames);
    RewriteStages(e);
  }

  /** `health` inside `healthy` is closed as well: the scan knows nothing of
      identifier boundaries. */
  lemma EmbeddedNameExample(s: string, names: seq<string>)
    requires s == "healthy" && names == AttributeNames
    ensures ReplaceAll(s, CloseRules(names)[13].0, CloseRules(names)[13].1) == "health\"]y"
  {
    HealthRule(names);
    HealthyClosed(s, CloseRules(names)[13]);
  }

  lemma HealthRule(names: seq<string>)
    requires names == AttributeNames
    ensures CloseRules(names)[13] == ("health", "health\"]")
  {
    var n := names[13];
    assert n == "health";
    assert n + "\"]" == "health\"]";
  }

  lemma HealthyClosed(s: string, rule: Rule)
    requires s == "healthy" && rule == ("health", "health\"]")
    ensures ReplaceAll(s, rule.0, rule.1) == "health\"]y"
  {
    var n, rep := "health", "health\"]";
    assert s == n + "y";
    ReplaceAllAtStart(n, "y", rep);
    assert rep + "y" == "health\"]y";
  }

  /** Every actor rule's pattern starts with `actor.`. */
  lemma ActorPatternsStart(q: string)
    requires q == "actor."
    ensures forall i :: 0 <= i < |ActorGroupRules|
              ==> |q| <= |ActorGroupRules[i].0| && ActorGroupRules[i].0[..|q|] == q
  {
  }

  lemma ActorPrefixAbsent(e: string, q: string)
    requires e == "target.core.resilience" && q == "actor."
    ensures !Occurs(e, q)
  {
    var left, right := "tar", "et.core.resilience";
    assert e == left + ['g'] + right;
    assert 'g' !in q && 'c' in q && 'a' in q && 'a' !in right;
    AbsentAround(left, 'g', right, q, 'c', 'a');
  }

  /** `target.core.resilience` holds no `actor.` text, so the actor stage
      leaves it alone. */
  lemma TargetPathNoActor(e: string)
    requires e == "target.core.resilience"
    ensures ApplyRules(e, ActorGroupRules) == e
  {
    var q := "actor.";
    ActorPrefixAbsent(e, q);
    ActorPatternsStart(q);
    forall i | 0 <= i < |ActorGroupRules| ensures !Occurs(e, ActorGroupRules[i].0) {
      AbsentPrefix(e, ActorGroupRules[i].0, q);
    }
    ApplyRulesUnchanged(e, ActorGroupRules);
  }

  /** The opened target path lacks `p`, `y` and `d`. */
  lemma TargetOpenedLacks(s1: string, pat: string, c: char)
    requires s1 == "target.core_attributes[\"resilience"
    requires (c == 'p' || c == 'y' || c == 'd') && c in pat
    ensures !Occurs(s1, pat)
  {
    assert c !in s1;
    AbsentMissingChar(s1, pat, c);
  }

  lemma TargetCoreOpens(e: string, s1: string)
    requires e == "target.core.resilience" && s1 == "target.core_attributes[\"resilience"
    ensures ReplaceAll(e, TargetGroupRules[0].0, TargetGroupRules[0].1) == s1
  {
    var pat, open, name := "target.core.", "target.core_attributes[\"", "resilience";
    assert TargetGroupRules[0] == (pat, open);
    assert e == pat + name;
    ReplaceAllAtStart(pat, name, open);
    ReplaceAllMissingChar(name, pat, open, 't');
    assert open + name == s1;
  }

  /** With a target, `target.core.` opens the subscript on the target's core
      attributes and the other target rules find nothing. */
  lemma TargetPathOpened(e: string, s1: string)
    requires e == "target.core.resilience" && s1 == "target.core_attributes[\"resilience"
    ensures ApplyRules(e, TargetGroupRules) == s1
  {
    var t := TargetGroupRules;
    TargetCoreOpens(e, s1);
    var rest := t[1..];
    assert rest == [t[1], t[2], t[3]];
    assert 'p' in rest[0].0 && 'y' in rest[1].0 && 'd' in rest[2].0;
    TargetOpenedLacks(s1, rest[0].0, 'p');
    TargetOpenedLacks(s1, rest[1].0, 'y');
    TargetOpenedLacks(s1, rest[2].0, 'd');
    ApplyRulesUnchanged(s1, rest);
    assert ApplyRules(e, t) == ApplyRules(ReplaceAll(e, t[0].0, t[0].1), rest);
  }

  /** When the only attribute name occurring in `head + names[k]` is
      `names[k]`, at the very end, the closing stage closes just that one. */
  lemma CloseOnlyLast(head: string, names: seq<string>, k: nat)
    requires k < |names| && |names[k]| > 0
    requires forall i :: 0 <= i < k ==> !Occurs(head + names[k], names[i])
    requires !Occurs(head + names[k][..|names[k]| - 1], names[k])
    requires forall i :: k < i < |names| ==> !Occurs(head + (names[k] + "\"]"), names[i])
    ensures ApplyRules(head + names[k], CloseRules(names)) == head + (names[k] + "\"]")
  {
    var p, f, rules := head + names[k], head + (names[k] + "\"]"), CloseRules(names);
    var before, after := rules[..k], rules[k + 1..];
    assert rules == before + [rules[k]] + after;
    ApplyRulesAppend(p, before + [rules[k]], after);
    ApplyRulesAppend(p, before, [rules[k]]);
    forall i | 0 <= i < |before| ensures !Occurs(p, before[i].0) {
      assert before[i].0 == names[i];
    }
    ApplyRulesUnchanged(p, before);
    ReplaceAllOnlyAtEnd(head, names[k], names[k] + "\"]");
    assert rules[k] == (names[k], names[k] + "\"]");
    assert ApplyRules(p, [rules[k]]) == ApplyRules(f, []);
    forall i | 0 <= i < |after| ensures !Occurs(f, after[i].0) {
      assert after[i].0 == names[k + 1 + i];
    }
    ApplyRulesUnchanged(f, after);
  }

  /** A name holding a character that `s` lacks does not occur in `s`. */
  lemma LacksChar(s: string, names: seq<string>, i: nat, c: char)
    requires names == AttributeNames && c !in s
    requires (c == 'h' && (i == 0 || i == 3 || i == 13)) || (c == 'y' && (i == 1 || i == 15 || i == 17))
          || (c == 'l' && (i == 1 || i == 2 || i == 4 || i == 11 || i == 13 || i == 15 || i == 16))
          || (c == 'p' && (i == 5 || i == 6 || i == 7 || i == 8 || i == 21))
          || (c == 'm' && (i == 3 || i == 12 || i == 14 || i == 16 || i == 18))
          || (c == 'x' && i == 10) || (c == 'v' && i == 20) || (c == 'u' && i == 9) || (c == 'b' && i == 11)
    ensures !Occurs(s, names[i])
  {
    assert c in names[i];
    AbsentMissingChar(s, names[i], c);
  }

  /** Characters missing from both target paths and from the closed name. */
  lemma PathsLack(head: string, c: char)
    requires head == "target.core." || head == "target.core_attributes[\""
    requires c == 'p' || c == 'm' || c == 'h' || c == 'y' || c == 'x' || c == 'v'
    ensures c !in head && c !in "resilience\"]"
  {
  }

  /** Before `resilience` is closed, none of the four names ahead of it
      occurs. */
  lemma ResilienceFirst(head: string, names: seq<string>, i: nat)
    requires head == "target.core." || head == "target.core_attributes[\""
    requires names == AttributeNames && i < 4
    ensures !Occurs(head + "resilience", names[i])
  {
    if i == 2 {
      assert names[2] == "intellect";
      IntellectAbsent(head, names[2]);
    } else {
      var c := if i == 1 then 'y' else 'h';
      PathsLack(head, c);
      assert "resilience\"]" == "resilience" + "\"]";
      LacksChar(head + "resilience", names, i, c);
    }
  }

  lemma IntellectAbsent(head: string, n: string)
    requires head == "target.core." || head == "target.core_attributes[\""
    requires n == "intellect"
    ensures !Occurs(head + "resilience", n)
  {
    var r := "resilience";
    assert 't' in n && 't' !in r && 'l' in n;
    if head == "target.core." {
      assert head == "target" + ['.'] + ("core" + ['.']);
      AbsentMissingChar(r, n, 't');
      AbsentMissingChar("core", n, 'l');
      AbsentAcross("core", '.', r, n);
      AbsentMissingChar("target", n, 'l');
      AbsentAcrossThen("target", '.', "core" + ['.'], r, n);
    } else {
      var b := "attributes" + ['['] + "\"";
      assert head == "target.core" + ['_'] + b;
      AbsentMissingChar("\"" + r, n, 't');
      AbsentMissingChar("attributes", n, 'l');
      AbsentAcrossThen("attributes", '[', "\"", r, n);
      AbsentMissingChar("target.core", n, 'l');
      AbsentAcrossThen("target.core", '_', b, r, n);
    }
  }

  /** After `resilience` is closed, none of the names behind it occurs. */
  lemma ResilienceLast(head: string, names: seq<string>, i: nat)
    requires head == "target.core." || head == "target.core_attributes[\""
    requires names == AttributeNames && 4 < i < |names|
    ensures !Occurs(head + "resilience\"]", names[i])
  {
    if i == 19 {
      assert names[19] == "secrets";
      SecretsAbsent(head, names[19]);
    } else if (i == 9 || i == 11) && head == "target.core_attributes[\"" {
      UnderscoreAbsent(head, names, i);
    } else if i == 9 || i == 11 {
      var c := if i == 9 then 'u' else 'b';
      assert c !in head && c !in "resilience\"]";
      LacksChar(head + "resilience\"]", names, i, c);
    } else {
      var c := if i == 5 || i == 6 || i == 7 || i == 8 || i == 21 then 'p'
               else if i == 13 then 'h' else if i == 15 || i == 17 then 'y'
               else if i == 10 then 'x' else if i == 20 then 'v' else 'm';
      PathsLack(head, c);
      LacksChar(head + "resilience\"]", names, i, c);
    }
  }

  lemma UnderscoreAbsent(head: string, names: seq<string>, i: nat)
    requires head == "target.core_attributes[\""
    requires names == AttributeNames && (i == 9 || i == 11)
    ensures !Occurs(head + "resilience\"]", names[i])
  {
    if i == 9 {
      assert names[9] == "conscientiousness";
      OpenedUnderscoreAbsent(head, names[9], 's', 'o');
    } else {
      assert names[11] == "agreeableness";
      OpenedUnderscoreAbsent(head, names[11], 'l', 'g');
    }
  }

  /** A name is kept from the opened target path by the underscore it
      lacks: `cl` is missing left of it and `cr` right of it. */
  lemma OpenedUnderscoreAbsent(head: string, n: string, cl: char, cr: char)
    requires head == "target.core_attributes[\""
    requires '_' !in n && cl in n && cr in n
    requires (cl == 's' && cr == 'o') || (cl == 'l' && cr == 'g')
    ensures !Occurs(head + "resilience\"]", n)
  {
    var left, right, rq := "target.core", "attributes[\"", "resilience\"]";
    assert head == left + ['_'] + right;
    assert cl !in left && cr !in right + rq;
    AbsentMissingChar(left, n, cl);
    AbsentMissingChar(right + rq, n, cr);
    AbsentAcrossThen(left, '_', right, rq, n);
  }

  lemma SecretsAbsent(head: string, n: string)
    requires head == "target.core." || head == "target.core_attributes[\""
    requires n == "secrets"
    ensures !Occurs(head + "resilience\"]", n)
  {
    var rq := "resilience\"]";
    assert 's' in n && 't' in n && 'c' in n && 't' !in rq;
    AbsentMissingChar("target", n, 'c');
    AbsentMissingChar("core", n, 's');
    if head == "target.core." {
      assert head == "target" + ['.'] + ("core" + ['.']);
      AbsentMissingChar(rq, n, 't');
      AbsentAcross("core", '.', rq, n);
      AbsentAcrossThen("target", '.', "core" + ['.'], rq, n);
    } else {
      SecretsAbsentOpened(head, n);
    }
  }

  lemma SecretsAbsentOpened(head: string, n: string)
    requires head == "target.core_attributes[\"" && n == "secrets"
    ensures !Occurs(head + "resilience\"]", n)
  {
    var rq, b2 := "resilience\"]", "attributes" + ['['] + "\"";
    var b1 := "core" + ['_'] + b2;
    assert head == "target" + ['.'] + b1;
    assert 's' in n && 't' in n && 'c' in n && 't' !in "\"" + rq;
    AbsentMissingChar("\"" + rq, n, 't');
    AbsentMissingChar("attributes", n, 'c');
    AbsentAcrossThen("attributes", '[', "\"", rq, n);
    AbsentMissingChar("core", n, 's');
    AbsentAcrossThen("core", '_', b2, rq, n);
    AbsentMissingChar("target", n, 'c');
    AbsentAcrossThen("target", '.', b1, rq, n);
  }

  /** `resilience` occurs only where it ends the path: the text before its
      last letter holds no occurrence. */
  lemma ResilienceOnce(head: string, n: string)
    requires head == "target.core." || head == "target.core_attributes[\""
    requires n == "resilience"
    ensures !Occurs(head + n[..|n| - 1], n)
  {
    var short := "resilienc";
    assert n[..|n| - 1] == short;
    assert !Occurs(short, n);
    if head == "target.core." {
      assert head == "target.core" + ['.'];
      AbsentMissingChar("target.core", n, 's');
      AbsentAcross("target.core", '.', short, n);
    } else {
      assert head == "target.core_attributes[" + ['"'];
      AbsentMissingChar("target.core_attributes[", n, 'l');
      AbsentAcross("target.core_attributes[", '"', short, n);
    }
  }

  /** The closing stage on a path ending in `resilience`. */
  lemma CloseResilience(head: string, names: seq<string>)
    requires head == "target.core." || head == "target.core_attributes[\""
    requires names == AttributeNames
    ensures ApplyRules(head + "resilience", CloseRules(names)) == head + "resilience\"]"
  {
    var n := names[4];
    assert n == "resilience";
    assert n + "\"]" == "resilience\"]";
    forall i | 0 <= i < 4 ensures !Occurs(head + n, names[i]) {
      ResilienceFirst(head, names, i);
    }
    ResilienceOnce(head, n);
    forall i | 4 < i < |names| ensures !Occurs(head + (n + "\"]"), names[i]) {
      ResilienceLast(head, names, i);
    }
    CloseOnlyLast(head, names, 4);
  }

  lemma CloseOpenedPath(p: string, f: string, names: seq<string>)
    requires p == "target.core_attributes[\"resilience" && f == "target.core_attributes[\"resilience\"]"
    requires names == AttributeNames
    ensures ApplyRules(p, CloseRules(names)) == f
  {
    var head := "target.core_attributes[\"";
    assert p == head + "resilience";
    assert f == head + "resilience\"]";
    CloseResilience(head, names);
  }

  lemma ClosePlainPath(p: string, f: string, names: seq<string>)
    requires p == "target.core.resilience" && f == "target.core.resilience\"]"
    requires names == AttributeNames
    ensures ApplyRules(p, CloseRules(names)) == f
  {
    var head := "target.core.";
    assert p == head + "resilience";
    assert f == head + "resilience\"]";
    CloseResilience(head, names);
  }

  /** With a target, a target path is rewritten to a subscript on the
      target's core attributes. */
  lemma TargetPathWithTarget(e: string)
    requires e == "target.core.resilience"
    ensures Rewrite(e, true) == "target.core_attributes[\"resilience\"]"
  {
    var s1 := "target.core_attributes[\"resilience";
    TargetPathNoActor(e);
    TargetPathOpened(e, s1);
    CloseOpenedPath(s1, "target.core_attributes[\"resilience\"]", AttributeNames);
    RewriteStages(e);
  }

  /** Without a target the target rules are skipped, but the closing rule
      still fires, leaving text that `eval` cannot parse. */
  lemma TargetPathWithoutTarget(e: string)
    requires e == "target.core.resilience"
    ensures Rewrite(e, false) == "target.core.resilience\"]"
  {
    TargetPathNoActor(e);
    ClosePlainPath(e, "target.core.resilience\"]", AttributeNames);
    RewriteStages(e);
  }
}
