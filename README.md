# AnimaLoom engine core in Dafny

This project models the four modules of the AnimaLoom simulation engine (`the_loom/`) in Dafny:

- **The Eidolon** (`the_eidolon.py`) is an agent. Its attributes sit in four tiers: core, personality, dynamic states and ledger. It also holds nested affinities towards other agents, and it has derived statistics.
- **The Nexus** (`the_nexus.py`) is the world registry. It holds the live Eidolons keyed by name, plus a simulation clock.
- **The Moirai** (`the_moirai.py`) is the formula table. It is filled from the `formulas` section of a Hyle (TOML) document. It also holds the textual rewrite that turns a formula's dotted attribute paths into Python dictionary subscripts before the expression goes to `eval`.
- **The Alembic** (`the_alembic.py`) stores loaded Hyle sections. It distils a character definition into a new Eidolon: static values are copied, and `range` definitions are drawn as random integers.

Module layout:

- `wrappers.dfy` holds Option, Result and Outcome.
- `hyle.dfy` holds the parsed Hyle values and the part of Python's value semantics the engine relies on:
  - dictionary `get` and `in`;
  - truthiness;
  - `+`, `-` and `sum`.
- `pystring.dfy` holds Python's `str.replace`, with `split`, `join` and `count`.
- Each engine module has one file: `eidolon.dfy`, `nexus.dfy`, `moirai.dfy` and `alembic.dfy`.

The four Python classes become Dafny classes whose methods update fields. The Moirai and Alembic methods are specified against pure functions, and the properties are proved about those functions:

- the formula table against `TheMoirai.Load`;
- the rewrite against `TheMoirai.Rewrite`;
- the character draws against `TheAlembic.PlanOf`;
- the flattened keyword arguments against `TheAlembic.Realizes`.

The Eidolon methods are specified partly against the functions `TheEidolon.WithAffinity`, `TheEidolon.Sanity` and `TheEidolon.Reputation`, and partly directly on the tiers. The Nexus methods state their effect directly on the `eidolons` map and the clock.

Python exceptions become error values (`Hyle.PyError`) instead of preconditions. Only ValueError carries a message. It is the source's own text where the engine raises it: an unknown formula, a missing tier key, a duplicate Eidolon name. The ValueError that `random.randint` raises for an empty range carries the shortened text `empty range in randrange`, not Python's wording.

Formula evaluation has two steps in the code:

- `evaluate_formula` raises ValueError for a formula name that is not in the table (the_loom/the_moirai.py:36-37).
- Otherwise it applies a fixed chain of `str.replace` calls to the expression (the_loom/the_moirai.py:60-99), then passes the result to `eval` (the_loom/the_moirai.py:121).

The model captures that chain exactly, including its naive substring behaviour. `MoiraiExamples.EmbeddedNameExample` shows a name inside a longer identifier being closed. `MoiraiExamples.TargetPathWithoutTarget` shows a target path, used without a target, still getting its subscript closed.

## Model

| member | source | states |
|---|---|---|
| Hyle.Lookup | the_loom/the_alembic.py:36 | `table.get(key)` finds a value exactly when the key is present; the value is one stored under that key, and it is the only one when keys are distinct |
| Hyle.GetOr | the_loom/the_alembic.py:41 | `get(key, default)` gives the default exactly when the key is absent, and otherwise the stored value |
| Hyle.Add | the_loom/the_eidolon.py:78 | numeric `+`: defined exactly on two numbers; integer for two integers (bool counts as 0/1), float as soon as one operand is a float |
| Hyle.Plus | the_loom/the_eidolon.py:80 | Python `+` on parsed values: numeric addition, string or list concatenation, and a TypeError for exactly every other pair |
| Hyle.Sub | the_loom/the_eidolon.py:80 | numeric `-`, with the same typing as `+` and a TypeError for non-numbers |
| Hyle.Truthy | the_loom/the_alembic.py:37 | Python truthiness of a parsed value: a number is true when it is not zero, a string, list or table when it is not empty |
| Hyle.Values | the_loom/the_eidolon.py:80 | `d.values()`: the table's values in insertion order, one per entry |
| Hyle.Sum | the_loom/the_eidolon.py:80 | `sum(vs)` succeeds exactly when every element is a number (a string or list raises TypeError); the total is the exact sum of the elements, never a bool, and a float exactly when some element is a float |
| Hyle.SumOfIntegers | the_loom/the_eidolon.py:80 | `sum` of integer values is the integer total of those values |
| PyString.ReplaceAll | the_loom/the_moirai.py:63-99 | `s.replace(p, r)`: one left-to-right scan that replaces every non-overlapping occurrence, resuming after each replacement; an empty pattern puts `r` around every character (`Interleave`) |
| PyString.Interleave | the_loom/the_moirai.py:63-99 | `s.replace("", r)`: `r` before each character and after the last, so the length grows by `(len(s) + 1) * len(r)` |
| PyString.ReplaceAllAbsent | the_loom/the_moirai.py:63-99 | `s.replace(p, r)` leaves a string in which `p` does not occur unchanged |
| PyString.ReplaceAllSelf | the_loom/the_moirai.py:63-99 | replacing a pattern by itself is the identity |
| PyString.ReplaceAllLength | the_loom/the_moirai.py:63-99 | each of the `s.count(p)` non-overlapping replacements changes the length by `len(r) - len(p)` |
| PyString.CountPositiveIffOccurs | the_loom/the_moirai.py:63-99 | `s.count(p) > 0` if and only if `p in s` |
| PyString.ReplaceAllChanges | the_loom/the_moirai.py:63-99 | a replacement of a different length changes every string that contains the pattern |
| PyString.ReplaceAllIsJoinOfSplit | the_loom/the_moirai.py:63-99 | `s.replace(p, r) == r.join(s.split(p))` for every non-empty `p`, a standard identity that ties `replace` to `split` and `join` |
| PyString.JoinSplitRoundTrip | the_loom/the_moirai.py:63-99 | `sep.join(s.split(sep)) == s` |
| PyString.ReplaceAllAtStart | the_loom/the_moirai.py:75-99 | a pattern at the start is replaced whatever follows it, because there are no identifier boundaries |
| PyString.ReplaceAllSkip | the_loom/the_moirai.py:63-99 | a prefix without the pattern's first character is copied unchanged, and the scan continues after it |
| PyString.ReplaceAllMissingChar | the_loom/the_moirai.py:63-99 | a string lacking one of the pattern's characters is unchanged |
| PyString.AbsentAcross | the_loom/the_moirai.py:63-99 | a character foreign to the pattern splits the search: the pattern occurs across it only if it occurs on one side |
| PyString.AbsentPrefix | the_loom/the_moirai.py:63-99 | a pattern whose beginning does not occur does not occur either |
| PyString.ReplaceAllNoMatchBefore | the_loom/the_moirai.py:63-99 | a prefix in which no occurrence starts is copied unchanged, and the scan continues after it |
| PyString.ReplaceAllOnlyAtEnd | the_loom/the_moirai.py:63-99 | a pattern that ends the string and occurs nowhere earlier is replaced there and only there |
| TheMoirai.ApplyRules | the_loom/the_moirai.py:60-99 | a chain of `str.replace` calls, each applied to the whole result of the previous one |
| TheMoirai.Rules | the_loom/the_moirai.py:60-99 | the source's chain in its order: the four actor-group rules, the four target-group rules only when a target is passed, then the 22 closing rules |
| TheMoirai.Rewrite | the_loom/the_moirai.py:60-99 | the processed expression handed to `eval`: the expression after the whole chain |
| TheMoirai.CloseRules | the_loom/the_moirai.py:75-99 | the closing rules turn each of the 22 attribute names into `name"]`, in the source's order |
| TheMoirai.ApplyRulesAppend | the_loom/the_moirai.py:60-99 | running a chain of replacements in two parts equals running it in one |
| TheMoirai.ApplyRulesUnchanged | the_loom/the_moirai.py:60-99 | an expression holding none of the chain's patterns passes through unchanged |
| TheMoirai.RewriteStages | the_loom/the_moirai.py:63-99 | the processed expression is the actor stage, then the target stage only when a target is given, then the closing stage |
| TheMoirai.TargetIrrelevantWithoutTargetPaths | the_loom/the_moirai.py:68-72 | passing a target changes nothing for an expression with no `target.<group>.` text after the actor stage |
| TheMoirai.RewriteLeavesPlainText | the_loom/the_moirai.py:60-99 | an expression without any of the patterns, such as a `get_affinity` call, reaches `eval` as written |
| TheMoirai.EntryExpression | the_loom/the_moirai.py:22-25 | one formula entry gives its `expression` value, or is skipped when that key is missing. A string or list raises TypeError exactly when it contains `expression`, because `in` then succeeds and the subscript fails. A number raises TypeError |
| TheMoirai.Load | the_loom/the_moirai.py:16-32 | a missing or undecodable file and a missing `formulas` section leave the table unchanged; a non-table section raises AttributeError; a table section stores its entries one by one, as `Fill` specifies |
| TheMoirai.Fill | the_loom/the_moirai.py:21-25 | the loading loop over the section's entries in order: each entry stores its expression under its name, is skipped without one, or raises and stops the loop |
| TheMoirai.FillKeepsOtherNames | the_loom/the_moirai.py:21-25 | a name for which no entry stores an expression keeps its previous formula, or stays absent |
| TheMoirai.FillStoresExpressions | the_loom/the_moirai.py:21-23 | after a complete load, each entry with an expression is stored under its name and overwrites any previous formula |
| TheMoirai.FillFailure | the_loom/the_moirai.py:21-25 | an exception at one entry stops the load; the earlier entries stay stored and the later ones are not read |
| TheMoirai.Moirai.constructor | the_loom/the_moirai.py:11-12 | a new Moirai has no formulas |
| TheMoirai.Moirai.LoadFormulasFromHyle | the_loom/the_moirai.py:14-32 | the loading loop leaves the table and the outcome that `Load` specifies |
| TheMoirai.Moirai.EvaluateFormula | the_loom/the_moirai.py:34-99 | an unknown name raises ValueError with the source's message; a stored string yields its rewrite, with target rules exactly when a target is passed; a non-string raises AttributeError |
| MoiraiExamples.CommentExample | the_loom/the_moirai.py:57 | `actor.core.strength` becomes `actor.core_attributes["strength"]`, with or without a target, as the source comment says |
| MoiraiExamples.EmbeddedNameExample | the_loom/the_moirai.py:90 | the `health` rule also rewrites `healthy`, into `health"]y` |
| MoiraiExamples.TargetPathWithTarget | the_loom/the_moirai.py:68-72 | with a target, `target.core.resilience` (the source's own example path) becomes `target.core_attributes["resilience"]` |
| MoiraiExamples.TargetPathWithoutTarget | the_loom/the_moirai.py:74-99 | without a target, the target rules are skipped but the closing rule still fires: `target.core.resilience` becomes `target.core.resilience"]` |
| MoiraiExamples.CloseOnlyLast | the_loom/the_moirai.py:74-99 | when the only name that occurs is the one ending the text, and it occurs only there, the closing stage closes just that name |
| TheEidolon.Tier | the_loom/the_eidolon.py:11-50 | a tier has exactly its documented keys; each key takes its keyword argument when one is given, otherwise its default |
| TheEidolon.UnsetAttributesDefault | the_loom/the_eidolon.py:11-50 | unset attributes take their defaults: 0 for core and personality, 100 for resources and sanity, "neutral" mood, an empty ledger |
| TheEidolon.UpdateKnown | the_loom/the_eidolon.py:55-65 | a tier update succeeds exactly for a known key, sets that key and keeps every other key |
| TheEidolon.AffinityOf | the_loom/the_eidolon.py:72-73 | `get_affinity` gives the stored value, or 0 when the target or the kind is missing |
| TheEidolon.WithAffinity | the_loom/the_eidolon.py:67-70 | `update_affinity` creates the target's inner map when it is missing, sets one kind, and leaves the other targets alone |
| TheEidolon.AffinityReadAfterWrite | the_loom/the_eidolon.py:67-73 | reading after a write gives the written value; every other (target, kind) pair reads as before |
| TheEidolon.Sanity | the_loom/the_eidolon.py:78 | sanity is defined exactly when resilience and composure are numbers, and is their mean as a float (true division) |
| TheEidolon.Reputation | the_loom/the_eidolon.py:80 | charisma + extraversion is evaluated first and raises TypeError for operands `+` rejects; then `.values()` raises AttributeError for non-table grievances; then `sum` raises TypeError for a non-numeric score, and `-` raises TypeError when the sum of the first two is a string or list. A result exists exactly when both attributes and every score are numbers; it is then charisma + extraversion minus the total of the scores, and a float exactly when one of them is a float |
| TheEidolon.IntegerReputation | the_loom/the_eidolon.py:80 | with integer attributes and scores, reputation is charisma + extraversion minus the total of the grievance scores |
| TheEidolon.GrievanceLowersReputation | the_loom/the_eidolon.py:80 | recording a grievance against a name not yet in the table (`grievances[who] = s`, any integer `s`) lowers an integer reputation by exactly `s` |
| TheEidolon.Eidolon.constructor | the_loom/the_eidolon.py:7-50 | the new Eidolon has the given name, each tier built from the keyword arguments and defaults, and no affinities |
| TheEidolon.Eidolon.UpdateCoreAttribute | the_loom/the_eidolon.py:55-59 | a known core attribute is set and the other tiers are untouched; an unknown one raises ValueError with the source's message and changes nothing |
| TheEidolon.Eidolon.UpdateDynamicState | the_loom/the_eidolon.py:61-65 | the same for dynamic states |
| TheEidolon.Eidolon.UpdateAffinity | the_loom/the_eidolon.py:67-70 | the affinities become `WithAffinity` of the old ones, and the written value reads back |
| TheEidolon.Eidolon.GetAffinity | the_loom/the_eidolon.py:72-73 | reads the object's affinities as `AffinityOf` specifies |
| TheEidolon.Eidolon.CalculateDerivedStats | the_loom/the_eidolon.py:76-80 | sanity is stored first, then reputation; a failure in the reputation step keeps the new sanity and leaves the ledger unchanged |
| TheNexus.Nexus.constructor | the_loom/the_nexus.py:12-18 | a fresh world has no Eidolons and time 0 |
| TheNexus.Nexus.AddEidolon | the_loom/the_nexus.py:20-23 | a taken name raises ValueError with the source's message and leaves the registry as it was; otherwise the Eidolon is filed under its own name |
| TheNexus.Nexus.GetEidolon | the_loom/the_nexus.py:25-26 | non-null exactly for a registered name, and then the Eidolon registered under that name |
| TheNexus.Nexus.RemoveEidolon | the_loom/the_nexus.py:28-30 | the registry loses exactly that name, and a missing name is no error |
| TheNexus.Nexus.AdvanceTime | the_loom/the_nexus.py:32-34 | time grows by `steps`, 1 by default |
| TheNexus.Nexus.Reset | the_loom/the_nexus.py:40-43 | back to no Eidolons and time 0 |
| TheNexus.ExampleEidolons | the_loom/the_nexus.py:50-52 | the example's Alice and Bob: two distinct new Eidolons with their names, their keyword arguments in the core and personality tiers, and no affinities |
| TheNexus.ExampleAffinities | the_loom/the_nexus.py:60-65 | Alice's platonic affinity for Bob is set to 50 and Bob's rivalrous affinity for Alice to 20, each as `update_affinity` specifies, and both read back |
| TheNexus.RegistryWalkthrough | the_loom/the_nexus.py:46-73 | the source's example run: after both adds the registry holds exactly "Alice" and "Bob"; the affinities read back as 50 and 20; `advance_time()` then `advance_time(5)` reach time 6; `reset` empties the registry |
| TheAlembic.AttributeDraw | the_loom/the_alembic.py:49-59 | a definition without a `type` is a static value, and any type other than `range` contributes nothing. A `range` draws between `min` (default 0) and `max` (default 100) exactly when both bounds are integers and `min <= max`. Non-integer bounds raise TypeError, and an empty range raises ValueError |
| TheAlembic.TierDraws | the_loom/the_alembic.py:49-59 | the inner loop's draws for one tier, in order, or the first exception |
| TheAlembic.TierDrawsFails | the_loom/the_alembic.py:49-55 | a tier fails exactly when the definition of one of its attributes fails |
| TheAlembic.TierDrawsFromAttributes | the_loom/the_alembic.py:49-59 | each draw of a tier is made under the name of one of its attributes, as that attribute's definition gives it, and there are no more draws than attributes |
| TheAlembic.PlanOf | the_loom/the_alembic.py:47-59 | the outer loop's draws over the whole definition, tier by tier in order, or the first exception |
| TheAlembic.PlanOfFails | the_loom/the_alembic.py:47-55 | a definition fails exactly when one of its tier entries is not a table (`.items()` raises AttributeError) or holds a failing attribute; other entries never fail |
| TheAlembic.LastDraw | the_loom/the_alembic.py:55-59 | the draw that decides a keyword argument assigned more than once |
| TheAlembic.LastDrawIsLast | the_loom/the_alembic.py:55-59 | that draw is the one of the last entry for the name: later assignments overwrite earlier ones |
| TheAlembic.Realizes | the_loom/the_alembic.py:44-59 | `eidolon_kwargs` after the loops: every planned keyword holds a value its last draw allows, every other one keeps its starting value |
| TheAlembic.RangeDefaultBounds | the_loom/the_alembic.py:53-54 | a bare range draws from 0 to 100 |
| TheAlembic.Realize | the_loom/the_alembic.py:55-59 | the value produced satisfies its draw: the static value itself, or an integer within the bounds |
| TheAlembic.FlattenTier | the_loom/the_alembic.py:49-59 | the inner loop over one tier extends the keyword arguments by that tier's draws, or raises the tier's first exception |
| TheAlembic.FlattenTiers | the_loom/the_alembic.py:44-59 | the keyword arguments start from `name` and realize the whole plan; later assignments win; the first exception is raised |
| TheAlembic.PlanIgnoresOtherEntries | the_loom/the_alembic.py:47-48 | removing an entry that is not a tier, such as `name` or `generation_type`, does not change the draws |
| TheAlembic.TierNameIrrelevant | the_loom/the_alembic.py:47-59 | moving any one tier entry of a definition under another tier name leaves the draws of the whole definition unchanged: all four tiers feed one flat set of keyword arguments |
| TheAlembic.PlannedValue | the_loom/the_alembic.py:52-59 | a planned attribute takes its last draw: the static value, or an integer within the range |
| TheAlembic.UnplannedAttributeDefaults | the_loom/the_alembic.py:62 | a core attribute the definition does not mention gets the constructor's default 0 |
| TheAlembic.Prepare | the_loom/the_alembic.py:32-47 | None without a characters section or for a missing or empty definition; AttributeError for non-table data; otherwise the name (the id by default) and the draws |
| TheAlembic.NameDefaultsToId | the_loom/the_alembic.py:41 | a definition without `name` names the Eidolon after its id |
| TheAlembic.FinalName | the_loom/the_alembic.py:44 | the `name` keyword once the loops are done: a `name` assigned in a tier overrides the starting one |
| TheAlembic.FinalNameOf | the_loom/the_alembic.py:44-62 | the constructor's name is the last `name` assigned in a tier, otherwise the definition's name |
| TheAlembic.BuiltFrom | the_loom/the_alembic.py:62 | `Eidolon(**eidolon_kwargs)`: each tier takes its keyword arguments and its defaults, and there are no affinities |
| TheAlembic.StoreSection | the_loom/the_alembic.py:17-28 | a present section is stored under its name, replacing an earlier one; a missing section or an unreadable file changes nothing |
| TheAlembic.Alembic.constructor | the_loom/the_alembic.py:12-13 | no Hyle is loaded |
| TheAlembic.Alembic.LoadHyleFile | the_loom/the_alembic.py:15-28 | the loaded sections become `StoreSection` of the old ones |
| TheAlembic.Alembic.CreateEidolon | the_loom/the_alembic.py:30-64 | None and every exception exactly as the guards say; otherwise a fresh Eidolon with the final name, built from keyword arguments that realize the definition's draws |
| AlembicExamples.GregorPlan | the_loom/the_alembic.py:72-77 | the static guard's plan copies strength 15, agility 8 and openness 20 |
| AlembicExamples.BanditPlan | the_loom/the_alembic.py:79-84 | the bandit's plan draws strength in 8..12, agility in 10..14 and agreeableness in -20..0 |
| AlembicExamples.TemplatePlan | the_loom/the_alembic.py:79-84 | any template of that shape plans exactly its three range draws |
| AlembicExamples.TemplateBlueprint | the_loom/the_alembic.py:79-84 | creating `generic_bandit` from the loaded section starts from the name "Bandit" and that plan |
| AlembicExamples.TemplateStats | the_loom/the_alembic.py:100-104 | whatever is drawn, a created bandit's strength, agility and agreeableness lie in their ranges, and intellect and openness keep their default 0 |
| AlembicExamples.TemplateName | the_loom/the_alembic.py:80 | the bandit is named "Bandit", because no tier assigns a name |
| AlembicExamples.TemplateWalkthrough | the_loom/the_alembic.py:67-104 | loading the example document and creating `generic_bandit` yields an Eidolon named "Bandit" whose strength, agility and agreeableness lie in their ranges, whatever is drawn, and whose openness keeps its default 0 |
| AlembicExamples.UndefinedWalkthrough | the_loom/the_alembic.py:30-39 | creating a character the loaded document does not define returns None |
| AlembicExamples.UndefinedCharacter | the_loom/the_alembic.py:36-39 | an id missing from the characters section yields None |

## Left out

- Formula evaluation by `eval` (the_loom/the_moirai.py:121-128) is not modelled. Python evaluation is outside the model. `TheMoirai.Moirai.EvaluateFormula` stops at the processed expression and does not model the error report printed when `eval` raises.
- File I/O is not modelled: `open`, `tomllib` parsing, and the example blocks' writing and deleting of files. Each loader takes the parsed document as `Option<Entries>`. None stands for a file that is missing or not parseable as TOML; in that case the source only prints.
- `TheMoirai.Moirai.LoadFormulasFromHyle` and `TheAlembic.Alembic.LoadHyleFile`: the loaders catch only FileNotFoundError and `tomllib.TOMLDecodeError` (the_loom/the_moirai.py:29-32, the_loom/the_alembic.py:25-28). A file that is not UTF-8 (UnicodeDecodeError), one that cannot be read (PermissionError) and a path that is a directory (IsADirectoryError) make the source raise to its caller. The model has no such documents, so it does not promise these exceptions.
- `print` output, warnings included, is left out.
- `random.randint` becomes a nondeterministic choice within the bounds (`TheAlembic.Realize`). No generator or distribution is modelled.
- Bool bounds are integers (bool is a subclass of int), as in Python. Some Python versions accept integral floats as bounds; the model does not. Non-integer bounds are reduced to a TypeError.
- `TheAlembic.AttributeDraw`: the empty-range ValueError carries the shortened message `empty range in randrange`. Python's message also names the bounds, and its wording differs between versions.
- `Hyle.Value` has no TOML date, time or date-time values, and no `inf` or `nan`. So the model cannot express that a date or time as a formula entry makes `'expression' in formula_data` raise TypeError; every value the model can express there is covered.
- `TheAlembic.Alembic.CreateEidolon`: a tier attribute named `self` makes `Eidolon(**eidolon_kwargs)` raise TypeError (the_loom/the_alembic.py:62), because the keyword clashes with the `self` parameter. The model builds the Eidolon with a `self` attribute instead.
- `Hyle.Add`, `Hyle.Sub`, `Hyle.Sum`, `TheEidolon.Sanity`, `TheEidolon.Reputation`: floats are exact reals. There is no rounding and no IEEE behaviour, so for instance 0.1 + 0.2 is 0.3 in the model and 0.30000000000000004 in Python.
- The singleton `__new__` of the Nexus is not modelled. `TheNexus.Nexus` is an ordinary object, so aliasing between "two" Nexus instances is not captured.
- `get_all_eidolons` returns the live dictionary. Aliasing a caller's view to the registry cannot be expressed over a value-typed `map`; the registry is readable as the field `eidolons`.
- The Eidolon's `__repr__` is left out.
- `generation_type` is read only for a message that is printed, so it is left out.
- `TheAlembic.Alembic.CreateEidolon`: Python would build an Eidolon whose name is not a string. The model reports this as the outcome `NameNotText`, because the model's Eidolon name is a string.
- `TheEidolon.Eidolon.UpdateCoreAttribute`, `UpdateDynamicState` and `CalculateDerivedStats` require each tier to keep its documented keys (`Valid`). Outside code that deletes a key, and the KeyError that would follow, are not modelled.
- The user interface (`the_loomwright/`), the command-line entry point and the test runners are outside the engine core.
