/** The Nexus: the world registry of live Eidolons, keyed by name, and the
    simulation clock. The source makes it a process-wide singleton; here it
    is an ordinary object. */
module TheNexus {
  import opened Wrappers
  import opened Hyle
  import opened TheEidolon

  class Nexus {
    var eidolons: map<string, Eidolon>
    var time: int

    /** Every Eidolon is filed under its own name. */
    ghost predicate Valid()
      reads this
    {
      forall n :: n in eidolons ==> eidolons[n].name == n
    }

    constructor ()
      ensures Valid()
      ensures eidolons == map[] && time == 0
    {
      eidolons := map[];
      time := 0;
    }

    /** `add_eidolon`: refuses a second Eidolon under a name already taken. */
    method AddEidolon(eidolon: Eidolon) returns (outcome: Outcome<PyError>)
      requires Valid()
      modifies this`eidolons
      ensures Valid()
      ensures eidolon.name in old(eidolons)
              ==> outcome == Fail(ValueError("Eidolon with name " + eidolon.name + " already exists in The Nexus."))
                  && eidolons == old(eidolons)
      ensures eidolon.name !in old(eidolons)
              ==> outcome == Pass && eidolons == old(eidolons)[eidolon.name := eidolon]
    {
      if eidolon.name in eidolons {
        return Fail(ValueError("Eidolon with name " + eidolon.name + " already exists in The Nexus."));
      }
      eidolons := eidolons[eidolon.name := eidolon];
      outcome := Pass;
    }

    /** `get_eidolon`: the Eidolon registered under `name`, or None (null). */
    function GetEidolon(name: string): (r: Eidolon?)
      reads this
      ensures r != null <==> name in eidolons
      ensures r != null ==> r == eidolons[name]
      ensures Valid() && r != null ==> r.name == name
    {
      if name in eidolons then eidolons[name] else null
    }

    /** `remove_eidolon`: deletes the entry when present, otherwise does nothing. */
    method RemoveEidolon(name: string)
      requires Valid()
      modifies this`eidolons
      ensures Valid()
      ensures eidolons == old(eidolons) - {name}
    {
      if name in eidolons {
        eidolons := eidolons - {name};
      }
    }

    /** `advance_time(steps=1)`. */
    method AdvanceTime(steps: int := 1)
      modifies this`time
      ensures time == old(time) + steps
    {
      time := time + steps;
    }

    /** `reset`: back to an empty world at time 0. */
    method Reset()
      modifies this
      ensures Valid()
      ensures eidolons == map[] && time == 0
    {
      eidolons := map[];
      time := 0;
    }
  }

  /** The keyword arguments of the source's two example Eidolons. */
  const AliceArgs: map<string, Value> := map["strength" := Int(10), "charisma" := Int(15), "openness" := Int(80)]
  const BobArgs: map<string, Value> := map["strength" := Int(8), "intellect" := Int(12), "neuroticism" := Int(60)]

  method ExampleEidolons() returns (alice: Eidolon, bob: Eidolon)
    ensures fresh(alice) && fresh(bob) && alice != bob
    ensures alice.name == "Alice" && alice.coreAttributes == Tier(CoreDefaults, AliceArgs)
            && alice.personality == Tier(PersonalityDefaults, AliceArgs) && alice.affinities == map[]
    ensures bob.name == "Bob" && bob.coreAttributes == Tier(CoreDefaults, BobArgs)
            && bob.personality == Tier(PersonalityDefaults, BobArgs) && bob.affinities == map[]
  {
    alice := new Eidolon("Alice", AliceArgs);
    bob := new Eidolon("Bob", BobArgs);
  }

  /** The example's affinity updates, each read back afterwards. */
  method ExampleAffinities(alice: Eidolon, bob: Eidolon) returns (alicePlatonic: Value, bobRivalrous: Value)
    requires alice != bob
    modifies alice`affinities, bob`affinities
    ensures alice.affinities == WithAffinity(old(alice.affinities), bob.name, "platonic", Int(50))
    ensures bob.affinities == WithAffinity(old(bob.affinities), alice.name, "rivalrous", Int(20))
    ensures alicePlatonic == Int(50) && bobRivalrous == Int(20)
  {
    alice.UpdateAffinity(bob.name, "platonic", Int(50));
    bob.UpdateAffinity(alice.name, "rivalrous", Int(20));
    alicePlatonic := alice.GetAffinity(bob.name, "platonic");
    bobRivalrous := bob.GetAffinity(alice.name, "rivalrous");
  }

  /** The source's example run: Alice and Bob are created, registered and
      given an affinity each for the other, the clock advances by 1 and then
      by 5, and the world is reset. */
  method RegistryWalkthrough()
      returns (registered: set<string>, alicePlatonic: Value, bobRivalrous: Value, elapsed: int, afterReset: set<string>)
    ensures registered == {"Alice", "Bob"}
    ensures alicePlatonic == Int(50) && bobRivalrous == Int(20)
    ensures elapsed == 6
    ensures afterReset == {}
  {
    var nexus := new Nexus();
    var alice, bob := ExampleEidolons();
    var added := nexus.AddEidolon(alice);
    assert nexus.eidolons == map["Alice" := alice];
    assert "Alice" != "Bob";
    added := nexus.AddEidolon(bob);
    assert nexus.eidolons == map["Alice" := alice, "Bob" := bob];
    registered := nexus.eidolons.Keys;
    assert registered == {"Alice", "Bob"};
    alicePlatonic, bobRivalrous := ExampleAffinities(alice, bob);
    nexus.AdvanceTime();
    nexus.AdvanceTime(5);
    elapsed := nexus.time;
    assert elapsed == 6;
    nexus.Reset();
    afterReset := nexus.eidolons.Keys;
  }
}
