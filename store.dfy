/**
 * The monster-progression store: one optional monster record plus the
 * streak and the day of the last logged action, changed in place by the
 * store's actions. Every action that touches the monster silently does
 * nothing when no monster exists.
 */
module Store {
  import opened Monster

  class MonsterStore {
    var monster: Option<MonsterStatus>
    var streak: nat
    var lastActionDate: Option<int>

    /** The store invariant: a present monster has clamped traits and duplicate-free lists. */
    ghost predicate Valid()
      reads this
    {
      monster.Some? ==> Healthy(monster.value)
    }

    /** The initial state: no monster, streak 0, no action logged yet. */
    constructor ()
      ensures monster == None && streak == 0 && lastActionDate == None
      ensures Valid()
    {
      monster := None;
      streak := 0;
      lastActionDate := None;
    }

    /**
     * Replaces any monster by a fresh one of the given element. The id is the
     * caller's fresh identifier; primaryValueId is accepted and not used.
     */
    method InitMonster(element: Element, primaryValueId: string, id: string)
      modifies this
      ensures monster == Some(Fresh(id, element))
      ensures streak == old(streak) && lastActionDate == old(lastActionDate)
      ensures Valid()
    {
      var newMonster := MonsterStatus(
        id, LocalUser, BigFive(50, 50, 50, 50, 50), element, Wisp, 0, [], []);
      monster := Some(newMonster);
    }

    /** Adds amount to the XP total; no other field changes. */
    method AddXp(amount: int)
      modifies this
      ensures old(monster).None? ==> monster == None
      ensures old(monster).Some? ==>
                monster == Some(old(monster).value.(totalXp := old(monster).value.totalXp + amount))
      ensures streak == old(streak) && lastActionDate == old(lastActionDate)
      ensures old(Valid()) ==> Valid()
    {
      if monster.None? {
        return;
      }
      var m := monster.value;
      monster := Some(m.(totalXp := m.totalXp + amount));
    }

    /**
     * Moves each trait named in changes by its delta (undefined counts as 0),
     * clamping to [0, 100], one entry after another.
     */
    method UpdateStats(changes: seq<Change>)
      modifies this
      ensures old(monster).None? ==> monster == None
      ensures old(monster).Some? ==>
                monster == Some(old(monster).value.(bigFive := ApplyChanges(old(monster).value.bigFive, changes)))
      ensures streak == old(streak) && lastActionDate == old(lastActionDate)
      ensures old(Valid()) ==> Valid()
    {
      if monster.None? {
        return;
      }
      var m := monster.value;
      var newStats := m.bigFive;
      var i := 0;
      while i < |changes|
        invariant 0 <= i <= |changes|
        invariant newStats == ApplyChanges(m.bigFive, changes[..i])
      {
        var c := changes[i];
        newStats := WithTrait(newStats, c.key, Clamp(TraitValue(newStats, c.key) + DeltaOf(c.value)));
        assert changes[..i + 1][..i] == changes[..i];
        i := i + 1;
      }
      assert changes[..i] == changes;
      if InRange(m.bigFive) {
        ApplyChangesKeepsRange(m.bigFive, changes);
      }
      monster := Some(m.(bigFive := newStats));
    }

    /**
     * Records an action of the given level on day today: updates the streak
     * against the last action day, records today, then grants the level's XP
     * and trait growth. The streak and day change even without a monster.
     */
    method LogAction(level: ActionLevel, today: int)
      modifies this
      ensures lastActionDate == Some(today)
      ensures streak == NextStreak(old(streak), old(lastActionDate), today)
      ensures old(monster).None? ==> monster == None
      ensures old(monster).Some? ==>
                monster == Some(old(monster).value.(
                  totalXp := old(monster).value.totalXp + XpByLevel(level),
                  bigFive := ActionGrowth(old(monster).value.bigFive, level)))
      ensures old(Valid()) ==> Valid()
    {
      var newStreak := streak;
      if lastActionDate == Some(today) {
        // the same day: the streak is unchanged
      } else if lastActionDate == Some(today - 1) {
        newStreak := streak + 1;
      } else {
        newStreak := 1;
      }

      var xpGain := XpByLevel(level);

      lastActionDate := Some(today);
      streak := newStreak;

      AddXp(xpGain);

      if level >= 3 {
        UpdateStats([Change(Conscientiousness, Some(2))]);
      }
      if level >= 4 {
        UpdateStats([Change(Openness, Some(3))]);
      }
    }

    /** Appends skillId to the unlocked skills unless it is already there. */
    method UnlockSkill(skillId: string)
      modifies this
      ensures old(monster).None? ==> monster == None
      ensures old(monster).Some? ==>
                monster == Some(old(monster).value.(
                  unlockedSkills := AppendUnique(old(monster).value.unlockedSkills, skillId)))
      ensures streak == old(streak) && lastActionDate == old(lastActionDate)
      ensures old(Valid()) ==> Valid()
    {
      if monster.None? || skillId in monster.value.unlockedSkills {
        return;
      }
      var m := monster.value;
      monster := Some(m.(unlockedSkills := m.unlockedSkills + [skillId]));
    }

    /**
     * Whether the monster may evolve: it exists, is not at the last stage and
     * its XP has reached the threshold of the next stage.
     */
    function CheckEvolution(): (r: bool)
      reads this
      ensures r <==> monster.Some? && monster.value.currentForm != Phoenix &&
                     monster.value.totalXp >= Threshold(Successor(monster.value.currentForm))
    {
      if monster.None? then false
      else
        var currentIndex := IndexOf(EvolutionOrder, monster.value.currentForm);
        IndexOfOrder(monster.value.currentForm);
        if currentIndex >= |EvolutionOrder| - 1 then false
        else
          var nextStage := EvolutionOrder[currentIndex + 1];
          monster.value.totalXp >= Threshold(nextStage)
    }

    /**
     * Moves the monster to the next stage of the evolution order without
     * checking its XP; nothing happens at the last stage.
     */
    method Evolve()
      modifies this
      ensures old(monster).None? ==> monster == None
      ensures old(monster).Some? && old(monster).value.currentForm == Phoenix ==> monster == old(monster)
      ensures old(monster).Some? && old(monster).value.currentForm != Phoenix ==>
                monster == Some(old(monster).value.(currentForm := Successor(old(monster).value.currentForm)))
      ensures streak == old(streak) && lastActionDate == old(lastActionDate)
      ensures old(Valid()) ==> Valid()
    {
      if monster.None? {
        return;
      }
      var m := monster.value;
      var currentIndex := IndexOf(EvolutionOrder, m.currentForm);
      IndexOfOrder(m.currentForm);
      if currentIndex >= |EvolutionOrder| - 1 {
        return;
      }
      var nextStage := EvolutionOrder[currentIndex + 1];
      monster := Some(m.(currentForm := nextStage));
    }

    /** Appends warning to the darkside warnings unless it is already there. */
    method AddDarksideWarning(warning: string)
      modifies this
      ensures old(monster).None? ==> monster == None
      ensures old(monster).Some? ==>
                monster == Some(old(monster).value.(
                  darksideWarnings := AppendUnique(old(monster).value.darksideWarnings, warning)))
      ensures streak == old(streak) && lastActionDate == old(lastActionDate)
      ensures old(Valid()) ==> Valid()
    {
      if monster.None? || warning in monster.value.darksideWarnings {
        return;
      }
      var m := monster.value;
      monster := Some(m.(darksideWarnings := m.darksideWarnings + [warning]));
    }
  }
}
