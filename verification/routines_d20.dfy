/** The d20 script routines: dice rolls and creature queries that fall back
  * to a default value when the creature argument is invalid. */
module RoutinesD20 {
  import opened Wrappers
  import opened Arith
  import opened CreatureClass
  import opened Attributes

  /** The dice the script language offers: d2 … d100. */
  predicate DiceSides(sides: int) {
    sides in {2, 3, 4, 6, 8, 10, 12, 20, 100}
  }

  /** The number of dice: the first argument, 1 when absent, and at least 1. */
  function NumDice(arg: Option<int>): (n: int)
    ensures n >= 1
    ensures arg.None? ==> n == 1
    ensures arg.Some? && arg.value >= 1 ==> n == arg.value
    ensures arg.Some? && arg.value < 1 ==> n == 1
  {
    Max(1, if arg.Some? then arg.value else 1)
  }

  function Sum(s: seq<int>): int {
    if s == [] then 0 else Sum(s[..|s| - 1]) + s[|s| - 1]
  }

  /** Rolls `NumDice(arg)` dice of `sides` sides; `rolls` are the values
    * the random source returns, one per die. */
  method RollDice(sides: int, arg: Option<int>, rolls: seq<int>) returns (result: int)
    requires DiceSides(sides)
    requires |rolls| >= NumDice(arg)
    requires forall i :: 0 <= i < |rolls| ==> 1 <= rolls[i] <= sides
    ensures result == Sum(rolls[..NumDice(arg)])
    ensures NumDice(arg) <= result <= NumDice(arg) * sides
  {
    var numDice := NumDice(arg);
    result := 0;
    var i := 0;
    while i < numDice
      invariant 0 <= i <= numDice
      invariant result == Sum(rolls[..i])
      invariant i <= result <= i * sides
    {
      assert rolls[..i + 1][..i] == rolls[..i];
      MulSucc(i, sides);
      result := result + rolls[i];
      i := i + 1;
    }
  }

  lemma MulSucc(i: int, n: int)
    ensures (i + 1) * n == i * n + n
  {
  }

  /** The total level of a valid creature, 0 for an invalid one. */
  function GetHitDice(creature: Option<Attributes>): (r: int)
    ensures creature.None? ==> r == 0
    ensures creature.Some? ==> r == GetAggregateLevel(creature.value)
  {
    if creature.Some? then GetAggregateLevel(creature.value) else 0
  }

  function GetClassByPositionRoutine(position: int, creature: Option<Attributes>): (r: ClassType)
    ensures creature.None? ==> r == InvalidClass
    ensures creature.Some? ==> r == GetClassByPosition(creature.value, position)
  {
    if creature.Some? then GetClassByPosition(creature.value, position) else InvalidClass
  }

  function GetLevelByClass(clazz: ClassType, creature: Option<Attributes>): (r: int)
    ensures creature.None? ==> r == 0
    ensures creature.Some? ==> r == GetClassLevel(creature.value, clazz)
  {
    if creature.Some? then GetClassLevel(creature.value, clazz) else 0
  }

  function GetLevelByPositionRoutine(position: int, creature: Option<Attributes>): (r: int)
    ensures creature.None? ==> r == 0
    ensures creature.Some? ==> r == GetLevelByPosition(creature.value, position)
  {
    if creature.Some? then GetLevelByPosition(creature.value, position) else 0
  }

  /** 1 when a valid creature has the skill, else 0. */
  function GetHasSkill(skill: Skill, creature: Option<Attributes>): (r: int)
    ensures r == 0 || r == 1
    ensures r == 1 <==> creature.Some? && HasSkill(creature.value, skill)
  {
    if creature.Some? && HasSkill(creature.value, skill) then 1 else 0
  }

  function GetAbilityScoreRoutine(creature: Option<Attributes>, ability: Ability): (r: int)
    ensures creature.None? ==> r == 0
    ensures creature.Some? ==> r == GetAbilityScore(creature.value, ability)
  {
    if creature.Some? then GetAbilityScore(creature.value, ability) else 0
  }

  function GetSkillRankRoutine(skill: Skill, creature: Option<Attributes>): (r: int)
    ensures creature.None? ==> r == 0
    ensures creature.Some? ==> r == GetSkillRank(creature.value, skill)
  {
    if creature.Some? then GetSkillRank(creature.value, skill) else 0
  }

  /** A script cannot tell an invalid creature from a valid one without
    * classes or skills by its class and skill queries, but it can by its
    * ability scores: an unset score reads 8, an invalid creature's 0. */
  lemma InvalidLooksClassless(a: Attributes, position: int, clazz: ClassType, skill: Skill, ability: Ability)
    requires a.classLevels == [] && a.skillRanks == map[] && a.abilityScores == map[]
    ensures GetHitDice(Some(a)) == GetHitDice(None)
    ensures GetClassByPositionRoutine(position, Some(a)) == GetClassByPositionRoutine(position, None)
    ensures GetLevelByClass(clazz, Some(a)) == GetLevelByClass(clazz, None)
    ensures GetLevelByPositionRoutine(position, Some(a)) == GetLevelByPositionRoutine(position, None)
    ensures GetHasSkill(skill, Some(a)) == GetHasSkill(skill, None)
    ensures GetSkillRankRoutine(skill, Some(a)) == GetSkillRankRoutine(skill, None)
    ensures GetAbilityScoreRoutine(Some(a), ability) == 8 && GetAbilityScoreRoutine(None, ability) == 0
  {
    assert !HasClass(a.classLevels, clazz);
  }
}
