/** The skill step of character generation: a point budget derived from the
  * class and intelligence, spent on the eight skills with plus and minus
  * buttons. Class skills cost 1 point per rank and go up to rank 4; other
  * skills cost 2 and go up to rank 2. */
module ChargenSkills {
  import opened Arith
  import opened CreatureClass
  import opened Attributes

  /** The screen's state: the remaining points and its working copy of the
    * attributes. */
  datatype SkillsScreen = SkillsScreen(points: int, attributes: Attributes)

  const AllSkills: seq<Skill> := [ComputerUse, Demolitions, Stealth, Awareness, Persuade, Repair, Security, TreatInjury]

  function GetPointCost(cls: CreatureClass, skill: Skill): (c: int)
    ensures c == 1 || c == 2
    ensures c == 1 <==> IsClassSkill(cls, skill)
  {
    if IsClassSkill(cls, skill) then 1 else 2
  }

  function MaxSkillRank(cls: CreatureClass, skill: Skill): (m: int)
    ensures m == 4 || m == 2
    ensures m == 4 <==> IsClassSkill(cls, skill)
  {
    if IsClassSkill(cls, skill) then 4 else 2
  }

  /** Points after a reset: half of the class's skill point base plus the
    * intelligence modifier, rounded toward zero, but at least 1; four
    * times that in a new game, where the eight ranks are also cleared. In
    * a level-up the screen takes the character's attributes as they are. */
  function Reset(character: Attributes, cls: CreatureClass, screen: Attributes, newGame: bool): (r: SkillsScreen)
    ensures !newGame ==> r.points >= 1 && r.attributes == character
    ensures newGame ==> r.points >= 4
    ensures newGame ==> forall s :: s in AllSkills ==> GetSkillRank(r.attributes, s) == 0
    ensures newGame ==> r.attributes.classLevels == screen.classLevels && r.attributes.abilityScores == screen.abilityScores
    ensures var half := TruncDiv(cls.skillPointBase + GetAbilityModifier(character, Intelligence), 2);
            r.points == (if newGame then 4 else 1) * Max(1, half)
  {
    var points := Max(1, TruncDiv(cls.skillPointBase + GetAbilityModifier(character, Intelligence), 2));
    if newGame then
      SkillsScreen(points * 4, ClearRanks(screen, AllSkills))
    else
      SkillsScreen(points, character)
  }

  /** Sets the rank of each listed skill to 0. */
  function ClearRanks(a: Attributes, skills: seq<Skill>): (r: Attributes)
    ensures forall s :: s in skills ==> GetSkillRank(r, s) == 0
    ensures forall s :: s !in skills ==> GetSkillRank(r, s) == GetSkillRank(a, s)
    ensures r.classLevels == a.classLevels && r.abilityScores == a.abilityScores
    decreases |skills|
  {
    if skills == [] then a
    else ClearRanks(SetSkillRank(a, skills[0], 0), skills[1..])
  }

  /** The plus button is offered when the points cover the cost and the
    * rank is below its cap. */
  predicate CanIncreaseSkill(s: SkillsScreen, cls: CreatureClass, skill: Skill) {
    s.points >= GetPointCost(cls, skill) && GetSkillRank(s.attributes, skill) < MaxSkillRank(cls, skill)
  }

  /** The minus button is offered when the rank is positive. */
  predicate CanDecreaseSkill(s: SkillsScreen, skill: Skill) {
    GetSkillRank(s.attributes, skill) > 0
  }

  /** The plus button: spend the cost and raise the rank by one. */
  function Plus(s: SkillsScreen, cls: CreatureClass, skill: Skill): (r: SkillsScreen)
    ensures r.points == s.points - GetPointCost(cls, skill)
    ensures GetSkillRank(r.attributes, skill) == GetSkillRank(s.attributes, skill) + 1
    ensures forall o :: o != skill ==> GetSkillRank(r.attributes, o) == GetSkillRank(s.attributes, o)
  {
    SkillsScreen(s.points - GetPointCost(cls, skill),
                 SetSkillRank(s.attributes, skill, GetSkillRank(s.attributes, skill) + 1))
  }

  /** The minus button: lower the rank by one and refund the cost. */
  function Minus(s: SkillsScreen, cls: CreatureClass, skill: Skill): (r: SkillsScreen)
    ensures r.points == s.points + GetPointCost(cls, skill)
    ensures GetSkillRank(r.attributes, skill) == GetSkillRank(s.attributes, skill) - 1
    ensures forall o :: o != skill ==> GetSkillRank(r.attributes, o) == GetSkillRank(s.attributes, o)
  {
    SkillsScreen(s.points + GetPointCost(cls, skill),
                 SetSkillRank(s.attributes, skill, GetSkillRank(s.attributes, skill) - 1))
  }

  /** Points spent on the listed skills: cost times rank, summed. */
  function Spent(a: Attributes, cls: CreatureClass, skills: seq<Skill>): int {
    if skills == [] then 0
    else GetPointCost(cls, skills[0]) * GetSkillRank(a, skills[0]) + Spent(a, cls, skills[1..])
  }

  /** The budget the screen conserves: remaining points plus points spent. */
  function Budget(s: SkillsScreen, cls: CreatureClass): int {
    s.points + Spent(s.attributes, cls, AllSkills)
  }

  /** Changing one rank changes the amount spent by the cost times the
    * change, once per occurrence of the skill. */
  lemma {:induction false} SpentChange(a: Attributes, b: Attributes, cls: CreatureClass, skills: seq<Skill>, skill: Skill, delta: int)
    requires GetSkillRank(b, skill) == GetSkillRank(a, skill) + delta
    requires forall o :: o != skill ==> GetSkillRank(b, o) == GetSkillRank(a, o)
    ensures Spent(b, cls, skills) == Spent(a, cls, skills) + Occurrences(skills, skill) * (GetPointCost(cls, skill) * delta)
  {
    if skills != [] {
      var step := GetPointCost(cls, skill) * delta;
      var n := Occurrences(skills[1..], skill);
      SpentChange(a, b, cls, skills[1..], skill, delta);
      assert Spent(b, cls, skills[1..]) == Spent(a, cls, skills[1..]) + n * step;
      var c := GetPointCost(cls, skills[0]);
      if skills[0] == skill {
        MulDistributes(c, GetSkillRank(a, skill), delta);
        MulDistributes(step, n, 1);
        assert Occurrences(skills, skill) == n + 1;
      } else {
        assert GetSkillRank(b, skills[0]) == GetSkillRank(a, skills[0]);
        assert Occurrences(skills, skill) == n;
      }
    }
  }

  lemma MulDistributes(c: int, x: int, y: int)
    ensures c * (x + y) == c * x + c * y
    ensures (x + y) * c == x * c + y * c
  {
  }

  function Occurrences(skills: seq<Skill>, skill: Skill): nat {
    if skills == [] then 0 else (if skills[0] == skill then 1 else 0) + Occurrences(skills[1..], skill)
  }

  lemma {:induction false} OccurrencesAbsent(skills: seq<Skill>, skill: Skill)
    requires skill !in skills
    ensures Occurrences(skills, skill) == 0
  {
    if skills != [] {
      OccurrencesAbsent(skills[1..], skill);
    }
  }

  lemma {:induction false} OccurrencesOfDistinct(skills: seq<Skill>, skill: Skill)
    requires forall i, j :: 0 <= i < j < |skills| ==> skills[i] != skills[j]
    requires skill in skills
    ensures Occurrences(skills, skill) == 1
  {
    if skills[0] == skill {
      OccurrencesAbsent(skills[1..], skill);
    } else {
      OccurrencesOfDistinct(skills[1..], skill);
    }
  }

  /** Each of the eight skills appears once in the list the budget sums. */
  lemma AllSkillsOnce(skill: Skill)
    ensures Occurrences(AllSkills, skill) == 1
  {
    OccurrencesOfDistinct(AllSkills, skill);
  }

  /** Plus and minus keep points plus the cost-weighted ranks constant. */
  lemma ButtonsPreserveBudget(s: SkillsScreen, cls: CreatureClass, skill: Skill)
    ensures Budget(Plus(s, cls, skill), cls) == Budget(s, cls)
    ensures Budget(Minus(s, cls, skill), cls) == Budget(s, cls)
  {
    PlusKeepsBudget(s, cls, skill);
    MinusKeepsBudget(s, cls, skill);
  }

  lemma PlusKeepsBudget(s: SkillsScreen, cls: CreatureClass, skill: Skill)
    ensures Spent(Plus(s, cls, skill).attributes, cls, AllSkills) == Spent(s.attributes, cls, AllSkills) + GetPointCost(cls, skill)
  {
    AllSkillsOnce(skill);
    SpentChange(s.attributes, Plus(s, cls, skill).attributes, cls, AllSkills, skill, 1);
  }

  lemma MinusKeepsBudget(s: SkillsScreen, cls: CreatureClass, skill: Skill)
    ensures Spent(Minus(s, cls, skill).attributes, cls, AllSkills) == Spent(s.attributes, cls, AllSkills) - GetPointCost(cls, skill)
  {
    AllSkillsOnce(skill);
    SpentChange(s.attributes, Minus(s, cls, skill).attributes, cls, AllSkills, skill, -1);
  }

  /** After a new-game reset nothing is spent: the budget is the points. */
  lemma {:induction false} SpentNothing(a: Attributes, cls: CreatureClass, skills: seq<Skill>)
    requires forall s :: s in skills ==> GetSkillRank(a, s) == 0
    ensures Spent(a, cls, skills) == 0
  {
    if skills != [] {
      SpentNothing(a, cls, skills[1..]);
    }
  }

  lemma NewGameBudget(character: Attributes, cls: CreatureClass, screen: Attributes)
    ensures var r := Reset(character, cls, screen, true);
            Budget(r, cls) == r.points
  {
    var r := Reset(character, cls, screen, true);
    SpentNothing(r.attributes, cls, AllSkills);
  }

  /** Ranks within their caps and non-negative points. */
  predicate WithinLimits(s: SkillsScreen, cls: CreatureClass) {
    s.points >= 0 && forall o :: 0 <= GetSkillRank(s.attributes, o) <= MaxSkillRank(cls, o)
  }

  /** Pressing only offered buttons keeps the screen within its limits. */
  lemma OfferedButtonsStayWithinLimits(s: SkillsScreen, cls: CreatureClass, skill: Skill)
    requires WithinLimits(s, cls)
    ensures CanIncreaseSkill(s, cls, skill) ==> WithinLimits(Plus(s, cls, skill), cls)
    ensures CanDecreaseSkill(s, skill) ==> WithinLimits(Minus(s, cls, skill), cls)
  {
  }
}
