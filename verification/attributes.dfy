/** The d20 attributes of a creature: its class levels in the order the
  * classes were taken, its ability scores and its skill ranks. */
module Attributes {
  import opened Wrappers
  import opened Arith
  import opened CreatureClass

  datatype ClassType = InvalidClass | Class(code: int)

  datatype Ability = Strength | Dexterity | Constitution | Intelligence | Wisdom | Charisma

  datatype ClassLevel = ClassLevel(clazz: ClassType, levels: int)

  datatype Attributes = Attributes(
    classLevels: seq<ClassLevel>,
    abilityScores: map<Ability, int>,
    skillRanks: map<Skill, int>)

  const DefaultAbilityScore: int := 8
  const DefaultSkillRank: int := 0

  // ---------------------------------------------------------------------
  // Classes

  predicate HasClass(cl: seq<ClassLevel>, clazz: ClassType) {
    exists i :: 0 <= i < |cl| && cl[i].clazz == clazz
  }

  /** Index of the first entry of a class. */
  function FirstIndex(cl: seq<ClassLevel>, clazz: ClassType): (i: nat)
    requires HasClass(cl, clazz)
    ensures i < |cl| && cl[i].clazz == clazz
    ensures forall j :: 0 <= j < i ==> cl[j].clazz != clazz
  {
    if cl[0].clazz == clazz then 0
    else
      assert HasClass(cl[1..], clazz) by {
        var k :| 0 <= k < |cl| && cl[k].clazz == clazz;
        assert cl[1..][k - 1] == cl[k];
      }
      1 + FirstIndex(cl[1..], clazz)
  }

  /** No class has two entries. */
  predicate DistinctClasses(cl: seq<ClassLevel>) {
    forall i, j :: 0 <= i < j < |cl| ==> cl[i].clazz != cl[j].clazz
  }

  /** Adds levels to the first entry of the class, or appends a new entry
    * for a class not yet taken. */
  function AddClassLevels(a: Attributes, clazz: ClassType, levels: int): (r: Attributes)
    ensures HasClass(a.classLevels, clazz) ==>
              var i := FirstIndex(a.classLevels, clazz);
              && |r.classLevels| == |a.classLevels|
              && r.classLevels[i] == ClassLevel(clazz, a.classLevels[i].levels + levels)
              && forall j :: 0 <= j < |a.classLevels| && j != i ==> r.classLevels[j] == a.classLevels[j]
    ensures !HasClass(a.classLevels, clazz) ==> r.classLevels == a.classLevels + [ClassLevel(clazz, levels)]
    ensures r.abilityScores == a.abilityScores && r.skillRanks == a.skillRanks
    ensures DistinctClasses(a.classLevels) ==> DistinctClasses(r.classLevels)
  {
    if HasClass(a.classLevels, clazz) then
      var i := FirstIndex(a.classLevels, clazz);
      a.(classLevels := a.classLevels[i := ClassLevel(clazz, a.classLevels[i].levels + levels)])
    else
      a.(classLevels := a.classLevels + [ClassLevel(clazz, levels)])
  }

  /** The class at a 1-based position, or Invalid outside 1..#classes. */
  function GetClassByPosition(a: Attributes, position: int): (r: ClassType)
    ensures 1 <= position <= |a.classLevels| ==> r == a.classLevels[position - 1].clazz
    ensures !(1 <= position <= |a.classLevels|) ==> r == InvalidClass
  {
    if position > 0 && position - 1 < |a.classLevels| then a.classLevels[position - 1].clazz else InvalidClass
  }

  /** The levels at a 1-based position, or 0 outside 1..#classes. */
  function GetLevelByPosition(a: Attributes, position: int): (r: int)
    ensures 1 <= position <= |a.classLevels| ==> r == a.classLevels[position - 1].levels
    ensures !(1 <= position <= |a.classLevels|) ==> r == 0
  {
    if position > 0 && position - 1 < |a.classLevels| then a.classLevels[position - 1].levels else 0
  }

  /** The class taken last, or Invalid for a creature without classes. */
  function GetEffectiveClass(a: Attributes): (r: ClassType)
    ensures r == GetClassByPosition(a, |a.classLevels|)
  {
    if a.classLevels == [] then InvalidClass else a.classLevels[|a.classLevels| - 1].clazz
  }

  /** The levels of the first entry of a class, or 0 for a class not taken. */
  function GetClassLevel(a: Attributes, clazz: ClassType): (r: int)
    ensures !HasClass(a.classLevels, clazz) ==> r == 0
    ensures HasClass(a.classLevels, clazz) ==> r == a.classLevels[FirstIndex(a.classLevels, clazz)].levels
  {
    if HasClass(a.classLevels, clazz) then a.classLevels[FirstIndex(a.classLevels, clazz)].levels else 0
  }

  /** With distinct classes, the level at a position is the class level of
    * the class at that position. */
  lemma PositionAgreesWithClass(a: Attributes, position: int)
    requires DistinctClasses(a.classLevels) && 1 <= position <= |a.classLevels|
    ensures GetLevelByPosition(a, position) == GetClassLevel(a, GetClassByPosition(a, position))
  {
    var c := GetClassByPosition(a, position);
    assert HasClass(a.classLevels, c);
    var i := FirstIndex(a.classLevels, c);
    assert i == position - 1;
  }

  /** Adding levels raises the class level of that class by the amount and
    * leaves the class level of every other class unchanged. */
  lemma AddThenGetClassLevel(a: Attributes, clazz: ClassType, levels: int, other: ClassType)
    ensures GetClassLevel(AddClassLevels(a, clazz, levels), clazz) == GetClassLevel(a, clazz) + levels
    ensures other != clazz ==> GetClassLevel(AddClassLevels(a, clazz, levels), other) == GetClassLevel(a, other)
  {
    AddThenGetSameClass(a, clazz, levels);
    if other != clazz {
      AddThenGetOtherClass(a, clazz, levels, other);
    }
  }

  lemma AddThenGetSameClass(a: Attributes, clazz: ClassType, levels: int)
    ensures GetClassLevel(AddClassLevels(a, clazz, levels), clazz) == GetClassLevel(a, clazz) + levels
  {
    var r := AddClassLevels(a, clazz, levels);
    var cl := a.classLevels;
    if HasClass(cl, clazz) {
      var i := FirstIndex(cl, clazz);
      assert HasClass(r.classLevels, clazz) by { assert r.classLevels[i].clazz == clazz; }
      assert FirstIndex(r.classLevels, clazz) == i;
    } else {
      assert r.classLevels[|cl|].clazz == clazz;
      assert FirstIndex(r.classLevels, clazz) == |cl|;
    }
  }

  lemma AddThenGetOtherClass(a: Attributes, clazz: ClassType, levels: int, other: ClassType)
    requires other != clazz
    ensures GetClassLevel(AddClassLevels(a, clazz, levels), other) == GetClassLevel(a, other)
  {
    var r := AddClassLevels(a, clazz, levels);
    var cl := a.classLevels;
    if HasClass(cl, other) {
      var k := FirstIndex(cl, other);
      assert r.classLevels[k] == cl[k];
      assert FirstIndex(r.classLevels, other) == k;
    } else {
      assert !HasClass(r.classLevels, other);
    }
  }

  function SumLevels(cl: seq<ClassLevel>): int {
    if cl == [] then 0 else SumLevels(cl[..|cl| - 1]) + cl[|cl| - 1].levels
  }

  /** The total of all class levels: nothing without classes, and, when no
    * entry is negative, at least the levels of any one class. */
  function GetAggregateLevel(a: Attributes): (r: int)
    ensures a.classLevels == [] ==> r == 0
    ensures (forall i :: 0 <= i < |a.classLevels| ==> a.classLevels[i].levels >= 0) ==> r >= 0
    ensures (forall i :: 0 <= i < |a.classLevels| ==> a.classLevels[i].levels >= 0) ==>
              forall i :: 0 <= i < |a.classLevels| ==> a.classLevels[i].levels <= r
  {
    SumLevelsNonNegative(a.classLevels);
    SumLevelsBoundsEntries(a.classLevels);
    SumLevels(a.classLevels)
  }

  lemma SumLevelsBoundsEntries(cl: seq<ClassLevel>)
    ensures (forall i :: 0 <= i < |cl| ==> cl[i].levels >= 0) ==> forall i :: 0 <= i < |cl| ==> cl[i].levels <= SumLevels(cl)
  {
    if forall i :: 0 <= i < |cl| ==> cl[i].levels >= 0 {
      forall i | 0 <= i < |cl|
        ensures cl[i].levels <= SumLevels(cl)
      {
        SumLevelsAtLeast(cl, i);
      }
    }
  }

  lemma {:induction false} SumLevelsNonNegative(cl: seq<ClassLevel>)
    ensures (forall i :: 0 <= i < |cl| ==> cl[i].levels >= 0) ==> SumLevels(cl) >= 0
  {
    if cl != [] {
      SumLevelsNonNegative(cl[..|cl| - 1]);
    }
  }

  /** With no negative entry, every entry is at most the sum. */
  lemma {:induction false} SumLevelsAtLeast(cl: seq<ClassLevel>, i: nat)
    requires i < |cl| && forall j :: 0 <= j < |cl| ==> cl[j].levels >= 0
    ensures cl[i].levels <= SumLevels(cl)
  {
    var n := |cl| - 1;
    SumLevelsNonNegative(cl[..n]);
    if i < n {
      SumLevelsAtLeast(cl[..n], i);
    }
  }

  /** Replacing one entry's levels changes the sum by the difference. */
  lemma {:induction false} SumLevelsUpdate(cl: seq<ClassLevel>, i: nat, e: ClassLevel)
    requires i < |cl|
    ensures SumLevels(cl[i := e]) == SumLevels(cl) - cl[i].levels + e.levels
  {
    var n := |cl| - 1;
    if i < n {
      assert cl[i := e][..n] == cl[..n][i := e];
      SumLevelsUpdate(cl[..n], i, e);
    } else {
      assert cl[i := e][..n] == cl[..n];
    }
  }

  /** Adding levels to any class adds them to the aggregate level. */
  lemma AddClassLevelsAggregate(a: Attributes, clazz: ClassType, levels: int)
    ensures GetAggregateLevel(AddClassLevels(a, clazz, levels)) == GetAggregateLevel(a) + levels
  {
    var cl := a.classLevels;
    if HasClass(cl, clazz) {
      var i := FirstIndex(cl, clazz);
      SumLevelsUpdate(cl, i, ClassLevel(clazz, cl[i].levels + levels));
    } else {
      assert (cl + [ClassLevel(clazz, levels)])[..|cl|] == cl;
    }
  }

  /** One call of addClassLevels. */
  datatype LevelUp = LevelUp(clazz: ClassType, levels: int)

  /** The attributes after the level-ups, applied in order. */
  function AddAll(a: Attributes, steps: seq<LevelUp>): (r: Attributes)
    ensures r.abilityScores == a.abilityScores && r.skillRanks == a.skillRanks
    decreases |steps|
  {
    if steps == [] then a else AddAll(AddClassLevels(a, steps[0].clazz, steps[0].levels), steps[1..])
  }

  function StepLevels(steps: seq<LevelUp>): int {
    if steps == [] then 0 else steps[0].levels + StepLevels(steps[1..])
  }

  /** Whatever classes the level-ups name and in whatever order, the
    * aggregate level grows by the total of the levels they add; a creature
    * built from no classes has exactly that total. */
  lemma {:induction false} AggregateLevelOfAdds(a: Attributes, steps: seq<LevelUp>)
    ensures GetAggregateLevel(AddAll(a, steps)) == GetAggregateLevel(a) + StepLevels(steps)
    ensures a.classLevels == [] ==> GetAggregateLevel(AddAll(a, steps)) == StepLevels(steps)
    decreases |steps|
  {
    if steps != [] {
      AddClassLevelsAggregate(a, steps[0].clazz, steps[0].levels);
      AggregateLevelOfAdds(AddClassLevels(a, steps[0].clazz, steps[0].levels), steps[1..]);
    }
  }

  function SumHitDie(cl: seq<ClassLevel>, classes: map<ClassType, CreatureClass>): int
    requires forall i :: 0 <= i < |cl| ==> cl[i].clazz in classes
  {
    if cl == [] then 0
    else SumHitDie(cl[..|cl| - 1], classes) + cl[|cl| - 1].levels * classes[cl[|cl| - 1].clazz].hitdie
  }

  /** Every class taken is one the class registry knows. */
  predicate KnownClasses(a: Attributes, classes: map<ClassType, CreatureClass>) {
    forall i :: 0 <= i < |a.classLevels| ==> a.classLevels[i].clazz in classes
  }

  /** The hit dice of all classes, each class's hit die times its levels:
    * nothing without classes, and non-negative when no level or hit die is
    * negative. */
  function GetAggregateHitDie(a: Attributes, classes: map<ClassType, CreatureClass>): (r: int)
    requires KnownClasses(a, classes)
    ensures a.classLevels == [] ==> r == 0
    ensures (forall i :: 0 <= i < |a.classLevels| ==>
               a.classLevels[i].levels >= 0 && classes[a.classLevels[i].clazz].hitdie >= 0) ==> r >= 0
  {
    HitDieNonNegative(a.classLevels, classes);
    SumHitDie(a.classLevels, classes)
  }

  lemma {:induction false} HitDieNonNegative(cl: seq<ClassLevel>, classes: map<ClassType, CreatureClass>)
    requires forall i :: 0 <= i < |cl| ==> cl[i].clazz in classes
    ensures (forall i :: 0 <= i < |cl| ==> cl[i].levels >= 0 && classes[cl[i].clazz].hitdie >= 0) ==> SumHitDie(cl, classes) >= 0
  {
    if cl != [] {
      HitDieNonNegative(cl[..|cl| - 1], classes);
    }
  }

  /** Replacing one entry of a known class changes the hit-die sum by that
    * entry's change. */
  lemma {:induction false} SumHitDieUpdate(cl: seq<ClassLevel>, classes: map<ClassType, CreatureClass>, i: nat, e: ClassLevel)
    requires forall j :: 0 <= j < |cl| ==> cl[j].clazz in classes
    requires i < |cl| && e.clazz == cl[i].clazz
    ensures var cl' := cl[i := e]; forall j :: 0 <= j < |cl'| ==> cl'[j].clazz in classes
    ensures SumHitDie(cl[i := e], classes)
            == SumHitDie(cl, classes) + (e.levels - cl[i].levels) * classes[e.clazz].hitdie
  {
    var n := |cl| - 1;
    var h := classes[e.clazz].hitdie;
    if i < n {
      assert cl[i := e][..n] == cl[..n][i := e];
      SumHitDieUpdate(cl[..n], classes, i, e);
    } else {
      assert cl[i := e][..n] == cl[..n];
      assert e.levels * h == cl[i].levels * h + (e.levels - cl[i].levels) * h;
    }
  }

  /** Adding levels of a known class adds that many of its hit dice. */
  lemma AddClassLevelsHitDie(a: Attributes, classes: map<ClassType, CreatureClass>, clazz: ClassType, levels: int)
    requires KnownClasses(a, classes) && clazz in classes
    ensures KnownClasses(AddClassLevels(a, clazz, levels), classes)
    ensures GetAggregateHitDie(AddClassLevels(a, clazz, levels), classes)
            == GetAggregateHitDie(a, classes) + levels * classes[clazz].hitdie
  {
    var cl := a.classLevels;
    if HasClass(cl, clazz) {
      var i := FirstIndex(cl, clazz);
      SumHitDieUpdate(cl, classes, i, ClassLevel(clazz, cl[i].levels + levels));
    } else {
      assert (cl + [ClassLevel(clazz, levels)])[..|cl|] == cl;
    }
  }

  function AddThrows(x: SavingThrows, y: SavingThrows): SavingThrows {
    SavingThrows(x.fortitude + y.fortitude, x.reflex + y.reflex, x.will + y.will)
  }

  /** Every class has saving throws for its level. */
  predicate ThrowsKnown(cl: seq<ClassLevel>, classes: map<ClassType, CreatureClass>) {
    forall i :: 0 <= i < |cl| ==> cl[i].clazz in classes && GetSavingThrows(classes[cl[i].clazz], cl[i].levels).Ok?
  }

  /** The throws of all classes added up, the last class last. */
  function TotalThrows(cl: seq<ClassLevel>, classes: map<ClassType, CreatureClass>): SavingThrows
    requires ThrowsKnown(cl, classes)
  {
    if cl == [] then SavingThrows(0, 0, 0)
    else
      var e := cl[|cl| - 1];
      AddThrows(TotalThrows(cl[..|cl| - 1], classes), classes[e.clazz].savingThrowsByLevel[e.levels])
  }

  /** The total can be taken first class first. */
  lemma {:induction false} TotalThrowsCons(cl: seq<ClassLevel>, classes: map<ClassType, CreatureClass>)
    requires cl != [] && ThrowsKnown(cl, classes)
    ensures ThrowsKnown(cl[1..], classes)
    ensures TotalThrows(cl, classes)
            == AddThrows(classes[cl[0].clazz].savingThrowsByLevel[cl[0].levels], TotalThrows(cl[1..], classes))
    decreases |cl|
  {
    assert forall i :: 0 <= i < |cl[1..]| ==> cl[1..][i] == cl[i + 1];
    if |cl| > 1 {
      var n := |cl| - 1;
      assert cl[..n][1..] == cl[1..][..n - 1];
      TotalThrowsCons(cl[..n], classes);
    }
  }

  /** Saving throws start at 1 each and add each class's throws for its
    * level; a class without throws for its level is a logic error. */
  function GetAggregateSavingThrows(a: Attributes, classes: map<ClassType, CreatureClass>): (r: Result<SavingThrows>)
    requires KnownClasses(a, classes)
    ensures r.Err? <==> exists i :: 0 <= i < |a.classLevels| &&
                          GetSavingThrows(classes[a.classLevels[i].clazz], a.classLevels[i].levels).Err?
    ensures r.Err? ==> r.error == LogicError
    ensures r.Ok? ==> ThrowsKnown(a.classLevels, classes)
                      && r.value == AddThrows(SavingThrows(1, 1, 1), TotalThrows(a.classLevels, classes))
    ensures a.classLevels == [] ==> r == Ok(SavingThrows(1, 1, 1))
  {
    SumThrows(a.classLevels, classes, SavingThrows(1, 1, 1))
  }

  function SumThrows(cl: seq<ClassLevel>, classes: map<ClassType, CreatureClass>, acc: SavingThrows): (r: Result<SavingThrows>)
    requires forall i :: 0 <= i < |cl| ==> cl[i].clazz in classes
    ensures r.Err? <==> exists i :: 0 <= i < |cl| && GetSavingThrows(classes[cl[i].clazz], cl[i].levels).Err?
    ensures r.Err? ==> r.error == LogicError
    ensures r.Ok? ==> ThrowsKnown(cl, classes) && r.value == AddThrows(acc, TotalThrows(cl, classes))
    ensures cl == [] ==> r == Ok(acc)
  {
    if cl == [] then Ok(acc)
    else
      var t := GetSavingThrows(classes[cl[0].clazz], cl[0].levels);
      assert forall i :: 1 <= i < |cl| ==> cl[i] == cl[1..][i - 1];
      if t.Err? then Err(LogicError)
      else
        var r := SumThrows(cl[1..], classes, AddThrows(acc, t.value));
        assert r.Err? ==> exists i :: 0 <= i < |cl| && GetSavingThrows(classes[cl[i].clazz], cl[i].levels).Err? by {
          if r.Err? {
            var j :| 0 <= j < |cl[1..]| && GetSavingThrows(classes[cl[1..][j].clazz], cl[1..][j].levels).Err?;
            assert cl[j + 1] == cl[1..][j];
          }
        }
        if r.Ok? then
          assert ThrowsKnown(cl, classes);
          TotalThrowsCons(cl, classes);
          r
        else r
  }

  /** Taking a new class adds its throws for its level to the aggregate. */
  lemma AddNewClassSavingThrows(a: Attributes, classes: map<ClassType, CreatureClass>, clazz: ClassType, levels: int)
    requires KnownClasses(a, classes) && clazz in classes && !HasClass(a.classLevels, clazz)
    requires GetAggregateSavingThrows(a, classes).Ok? && GetSavingThrows(classes[clazz], levels).Ok?
    ensures KnownClasses(AddClassLevels(a, clazz, levels), classes)
    ensures GetAggregateSavingThrows(AddClassLevels(a, clazz, levels), classes)
            == Ok(AddThrows(GetAggregateSavingThrows(a, classes).value, GetSavingThrows(classes[clazz], levels).value))
  {
    var cl := a.classLevels;
    var cl' := cl + [ClassLevel(clazz, levels)];
    assert cl'[..|cl|] == cl;
    assert ThrowsKnown(cl', classes);
  }

  /** The attack bonus a class contributes at its level. */
  predicate BonusKnown(cl: seq<ClassLevel>, classes: map<ClassType, CreatureClass>) {
    forall i :: 0 <= i < |cl| ==> cl[i].clazz in classes && 1 <= cl[i].levels <= |classes[cl[i].clazz].attackBonuses|
  }

  /** The attack bonuses of all classes added up, the last class last. */
  function TotalAttackBonus(cl: seq<ClassLevel>, classes: map<ClassType, CreatureClass>): int
    requires BonusKnown(cl, classes)
  {
    if cl == [] then 0
    else
      var e := cl[|cl| - 1];
      TotalAttackBonus(cl[..|cl| - 1], classes) + classes[e.clazz].attackBonuses[e.levels - 1]
  }

  /** The total can be taken first class first. */
  lemma {:induction false} TotalAttackBonusCons(cl: seq<ClassLevel>, classes: map<ClassType, CreatureClass>)
    requires cl != [] && BonusKnown(cl, classes)
    ensures BonusKnown(cl[1..], classes)
    ensures TotalAttackBonus(cl, classes)
            == classes[cl[0].clazz].attackBonuses[cl[0].levels - 1] + TotalAttackBonus(cl[1..], classes)
    decreases |cl|
  {
    assert forall i :: 0 <= i < |cl[1..]| ==> cl[1..][i] == cl[i + 1];
    if |cl| > 1 {
      var n := |cl| - 1;
      assert cl[..n][1..] == cl[1..][..n - 1];
      TotalAttackBonusCons(cl[..n], classes);
    }
  }

  function SumAttackBonus(cl: seq<ClassLevel>, classes: map<ClassType, CreatureClass>): (r: Result<int>)
    requires forall i :: 0 <= i < |cl| ==> cl[i].clazz in classes
    ensures r.Err? <==> exists i :: 0 <= i < |cl| && GetAttackBonus(classes[cl[i].clazz], cl[i].levels).Err?
    ensures r.Err? ==> r.error == InvalidArgument
    ensures r.Ok? ==> BonusKnown(cl, classes) && r.value == TotalAttackBonus(cl, classes)
    ensures cl == [] ==> r == Ok(0)
  {
    if cl == [] then Ok(0)
    else
      var b := GetAttackBonus(classes[cl[0].clazz], cl[0].levels);
      assert forall i :: 1 <= i < |cl| ==> cl[i] == cl[1..][i - 1];
      if b.Err? then Err(InvalidArgument)
      else
        var rest := SumAttackBonus(cl[1..], classes);
        assert rest.Err? ==> exists i :: 0 <= i < |cl| && GetAttackBonus(classes[cl[i].clazz], cl[i].levels).Err? by {
          if rest.Err? {
            var j :| 0 <= j < |cl[1..]| && GetAttackBonus(classes[cl[1..][j].clazz], cl[1..][j].levels).Err?;
            assert cl[j + 1] == cl[1..][j];
          }
        }
        if rest.Err? then rest
        else
          assert BonusKnown(cl, classes);
          TotalAttackBonusCons(cl, classes);
          Ok(b.value + rest.value)
  }

  /** The base attack bonus of all classes, each read from its class's table
    * at its level; a class level outside its table is an invalid argument. */
  function GetAggregateAttackBonus(a: Attributes, classes: map<ClassType, CreatureClass>): (r: Result<int>)
    requires KnownClasses(a, classes)
    ensures r.Err? <==> exists i :: 0 <= i < |a.classLevels| &&
                          !(1 <= a.classLevels[i].levels <= |classes[a.classLevels[i].clazz].attackBonuses|)
    ensures r.Err? ==> r.error == InvalidArgument
    ensures r.Ok? ==> BonusKnown(a.classLevels, classes) && r.value == TotalAttackBonus(a.classLevels, classes)
  {
    SumAttackBonus(a.classLevels, classes)
  }

  /** A single class at level 1 has the first entry of its table as its
    * aggregate attack bonus. */
  lemma SingleClassAttackBonus(a: Attributes, classes: map<ClassType, CreatureClass>)
    requires |a.classLevels| == 1 && a.classLevels[0].levels == 1 && a.classLevels[0].clazz in classes
    requires |classes[a.classLevels[0].clazz].attackBonuses| >= 1
    ensures GetAggregateAttackBonus(a, classes) == Ok(classes[a.classLevels[0].clazz].attackBonuses[0])
  {
    assert a.classLevels[1..] == [];
  }

  /** Taking a new class adds its table's bonus at its level to the
    * aggregate. */
  lemma AddNewClassAttackBonus(a: Attributes, classes: map<ClassType, CreatureClass>, clazz: ClassType, levels: int)
    requires KnownClasses(a, classes) && clazz in classes && !HasClass(a.classLevels, clazz)
    requires GetAggregateAttackBonus(a, classes).Ok? && 1 <= levels <= |classes[clazz].attackBonuses|
    ensures KnownClasses(AddClassLevels(a, clazz, levels), classes)
    ensures GetAggregateAttackBonus(AddClassLevels(a, clazz, levels), classes)
            == Ok(GetAggregateAttackBonus(a, classes).value + classes[clazz].attackBonuses[levels - 1])
  {
    var cl := a.classLevels;
    var cl' := cl + [ClassLevel(clazz, levels)];
    assert cl'[..|cl|] == cl;
    assert BonusKnown(cl', classes);
  }

  // ---------------------------------------------------------------------
  // Abilities

  /** A score never set reads as 8. */
  function GetAbilityScore(a: Attributes, ability: Ability): (r: int)
    ensures ability !in a.abilityScores ==> r == DefaultAbilityScore
    ensures ability in a.abilityScores ==> r == a.abilityScores[ability]
  {
    if ability in a.abilityScores then a.abilityScores[ability] else DefaultAbilityScore
  }

  /** (score - 10) / 2, rounded toward zero. */
  function GetAbilityModifier(a: Attributes, ability: Ability): (r: int)
    ensures var d := GetAbilityScore(a, ability) - 10;
            (d >= 0 ==> 0 <= d - 2 * r <= 1) && (d < 0 ==> -1 <= d - 2 * r <= 0)
  {
    TruncDiv(GetAbilityScore(a, ability) - 10, 2)
  }

  function SetAbilityScore(a: Attributes, ability: Ability, score: int): (r: Attributes)
    ensures r.classLevels == a.classLevels && r.skillRanks == a.skillRanks
    ensures r.abilityScores.Keys == a.abilityScores.Keys + {ability}
  {
    a.(abilityScores := a.abilityScores[ability := score])
  }

  /** Setting a score reads back; every other ability keeps its score. */
  lemma SetThenGetAbility(a: Attributes, ability: Ability, score: int, other: Ability)
    ensures GetAbilityScore(SetAbilityScore(a, ability, score), ability) == score
    ensures other != ability ==> GetAbilityScore(SetAbilityScore(a, ability, score), other) == GetAbilityScore(a, other)
  {
  }

  /** An unset ability has modifier -1, and scores just below 10 round toward
    * zero: 9 gives 0 and 7 gives -1. */
  lemma ModifierExamples(a: Attributes)
    requires a.abilityScores == map[]
    ensures GetAbilityModifier(a, Strength) == -1
    ensures GetAbilityModifier(SetAbilityScore(a, Strength, 9), Strength) == 0
    ensures GetAbilityModifier(SetAbilityScore(a, Strength, 7), Strength) == -1
    ensures GetAbilityModifier(SetAbilityScore(a, Strength, 14), Strength) == 2
  {
  }

  /** The modifier never decreases as the score grows. */
  lemma ModifierMonotone(a: Attributes, ability: Ability, s: int, t: int)
    requires s <= t
    ensures GetAbilityModifier(SetAbilityScore(a, ability, s), ability) <= GetAbilityModifier(SetAbilityScore(a, ability, t), ability)
  {
  }

  /** Defence is 10 plus the dexterity modifier of the creature's ability
    * record, which is kept apart from the score map above: `recordModifier`
    * is that record's modifier function. */
  function GetDefense(a: Attributes, recordModifier: Ability -> int): (r: int)
    ensures r - 10 == recordModifier(Dexterity)
  {
    10 + recordModifier(Dexterity)
  }

  /** Setting a score in the score map does not move defence. */
  lemma DefenseIgnoresScoreMap(a: Attributes, recordModifier: Ability -> int, score: int)
    ensures GetDefense(SetAbilityScore(a, Dexterity, score), recordModifier) == GetDefense(a, recordModifier)
  {
  }

  // ---------------------------------------------------------------------
  // Skills

  /** A rank never set reads as 0. */
  function GetSkillRank(a: Attributes, skill: Skill): (r: int)
    ensures skill !in a.skillRanks ==> r == DefaultSkillRank
    ensures skill in a.skillRanks ==> r == a.skillRanks[skill]
  {
    if skill in a.skillRanks then a.skillRanks[skill] else DefaultSkillRank
  }

  predicate HasSkill(a: Attributes, skill: Skill) {
    GetSkillRank(a, skill) > 0
  }

  function SetSkillRank(a: Attributes, skill: Skill, rank: int): (r: Attributes)
    ensures r.classLevels == a.classLevels && r.abilityScores == a.abilityScores
    ensures r.skillRanks.Keys == a.skillRanks.Keys + {skill}
  {
    a.(skillRanks := a.skillRanks[skill := rank])
  }

  /** Setting a rank reads back, decides `HasSkill` by its sign, and leaves
    * every other skill unchanged. */
  lemma SetThenGetSkill(a: Attributes, skill: Skill, rank: int, other: Skill)
    ensures GetSkillRank(SetSkillRank(a, skill, rank), skill) == rank
    ensures HasSkill(SetSkillRank(a, skill, rank), skill) <==> rank > 0
    ensures other != skill ==> GetSkillRank(SetSkillRank(a, skill, rank), other) == GetSkillRank(a, other)
  {
  }

  /** A creature with no ranks has no skill. */
  lemma NoRanksNoSkill(a: Attributes, skill: Skill)
    requires a.skillRanks == map[]
    ensures !HasSkill(a, skill)
  {
  }
}
