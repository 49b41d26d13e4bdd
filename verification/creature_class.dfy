/** A character class as loaded from the classes 2DA: hit die, skill point
  * base, class skills, saving throws per level and base attack bonus per
  * level. */
module CreatureClass {
  import opened Wrappers

  datatype Skill = ComputerUse | Demolitions | Stealth | Awareness | Persuade | Repair | Security | TreatInjury

  datatype SavingThrows = SavingThrows(fortitude: int, reflex: int, will: int)

  datatype CreatureClass = CreatureClass(
    hitdie: int,
    skillPointBase: int,
    classSkills: set<Skill>,
    savingThrowsByLevel: map<int, SavingThrows>,
    attackBonuses: seq<int>)

  /** One row of a saving-throw 2DA. */
  datatype SavingThrowRow = SavingThrowRow(level: int, throws: SavingThrows)

  /** Builds the saving-throw table row by row. Inserting a level already
    * present keeps the earlier entry, so the first row of a level wins. */
  function LoadSavingThrows(rows: seq<SavingThrowRow>): (m: map<int, SavingThrows>)
    ensures forall l :: l in m <==> exists i :: 0 <= i < |rows| && rows[i].level == l
  {
    if rows == [] then map[]
    else
      var last := rows[|rows| - 1];
      var m := LoadSavingThrows(rows[..|rows| - 1]);
      assert forall i :: 0 <= i < |rows| - 1 ==> rows[..|rows| - 1][i] == rows[i];
      if last.level in m then m else m[last.level := last.throws]
  }

  /** The entry of a level is the one of its first row. */
  lemma {:induction false} LoadSavingThrowsFirstWins(rows: seq<SavingThrowRow>, i: nat)
    requires i < |rows|
    requires forall j :: 0 <= j < i ==> rows[j].level != rows[i].level
    ensures LoadSavingThrows(rows)[rows[i].level] == rows[i].throws
  {
    if i < |rows| - 1 {
      var init := rows[..|rows| - 1];
      assert init[i] == rows[i];
      LoadSavingThrowsFirstWins(init, i);
      assert rows[i].level in LoadSavingThrows(init);
    }
  }

  predicate IsClassSkill(c: CreatureClass, skill: Skill) {
    skill in c.classSkills
  }

  /** The saving throws of a level; a level without an entry is a logic
    * error. */
  function GetSavingThrows(c: CreatureClass, level: int): (r: Result<SavingThrows>)
    ensures r.Err? <==> level !in c.savingThrowsByLevel
    ensures r.Err? ==> r.error == LogicError
    ensures r.Ok? ==> r.value == c.savingThrowsByLevel[level]
  {
    if level !in c.savingThrowsByLevel then Err(LogicError) else Ok(c.savingThrowsByLevel[level])
  }

  /** The base attack bonus of a level, read from the 1-based table; a level
    * outside 1..size is an invalid argument. */
  function GetAttackBonus(c: CreatureClass, level: int): (r: Result<int>)
    ensures r.Err? <==> level < 1 || level > |c.attackBonuses|
    ensures r.Err? ==> r.error == InvalidArgument
    ensures r.Ok? ==> r.value == c.attackBonuses[level - 1]
  {
    if level < 1 || level > |c.attackBonuses| then Err(InvalidArgument) else Ok(c.attackBonuses[level - 1])
  }

  /** A class loaded from saving-throw rows has throws for exactly the levels
    * of its rows, those of the first row of each level. */
  lemma LoadedSavingThrows(c: CreatureClass, rows: seq<SavingThrowRow>, i: nat)
    requires c.savingThrowsByLevel == LoadSavingThrows(rows)
    requires i < |rows| && forall j :: 0 <= j < i ==> rows[j].level != rows[i].level
    ensures GetSavingThrows(c, rows[i].level) == Ok(rows[i].throws)
  {
    LoadSavingThrowsFirstWins(rows, i);
  }

  /** The attack bonuses loaded from a table of n rows answer exactly the
    * levels 1..n, level k with the k-th row. */
  lemma AttackBonusRows(c: CreatureClass, k: int)
    ensures GetAttackBonus(c, k).Ok? <==> 1 <= k <= |c.attackBonuses|
    ensures 1 <= k <= |c.attackBonuses| ==> GetAttackBonus(c, k) == Ok(c.attackBonuses[k - 1])
  {
  }
}
