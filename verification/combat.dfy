/** Combat rounds. An attacker owns at most one round; a round holds the
  * attacker's attack and, in a duel, the target's answering attack. Each
  * update advances every round through its states and drops the finished
  * ones. Random rolls are inputs. */
module Combat {
  import opened Wrappers
  import opened Arith

  const RoundDuration: real := 3.0
  const ProjectileDelay: real := 0.5
  const DeactivateDelay: real := 8.0

  datatype AttackResultType =
    | InvalidResult | Miss | AttackResisted | AttackFailed | Parried | Deflected
    | HitSuccessful | CriticalHit | AutomaticHit

  datatype WieldType =
    | NoWield | SingleSword | DoubleBladedSword | DualSwords
    | BlasterPistol | DualPistols | BlasterRifle | HeavyWeapon
    | OtherWield(code: int)

  /** An attack: who attacks whom, the result if already decided, and a
    * fixed damage, or -1 for the attacker's weapon damage. */
  datatype Attack = Attack(attacker: nat, target: nat, resultType: AttackResultType, damage: int)

  datatype RoundState = Started | FirstAttack | SecondAttack | Finished

  datatype Round = Round(attack1: Attack, attack2: Option<Attack>, duel: bool, time: real, state: RoundState)

  /** Rounds by attacker id. */
  type Rounds = map<nat, Round>

  // ---------------------------------------------------------------------
  // Attack resolution

  /** The target as attack resolution sees it: a creature has a defence,
    * any other object defends with 10. */
  datatype Defender = CreatureDefender(defense: int) | ObjectDefender

  function Defense(d: Defender): (r: int)
    ensures d.ObjectDefender? ==> r == 10
  {
    match d
    case CreatureDefender(defense) => defense
    case ObjectDefender => 10
  }

  /** A d20 roll of 20 always hits; otherwise roll plus attack bonus
    * against defence decides between a hit and a miss. */
  function DetermineAttackResult(roll: int, attackBonus: int, target: Defender): (r: AttackResultType)
    requires 1 <= roll <= 20
    ensures r == AutomaticHit <==> roll == 20
    ensures r == HitSuccessful <==> roll < 20 && roll + attackBonus >= Defense(target)
    ensures r == Miss <==> roll < 20 && roll + attackBonus < Defense(target)
  {
    if roll == 20 then AutomaticHit
    else if roll + attackBonus >= Defense(target) then HitSuccessful
    else Miss
  }

  predicate IsAttackSuccessful(r: AttackResultType) {
    r == HitSuccessful || r == CriticalHit || r == AutomaticHit
  }

  predicate IsMeleeWieldType(w: WieldType) {
    w == SingleSword || w == DoubleBladedSword || w == DualSwords
  }

  predicate IsRangedWieldType(w: WieldType) {
    w == BlasterPistol || w == DualPistols || w == BlasterRifle || w == HeavyWeapon
  }

  /** A fresh roll succeeds exactly when it is a hit; it is never a
    * critical hit. */
  lemma RollSuccess(roll: int, attackBonus: int, target: Defender)
    requires 1 <= roll <= 20
    ensures IsAttackSuccessful(DetermineAttackResult(roll, attackBonus, target)) <==>
              roll == 20 || roll + attackBonus >= Defense(target)
    ensures DetermineAttackResult(roll, attackBonus, target) != CriticalHit
  {
  }

  /** No wield type is both melee and ranged, and having no weapon is
    * neither. */
  lemma WieldTypesDisjoint(w: WieldType)
    ensures !(IsMeleeWieldType(w) && IsRangedWieldType(w))
    ensures !IsMeleeWieldType(NoWield) && !IsRangedWieldType(NoWield)
  {
  }

  datatype CombatAnimation =
    | NoAnimation | CinematicMeleeAttack | CinematicMeleeDamage | CinematicMeleeParry
    | MeleeAttack | MeleeDamage | MeleeDodge | BlasterAttack | AttackAnimation | Damage | Dodge

  datatype AttackAnimationChoice = AttackAnimationChoice(attackerAnimation: CombatAnimation, targetAnimation: CombatAnimation)

  /** Chooses animations from the wield types: in a duel the target reacts
    * with damage on success and parry or dodge otherwise; outside a duel
    * only the attacker animates. A target that is not a creature wields
    * nothing. */
  function DetermineAttackAnimation(attackerWield: WieldType, targetWield: WieldType, result: AttackResultType, duel: bool)
    : (r: AttackAnimationChoice)
    ensures !duel ==> r.targetAnimation == NoAnimation
    ensures !duel ==> (r.attackerAnimation == BlasterAttack <==> IsRangedWieldType(attackerWield))
    ensures duel ==> (r.targetAnimation in {CinematicMeleeDamage, MeleeDamage, Damage} <==> IsAttackSuccessful(result))
    ensures duel && IsMeleeWieldType(attackerWield) && IsMeleeWieldType(targetWield) ==> r.attackerAnimation == CinematicMeleeAttack
  {
    var success := IsAttackSuccessful(result);
    if duel then
      if IsMeleeWieldType(attackerWield) && IsMeleeWieldType(targetWield) then
        AttackAnimationChoice(CinematicMeleeAttack, if success then CinematicMeleeDamage else CinematicMeleeParry)
      else if IsMeleeWieldType(attackerWield) then
        AttackAnimationChoice(MeleeAttack, if success then MeleeDamage else MeleeDodge)
      else if IsRangedWieldType(attackerWield) then
        AttackAnimationChoice(BlasterAttack, if success then Damage else Dodge)
      else
        AttackAnimationChoice(AttackAnimation, if success then Damage else Dodge)
    else
      if IsRangedWieldType(attackerWield) then AttackAnimationChoice(BlasterAttack, NoAnimation)
      else AttackAnimationChoice(AttackAnimation, NoAnimation)
  }

  /** What applying an attack does to its target. */
  datatype AppliedEffect = NoEffect | WeaponDamage | UniversalDamage(amount: int)

  /** A miss of any kind does nothing; a hit applies the fixed damage, or
    * the attacker's weapon damage when the damage is -1; an undecided
    * result is a logic error. */
  function ApplyAttackResult(a: Attack): (r: Result<AppliedEffect>)
    ensures r.Err? <==> a.resultType == InvalidResult
    ensures r.Err? ==> r.error == LogicError
    ensures r.Ok? ==> (r.value == NoEffect <==> !IsAttackSuccessful(a.resultType))
    ensures r.Ok? && IsAttackSuccessful(a.resultType) && a.damage != -1 ==> r.value == UniversalDamage(a.damage)
    ensures r.Ok? && IsAttackSuccessful(a.resultType) && a.damage == -1 ==> r.value == WeaponDamage
  {
    match a.resultType
    case InvalidResult => Err(LogicError)
    case Miss => Ok(NoEffect)
    case AttackResisted => Ok(NoEffect)
    case AttackFailed => Ok(NoEffect)
    case Parried => Ok(NoEffect)
    case Deflected => Ok(NoEffect)
    case _ => if a.damage == -1 then Ok(WeaponDamage) else Ok(UniversalDamage(a.damage))
  }

  // ---------------------------------------------------------------------
  // Rounds

  predicate IsRoundPastFirstAttack(time: real) {
    time >= 0.5 * RoundDuration
  }

  /** Adds an attack. An attacker that owns a round is ignored. An attacker
    * answering the attacker of an open round joins it as the second attack
    * of a duel, if the round has no second attack and is not past its
    * first half; otherwise it is ignored. Anyone else starts a round. */
  function AddAttack(m: Rounds, attacker: nat, target: nat, resultType: AttackResultType, damage: int): (r: Rounds)
    ensures attacker in m ==> r == m
    ensures attacker !in m && target in m && m[target].attack1.target == attacker ==>
              r.Keys == m.Keys
              && (forall k :: k in m && k != target ==> r[k] == m[k])
              && (if m[target].attack2.None? && !IsRoundPastFirstAttack(m[target].time)
                  then r[target] == m[target].(attack2 := Some(Attack(attacker, target, resultType, damage)), duel := true)
                  else r[target] == m[target])
    ensures attacker !in m && !(target in m && m[target].attack1.target == attacker) ==>
              r == m[attacker := Round(Attack(attacker, target, resultType, damage), None, false, 0.0, Started)]
  {
    if attacker in m then m
    else if target in m && m[target].attack1.target == attacker then
      var round := m[target];
      if round.attack2.None? && !IsRoundPastFirstAttack(round.time) then
        m[target := round.(attack2 := Some(Attack(attacker, target, resultType, damage)), duel := true)]
      else m
    else
      m[attacker := Round(Attack(attacker, target, resultType, damage), None, false, 0.0, Started)]
  }

  /** Something a round update does to the world. */
  datatype CombatEffect =
    | StartAttack(attack: Attack, duel: bool)
    | ApplyAttack(attack: Attack)
    | ProjectileStep(attack: Attack)
    | FinishRound(attacker: nat)

  datatype RoundUpdate = RoundUpdate(round: Round, effects: seq<CombatEffect>)

  /** Starting an attack decides a result still undecided. */
  function Decide(a: Attack, determine: Attack -> AttackResultType): (r: Attack)
    ensures r.attacker == a.attacker && r.target == a.target && r.damage == a.damage
    ensures a.resultType != InvalidResult ==> r == a
  {
    if a.resultType == InvalidResult then a.(resultType := determine(a)) else a
  }

  function NextState(s: RoundState): RoundState {
    match s
    case Started => FirstAttack
    case FirstAttack => SecondAttack
    case SecondAttack => Finished
    case Finished => Finished
  }

  /** Advances a round by `dt`: the clock stops at the round duration; a
    * started round starts its first attack; the first attack lands at half
    * time, when the second attack starts; the round finishes when the
    * clock reaches the duration, after the second attack lands. In between
    * the only effect is a step of the attack's projectile. */
  function UpdateRound(round: Round, dt: real, determine: Attack -> AttackResultType): (r: RoundUpdate)
    ensures r.round.time == MinReal(round.time + dt, RoundDuration)
    ensures r.round.time <= RoundDuration
    ensures r.round.state == round.state || r.round.state == NextState(round.state)
    ensures round.state == Started ==> r.round.state == FirstAttack
    ensures round.state == FirstAttack ==> (r.round.state == SecondAttack <==> IsRoundPastFirstAttack(r.round.time))
    ensures round.state == SecondAttack ==> (r.round.state == Finished <==> r.round.time == RoundDuration)
    ensures r.round.duel == round.duel && r.round.attack2.Some? == round.attack2.Some?
    ensures r.round.attack1.attacker == round.attack1.attacker && r.round.attack1.target == round.attack1.target
    ensures round.attack2.Some? ==> r.round.attack2.value.attacker == round.attack2.value.attacker
                                    && r.round.attack2.value.target == round.attack2.value.target
    ensures round.state == Started ==>
              r.round.attack1 == Decide(round.attack1, determine)
              && r.effects == [StartAttack(r.round.attack1, round.duel)]
    ensures round.state == FirstAttack && r.round.state == SecondAttack ==>
              r.effects == [ApplyAttack(round.attack1)]
                           + (if round.attack2.Some? then [StartAttack(r.round.attack2.value, round.duel)] else [])
    ensures round.state == FirstAttack && r.round.state == SecondAttack && round.attack2.Some? ==>
              r.round.attack2.value == Decide(round.attack2.value, determine)
    ensures round.state == SecondAttack && r.round.state == Finished ==>
              r.effects == (if round.attack2.Some? then [ApplyAttack(round.attack2.value)] else [])
                           + [FinishRound(round.attack1.attacker)]
    ensures r.round.state == round.state ==>
              |r.effects| <= 1 && forall e :: e in r.effects ==> e.ProjectileStep?
    ensures r.round.state == round.state ==> r.round.attack1 == round.attack1 && r.round.attack2 == round.attack2
  {
    var time := MinReal(round.time + dt, RoundDuration);
    var rd := round.(time := time);
    match round.state
    case Started =>
      var a1 := Decide(round.attack1, determine);
      RoundUpdate(rd.(attack1 := a1, state := FirstAttack), [StartAttack(a1, round.duel)])
    case FirstAttack =>
      if IsRoundPastFirstAttack(time) then
        var a2 := if round.attack2.Some? then Some(Decide(round.attack2.value, determine)) else None;
        var starts := if a2.Some? then [StartAttack(a2.value, round.duel)] else [];
        RoundUpdate(rd.(attack2 := a2, state := SecondAttack), [ApplyAttack(round.attack1)] + starts)
      else if time >= ProjectileDelay then
        RoundUpdate(rd, [ProjectileStep(round.attack1)])
      else RoundUpdate(rd, [])
    case SecondAttack =>
      if time == RoundDuration then
        var applies := if round.attack2.Some? then [ApplyAttack(round.attack2.value)] else [];
        RoundUpdate(rd.(state := Finished), applies + [FinishRound(round.attack1.attacker)])
      else if round.attack2.Some? && time >= 0.5 * RoundDuration + ProjectileDelay then
        RoundUpdate(rd, [ProjectileStep(round.attack2.value)])
      else RoundUpdate(rd, [])
    case Finished => RoundUpdate(rd, [])
  }

  /** Updates every round and drops those that finished. */
  function Update(m: Rounds, dt: real, determine: Attack -> AttackResultType): (r: Rounds)
    ensures forall k :: k in r <==> k in m && UpdateRound(m[k], dt, determine).round.state != Finished
    ensures forall k :: k in r ==> r[k] == UpdateRound(m[k], dt, determine).round
  {
    map k | k in m && UpdateRound(m[k], dt, determine).round.state != Finished :: UpdateRound(m[k], dt, determine).round
  }

  /** The rounds' invariant: each round is keyed by its first attacker, a
    * second attack exists exactly in a duel and answers the first, and
    * no round's clock is past the duration. */
  predicate WellFormed(m: Rounds) {
    forall k :: k in m ==>
      && m[k].attack1.attacker == k
      && (m[k].attack2.Some? <==> m[k].duel)
      && (m[k].attack2.Some? ==> m[k].attack2.value.attacker == m[k].attack1.target
                                 && m[k].attack2.value.target == k)
      && 0.0 <= m[k].time <= RoundDuration
  }

  lemma AddAttackWellFormed(m: Rounds, attacker: nat, target: nat, resultType: AttackResultType, damage: int)
    requires WellFormed(m)
    ensures WellFormed(AddAttack(m, attacker, target, resultType, damage))
  {
  }

  lemma UpdateWellFormed(m: Rounds, dt: real, determine: Attack -> AttackResultType)
    requires WellFormed(m) && dt >= 0.0
    ensures WellFormed(Update(m, dt, determine))
  {
  }

  /** Updates of at least a full round each finish any round within three
    * updates: started, then past half time, then at the duration. */
  lemma RoundFinishesInThreeUpdates(round: Round, dt1: real, dt2: real, dt3: real, determine: Attack -> AttackResultType)
    requires 0.0 <= round.time && dt1 >= RoundDuration && dt2 >= RoundDuration && dt3 >= RoundDuration
    ensures var r1 := UpdateRound(round, dt1, determine).round;
            var r2 := UpdateRound(r1, dt2, determine).round;
            var r3 := UpdateRound(r2, dt3, determine).round;
            r3.state == Finished
  {
  }

  /** Over three updates of at least a full round each, a started round
    * starts its first attack, applies it, starts and applies the second
    * attack when there is one, and finishes last: each attack is applied
    * exactly once, decided, and before the round finishes. */
  lemma RoundEffectsInOrder(round: Round, dt1: real, dt2: real, dt3: real,
                            determine: Attack -> AttackResultType)
    requires round.state == Started && 0.0 <= round.time
    requires dt1 >= RoundDuration && dt2 >= RoundDuration && dt3 >= RoundDuration
    ensures var u1 := UpdateRound(round, dt1, determine);
            var u2 := UpdateRound(u1.round, dt2, determine);
            var u3 := UpdateRound(u2.round, dt3, determine);
            var a1 := Decide(round.attack1, determine);
            var second := if round.attack2.Some? then Some(Decide(round.attack2.value, determine)) else None;
            && u3.round.state == Finished
            && u1.effects + u2.effects + u3.effects
               == [StartAttack(a1, round.duel), ApplyAttack(a1)]
                  + (if second.Some? then [StartAttack(second.value, round.duel)] else [])
                  + (if second.Some? then [ApplyAttack(second.value)] else [])
                  + [FinishRound(round.attack1.attacker)]
  {
    var u1 := UpdateRound(round, dt1, determine);
    assert u1.round.time == RoundDuration && u1.round.state == FirstAttack;
    var u2 := UpdateRound(u1.round, dt2, determine);
    assert IsRoundPastFirstAttack(u2.round.time) && u2.round.state == SecondAttack;
    var u3 := UpdateRound(u2.round, dt3, determine);
    assert u3.round.time == RoundDuration && u3.round.state == Finished;
    assert u2.round.attack1 == u1.round.attack1;
  }

  /** A round only finishes after its first attack was applied: in a single
    * update a round never goes from started or first attack to finished. */
  lemma NoSkippedAttack(round: Round, dt: real, determine: Attack -> AttackResultType)
    requires round.state != SecondAttack
    ensures UpdateRound(round, dt, determine).round.state == Finished ==> round.state == Finished
  {
  }
}
