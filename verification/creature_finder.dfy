/** Searching the area's creatures for the nth nearest one that meets a
  * list of criteria (reputation towards a target, how the creature
  * perceives the target). */
module CreatureFinder {
  import opened Wrappers
  import opened Sorting
  import opened Reputes

  datatype ReputationType = Friend | Enemy | Neutral | OtherReputation(code: int)

  datatype PerceptionType =
    | SeenAndHeard | NotSeenAndNotHeard | HeardAndNotSeen | SeenAndNotHeard
    | NotHeard | Heard | NotSeen | Seen
    | OtherPerception(code: int)

  /** A search criterion. Criterion types other than reputation and
    * perception are accepted and ignored. */
  datatype Criterion = Reputation(reputation: ReputationType) | Perception(perception: PerceptionType) | OtherCriterion(code: int)

  /** A creature as the finder sees it. */
  datatype Candidate = Candidate(id: nat, member: Member, seen: set<nat>, heard: set<nat>)

  /** The target of a search, when there is one. */
  datatype Target = Target(id: nat, member: Member)

  /** Whether a perception kind matches a seen/heard combination; an
    * unknown kind never matches. */
  predicate PerceptionMatches(kind: PerceptionType, seen: bool, heard: bool) {
    match kind
    case SeenAndHeard => seen && heard
    case NotSeenAndNotHeard => !seen && !heard
    case HeardAndNotSeen => heard && !seen
    case SeenAndNotHeard => seen && !heard
    case NotHeard => !heard
    case Heard => heard
    case NotSeen => !seen
    case Seen => seen
    case OtherPerception(_) => false
  }

  /** The compound kinds are the conjunctions of the simple ones, and the
    * negative simple kinds are the complements of the positive ones. */
  lemma PerceptionKindsCompose(seen: bool, heard: bool)
    ensures PerceptionMatches(SeenAndHeard, seen, heard) == (PerceptionMatches(Seen, seen, heard) && PerceptionMatches(Heard, seen, heard))
    ensures PerceptionMatches(NotSeenAndNotHeard, seen, heard) == (PerceptionMatches(NotSeen, seen, heard) && PerceptionMatches(NotHeard, seen, heard))
    ensures PerceptionMatches(HeardAndNotSeen, seen, heard) == (PerceptionMatches(Heard, seen, heard) && PerceptionMatches(NotSeen, seen, heard))
    ensures PerceptionMatches(SeenAndNotHeard, seen, heard) == (PerceptionMatches(Seen, seen, heard) && PerceptionMatches(NotHeard, seen, heard))
    ensures PerceptionMatches(NotSeen, seen, heard) == !PerceptionMatches(Seen, seen, heard)
    ensures PerceptionMatches(NotHeard, seen, heard) == !PerceptionMatches(Heard, seen, heard)
  {
  }

  /** Exactly one of the four seen/heard combinations matches. */
  lemma PerceptionCombinationsPartition(seen: bool, heard: bool)
    ensures var m := [PerceptionMatches(SeenAndHeard, seen, heard), PerceptionMatches(NotSeenAndNotHeard, seen, heard),
                      PerceptionMatches(HeardAndNotSeen, seen, heard), PerceptionMatches(SeenAndNotHeard, seen, heard)];
            exists i :: 0 <= i < 4 && m[i] && forall j :: 0 <= j < 4 && j != i ==> !m[j]
  {
    var m := [PerceptionMatches(SeenAndHeard, seen, heard), PerceptionMatches(NotSeenAndNotHeard, seen, heard),
              PerceptionMatches(HeardAndNotSeen, seen, heard), PerceptionMatches(SeenAndNotHeard, seen, heard)];
    var i := if seen && heard then 0 else if !seen && !heard then 1 else if heard then 2 else 3;
    assert m[i];
  }

  /** Whether one criterion holds for the creature. */
  predicate CriterionHolds(t: Reputes, c: Candidate, criterion: Criterion, target: Option<Target>) {
    match criterion
    case Reputation(rep) =>
      (match rep
       case Friend => target.Some? && GetIsFriend(t, c.member, target.value.member)
       case Enemy => target.Some? && GetIsEnemy(t, c.member, target.value.member)
       case Neutral => target.Some? && GetIsNeutral(t, c.member, target.value.member)
       case OtherReputation(_) => true)
    case Perception(kind) =>
      target.Some? && PerceptionMatches(kind, target.value.id in c.seen, target.value.id in c.heard)
    case OtherCriterion(_) => true
  }

  /** Walks the criteria and fails at the first one that does not hold. */
  function MatchesCriteria(t: Reputes, c: Candidate, criteria: seq<Criterion>, target: Option<Target>): (b: bool)
    ensures b <==> forall i :: 0 <= i < |criteria| ==> CriterionHolds(t, c, criteria[i], target)
  {
    if criteria == [] then true
    else if !CriterionHolds(t, c, criteria[0], target) then false
    else
      var b := MatchesCriteria(t, c, criteria[1..], target);
      assert forall i :: 1 <= i < |criteria| ==> criteria[i] == criteria[1..][i - 1];
      b
  }

  /** Empty criteria match every creature. */
  lemma EmptyCriteriaMatch(t: Reputes, c: Candidate, target: Option<Target>)
    ensures MatchesCriteria(t, c, [], target)
  {
  }

  /** Without a target every known reputation criterion and every perception
    * criterion fails. */
  lemma NoTargetFails(t: Reputes, c: Candidate, criteria: seq<Criterion>, i: nat)
    requires i < |criteria|
    requires criteria[i].Perception? || (criteria[i].Reputation? && !criteria[i].reputation.OtherReputation?)
    ensures !MatchesCriteria(t, c, criteria, None)
  {
  }

  /** The creatures meeting the criteria, keyed by squared distance. */
  function Candidates(t: Reputes, creatures: seq<Candidate>, criteria: seq<Criterion>, target: Option<Target>, dist2: Candidate -> real)
    : (r: seq<Keyed<Candidate>>)
    ensures |r| <= |creatures|
    ensures forall i :: 0 <= i < |r| ==>
              r[i].item in creatures && MatchesCriteria(t, r[i].item, criteria, target) && r[i].key == Key(0, dist2(r[i].item))
  {
    if creatures == [] then []
    else
      var rest := Candidates(t, creatures[1..], criteria, target, dist2);
      var c := creatures[0];
      if MatchesCriteria(t, c, criteria, target) then [Keyed(Key(0, dist2(c)), c)] + rest else rest
  }

  /** Every creature meeting the criteria is a candidate. */
  lemma {:induction false} CandidatesComplete(t: Reputes, creatures: seq<Candidate>, criteria: seq<Criterion>,
                                              target: Option<Target>, dist2: Candidate -> real, c: Candidate)
    requires c in creatures && MatchesCriteria(t, c, criteria, target)
    ensures Keyed(Key(0, dist2(c)), c) in Candidates(t, creatures, criteria, target, dist2)
  {
    if creatures[0] != c {
      CandidatesComplete(t, creatures[1..], criteria, target, dist2, c);
    }
  }

  /** The `nth` nearest matching creature (0-based), or None when `nth` is
    * negative or at least the number of matches: the comparison against
    * the unsigned candidate count turns a negative `nth` into a miss. */
  function GetNearest(t: Reputes, creatures: seq<Candidate>, criteria: seq<Criterion>, target: Option<Target>,
                      dist2: Candidate -> real, nth: int): (r: Option<Candidate>)
    ensures r.None? <==> nth < 0 || nth >= |Candidates(t, creatures, criteria, target, dist2)|
    ensures r.Some? ==> r.value in creatures && MatchesCriteria(t, r.value, criteria, target)
    ensures r.Some? ==>
              var c := Candidates(t, creatures, criteria, target, dist2);
              CountBelow(c, Key(0, dist2(r.value))) <= nth < CountUpTo(c, Key(0, dist2(r.value)))
  {
    var c := Candidates(t, creatures, criteria, target, dist2);
    if nth < 0 || nth >= |c| then None
    else
      SortRank(c, nth);
      var k := SortByKey(c)[nth];
      assert k in c;
      Some(k.item)
  }

  /** Nearest to a target creature: distances are measured to the target
    * and the target is passed to the criteria. */
  function GetNearestCreature(t: Reputes, creatures: seq<Candidate>, target: Target, criteria: seq<Criterion>,
                              dist2: Candidate -> real, nth: int): (r: Option<Candidate>)
    ensures r.Some? ==> r.value in creatures && MatchesCriteria(t, r.value, criteria, Some(target))
    ensures nth < 0 ==> r.None?
  {
    GetNearest(t, creatures, criteria, Some(target), dist2, nth)
  }

  /** Nearest to a location: no target is passed to the criteria, so any
    * reputation or perception criterion excludes every creature. */
  function GetNearestCreatureToLocation(t: Reputes, creatures: seq<Candidate>, criteria: seq<Criterion>,
                                        dist2: Candidate -> real, nth: int): (r: Option<Candidate>)
    ensures r.Some? ==> r.value in creatures && MatchesCriteria(t, r.value, criteria, None)
    ensures nth < 0 ==> r.None?
  {
    GetNearest(t, creatures, criteria, None, dist2, nth)
  }

  /** With no criteria the nearest creature exists exactly when the area has
    * a creature, and no creature is strictly nearer. */
  lemma NearestWithoutCriteria(t: Reputes, creatures: seq<Candidate>, target: Target, dist2: Candidate -> real)
    ensures GetNearestCreature(t, creatures, target, [], dist2, 0).Some? <==> creatures != []
    ensures GetNearestCreature(t, creatures, target, [], dist2, 0).Some? ==>
              forall c :: c in creatures ==> dist2(GetNearestCreature(t, creatures, target, [], dist2, 0).value) <= dist2(c)
  {
    var cands := Candidates(t, creatures, [], Some(target), dist2);
    if creatures != [] {
      CandidatesComplete(t, creatures, [], Some(target), dist2, creatures[0]);
      var r := GetNearestCreature(t, creatures, target, [], dist2, 0).value;
      forall c | c in creatures
        ensures dist2(r) <= dist2(c)
      {
        CandidatesComplete(t, creatures, [], Some(target), dist2, c);
        var k := Keyed(Key(0, dist2(c)), c);
        var j :| 0 <= j < |cands| && cands[j] == k;
        if dist2(c) < dist2(r) {
          assert KeyLt(k.key, Key(0, dist2(r)));
          CountBelowPositive(cands, Key(0, dist2(r)), j);
        }
      }
    }
  }

  /** A candidate strictly below the key makes the count below positive. */
  lemma {:induction false} CountBelowPositive(s: seq<Keyed<Candidate>>, key: Key, j: nat)
    requires j < |s| && KeyLt(s[j].key, key)
    ensures CountBelow(s, key) > 0
  {
    if j > 0 {
      CountBelowPositive(s[1..], key, j - 1);
    }
  }
}
