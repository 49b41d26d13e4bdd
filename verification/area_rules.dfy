/** The per-tick rules of an area that sit on top of its object registry:
  * room visibility, which ambient sounds are audible, trigger entry,
  * nearest-object queries, grass variants, ground elevation and creature
  * movement. Distances, ray hits and polygon tests are inputs. */
module AreaRules {
  import opened Wrappers
  import opened Sorting
  import opened AreaRegistry
  import opened Triggers
  import opened Collision
  import opened Arith

  // ---------------------------------------------------------------------
  // Room visibility

  /** The entries of the room visibility multimap: (room, visible room). */
  type Visibility = seq<(string, string)>

  /** Adds the reverse of every pair, so that adjacency becomes symmetric. */
  function FixVisibility(v: Visibility): (r: Visibility)
    ensures |r| == 2 * |v|
    ensures forall i :: 0 <= i < |v| ==> v[i] in r && (v[i].1, v[i].0) in r
    ensures forall q :: q in r ==> q in v || (q.1, q.0) in v
  {
    if v == [] then []
    else [v[0], (v[0].1, v[0].0)] + FixVisibility(v[1..])
  }

  /** The fixed multimap holds every pair together with its reverse. */
  lemma FixVisibilitySymmetric(v: Visibility, a: string, b: string)
    ensures (a, b) in FixVisibility(v) <==> (b, a) in FixVisibility(v)
    ensures (a, b) in FixVisibility(v) <==> (a, b) in v || (b, a) in v
  {
    var r := FixVisibility(v);
    if (a, b) in v {
      var i :| 0 <= i < |v| && v[i] == (a, b);
    }
    if (b, a) in v {
      var i :| 0 <= i < |v| && v[i] == (b, a);
    }
  }

  /** The visibility flag of every room. All rooms are visible unless the
    * camera is third-person and the leader stands in a room; then a room is
    * visible iff it is the leader's room or listed as visible from it. */
  function RoomVisibility(rooms: set<string>, thirdPerson: bool, leaderRoom: Option<string>, v: Visibility)
    : (r: map<string, bool>)
    ensures r.Keys == rooms
    ensures !thirdPerson || leaderRoom.None? ==> forall n :: n in rooms ==> r[n]
    ensures thirdPerson && leaderRoom.Some? ==>
              forall n :: n in rooms ==> (r[n] <==> n == leaderRoom.value || (leaderRoom.value, n) in v)
  {
    var allVisible := !thirdPerson || leaderRoom.None?;
    map n | n in rooms :: allVisible || n == leaderRoom.value || (leaderRoom.value, n) in v
  }

  /** With fixed visibility, a third-person leader in room `a` sees room `b`
    * exactly when a leader in `b` would see `a`. */
  lemma RoomVisibilityMutual(rooms: set<string>, v: Visibility, a: string, b: string)
    requires a in rooms && b in rooms
    ensures RoomVisibility(rooms, true, Some(a), FixVisibility(v))[b]
        <==> RoomVisibility(rooms, true, Some(b), FixVisibility(v))[a]
  {
    FixVisibilitySymmetric(v, a, b);
  }

  /** Per-frame visibility: recomputed (and then all-visible) only when the
    * camera is not third-person; the third-person view keeps the flags set
    * when the leader last changed room. */
  function UpdateVisibility(current: map<string, bool>, rooms: set<string>, thirdPerson: bool,
                            leaderRoom: Option<string>, v: Visibility): (r: map<string, bool>)
    ensures thirdPerson ==> r == current
    ensures !thirdPerson ==> r.Keys == rooms && forall n :: n in rooms ==> r[n]
  {
    if !thirdPerson then RoomVisibility(rooms, thirdPerson, leaderRoom, v) else current
  }

  /** After the leader moved: the flags are recomputed only when a leader
    * exists and changed room. */
  function OnPartyLeaderMoved(current: map<string, bool>, rooms: set<string>, thirdPerson: bool,
                              leaderExists: bool, roomChanged: bool, leaderRoom: Option<string>,
                              v: Visibility): (r: map<string, bool>)
    ensures !(leaderExists && roomChanged) ==> r == current
    ensures leaderExists && roomChanged ==> r.Keys == rooms
    ensures leaderExists && roomChanged ==>
              forall n :: n in rooms ==>
                (r[n] <==> !thirdPerson || leaderRoom.None? || n == leaderRoom.value || (leaderRoom.value, n) in v)
    ensures leaderExists && roomChanged && thirdPerson && leaderRoom.Some? && leaderRoom.value in rooms ==>
              r[leaderRoom.value]
  {
    if leaderExists && roomChanged then RoomVisibility(rooms, thirdPerson, leaderRoom, v) else current
  }

  /** Once the leader changes room the flags no longer depend on what they
    * were: two areas whose flags differ agree after the same move, and
    * outside third person every room is visible. */
  lemma LeaderMoveForgetsHistory(c1: map<string, bool>, c2: map<string, bool>, rooms: set<string>, thirdPerson: bool,
                                 leaderRoom: Option<string>, v: Visibility)
    ensures OnPartyLeaderMoved(c1, rooms, thirdPerson, true, true, leaderRoom, v)
            == OnPartyLeaderMoved(c2, rooms, thirdPerson, true, true, leaderRoom, v)
    ensures !thirdPerson ==> OnPartyLeaderMoved(c1, rooms, thirdPerson, true, true, leaderRoom, v)
                             == UpdateVisibility(c2, rooms, thirdPerson, leaderRoom, v)
  {
  }

  // ---------------------------------------------------------------------
  // Sounds

  const MaxSoundCount: nat := 4

  /** A sound object as the audibility pass sees it; `dist2` is its squared
    * distance to the listener (the leader in third person, else the camera). */
  datatype SoundView = SoundView(id: nat, active: bool, maxDistance: real, priority: int, dist2: real)

  predicate InEarshot(s: SoundView) {
    s.active && s.dist2 <= s.maxDistance * s.maxDistance
  }

  /** The active sounds within their maximum distance, keyed by priority
    * then squared distance. */
  function SoundCandidates(sounds: seq<SoundView>): (r: seq<Keyed<SoundView>>)
    ensures |r| <= |sounds|
    ensures forall i :: 0 <= i < |r| ==>
              r[i].item in sounds && InEarshot(r[i].item) && r[i].key == SoundKey(r[i].item)
  {
    if sounds == [] then []
    else
      var rest := SoundCandidates(sounds[1..]);
      var s := sounds[0];
      if InEarshot(s) then [Keyed(SoundKey(s), s)] + rest else rest
  }

  function SoundKey(s: SoundView): Key {
    Key(s.priority, s.dist2)
  }

  lemma {:induction false} SoundCandidatesComplete(sounds: seq<SoundView>, s: SoundView)
    requires s in sounds && InEarshot(s)
    ensures Keyed(SoundKey(s), s) in SoundCandidates(sounds)
  {
    if sounds[0] != s {
      SoundCandidatesComplete(sounds[1..], s);
    }
  }

  /** The sounds made audible this frame, best first. */
  function UpdateSounds(sounds: seq<SoundView>): (audible: seq<SoundView>)
    ensures |audible| <= MaxSoundCount
    ensures forall a :: a in audible ==> a in sounds && InEarshot(a)
    ensures |audible| == if |SoundCandidates(sounds)| < MaxSoundCount then |SoundCandidates(sounds)| else MaxSoundCount
    ensures forall i, j :: 0 <= i < j < |audible| ==> KeyLe(SoundKey(audible[i]), SoundKey(audible[j]))
  {
    var kept := Truncate(SortByKey(SoundCandidates(sounds)), MaxSoundCount);
    KeptSoundsFacts(sounds, kept);
    Items(kept)
  }

  lemma KeptSoundsFacts(sounds: seq<SoundView>, kept: seq<Keyed<SoundView>>)
    requires kept == Truncate(SortByKey(SoundCandidates(sounds)), MaxSoundCount)
    ensures forall i :: 0 <= i < |kept| ==>
              kept[i].key == SoundKey(kept[i].item) && kept[i].item in sounds && InEarshot(kept[i].item)
    ensures forall i, j :: 0 <= i < j < |kept| ==> KeyLe(kept[i].key, kept[j].key)
  {
    var cands := SoundCandidates(sounds);
    forall i | 0 <= i < |kept|
      ensures kept[i].key == SoundKey(kept[i].item) && kept[i].item in sounds && InEarshot(kept[i].item)
    {
      SortMember(cands, i);
      var k :| 0 <= k < |cands| && cands[k] == kept[i];
    }
  }

  /** A sound in earshot that is left out ranks no better than any audible
    * one: the audible set is the best MaxSoundCount by priority, then
    * distance. */
  lemma UpdateSoundsKeepsBest(sounds: seq<SoundView>, s: SoundView)
    requires s in sounds && InEarshot(s) && s !in UpdateSounds(sounds)
    ensures |UpdateSounds(sounds)| == MaxSoundCount
    ensures forall a :: a in UpdateSounds(sounds) ==> KeyLe(SoundKey(a), SoundKey(s))
  {
    var cands := SoundCandidates(sounds);
    var sorted := SortByKey(cands);
    var kept := Truncate(sorted, MaxSoundCount);
    var audible := UpdateSounds(sounds);
    assert audible == Items(kept);
    var c := Keyed(SoundKey(s), s);
    SoundCandidatesComplete(sounds, s);
    SortContains(cands, c);
    var j :| 0 <= j < |sorted| && sorted[j] == c;
    assert j >= |kept| by {
      if j < |kept| {
        KeptItem(sorted, MaxSoundCount, j);
      }
    }
    forall a | a in audible ensures KeyLe(SoundKey(a), SoundKey(s)) {
      var i :| 0 <= i < |audible| && audible[i] == a;
      KeptSoundKey(cands, i);
      assert KeyLe(sorted[i].key, sorted[j].key);
    }
  }

  lemma KeptItem<T>(s: seq<Keyed<T>>, n: nat, j: nat)
    requires j < |s| && j < n
    ensures s[j].item in Items(Truncate(s, n))
  {
    assert Items(Truncate(s, n))[j] == s[j].item;
  }

  lemma KeptSoundKey(cands: seq<Keyed<SoundView>>, i: nat)
    requires forall k :: 0 <= k < |cands| ==> cands[k].key == SoundKey(cands[k].item)
    requires i < |cands|
    ensures SortByKey(cands)[i].key == SoundKey(SortByKey(cands)[i].item)
  {
    SortMember(cands, i);
  }

  // ---------------------------------------------------------------------
  // Trigger entry

  /** A trigger as the entry check sees it: the squared 2-D distance from the
    * trigger to the moving object and whether the object is inside it. */
  datatype TriggerProbe = TriggerProbe(trigger: Trigger, dist2: real, inside: bool)

  datatype TriggerEvent =
    | ModuleTransition(moduleName: string, entry: string)
    | RunOnEnter(script: string, triggerId: nat, triggerrer: nat)

  datatype EntryResult = EntryResult(triggers: seq<Trigger>, events: seq<TriggerEvent>)

  /** The object enters the trigger: it is close enough, not yet a tenant,
    * and inside the polygon. */
  predicate Enters(p: TriggerProbe, obj: nat, maxDist2: real) {
    p.dist2 <= maxDist2 && !IsTenant(p.trigger, obj) && p.inside
  }

  /** The index of the first entered trigger that links to another module,
    * where the check stops; |ps| when there is none. */
  function StopIndex(ps: seq<TriggerProbe>, obj: nat, maxDist2: real): (k: nat)
    ensures k <= |ps|
    ensures forall i :: 0 <= i < k ==> !(Enters(ps[i], obj, maxDist2) && ps[i].trigger.linkedToModule != "")
    ensures k < |ps| ==> Enters(ps[k], obj, maxDist2) && ps[k].trigger.linkedToModule != ""
  {
    if ps == [] then 0
    else if Enters(ps[0], obj, maxDist2) && ps[0].trigger.linkedToModule != "" then 0
    else 1 + StopIndex(ps[1..], obj, maxDist2)
  }

  /** Checks the triggers of the area in order against an object that just
    * moved: each entered trigger takes the object as tenant and runs its
    * enter script; a trigger linked to another module schedules the
    * transition instead and ends the check. */
  function CheckTriggersIntersection(ps: seq<TriggerProbe>, obj: nat, maxDist2: real): (r: EntryResult)
    ensures |r.triggers| == |ps|
    ensures forall i :: 0 <= i < |ps| ==>
              r.triggers[i] == if i <= StopIndex(ps, obj, maxDist2) && Enters(ps[i], obj, maxDist2)
                               then AddTenant(ps[i].trigger, obj) else ps[i].trigger
    ensures forall i :: 0 <= i < |r.events| - 1 ==> r.events[i].RunOnEnter?
    ensures (exists e :: e in r.events && e.ModuleTransition?) <==> StopIndex(ps, obj, maxDist2) < |ps|
    ensures StopIndex(ps, obj, maxDist2) < |ps| ==>
              r.events[|r.events| - 1] ==
              ModuleTransition(ps[StopIndex(ps, obj, maxDist2)].trigger.linkedToModule,
                               ps[StopIndex(ps, obj, maxDist2)].trigger.linkedTo)
  {
    EntryResult(TriggersAfterEntry(ps, obj, maxDist2), EntryEvents(ps, obj, maxDist2))
  }

  /** The triggers after the check: those entered up to and including the
    * stopping one have the object as tenant, the rest are unchanged. */
  function TriggersAfterEntry(ps: seq<TriggerProbe>, obj: nat, maxDist2: real): (r: seq<Trigger>)
    ensures |r| == |ps|
    ensures forall i :: 0 <= i < |ps| ==>
              r[i] == if i <= StopIndex(ps, obj, maxDist2) && Enters(ps[i], obj, maxDist2)
                      then AddTenant(ps[i].trigger, obj) else ps[i].trigger
  {
    if ps == [] then []
    else
      var p := ps[0];
      if Enters(p, obj, maxDist2) && p.trigger.linkedToModule != "" then
        [AddTenant(p.trigger, obj)] + TriggersOf(ps[1..])
      else
        var rest := TriggersAfterEntry(ps[1..], obj, maxDist2);
        var r := [if Enters(p, obj, maxDist2) then AddTenant(p.trigger, obj) else p.trigger] + rest;
        assert StopIndex(ps, obj, maxDist2) == 1 + StopIndex(ps[1..], obj, maxDist2);
        forall i | 1 <= i < |ps|
          ensures r[i] == if i <= StopIndex(ps, obj, maxDist2) && Enters(ps[i], obj, maxDist2)
                          then AddTenant(ps[i].trigger, obj) else ps[i].trigger
        {
          assert r[i] == rest[i - 1] && ps[i] == ps[1..][i - 1];
        }
        r
  }

  /** The events of the check: an enter script for each entered trigger
    * that has one, then the transition of the stopping trigger, if any. */
  function EntryEvents(ps: seq<TriggerProbe>, obj: nat, maxDist2: real): (e: seq<TriggerEvent>)
    ensures forall i :: 0 <= i < |e| - 1 ==> e[i].RunOnEnter?
    ensures (exists x :: x in e && x.ModuleTransition?) <==> StopIndex(ps, obj, maxDist2) < |ps|
    ensures StopIndex(ps, obj, maxDist2) < |ps| ==>
              e[|e| - 1] ==
              ModuleTransition(ps[StopIndex(ps, obj, maxDist2)].trigger.linkedToModule,
                               ps[StopIndex(ps, obj, maxDist2)].trigger.linkedTo)
  {
    if ps == [] then []
    else
      var p := ps[0];
      if !Enters(p, obj, maxDist2) then
        EntryEvents(ps[1..], obj, maxDist2)
      else if p.trigger.linkedToModule != "" then
        var events := [ModuleTransition(p.trigger.linkedToModule, p.trigger.linkedTo)];
        assert events[0] in events;
        events
      else
        var rest := EntryEvents(ps[1..], obj, maxDist2);
        var enter := if p.trigger.onEnter != "" then [RunOnEnter(p.trigger.onEnter, p.trigger.id, obj)] else [];
        var e := enter + rest;
        assert forall x :: x in e && x.ModuleTransition? ==> x in rest;
        e
  }

  function TriggersOf(ps: seq<TriggerProbe>): (r: seq<Trigger>)
    ensures |r| == |ps|
    ensures forall i :: 0 <= i < |ps| ==> r[i] == ps[i].trigger
  {
    if ps == [] then [] else [ps[0].trigger] + TriggersOf(ps[1..])
  }

  /** A trigger that was entered now has the object as tenant, so the same
    * object standing still does not enter it again. */
  lemma EnteredTriggerNotReentered(ps: seq<TriggerProbe>, obj: nat, maxDist2: real, i: nat)
    requires i < |ps| && i <= StopIndex(ps, obj, maxDist2) && Enters(ps[i], obj, maxDist2)
    ensures IsTenant(CheckTriggersIntersection(ps, obj, maxDist2).triggers[i], obj)
    ensures !Enters(TriggerProbe(CheckTriggersIntersection(ps, obj, maxDist2).triggers[i], ps[i].dist2, ps[i].inside),
                    obj, maxDist2)
  {
  }

  // ---------------------------------------------------------------------
  // Nearest object

  /** The objects the predicate accepts, keyed by their squared distance to
    * the origin. */
  function NearCandidates(objects: seq<Obj>, pred: Obj -> bool, dist2: Obj -> real): (r: seq<Keyed<Obj>>)
    ensures |r| <= |objects|
    ensures forall i :: 0 <= i < |r| ==> r[i].item in objects && pred(r[i].item) && r[i].key == Key(0, dist2(r[i].item))
  {
    if objects == [] then []
    else
      var rest := NearCandidates(objects[1..], pred, dist2);
      var o := objects[0];
      if pred(o) then [Keyed(Key(0, dist2(o)), o)] + rest else rest
  }

  /** What the nearest-object query reads, as written: the `nth` entry of the
    * sorted candidates, null when `nth` is at least the count, and an
    * out-of-bounds read for a negative `nth`, which passes the signed guard. */
  datatype NearestRead = Found(obj: Obj) | Null | OutOfBoundsRead(index: int)

  function NearestObjectAsWritten(objects: seq<Obj>, pred: Obj -> bool, dist2: Obj -> real, nth: int)
    : (r: NearestRead)
    ensures nth >= |NearCandidates(objects, pred, dist2)| <==> r.Null?
    ensures nth < 0 <==> r.OutOfBoundsRead?
  {
    var sorted := SortByKey(NearCandidates(objects, pred, dist2));
    if nth >= |sorted| then Null
    else if nth < 0 then OutOfBoundsRead(nth)
    else Found(sorted[nth].item)
  }

  /** A negative `nth` with one matching object reads before the start of
    * the candidate list. */
  lemma NearestObjectNegativeNth(o: Obj)
    ensures NearestObjectAsWritten([o], x => true, x => 0.0, -1) == OutOfBoundsRead(-1)
  {
  }

  /** The `nth` nearest object the predicate accepts (0-based), or None when
    * `nth` is outside the candidate range, negative included. */
  function NearestObject(objects: seq<Obj>, pred: Obj -> bool, dist2: Obj -> real, nth: int): (r: Option<Obj>)
    ensures r.None? <==> nth < 0 || nth >= |NearCandidates(objects, pred, dist2)|
    ensures r.Some? ==> r.value in objects && pred(r.value)
    ensures r.Some? ==>
              var c := NearCandidates(objects, pred, dist2);
              CountBelow(c, Key(0, dist2(r.value))) <= nth < CountUpTo(c, Key(0, dist2(r.value)))
  {
    var c := NearCandidates(objects, pred, dist2);
    if nth < 0 || nth >= |c| then None
    else
      SortRank(c, nth);
      var k := SortByKey(c)[nth];
      assert k in c;
      Some(k.item)
  }

  /** Where the as-written query is defined it agrees with the corrected one. */
  lemma NearestObjectAgrees(objects: seq<Obj>, pred: Obj -> bool, dist2: Obj -> real, nth: int)
    requires nth >= 0
    ensures NearestObjectAsWritten(objects, pred, dist2, nth).Null? <==> NearestObject(objects, pred, dist2, nth).None?
    ensures NearestObjectAsWritten(objects, pred, dist2, nth).Found? ==>
              NearestObject(objects, pred, dist2, nth) == Some(NearestObjectAsWritten(objects, pred, dist2, nth).obj)
  {
  }

  // ---------------------------------------------------------------------
  // Grass

  /** The sum of the first `n` probabilities. */
  function PrefixSum(p: seq<real>, n: nat): real
    requires n <= |p|
  {
    if n == 0 then 0.0 else PrefixSum(p, n - 1) + p[n - 1]
  }

  /** The draw scaled by the total probability. */
  function ScaledDraw(p: seq<real>, draw: real): real
    requires |p| == 4
  {
    draw * PrefixSum(p, 4)
  }

  /** Picks a grass variant from four probabilities and a uniform draw in
    * [0, 1]: the first of variants 0..2 whose cumulative probability exceeds
    * the scaled draw, else variant 3. */
  method GetRandomGrassVariant(probabilities: seq<real>, draw: real) returns (variant: nat)
    requires |probabilities| == 4
    ensures variant <= 3
    ensures forall j :: 1 <= j <= variant ==> ScaledDraw(probabilities, draw) >= PrefixSum(probabilities, j)
    ensures variant < 3 ==> ScaledDraw(probabilities, draw) < PrefixSum(probabilities, variant + 1)
  {
    var val := ScaledDraw(probabilities, draw);
    var upper := 0.0;
    var i := 0;
    while i < 3
      invariant 0 <= i <= 3
      invariant upper == PrefixSum(probabilities, i)
      invariant forall j :: 1 <= j <= i ==> val >= PrefixSum(probabilities, j)
    {
      upper := upper + probabilities[i];
      if val < upper {
        return i;
      }
      i := i + 1;
    }
    return 3;
  }

  // ---------------------------------------------------------------------
  // Elevation and movement

  datatype Vec2 = Vec2(x: real, y: real)

  /** A walkable room hit below a point: the room's name and the height. */
  datatype Ground = Ground(room: string, z: real)

  /** The height the downward elevation rays start from; they reach twice
    * as far, down to the same depth below zero. */
  const ElevationTestZ: real := 1024.0

  /** The ray that finds alive creatures' boxes below a point. */
  function CreatureBelowProps(except: Option<nat>): RaycastProperties {
    RaycastProperties(FlagAabb + FlagAlive, {Creature}, except, 2.0 * ElevationTestZ)
  }

  /** The ray that finds placeables' walkmeshes below a point. */
  const PlaceableBelowProps := RaycastProperties(0, {Placeable}, None, 2.0 * ElevationTestZ)

  /** The ray that finds the walkable faces of rooms below a point. */
  const WalkableBelowProps := RaycastProperties(FlagRooms + FlagWalkable, {}, None, 2.0 * ElevationTestZ)

  /** The ground under a point. Three rays are cast straight down from
    * `ElevationTestZ`, against the rooms and objects as that ray meets
    * them. The box of an alive creature other than `except` (only when
    * `creatures` is set), or a placeable, below the point means there is no
    * ground. Otherwise the ground is the first room whose walkable face the
    * ray hits, at the height of the hit. */
  function GetElevationAt(rooms: seq<RoomProbe>, objects: seq<ObjectProbe>, creatures: bool, except: Option<nat>)
    : (r: Option<Ground>)
    ensures creatures && (exists o :: o in objects && Collides(CreatureBelowProps(except), o)) ==> r.None?
    ensures (exists o :: o in objects && Collides(PlaceableBelowProps, o)) ==> r.None?
    ensures r.None? <==>
              || (creatures && exists o :: o in objects && Collides(CreatureBelowProps(except), o))
              || (exists o :: o in objects && Collides(PlaceableBelowProps, o))
              || (forall i :: 0 <= i < |rooms| ==> !RoomStops(WalkableBelowProps, rooms[i]))
    ensures r.Some? ==>
              exists i :: (0 <= i < |rooms| && RoomStops(WalkableBelowProps, rooms[i])
                           && (forall j :: 0 <= j < i ==> !RoomStops(WalkableBelowProps, rooms[j]))
                           && r.value == Ground(rooms[i].name, ElevationTestZ - rooms[i].walkmeshHit.value))
    ensures r.Some? ==> -ElevationTestZ <= r.value.z
  {
    if creatures && Raycast(CreatureBelowProps(except), rooms, objects).Some? then None
    else if Raycast(PlaceableBelowProps, rooms, objects).Some? then None
    else
      var hit := Raycast(WalkableBelowProps, rooms, objects);
      assert hit == RayTestRooms(WalkableBelowProps, rooms) by {
        assert forall o :: o in objects ==> !Collides(WalkableBelowProps, o);
      }
      if hit.Some? && hit.value.RoomHit? then Some(Ground(hit.value.room, ElevationTestZ - hit.value.distance))
      else None
  }

  /** The object whose elevation is sought does not block itself: when it is
    * the only alive creature whose box the ray meets, excepting it gives the
    * same ground as not testing creatures at all. */
  lemma ExceptedCreatureDoesNotBlock(rooms: seq<RoomProbe>, objects: seq<ObjectProbe>, id: nat)
    requires forall o :: o in objects && Collides(CreatureBelowProps(None), o) ==> o.obj.id == id
    ensures GetElevationAt(rooms, objects, true, Some(id)) == GetElevationAt(rooms, objects, false, None)
  {
    var p := CreatureBelowProps(Some(id));
    var q := CreatureBelowProps(None);
    forall o | o in objects
      ensures !Collides(p, o)
    {
      assert Tested(p, o) ==> Tested(q, o);
      assert CollisionDistance(q, o) == CollisionDistance(p, o);
    }
    assert RayTestObjects(p, objects).None?;
    assert !HasFlag(p.flags, FlagRooms);
  }

  /** The distance within which a hit blocks a move of `moveLength`: never
    * less than half a unit. */
  function ObstacleDistance(moveLength: real): (d: real)
    ensures d >= 0.5 && d >= moveLength
    ensures d == 0.5 || d == moveLength
  {
    if moveLength > 0.5 then moveLength else 0.5
  }

  /** The ray that finds other alive creatures' boxes in the way of `self`. */
  function CreatureObstacleProps(self: nat, defaultDistance: real): RaycastProperties {
    RaycastProperties(FlagAabb + FlagAlive, {Creature}, Some(self), defaultDistance)
  }

  /** The ray that finds room and door walkmeshes in the way. */
  function WallObstacleProps(defaultDistance: real): RaycastProperties {
    RaycastProperties(FlagRooms, {Door}, None, defaultDistance)
  }

  /** Some object collides with the ray within distance `d`. */
  predicate HitWithin(props: RaycastProperties, objects: seq<ObjectProbe>, d: real) {
    exists o :: o in objects && Collides(props, o) && CollisionDistance(props, o).value <= d
  }

  /** The first room that stops the ray stops it within distance `d`. */
  predicate RoomWithin(props: RaycastProperties, rooms: seq<RoomProbe>, d: real) {
    RayTestRooms(props, rooms).Some? && RayTestRooms(props, rooms).value.distance <= d
  }

  /** Whether creature `self` is blocked on its way to a point `moveLength`
    * away. Two rays toward the point, each reaching `defaultDistance`, are
    * cast against the rooms and objects as that ray meets them: one against
    * the boxes of other alive creatures, one against room walkmeshes first
    * and door walkmeshes after. The way is blocked when either ray reports a
    * hit within `ObstacleDistance(moveLength)`: a creature, the first room
    * wall the ray meets, or, when no room stops the ray, a door. */
  function GetCreatureObstacle(rooms: seq<RoomProbe>, objects: seq<ObjectProbe>, self: nat,
                               moveLength: real, defaultDistance: real): (b: bool)
    ensures HitWithin(CreatureObstacleProps(self, defaultDistance), objects, ObstacleDistance(moveLength)) ==> b
    ensures RoomWithin(WallObstacleProps(defaultDistance), rooms, ObstacleDistance(moveLength)) ==> b
    ensures RayTestRooms(WallObstacleProps(defaultDistance), rooms).None?
            && HitWithin(WallObstacleProps(defaultDistance), objects, ObstacleDistance(moveLength))
            ==> b
    ensures b ==>
              || HitWithin(CreatureObstacleProps(self, defaultDistance), objects, ObstacleDistance(moveLength))
              || RoomWithin(WallObstacleProps(defaultDistance), rooms, ObstacleDistance(moveLength))
              || (RayTestRooms(WallObstacleProps(defaultDistance), rooms).None?
                  && HitWithin(WallObstacleProps(defaultDistance), objects, ObstacleDistance(moveLength)))
  {
    var maxDist := ObstacleDistance(moveLength);
    ObstacleRays(rooms, objects, self, defaultDistance);
    NearestWithin(CreatureObstacleProps(self, defaultDistance), objects, maxDist);
    NearestWithin(WallObstacleProps(defaultDistance), objects, maxDist);
    var creature := Raycast(CreatureObstacleProps(self, defaultDistance), rooms, objects);
    var wall := Raycast(WallObstacleProps(defaultDistance), rooms, objects);
    (creature.Some? && creature.value.distance <= maxDist) || (wall.Some? && wall.value.distance <= maxDist)
  }

  /** A room wall within the obstacle distance blocks the way when it is the
    * first room the wall ray meets, whatever the creatures and doors: a
    * wall half a unit ahead stops even the shortest step. */
  lemma {:induction false} NearRoomWallBlocks(rooms: seq<RoomProbe>, objects: seq<ObjectProbe>, self: nat,
                                              moveLength: real, defaultDistance: real, i: nat)
    requires i < |rooms| && RoomStops(WallObstacleProps(defaultDistance), rooms[i])
    requires forall j :: 0 <= j < i ==> !RoomStops(WallObstacleProps(defaultDistance), rooms[j])
    requires rooms[i].walkmeshHit.value <= ObstacleDistance(moveLength)
    ensures GetCreatureObstacle(rooms, objects, self, moveLength, defaultDistance)
  {
    var wp := WallObstacleProps(defaultDistance);
    var hit := RayTestRooms(wp, rooms);
    var k :| 0 <= k < |rooms| && RoomStops(wp, rooms[k])
             && (forall j :: 0 <= j < k ==> !RoomStops(wp, rooms[j]))
             && hit == Some(RoomHit(rooms[k].name, rooms[k].walkmeshHit.value));
    assert k == i;
    assert RoomWithin(wp, rooms, ObstacleDistance(moveLength));
  }

  /** A room wall the ray meets beyond the obstacle distance hides every
    * door: the rooms are tested first and their hit is the answer, so a
    * door however near does not block. Only a creature can block then. */
  lemma FarRoomWallHidesDoors(rooms: seq<RoomProbe>, objects: seq<ObjectProbe>, self: nat,
                              moveLength: real, defaultDistance: real)
    requires forall o :: o in objects && Collides(CreatureObstacleProps(self, defaultDistance), o) ==>
               CollisionDistance(CreatureObstacleProps(self, defaultDistance), o).value > ObstacleDistance(moveLength)
    requires RayTestRooms(WallObstacleProps(defaultDistance), rooms).Some?
    requires RayTestRooms(WallObstacleProps(defaultDistance), rooms).value.distance > ObstacleDistance(moveLength)
    ensures !GetCreatureObstacle(rooms, objects, self, moveLength, defaultDistance)
  {
    var cp := CreatureObstacleProps(self, defaultDistance);
    var wp := WallObstacleProps(defaultDistance);
    var maxDist := ObstacleDistance(moveLength);
    NearestBeyond(cp, objects, maxDist);
    ObstacleRays(rooms, objects, self, defaultDistance);
    var creature := Raycast(cp, rooms, objects);
    var wall := Raycast(wp, rooms, objects);
    assert !(creature.Some? && creature.value.distance <= maxDist);
    assert !(wall.Some? && wall.value.distance <= maxDist);
  }

  /** The creature ray tests objects only; the wall ray answers with its
    * room hit when there is one. */
  lemma ObstacleRays(rooms: seq<RoomProbe>, objects: seq<ObjectProbe>, self: nat, defaultDistance: real)
    ensures Raycast(CreatureObstacleProps(self, defaultDistance), rooms, objects)
            == RayTestObjects(CreatureObstacleProps(self, defaultDistance), objects)
    ensures RayTestRooms(WallObstacleProps(defaultDistance), rooms).Some? ==>
              Raycast(WallObstacleProps(defaultDistance), rooms, objects) == RayTestRooms(WallObstacleProps(defaultDistance), rooms)
  {
    assert !HasFlag(CreatureObstacleProps(self, defaultDistance).flags, FlagRooms);
    assert HasFlag(WallObstacleProps(defaultDistance).flags, FlagRooms);
  }

  /** The nearest collision lies within `d` exactly when some collision does. */
  lemma NearestWithin(props: RaycastProperties, objects: seq<ObjectProbe>, d: real)
    ensures (RayTestObjects(props, objects).Some? && RayTestObjects(props, objects).value.distance <= d)
            <==> HitWithin(props, objects, d)
  {
  }

  /** When every collision lies beyond `d`, so does the nearest one. */
  lemma NearestBeyond(props: RaycastProperties, objects: seq<ObjectProbe>, d: real)
    requires forall o :: o in objects && Collides(props, o) ==> CollisionDistance(props, o).value > d
    ensures RayTestObjects(props, objects).None? || RayTestObjects(props, objects).value.distance > d
  {
  }


  const Pi: real := 3.14159265358979323846

  datatype MoveResult = MoveResult(facing: real, moved: bool, position: Vec2, ground: Option<Ground>)

  /** The distance covered in one step. */
  function StepLength(run: bool, runSpeed: real, walkSpeed: real, dt: real): real {
    (if run then runSpeed else walkSpeed) * dt
  }

  function Advance(pos: Vec2, dir: Vec2, step: real): Vec2 {
    Vec2(pos.x + dir.x * step, pos.y + dir.y * step)
  }

  /** One movement step of a creature at `pos` along unit direction `dir`.
    * The facing is set from the direction first (`heading` is the angle the
    * caller computed for `dir`). When the straight step is blocked, one
    * deflected step at `heading − 0.75π` is tried (`unit` gives the unit
    * vector of an angle); if that is blocked too, the creature does not
    * move. An unblocked step moves only onto walkable ground. */
  function MoveCreature(pos: Vec2, dir: Vec2, heading: real, step: real,
                        unit: real -> Vec2, blocked: Vec2 -> bool,
                        ground: Vec2 -> Option<Ground>): (r: MoveResult)
    ensures r.facing == heading
    ensures var straight := Advance(pos, dir, step);
            var side := Advance(pos, unit(heading - 0.75 * Pi), step);
            && (r.moved <==> ((!blocked(straight) && ground(straight).Some?)
                              || (blocked(straight) && !blocked(side) && ground(side).Some?)))
            && (r.moved && !blocked(straight) ==> r.position == straight && r.ground == ground(straight))
            && (r.moved && blocked(straight) ==> r.position == side && r.ground == ground(side))
            && (!r.moved ==> r.position == pos && r.ground.None?)
  {
    var straight := Advance(pos, dir, step);
    var dest :=
      if !blocked(straight) then Some(straight)
      else
        var side := Advance(pos, unit(heading - 0.75 * Pi), step);
        if blocked(side) then None else Some(side);
    match dest
    case None => MoveResult(heading, false, pos, None)
    case Some(d) =>
      var g := ground(d);
      if g.Some? then MoveResult(heading, true, d, g) else MoveResult(heading, false, pos, None)
  }

  /** Both probes blocked means no movement, whatever the ground. */
  lemma MoveCreatureBlockedTwice(pos: Vec2, dir: Vec2, heading: real, step: real,
                                 unit: real -> Vec2, blocked: Vec2 -> bool, ground: Vec2 -> Option<Ground>)
    requires blocked(Advance(pos, dir, step))
    requires blocked(Advance(pos, unit(heading - 0.75 * Pi), step))
    ensures !MoveCreature(pos, dir, heading, step, unit, blocked, ground).moved
    ensures MoveCreature(pos, dir, heading, step, unit, blocked, ground).position == pos
  {
  }
}
