/** Creature perception: once per update every living creature of the area
  * re-decides which other creatures it hears and sees, and reports the
  * changes. Squared distances and line of sight are inputs. */
module Perception {
  import opened Wrappers
  import opened AreaRegistry
  import opened Collision
  import opened Arith

  /** A creature as perception sees it, with the creatures it currently
    * hears and sees. */
  datatype Perceiver = Perceiver(
    id: nat,
    dead: bool,
    hearingRange: real,
    sightRange: real,
    heard: set<nat>,
    seen: set<nat>)

  datatype EventKind = Heard | Inaudible | Seen | Vanished

  /** `other` became heard by (inaudible to, seen by, vanished from) `subject`. */
  datatype Event = Event(kind: EventKind, subject: nat, other: nat)

  /** Squared distance between two creatures, by id. */
  type Distance2 = (nat, nat) -> real

  /** Whether nothing blocks the line between two creatures, by id. */
  type LineOfSight = (nat, nat) -> bool

  predicate HeardNow(p: Perceiver, other: nat, dist2: Distance2) {
    dist2(p.id, other) <= p.hearingRange * p.hearingRange
  }

  predicate SeenNow(p: Perceiver, other: nat, dist2: Distance2, los: LineOfSight) {
    dist2(p.id, other) <= p.sightRange * p.sightRange && los(p.id, other)
  }

  /** The line of sight between two creatures: a ray from one model centre
    * to the other, as long as the distance between them, tested against the
    * rooms and the doors only, hits nothing. */
  predicate IsInLineOfSight(distance: real, rooms: seq<RoomProbe>, doors: seq<ObjectProbe>) {
    Raycast(RaycastProperties(FlagRooms, {ObjectType.Door}, None, distance), rooms, doors).None?
  }

  /** A door in the way blocks sight. */
  lemma DoorBlocksSight(distance: real, rooms: seq<RoomProbe>, doors: seq<ObjectProbe>, d: ObjectProbe)
    requires d in doors && d.obj.kind == ObjectType.Door && d.dist2 <= distance * distance
    requires d.hasWalkmesh && d.walkmeshHit.Some? && d.walkmeshHit.value <= distance
    ensures !IsInLineOfSight(distance, rooms, doors)
  {
    var props := RaycastProperties(FlagRooms, {ObjectType.Door}, None, distance);
    assert !HasFlag(props.flags, FlagAabb);
    assert Collides(props, d);
  }

  datatype SubjectUpdate = SubjectUpdate(perceiver: Perceiver, events: seq<Event>)

  /** Whether a sense change of kind `kind` towards `other` is due: the sense
    * now differs from what the subject recorded. */
  predicate Reported(p: Perceiver, kind: EventKind, other: nat, dist2: Distance2, los: LineOfSight) {
    match kind
    case Heard => other !in p.heard && HeardNow(p, other, dist2)
    case Inaudible => other in p.heard && !HeardNow(p, other, dist2)
    case Seen => other !in p.seen && SeenNow(p, other, dist2, los)
    case Vanished => other in p.seen && !SeenNow(p, other, dist2, los)
  }

  /** Re-decides one other creature: the sets follow the current senses and
    * an event is reported only when a sense changed. */
  function Step(p: Perceiver, other: nat, dist2: Distance2, los: LineOfSight): (r: SubjectUpdate)
    ensures r.perceiver.id == p.id && r.perceiver.dead == p.dead
    ensures r.perceiver.hearingRange == p.hearingRange && r.perceiver.sightRange == p.sightRange
  {
    var heard := HeardNow(p, other, dist2);
    var seen := SeenNow(p, other, dist2, los);
    var wasHeard := other in p.heard;
    var wasSeen := other in p.seen;
    var hearing := if !wasHeard && heard then [Event(Heard, p.id, other)]
                   else if wasHeard && !heard then [Event(Inaudible, p.id, other)]
                   else [];
    var sight := if !wasSeen && seen then [Event(Seen, p.id, other)]
                 else if wasSeen && !seen then [Event(Vanished, p.id, other)]
                 else [];
    var heardSet := if heard then p.heard + {other} else p.heard - {other};
    var seenSet := if seen then p.seen + {other} else p.seen - {other};
    SubjectUpdate(p.(heard := heardSet, seen := seenSet), hearing + sight)
  }

  /** One step records the current senses towards `other` and nothing else. */
  lemma StepSenses(p: Perceiver, other: nat, dist2: Distance2, los: LineOfSight, o: nat)
    ensures o in Step(p, other, dist2, los).perceiver.heard <==>
              if o == other then HeardNow(p, other, dist2) else o in p.heard
    ensures o in Step(p, other, dist2, los).perceiver.seen <==>
              if o == other then SeenNow(p, other, dist2, los) else o in p.seen
  {
  }

  /** One step reports exactly the sense changes towards `other`. */
  lemma StepEvents(p: Perceiver, other: nat, dist2: Distance2, los: LineOfSight, e: Event)
    ensures e in Step(p, other, dist2, los).events <==>
              e.subject == p.id && e.other == other && Reported(p, e.kind, other, dist2, los)
  {
  }

  /** One subject against the area's creature list, skipping itself. */
  function UpdateSubject(p: Perceiver, others: seq<nat>, dist2: Distance2, los: LineOfSight): (r: SubjectUpdate)
    ensures r.perceiver.id == p.id && r.perceiver.dead == p.dead
    ensures r.perceiver.hearingRange == p.hearingRange && r.perceiver.sightRange == p.sightRange
    decreases |others|
  {
    if others == [] then SubjectUpdate(p, [])
    else if others[0] == p.id then UpdateSubject(p, others[1..], dist2, los)
    else
      var first := Step(p, others[0], dist2, los);
      var rest := UpdateSubject(first.perceiver, others[1..], dist2, los);
      SubjectUpdate(rest.perceiver, first.events + rest.events)
  }

  /** After the update the subject hears exactly the other listed creatures
    * within hearing range; unlisted creatures and itself keep their state. */
  lemma {:induction false} UpdateSubjectHeard(p: Perceiver, others: seq<nat>, dist2: Distance2, los: LineOfSight, o: nat)
    ensures o in UpdateSubject(p, others, dist2, los).perceiver.heard <==>
              if o in others && o != p.id then HeardNow(p, o, dist2) else o in p.heard
    decreases |others|
  {
    if others == [] {
    } else if others[0] == p.id {
      UpdateSubjectHeard(p, others[1..], dist2, los, o);
    } else {
      var first := Step(p, others[0], dist2, los);
      assert UpdateSubject(p, others, dist2, los).perceiver == UpdateSubject(first.perceiver, others[1..], dist2, los).perceiver;
      UpdateSubjectHeard(first.perceiver, others[1..], dist2, los, o);
      assert o in others <==> o == others[0] || o in others[1..];
      StepSenses(p, others[0], dist2, los, o);
    }
  }

  /** After the update the subject sees exactly the other listed creatures
    * within sight range and in line of sight; the rest keep their state. */
  lemma {:induction false} UpdateSubjectSeen(p: Perceiver, others: seq<nat>, dist2: Distance2, los: LineOfSight, o: nat)
    ensures o in UpdateSubject(p, others, dist2, los).perceiver.seen <==>
              if o in others && o != p.id then SeenNow(p, o, dist2, los) else o in p.seen
    decreases |others|
  {
    if others == [] {
    } else if others[0] == p.id {
      UpdateSubjectSeen(p, others[1..], dist2, los, o);
    } else {
      var first := Step(p, others[0], dist2, los);
      assert UpdateSubject(p, others, dist2, los).perceiver == UpdateSubject(first.perceiver, others[1..], dist2, los).perceiver;
      UpdateSubjectSeen(first.perceiver, others[1..], dist2, los, o);
      assert o in others <==> o == others[0] || o in others[1..];
      StepSenses(p, others[0], dist2, los, o);
    }
  }

  /** An event is reported exactly for each other listed creature whose
    * hearing or sight state changed, once. */
  lemma {:induction false} UpdateSubjectEvents(p: Perceiver, others: seq<nat>, dist2: Distance2, los: LineOfSight, e: Event)
    ensures e in UpdateSubject(p, others, dist2, los).events <==>
              e.subject == p.id && e.other in others && e.other != p.id && Reported(p, e.kind, e.other, dist2, los)
    decreases |others|
  {
    if others == [] {
    } else if others[0] == p.id {
      UpdateSubjectEvents(p, others[1..], dist2, los, e);
    } else {
      var x := others[0];
      var first := Step(p, x, dist2, los);
      UpdateSubjectEvents(first.perceiver, others[1..], dist2, los, e);
      assert e.other in others <==> e.other == x || e.other in others[1..];
      var rest := UpdateSubject(first.perceiver, others[1..], dist2, los);
      assert UpdateSubject(p, others, dist2, los).events == first.events + rest.events;
      assert e in first.events + rest.events <==> e in first.events || e in rest.events;
      StepEvents(p, x, dist2, los, e);
      StepSenses(p, x, dist2, los, e.other);
      if e.other == x {
        assert !Reported(first.perceiver, e.kind, x, dist2, los);
      } else {
        assert Reported(first.perceiver, e.kind, e.other, dist2, los) == Reported(p, e.kind, e.other, dist2, los);
      }
    }
  }

  datatype UpdateResult = UpdateResult(creatures: seq<Perceiver>, events: seq<Event>)

  function Ids(creatures: seq<Perceiver>): (r: seq<nat>)
    ensures |r| == |creatures|
    ensures forall i :: 0 <= i < |creatures| ==> r[i] == creatures[i].id
  {
    if creatures == [] then [] else [creatures[0].id] + Ids(creatures[1..])
  }

  /** Updates the living subjects of `subjects` (a suffix of the area's
    * creature list) against all the area's creatures `others`. */
  function UpdateAll(subjects: seq<Perceiver>, others: seq<nat>, dist2: Distance2, los: LineOfSight): (r: UpdateResult)
    ensures |r.creatures| == |subjects|
    ensures forall i :: 0 <= i < |subjects| && subjects[i].dead ==> r.creatures[i] == subjects[i]
    ensures forall i :: 0 <= i < |subjects| && !subjects[i].dead ==>
              r.creatures[i] == UpdateSubject(subjects[i], others, dist2, los).perceiver
    ensures (forall i :: 0 <= i < |subjects| && !subjects[i].dead ==>
               UpdateSubject(subjects[i], others, dist2, los).events == []) ==> r.events == []
  {
    if subjects == [] then UpdateResult([], [])
    else
      var rest := UpdateAll(subjects[1..], others, dist2, los);
      var p := subjects[0];
      var head := if p.dead then SubjectUpdate(p, []) else UpdateSubject(p, others, dist2, los);
      assert forall i :: 1 <= i < |subjects| ==> subjects[i] == subjects[1..][i - 1];
      UpdateResult([head.perceiver] + rest.creatures, head.events + rest.events)
  }

  /** The whole perception pass: every living creature against every other
    * creature of the area. Dead creatures keep their sets, and dead others
    * are still perceived. */
  function DoUpdate(creatures: seq<Perceiver>, dist2: Distance2, los: LineOfSight): (r: UpdateResult)
    ensures |r.creatures| == |creatures|
    ensures Ids(r.creatures) == Ids(creatures)
    ensures forall i :: 0 <= i < |creatures| && creatures[i].dead ==> r.creatures[i] == creatures[i]
  {
    var r := UpdateAll(creatures, Ids(creatures), dist2, los);
    assert forall i :: 0 <= i < |creatures| ==> r.creatures[i].id == creatures[i].id;
    r
  }

  /** A second subject update with nobody moved changes nothing and reports
    * nothing. */
  lemma UpdateSubjectStable(p: Perceiver, others: seq<nat>, dist2: Distance2, los: LineOfSight)
    ensures var p' := UpdateSubject(p, others, dist2, los).perceiver;
            UpdateSubject(p', others, dist2, los) == SubjectUpdate(p', [])
  {
    var p' := UpdateSubject(p, others, dist2, los).perceiver;
    StableSenses(p, others, dist2, los);
    StableEvents(p, others, dist2, los);
  }

  lemma StableSenses(p: Perceiver, others: seq<nat>, dist2: Distance2, los: LineOfSight)
    ensures var p' := UpdateSubject(p, others, dist2, los).perceiver;
            UpdateSubject(p', others, dist2, los).perceiver == p'
  {
    var p' := UpdateSubject(p, others, dist2, los).perceiver;
    var r := UpdateSubject(p', others, dist2, los).perceiver;
    forall o ensures o in r.heard <==> o in p'.heard {
      UpdateSubjectHeard(p, others, dist2, los, o);
      UpdateSubjectHeard(p', others, dist2, los, o);
    }
    forall o ensures o in r.seen <==> o in p'.seen {
      UpdateSubjectSeen(p, others, dist2, los, o);
      UpdateSubjectSeen(p', others, dist2, los, o);
    }
  }

  /** Two records of the same creature sense the same. */
  lemma SameSenses(p: Perceiver, q: Perceiver, o: nat, dist2: Distance2, los: LineOfSight)
    requires p.id == q.id && p.hearingRange == q.hearingRange && p.sightRange == q.sightRange
    ensures HeardNow(p, o, dist2) == HeardNow(q, o, dist2)
    ensures SeenNow(p, o, dist2, los) == SeenNow(q, o, dist2, los)
  {
  }

  lemma StableEvents(p: Perceiver, others: seq<nat>, dist2: Distance2, los: LineOfSight)
    ensures var p' := UpdateSubject(p, others, dist2, los).perceiver;
            UpdateSubject(p', others, dist2, los).events == []
  {
    var p' := UpdateSubject(p, others, dist2, los).perceiver;
    var r := UpdateSubject(p', others, dist2, los);
    if r.events != [] {
      var e := r.events[0];
      var o := e.other;
      UpdateSubjectEvents(p', others, dist2, los, e);
      UpdateSubjectHeard(p, others, dist2, los, o);
      UpdateSubjectSeen(p, others, dist2, los, o);
      SameSenses(p, p', o, dist2, los);
      assert false;
    }
  }

  /** A second pass with nobody moved changes no creature and reports no
    * event. */
  lemma DoUpdateIdempotent(creatures: seq<Perceiver>, dist2: Distance2, los: LineOfSight)
    ensures var once := DoUpdate(creatures, dist2, los);
            DoUpdate(once.creatures, dist2, los) == UpdateResult(once.creatures, [])
  {
    var once := DoUpdate(creatures, dist2, los);
    var ids := Ids(creatures);
    var twice := DoUpdate(once.creatures, dist2, los);
    forall i | 0 <= i < |creatures|
      ensures twice.creatures[i] == once.creatures[i]
    {
      if !creatures[i].dead {
        UpdateSubjectStable(creatures[i], ids, dist2, los);
      }
    }
    assert Ids(once.creatures) == ids;
    forall i | 0 <= i < |once.creatures| && !once.creatures[i].dead
      ensures UpdateSubject(once.creatures[i], ids, dist2, los).events == []
    {
      UpdateSubjectStable(creatures[i], ids, dist2, los);
    }
  }
}
