/** Ray casts against the rooms and objects of an area. The ray/walkmesh and
  * ray/box intersections are inputs: each room and object carries the hit
  * distance its own test would report. */
module Collision {
  import opened Wrappers
  import opened Sorting
  import opened AreaRegistry
  import opened Arith

  /** Raycast flag bits. */
  const FlagAabb: nat := 1
  const FlagRooms: nat := 2
  const FlagWalkable: nat := 4
  const FlagSelectable: nat := 8
  const FlagAlive: nat := 0x10

  datatype RaycastProperties = RaycastProperties(
    flags: nat,
    objectTypes: set<ObjectType>,
    except: Option<nat>,
    distance: real)

  /** A room as the ray test sees it, with the result of its walkmesh test
    * (which honours the walkable flag). */
  datatype RoomProbe = RoomProbe(
    name: string,
    hasModel: bool,
    containsOrigin: bool,
    hasWalkmesh: bool,
    walkmeshHit: Option<real>)

  /** An object as the ray test sees it: its squared 2-D distance to the ray
    * origin, and the results of its box test and its walkmesh test. */
  datatype ObjectProbe = ObjectProbe(
    obj: Obj,
    selectable: bool,
    dead: bool,
    dist2: real,
    hasModel: bool,
    aabbHit: Option<real>,
    hasWalkmesh: bool,
    walkmeshHit: Option<real>)

  datatype Hit = RoomHit(room: string, distance: real) | ObjectHit(id: nat, distance: real)

  /** The room stops the ray: it has a model whose box contains the origin
    * in 2-D, a walkmesh, and a walkmesh hit within the ray's distance. */
  predicate RoomStops(props: RaycastProperties, r: RoomProbe) {
    r.hasModel && r.containsOrigin && r.hasWalkmesh && r.walkmeshHit.Some? && r.walkmeshHit.value <= props.distance
  }

  /** The rooms in map order; the first room that stops the ray wins. */
  function RayTestRooms(props: RaycastProperties, rooms: seq<RoomProbe>): (r: Option<Hit>)
    ensures r.None? <==> forall i :: 0 <= i < |rooms| ==> !RoomStops(props, rooms[i])
    ensures r.Some? ==>
              exists i :: (0 <= i < |rooms| && RoomStops(props, rooms[i])
                           && (forall j :: 0 <= j < i ==> !RoomStops(props, rooms[j]))
                           && r == Some(RoomHit(rooms[i].name, rooms[i].walkmeshHit.value)))
  {
    if rooms == [] then None
    else if RoomStops(props, rooms[0]) then Some(RoomHit(rooms[0].name, rooms[0].walkmeshHit.value))
    else
      var r := RayTestRooms(props, rooms[1..]);
      assert forall i :: 1 <= i < |rooms| ==> rooms[i] == rooms[1..][i - 1];
      if r.Some? then
        ghost var i :| 0 <= i < |rooms[1..]| && RoomStops(props, rooms[1..][i])
                     && (forall j :: 0 <= j < i ==> !RoomStops(props, rooms[1..][j]))
                     && r == Some(RoomHit(rooms[1..][i].name, rooms[1..][i].walkmeshHit.value));
        assert RoomStops(props, rooms[i + 1]);
        r
      else r
  }

  /** The object takes part in the test: it is not the excepted object, its
    * type is wanted, it is selectable if required and alive if required. */
  predicate Tested(props: RaycastProperties, o: ObjectProbe) {
    && props.except != Some(o.obj.id)
    && o.obj.kind in props.objectTypes
    && (HasFlag(props.flags, FlagSelectable) ==> o.selectable)
    && (HasFlag(props.flags, FlagAlive) ==> !o.dead)
    && o.dist2 <= props.distance * props.distance
  }

  /** The distance at which a tested object stops the ray, if it does: with
    * the box flag a box hit in [0, distance] on an object with a model,
    * otherwise a walkmesh hit within the distance. */
  function CollisionDistance(props: RaycastProperties, o: ObjectProbe): (d: Option<real>)
    ensures d.Some? ==> d.value <= props.distance
    ensures d.Some? && HasFlag(props.flags, FlagAabb) ==> 0.0 <= d.value && d == o.aabbHit
    ensures d.Some? && !HasFlag(props.flags, FlagAabb) ==> d == o.walkmeshHit
    ensures d.None? <==>
              if HasFlag(props.flags, FlagAabb)
              then !(o.hasModel && o.aabbHit.Some? && 0.0 <= o.aabbHit.value <= props.distance)
              else !(o.hasWalkmesh && o.walkmeshHit.Some? && o.walkmeshHit.value <= props.distance)
  {
    if HasFlag(props.flags, FlagAabb) then
      if o.hasModel && o.aabbHit.Some? && 0.0 <= o.aabbHit.value <= props.distance then o.aabbHit else None
    else
      if o.hasWalkmesh && o.walkmeshHit.Some? && o.walkmeshHit.value <= props.distance then o.walkmeshHit else None
  }

  predicate Collides(props: RaycastProperties, o: ObjectProbe) {
    Tested(props, o) && CollisionDistance(props, o).Some?
  }

  function Collisions(props: RaycastProperties, objects: seq<ObjectProbe>): (r: seq<Keyed<nat>>)
    ensures |r| <= |objects|
    ensures forall i :: 0 <= i < |r| ==>
              exists o :: (o in objects && Collides(props, o)
                           && r[i] == Keyed(Key(0, CollisionDistance(props, o).value), o.obj.id))
    ensures forall o :: o in objects && Collides(props, o) ==>
              Keyed(Key(0, CollisionDistance(props, o).value), o.obj.id) in r
  {
    if objects == [] then []
    else
      var rest := Collisions(props, objects[1..]);
      var o := objects[0];
      assert forall p :: p in objects[1..] ==> p in objects;
      if Collides(props, o) then [Keyed(Key(0, CollisionDistance(props, o).value), o.obj.id)] + rest else rest
  }

  /** The nearest collision among the tested objects, if any. */
  function RayTestObjects(props: RaycastProperties, objects: seq<ObjectProbe>): (r: Option<Hit>)
    ensures r.None? <==> forall o :: o in objects ==> !Collides(props, o)
    ensures r.Some? ==> r.value.ObjectHit?
    ensures r.Some? ==>
              exists o :: (o in objects && Collides(props, o)
                           && o.obj.id == r.value.id && CollisionDistance(props, o).value == r.value.distance)
    ensures r.Some? ==> forall o :: o in objects && Collides(props, o) ==>
              r.value.distance <= CollisionDistance(props, o).value
  {
    var c := Collisions(props, objects);
    if c == [] then
      assert forall o :: o in objects ==> !Collides(props, o);
      None
    else
      var sorted := SortByKey(c);
      NearestFacts(props, objects, c);
      Some(ObjectHit(sorted[0].item, sorted[0].key.minor))
  }

  lemma NearestFacts(props: RaycastProperties, objects: seq<ObjectProbe>, c: seq<Keyed<nat>>)
    requires c == Collisions(props, objects) && c != []
    ensures SortByKey(c)[0] in c
    ensures forall o :: o in objects && Collides(props, o) ==>
              SortByKey(c)[0].key.minor <= CollisionDistance(props, o).value
  {
    var sorted := SortByKey(c);
    SortMember(c, 0);
    forall o | o in objects && Collides(props, o)
      ensures sorted[0].key.minor <= CollisionDistance(props, o).value
    {
      var k := Keyed(Key(0, CollisionDistance(props, o).value), o.obj.id);
      SortContains(c, k);
      var j :| 0 <= j < |sorted| && sorted[j] == k;
      if j > 0 {
        assert KeyLe(sorted[0].key, sorted[j].key);
      }
      var i :| 0 <= i < |c| && c[i] == sorted[0];
    }
  }

  /** With the rooms flag the rooms are tested first and a room hit is the
    * answer, even when an object lies nearer; otherwise the nearest object. */
  function Raycast(props: RaycastProperties, rooms: seq<RoomProbe>, objects: seq<ObjectProbe>): (r: Option<Hit>)
    ensures HasFlag(props.flags, FlagRooms) && RayTestRooms(props, rooms).Some? ==> r == RayTestRooms(props, rooms)
    ensures !(HasFlag(props.flags, FlagRooms) && RayTestRooms(props, rooms).Some?) ==> r == RayTestObjects(props, objects)
    ensures r.None? ==> forall o :: o in objects ==> !Collides(props, o)
  {
    if HasFlag(props.flags, FlagRooms) && RayTestRooms(props, rooms).Some? then RayTestRooms(props, rooms)
    else RayTestObjects(props, objects)
  }

  /** An object that is excepted, of an unwanted type, non-selectable under
    * the selectable flag, or dead under the alive flag is never the hit. */
  lemma ExcludedNeverHit(props: RaycastProperties, rooms: seq<RoomProbe>, objects: seq<ObjectProbe>, o: ObjectProbe)
    requires o in objects && !Tested(props, o)
    requires forall p :: p in objects && p.obj.id == o.obj.id ==> p == o
    ensures Raycast(props, rooms, objects).Some? && Raycast(props, rooms, objects).value.ObjectHit? ==>
              Raycast(props, rooms, objects).value.id != o.obj.id
  {
  }

  /** A room hit wins over a strictly nearer object: the ray cast is not
    * globally nearest when the rooms flag is set. */
  lemma RoomHitBeatsNearerObject(o: Obj)
    ensures var props := RaycastProperties(FlagRooms, {o.kind}, None, 10.0);
            var rooms := [RoomProbe("room", true, true, true, Some(5.0))];
            var objects := [ObjectProbe(o, true, false, 0.0, true, None, true, Some(1.0))];
            && RayTestObjects(props, objects) == Some(ObjectHit(o.id, 1.0))
            && Raycast(props, rooms, objects) == Some(RoomHit("room", 5.0))
  {
    var props := RaycastProperties(FlagRooms, {o.kind}, None, 10.0);
    var objects := [ObjectProbe(o, true, false, 0.0, true, None, true, Some(1.0))];
    assert Collides(props, objects[0]);
    assert forall p :: p in objects ==> p == objects[0];
  }
}
