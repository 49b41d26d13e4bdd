/** A trigger: a polygon on the ground that records which objects are
  * inside it (its tenants) and runs scripts when they enter or leave. The
  * polygon test is a ray cast straight down against one or two triangles of
  * the trigger's geometry; the ray/triangle test itself is an input. */
module Triggers {

  datatype Vec3 = Vec3(x: real, y: real, z: real)

  datatype Trigger = Trigger(
    id: nat,
    geometry: seq<Vec3>,
    tenants: set<nat>,
    linkedToModule: string,
    linkedTo: string,
    onEnter: string,
    onExit: string)

  /** Whether a downward ray through the point hits the triangle (a, b, c). */
  type TriangleHit = (Vec3, Vec3, Vec3) -> bool

  function AddTenant(t: Trigger, obj: nat): (t': Trigger)
    ensures t'.tenants == t.tenants + {obj}
    ensures t'.(tenants := t.tenants) == t
  {
    t.(tenants := t.tenants + {obj})
  }

  predicate IsTenant(t: Trigger, obj: nat) {
    obj in t.tenants
  }

  /** The point is inside when the ray hits the first triangle (0, 1, 2) or,
    * for a geometry of at least four points, the second one (2, 3, 0). */
  function IsIn(geometry: seq<Vec3>, hit: TriangleHit): (b: bool)
    ensures |geometry| < 3 ==> !b
    ensures |geometry| == 3 ==> (b <==> hit(geometry[0], geometry[1], geometry[2]))
    ensures b ==> |geometry| >= 3
  {
    (|geometry| >= 3 && hit(geometry[0], geometry[1], geometry[2]))
    || (|geometry| >= 4 && hit(geometry[2], geometry[3], geometry[0]))
  }

  /** The result of a trigger's per-frame update: the trigger with the
    * departed tenants removed, and the tenants whose exit script runs. */
  datatype UpdateResult = UpdateResult(trigger: Trigger, exitScriptsFor: set<nat>)

  /** Removes every tenant that is no longer inside; the exit script runs
    * once per removed tenant when the trigger has one. `inside` tells
    * whether a tenant's current position is inside the trigger. */
  function Update(t: Trigger, inside: nat -> bool): (r: UpdateResult)
    ensures r.trigger.tenants <= t.tenants
    ensures forall o :: o in t.tenants ==> (o in r.trigger.tenants <==> inside(o))
    ensures t.onExit == "" ==> r.exitScriptsFor == {}
    ensures t.onExit != "" ==> r.exitScriptsFor == (set o | o in t.tenants && !inside(o))
    ensures r.trigger.(tenants := t.tenants) == t
  {
    var kept := set o | o in t.tenants && inside(o);
    var removed := t.tenants - kept;
    UpdateResult(t.(tenants := kept), if t.onExit == "" then {} else removed)
  }

  /** After `AddTenant`, the object is a tenant and every earlier tenant
    * still is. */
  lemma AddTenantThenIsTenant(t: Trigger, obj: nat, other: nat)
    ensures IsTenant(AddTenant(t, obj), obj)
    ensures IsTenant(t, other) ==> IsTenant(AddTenant(t, obj), other)
    ensures other != obj ==> (IsTenant(AddTenant(t, obj), other) <==> IsTenant(t, other))
  {
  }

  /** Points after the fourth are never consulted. */
  lemma IsInReadsFourPoints(geometry: seq<Vec3>, hit: TriangleHit)
    requires |geometry| >= 4
    ensures IsIn(geometry, hit) == IsIn(geometry[..4], hit)
  {
  }

  /** An update is idempotent when nobody moves: a second update with the
    * same positions removes nobody and runs no exit script. */
  lemma UpdateIdempotent(t: Trigger, inside: nat -> bool)
    ensures Update(Update(t, inside).trigger, inside).trigger == Update(t, inside).trigger
    ensures Update(Update(t, inside).trigger, inside).exitScriptsFor == {}
  {
  }
}
