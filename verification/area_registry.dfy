/** The object registry of an area: the master list of spatial objects and
  * the three indexes kept beside it (by id, by tag, by type), plus the set
  * of ids whose destruction is deferred to the next tick. A shared pointer
  * is identified here by its object's id. */
module AreaRegistry {
  import opened Wrappers

  datatype ObjectType =
    | Module | Area | Creature | Item | Trigger | Door | AreaOfEffect
    | Waypoint | Placeable | Store | Encounter | Sound | Camera

  datatype Obj = Obj(id: nat, tag: string, kind: ObjectType)

  datatype Registry = Registry(
    objects: seq<Obj>,
    byId: map<nat, Obj>,
    byTag: map<string, seq<Obj>>,
    byType: map<ObjectType, seq<Obj>>,
    toDestroy: set<nat>)

  /** The object types whose lists exist from the start; Camera is not one. */
  const InitialTypes: set<ObjectType> :=
    {Creature, Item, Trigger, Door, AreaOfEffect, Waypoint, Placeable, Store, Encounter, Sound}

  // ---------------------------------------------------------------------
  // Views of the master list

  function Ids(s: seq<Obj>): (r: set<nat>)
    ensures |r| <= |s|
  {
    if s == [] then {} else {s[0].id} + Ids(s[1..])
  }

  function Tags(s: seq<Obj>): (r: set<string>)
    ensures |r| <= |s|
  {
    if s == [] then {} else {s[0].tag} + Tags(s[1..])
  }

  /** No id occurs twice. */
  predicate UniqueIds(s: seq<Obj>) {
    s == [] || (s[0].id !in Ids(s[1..]) && UniqueIds(s[1..]))
  }

  /** The objects of `s` with tag `t`, in order. */
  function WithTag(s: seq<Obj>, t: string): (r: seq<Obj>)
    ensures |r| <= |s|
  {
    if s == [] then []
    else (if s[0].tag == t then [s[0]] else []) + WithTag(s[1..], t)
  }

  /** The objects of `s` of type `k`, in order. */
  function OfKind(s: seq<Obj>, k: ObjectType): (r: seq<Obj>)
    ensures |r| <= |s|
  {
    if s == [] then []
    else (if s[0].kind == k then [s[0]] else []) + OfKind(s[1..], k)
  }

  /** `s` without the objects whose id is `id`. */
  function Without(s: seq<Obj>, id: nat): (r: seq<Obj>)
    ensures |r| <= |s|
  {
    if s == [] then []
    else (if s[0].id != id then [s[0]] else []) + Without(s[1..], id)
  }

  /** `s` without the objects whose id is in `ids`. */
  function WithoutAll(s: seq<Obj>, ids: set<nat>): (r: seq<Obj>)
    ensures |r| <= |s|
  {
    if s == [] then []
    else (if s[0].id !in ids then [s[0]] else []) + WithoutAll(s[1..], ids)
  }

  /** Erases the first element equal to `x`, as `find_if` then `erase` do. */
  function RemoveFirst(s: seq<Obj>, x: Obj): (r: seq<Obj>)
    ensures x in s ==> |r| == |s| - 1
    ensures x !in s ==> r == s
    ensures forall o :: o in r ==> o in s
  {
    if s == [] then []
    else if s[0] == x then s[1..]
    else [s[0]] + RemoveFirst(s[1..], x)
  }

  /** Ids are unique and each is mapped to its object. */
  ghost predicate IdIndexOk(s: seq<Obj>, byId: map<nat, Obj>) {
    && UniqueIds(s)
    && byId.Keys == Ids(s)
    && (forall o :: o in s ==> o.id in byId && byId[o.id] == o)
  }

  /** Each tag key holds exactly the objects with that tag, in order, and
    * exists only while one does. */
  ghost predicate TagIndexOk(s: seq<Obj>, byTag: map<string, seq<Obj>>) {
    && byTag.Keys == Tags(s)
    && (forall t :: t in byTag ==> byTag[t] == WithTag(s, t))
  }

  /** Each type list holds exactly the objects of that type, in order. */
  ghost predicate TypeIndexOk(s: seq<Obj>, byType: map<ObjectType, seq<Obj>>) {
    && (forall o :: o in s ==> o.kind in byType)
    && (forall k :: k in byType ==> byType[k] == OfKind(s, k))
  }

  /** The indexes agree with the master list. */
  ghost predicate Consistent(r: Registry) {
    && IdIndexOk(r.objects, r.byId)
    && TagIndexOk(r.objects, r.byTag)
    && TypeIndexOk(r.objects, r.byType)
  }

  // ---------------------------------------------------------------------
  // Operations

  /** The registry of a freshly initialised area. */
  function Init(): (r: Registry)
    ensures Consistent(r)
    ensures r.objects == [] && r.toDestroy == {}
    ensures r.byType.Keys == InitialTypes
    ensures Camera !in r.byType
  {
    Registry([], map[], map[], map k | k in InitialTypes :: [], {})
  }

  /** Appends `o` to the master list, its type list, its tag list, and maps
    * its id to it; any other key keeps its entry. */
  function Add(r: Registry, o: Obj): (r': Registry)
    ensures r'.objects == r.objects + [o]
    ensures r'.byId == r.byId[o.id := o]
    ensures o.kind in r'.byType && o.tag in r'.byTag
    ensures r'.byType[o.kind] == (if o.kind in r.byType then r.byType[o.kind] else []) + [o]
    ensures r'.byTag[o.tag] == (if o.tag in r.byTag then r.byTag[o.tag] else []) + [o]
    ensures forall k :: k in r.byType && k != o.kind ==> k in r'.byType && r'.byType[k] == r.byType[k]
    ensures forall t :: t in r.byTag && t != o.tag ==> t in r'.byTag && r'.byTag[t] == r.byTag[t]
    ensures r'.byType.Keys == r.byType.Keys + {o.kind}
    ensures r'.byTag.Keys == r.byTag.Keys + {o.tag}
    ensures r'.toDestroy == r.toDestroy
  {
    var typeList := if o.kind in r.byType then r.byType[o.kind] else [];
    var tagList := if o.tag in r.byTag then r.byTag[o.tag] else [];
    r.(objects := r.objects + [o],
       byType := r.byType[o.kind := typeList + [o]],
       byId := r.byId[o.id := o],
       byTag := r.byTag[o.tag := tagList + [o]])
  }

  function GetObjectById(r: Registry, id: nat): (res: Option<Obj>)
    ensures res.None? <==> id !in r.byId
    ensures res.Some? ==> res.value == r.byId[id]
  {
    if id in r.byId then Some(r.byId[id]) else None
  }

  /** The `nth` object with `tag`. `nth` is a signed int compared with an
    * unsigned size, so a negative `nth` reads as out of range. */
  function GetObjectByTag(r: Registry, tag: string, nth: int): (res: Option<Obj>)
    ensures res.None? <==> tag !in r.byTag || nth < 0 || nth >= |r.byTag[tag]|
    ensures res.Some? ==> res.value == r.byTag[tag][nth]
  {
    if tag !in r.byTag then None
    else if nth < 0 || nth >= |r.byTag[tag]| then None
    else Some(r.byTag[tag][nth])
  }

  /** The list of one object type; a type with no list reads as empty. */
  function GetObjectsByType(r: Registry, k: ObjectType): (res: seq<Obj>)
    ensures k in r.byType ==> res == r.byType[k]
    ensures k !in r.byType ==> res == []
  {
    if k in r.byType then r.byType[k] else []
  }

  /** Records the id for destruction at the start of the next update. */
  function DestroyObject(r: Registry, id: nat): (r': Registry)
    ensures r'.toDestroy == r.toDestroy + {id}
    ensures r'.objects == r.objects && r'.byId == r.byId
    ensures r'.byTag == r.byTag && r'.byType == r.byType
  {
    r.(toDestroy := r.toDestroy + {id})
  }

  /** Removes one object from the list and every index; an unknown id is a
    * no-op. A tag key left with no objects is erased; a type key is kept. */
  function DoDestroyObject(r: Registry, id: nat): (r': Registry)
    ensures id !in r.byId ==> r' == r
    ensures id !in r'.byId
    ensures r'.byId == r.byId - {id}
    ensures r'.byType.Keys == r.byType.Keys
    ensures r'.toDestroy == r.toDestroy
    ensures forall o :: o in r'.objects ==> o in r.objects
  {
    if id !in r.byId then r
    else
      var o := r.byId[id];
      r.(objects := RemoveFirst(r.objects, o),
         byId := r.byId - {id},
         byTag := EraseFromTag(r.byTag, o),
         byType := EraseFromType(r.byType, o))
  }

  /** Erases `o` from its tag list, dropping the key once the list is empty. */
  function EraseFromTag(byTag: map<string, seq<Obj>>, o: Obj): (m: map<string, seq<Obj>>)
    ensures m.Keys <= byTag.Keys
    ensures forall t :: t in byTag && t != o.tag ==> t in m && m[t] == byTag[t]
    ensures forall t :: t in m ==> m[t] != [] || byTag[t] == []
  {
    if o.tag in byTag then
      var tagObjects := RemoveFirst(byTag[o.tag], o);
      if tagObjects == [] then byTag - {o.tag} else byTag[o.tag := tagObjects]
    else byTag
  }

  /** Erases `o` from its type list; the key stays. */
  function EraseFromType(byType: map<ObjectType, seq<Obj>>, o: Obj): (m: map<ObjectType, seq<Obj>>)
    ensures m.Keys == byType.Keys
    ensures forall k :: k in byType && k != o.kind ==> m[k] == byType[k]
  {
    if o.kind in byType then byType[o.kind := RemoveFirst(byType[o.kind], o)]
    else byType
  }

  /** The smallest element of a non-empty set: std::set iterates ascending. */
  function MinId(s: set<nat>): (m: nat)
    requires s != {}
    ensures m in s
    ensures forall x :: x in s ==> m <= x
  {
    MinExists(s);
    var m :| m in s && forall x :: x in s ==> m <= x;
    m
  }

  lemma {:induction false} MinExists(s: set<nat>)
    requires s != {}
    ensures exists m :: m in s && forall x :: x in s ==> m <= x
  {
    var y :| y in s;
    var w := y;
    if s != {y} {
      var rest := s - {y};
      MinExists(rest);
      var m :| m in rest && forall x :: x in rest ==> m <= x;
      w := if y < m then y else m;
      forall x | x in s ensures w <= x {
        if x != y {
          assert x in rest;
        }
      }
    } else {
      forall x | x in s ensures w <= x {
        assert x == y;
      }
    }
    assert w in s;
  }

  /** Destroys the objects of `ids` in ascending id order. */
  function DestroyAll(r: Registry, ids: set<nat>): (r': Registry)
    ensures r'.toDestroy == r.toDestroy
    ensures r'.byId == r.byId - ids
    decreases |ids|
  {
    if ids == {} then r
    else
      var m := MinId(ids);
      DestroyAll(DoDestroyObject(r, m), ids - {m})
  }

  /** Destroys every pending object, then clears the pending set. */
  function DoDestroyObjects(r: Registry): (r': Registry)
    ensures r'.toDestroy == {}
    ensures r'.byId == r.byId - r.toDestroy
  {
    DestroyAll(r, r.toDestroy).(toDestroy := {})
  }

  /** The phases of one area update. */
  datatype Phase =
    | DestroyObjects | Visibility | Sounds | Selection
    | AreaScripts | AreaActions | Rooms | ObjectUpdates | Perception | Heartbeat

  /** The order of the phases of one update: pending destruction comes
    * first, and a paused game runs only the first four phases. */
  function UpdatePhases(paused: bool): (ps: seq<Phase>)
    ensures |ps| > 0 && ps[0] == DestroyObjects
    ensures forall i :: 1 <= i < |ps| ==> ps[i] != DestroyObjects
    ensures paused ==> |ps| == 4
    ensures Perception in ps <==> !paused
    ensures !paused ==> ps[|ps| - 1] == Heartbeat
  {
    [DestroyObjects, Visibility, Sounds, Selection]
      + (if paused then [] else [AreaScripts, AreaActions, Rooms, ObjectUpdates, Perception, Heartbeat])
  }

  /** The registry as the first phase of an update leaves it. */
  function UpdateRegistry(r: Registry): (r': Registry)
    ensures r'.toDestroy == {}
    ensures forall id :: id in r.toDestroy ==> GetObjectById(r', id).None?
  {
    DoDestroyObjects(r)
  }

  // ---------------------------------------------------------------------
  // Lemmas about the filters

  lemma {:induction false} InIds(s: seq<Obj>, id: nat)
    ensures id in Ids(s) <==> exists o :: o in s && o.id == id
  {
    if s != [] {
      InIds(s[1..], id);
      assert forall o :: o in s <==> o == s[0] || o in s[1..];
    }
  }

  lemma {:induction false} InTags(s: seq<Obj>, t: string)
    ensures t in Tags(s) <==> exists o :: o in s && o.tag == t
  {
    if s != [] {
      InTags(s[1..], t);
      assert forall o :: o in s <==> o == s[0] || o in s[1..];
    }
  }

  lemma {:induction false} InWithTag(s: seq<Obj>, t: string, o: Obj)
    ensures o in WithTag(s, t) <==> o in s && o.tag == t
  {
    if s != [] {
      InWithTag(s[1..], t, o);
      assert o in s <==> o == s[0] || o in s[1..];
    }
  }

  lemma {:induction false} InOfKind(s: seq<Obj>, k: ObjectType, o: Obj)
    ensures o in OfKind(s, k) <==> o in s && o.kind == k
  {
    if s != [] {
      InOfKind(s[1..], k, o);
      assert o in s <==> o == s[0] || o in s[1..];
    }
  }

  lemma {:induction false} InWithout(s: seq<Obj>, id: nat, o: Obj)
    ensures o in Without(s, id) <==> o in s && o.id != id
  {
    if s != [] {
      InWithout(s[1..], id, o);
      assert o in s <==> o == s[0] || o in s[1..];
    }
  }

  lemma {:induction false} IdsAppend(s: seq<Obj>, o: Obj)
    ensures Ids(s + [o]) == Ids(s) + {o.id}
  {
    if s != [] {
      assert (s + [o])[1..] == s[1..] + [o];
      IdsAppend(s[1..], o);
    }
  }

  lemma {:induction false} TagsAppend(s: seq<Obj>, o: Obj)
    ensures Tags(s + [o]) == Tags(s) + {o.tag}
  {
    if s != [] {
      assert (s + [o])[1..] == s[1..] + [o];
      TagsAppend(s[1..], o);
    }
  }

  lemma {:induction false} UniqueAppend(s: seq<Obj>, o: Obj)
    requires UniqueIds(s) && o.id !in Ids(s)
    ensures UniqueIds(s + [o])
  {
    if s != [] {
      assert (s + [o])[1..] == s[1..] + [o];
      UniqueAppend(s[1..], o);
      IdsAppend(s[1..], o);
    }
  }

  lemma {:induction false} WithTagAppend(s: seq<Obj>, o: Obj, t: string)
    ensures WithTag(s + [o], t) == WithTag(s, t) + (if o.tag == t then [o] else [])
  {
    if s != [] {
      assert (s + [o])[1..] == s[1..] + [o];
      WithTagAppend(s[1..], o, t);
    }
  }

  lemma {:induction false} OfKindAppend(s: seq<Obj>, o: Obj, k: ObjectType)
    ensures OfKind(s + [o], k) == OfKind(s, k) + (if o.kind == k then [o] else [])
  {
    if s != [] {
      assert (s + [o])[1..] == s[1..] + [o];
      OfKindAppend(s[1..], o, k);
    }
  }

  lemma WithTagCons(x: Obj, u: seq<Obj>, t: string)
    ensures WithTag([x] + u, t) == (if x.tag == t then [x] else []) + WithTag(u, t)
  {
    assert ([x] + u)[1..] == u;
  }

  lemma OfKindCons(x: Obj, u: seq<Obj>, k: ObjectType)
    ensures OfKind([x] + u, k) == (if x.kind == k then [x] else []) + OfKind(u, k)
  {
    assert ([x] + u)[1..] == u;
  }

  lemma WithoutCons(x: Obj, u: seq<Obj>, id: nat)
    ensures Without([x] + u, id) == (if x.id != id then [x] else []) + Without(u, id)
  {
    assert ([x] + u)[1..] == u;
  }

  lemma IdsCons(x: Obj, u: seq<Obj>)
    ensures Ids([x] + u) == {x.id} + Ids(u)
    ensures UniqueIds([x] + u) <==> x.id !in Ids(u) && UniqueIds(u)
  {
    assert ([x] + u)[1..] == u;
  }

  lemma {:induction false} WithTagEmpty(s: seq<Obj>, t: string)
    ensures WithTag(s, t) == [] <==> t !in Tags(s)
  {
    if s != [] {
      WithTagEmpty(s[1..], t);
    }
  }

  lemma {:induction false} WithoutAbsent(s: seq<Obj>, id: nat)
    requires id !in Ids(s)
    ensures Without(s, id) == s
  {
    if s != [] {
      WithoutAbsent(s[1..], id);
      assert s == [s[0]] + s[1..];
    }
  }

  lemma {:induction false} IdsWithout(s: seq<Obj>, id: nat)
    ensures Ids(Without(s, id)) == Ids(s) - {id}
  {
    if s != [] {
      IdsWithout(s[1..], id);
      var w := Without(s[1..], id);
      assert Ids(s) == {s[0].id} + Ids(s[1..]);
      if s[0].id != id {
        assert Without(s, id) == [s[0]] + w;
        IdsCons(s[0], w);
      } else {
        assert Without(s, id) == w;
      }
    }
  }

  lemma {:induction false} UniqueWithout(s: seq<Obj>, id: nat)
    requires UniqueIds(s)
    ensures UniqueIds(Without(s, id))
    ensures Ids(Without(s, id)) == Ids(s) - {id}
  {
    IdsWithout(s, id);
    if s != [] {
      UniqueWithout(s[1..], id);
      var w := Without(s[1..], id);
      if s[0].id != id {
        assert Without(s, id) == [s[0]] + w;
        IdsCons(s[0], w);
      } else {
        assert Without(s, id) == w;
      }
    }
  }

  /** On a list with unique ids whose only object with `x`'s id is `x`,
    * erasing `x` is filtering its id out. */
  lemma {:induction false} RemoveFirstIsWithout(s: seq<Obj>, x: Obj)
    requires UniqueIds(s)
    requires forall y :: y in s && y.id == x.id ==> y == x
    ensures RemoveFirst(s, x) == Without(s, x.id)
  {
    if s != [] {
      if s[0] == x {
        WithoutAbsent(s[1..], x.id);
        assert Without(s, x.id) == Without(s[1..], x.id);
      } else {
        assert forall y :: y in s[1..] ==> y in s;
        RemoveFirstIsWithout(s[1..], x);
        assert s[0].id != x.id;
      }
    }
  }

  lemma {:induction false} UniqueWithTag(s: seq<Obj>, t: string)
    requires UniqueIds(s)
    ensures UniqueIds(WithTag(s, t))
    ensures Ids(WithTag(s, t)) <= Ids(s)
  {
    if s != [] {
      UniqueWithTag(s[1..], t);
      var w := WithTag(s[1..], t);
      if s[0].tag == t {
        IdsCons(s[0], w);
      } else {
        assert WithTag(s, t) == w;
      }
    }
  }

  lemma {:induction false} UniqueOfKind(s: seq<Obj>, k: ObjectType)
    requires UniqueIds(s)
    ensures UniqueIds(OfKind(s, k))
    ensures Ids(OfKind(s, k)) <= Ids(s)
  {
    if s != [] {
      UniqueOfKind(s[1..], k);
      var w := OfKind(s[1..], k);
      if s[0].kind == k {
        IdsCons(s[0], w);
      } else {
        assert OfKind(s, k) == w;
      }
    }
  }

  lemma {:induction false} WithTagWithout(s: seq<Obj>, t: string, id: nat)
    ensures WithTag(Without(s, id), t) == Without(WithTag(s, t), id)
  {
    if s != [] {
      WithTagWithout(s[1..], t, id);
      var x := s[0];
      var w := Without(s[1..], id);
      var f := WithTag(s[1..], t);
      assert Without(s, id) == (if x.id != id then [x] else []) + w;
      assert WithTag(s, t) == (if x.tag == t then [x] else []) + f;
      WithTagCons(x, w, t);
      WithoutCons(x, f, id);
      if x.id == id {
        assert Without(s, id) == w;
        if x.tag == t {
          assert Without(WithTag(s, t), id) == Without(f, id);
        } else {
          assert WithTag(s, t) == f;
        }
      } else if x.tag != t {
        assert WithTag(s, t) == f;
      }
    }
  }

  lemma {:induction false} OfKindWithout(s: seq<Obj>, k: ObjectType, id: nat)
    ensures OfKind(Without(s, id), k) == Without(OfKind(s, k), id)
  {
    if s != [] {
      OfKindWithout(s[1..], k, id);
      var x := s[0];
      var w := Without(s[1..], id);
      var f := OfKind(s[1..], k);
      assert Without(s, id) == (if x.id != id then [x] else []) + w;
      assert OfKind(s, k) == (if x.kind == k then [x] else []) + f;
      OfKindCons(x, w, k);
      WithoutCons(x, f, id);
      if x.id == id {
        assert Without(s, id) == w;
        if x.kind == k {
          assert Without(OfKind(s, k), id) == Without(f, id);
        } else {
          assert OfKind(s, k) == f;
        }
      } else if x.kind != k {
        assert OfKind(s, k) == f;
      }
    }
  }

  lemma {:induction false} WithoutAllStep(s: seq<Obj>, ids: set<nat>, m: nat)
    requires m in ids
    ensures WithoutAll(Without(s, m), ids - {m}) == WithoutAll(s, ids)
  {
    if s != [] {
      WithoutAllStep(s[1..], ids, m);
      var x := s[0];
      var w := Without(s[1..], m);
      if x.id != m {
        assert Without(s, m) == [x] + w;
        assert ([x] + w)[1..] == w;
      } else {
        assert Without(s, m) == w;
        assert x.id in ids;
        assert WithoutAll(s, ids) == WithoutAll(s[1..], ids);
      }
    }
  }

  // ---------------------------------------------------------------------
  // Properties of the operations

  lemma AddIdIndex(s: seq<Obj>, byId: map<nat, Obj>, o: Obj)
    requires IdIndexOk(s, byId) && o.id !in byId
    ensures IdIndexOk(s + [o], byId[o.id := o])
  {
    UniqueAppend(s, o);
    IdsAppend(s, o);
  }

  lemma AddTagIndex(s: seq<Obj>, byTag: map<string, seq<Obj>>, o: Obj)
    requires TagIndexOk(s, byTag)
    ensures TagIndexOk(s + [o], byTag[o.tag := (if o.tag in byTag then byTag[o.tag] else []) + [o]])
  {
    TagsAppend(s, o);
    var m := byTag[o.tag := (if o.tag in byTag then byTag[o.tag] else []) + [o]];
    forall t | t in m ensures m[t] == WithTag(s + [o], t) {
      WithTagAppend(s, o, t);
      if t == o.tag && t !in byTag {
        WithTagEmpty(s, t);
      }
    }
  }

  lemma AddTypeIndex(s: seq<Obj>, byType: map<ObjectType, seq<Obj>>, o: Obj)
    requires TypeIndexOk(s, byType)
    ensures TypeIndexOk(s + [o], byType[o.kind := (if o.kind in byType then byType[o.kind] else []) + [o]])
  {
    var m := byType[o.kind := (if o.kind in byType then byType[o.kind] else []) + [o]];
    forall k | k in m ensures m[k] == OfKind(s + [o], k) {
      OfKindAppend(s, o, k);
      if k == o.kind && k !in byType && OfKind(s, k) != [] {
        InOfKind(s, k, OfKind(s, k)[0]);
      }
    }
  }

  /** Adding an object with a fresh id keeps the indexes consistent, and the
    * object is then found by its id and as the last object with its tag. */
  lemma AddPreservesConsistent(r: Registry, o: Obj)
    requires Consistent(r)
    requires o.id !in r.byId
    ensures Consistent(Add(r, o))
    ensures GetObjectById(Add(r, o), o.id) == Some(o)
    ensures GetObjectByTag(Add(r, o), o.tag, |WithTag(r.objects, o.tag)|) == Some(o)
  {
    AddIdIndex(r.objects, r.byId, o);
    AddTagIndex(r.objects, r.byTag, o);
    AddTypeIndex(r.objects, r.byType, o);
    WithTagAppend(r.objects, o, o.tag);
  }

  /** In a consistent id index, `o` is the only object with its id. */
  lemma OnlyObjectWithId(s: seq<Obj>, byId: map<nat, Obj>, o: Obj)
    requires IdIndexOk(s, byId) && o.id in byId && byId[o.id] == o
    ensures forall z :: z in s && z.id == o.id ==> z == o
  {
  }

  lemma DestroyIdIndex(s: seq<Obj>, byId: map<nat, Obj>, id: nat)
    requires IdIndexOk(s, byId) && id in byId
    ensures RemoveFirst(s, byId[id]) == Without(s, id)
    ensures IdIndexOk(Without(s, id), byId - {id})
  {
    var o := byId[id];
    InIds(s, id);
    OnlyObjectWithId(s, byId, o);
    RemoveFirstIsWithout(s, o);
    UniqueWithout(s, id);
    forall z | z in Without(s, id) ensures z.id in byId - {id} && (byId - {id})[z.id] == z {
      InWithout(s, id, z);
    }
  }

  /** The facts about one tag list after erasing `o`. */
  lemma DestroyTagEntry(s: seq<Obj>, byTag: map<string, seq<Obj>>, o: Obj, t: string)
    requires TagIndexOk(s, byTag) && UniqueIds(s) && o in s
    requires forall z :: z in s && z.id == o.id ==> z == o
    ensures t in EraseFromTag(byTag, o) <==> WithTag(Without(s, o.id), t) != []
    ensures t in EraseFromTag(byTag, o) ==>
              EraseFromTag(byTag, o)[t] == Without(byTag[t], o.id) == WithTag(Without(s, o.id), t)
  {
    var m := EraseFromTag(byTag, o);
    WithTagWithout(s, t, o.id);
    WithTagEmpty(s, t);
    if t == o.tag {
      InTags(s, o.tag);
      UniqueWithTag(s, o.tag);
      forall z | z in WithTag(s, o.tag) && z.id == o.id ensures z == o {
        InWithTag(s, o.tag, z);
      }
      RemoveFirstIsWithout(WithTag(s, o.tag), o);
    } else if t in byTag {
      if o.id in Ids(WithTag(s, t)) {
        InIds(WithTag(s, t), o.id);
        var z :| z in WithTag(s, t) && z.id == o.id;
        InWithTag(s, t, z);
        assert false;
      }
      WithoutAbsent(WithTag(s, t), o.id);
    }
  }

  lemma DestroyTagIndex(s: seq<Obj>, byTag: map<string, seq<Obj>>, o: Obj)
    requires TagIndexOk(s, byTag) && UniqueIds(s) && o in s
    requires forall z :: z in s && z.id == o.id ==> z == o
    ensures TagIndexOk(Without(s, o.id), EraseFromTag(byTag, o))
    ensures forall t :: t in EraseFromTag(byTag, o) ==> EraseFromTag(byTag, o)[t] == Without(byTag[t], o.id)
  {
    var s' := Without(s, o.id);
    var m := EraseFromTag(byTag, o);
    forall t | t in m ensures m[t] == Without(byTag[t], o.id) && m[t] == WithTag(s', t) {
      DestroyTagEntry(s, byTag, o, t);
    }
    forall t | t in Tags(s') ensures t in m {
      WithTagEmpty(s', t);
      DestroyTagEntry(s, byTag, o, t);
    }
    forall t | t in m ensures t in Tags(s') {
      WithTagEmpty(s', t);
      DestroyTagEntry(s, byTag, o, t);
    }
  }

  lemma DestroyTypeIndex(s: seq<Obj>, byType: map<ObjectType, seq<Obj>>, o: Obj)
    requires TypeIndexOk(s, byType) && UniqueIds(s) && o in s
    requires forall z :: z in s && z.id == o.id ==> z == o
    ensures TypeIndexOk(Without(s, o.id), EraseFromType(byType, o))
    ensures forall k :: k in byType ==> EraseFromType(byType, o)[k] == Without(byType[k], o.id)
  {
    var s' := Without(s, o.id);
    var m := EraseFromType(byType, o);
    UniqueOfKind(s, o.kind);
    forall z | z in OfKind(s, o.kind) && z.id == o.id ensures z == o {
      InOfKind(s, o.kind, z);
    }
    RemoveFirstIsWithout(OfKind(s, o.kind), o);
    forall k | k in m ensures m[k] == Without(byType[k], o.id) && m[k] == OfKind(s', k) {
      OfKindWithout(s, k, o.id);
      if k != o.kind {
        if o.id in Ids(OfKind(s, k)) {
          InIds(OfKind(s, k), o.id);
          var z :| z in OfKind(s, k) && z.id == o.id;
          InOfKind(s, k, z);
          assert false;
        }
        WithoutAbsent(OfKind(s, k), o.id);
      }
    }
    forall z | z in s' ensures z.kind in m {
      InWithout(s, o.id, z);
    }
  }

  /** Destroying an object keeps the indexes consistent and removes exactly
    * that object from the master list, its tag list and its type list;
    * every other object stays. An unknown id changes nothing. */
  lemma DoDestroyObjectSpec(r: Registry, id: nat)
    requires Consistent(r)
    ensures Consistent(DoDestroyObject(r, id))
    ensures DoDestroyObject(r, id).objects == Without(r.objects, id)
    ensures forall t :: t in DoDestroyObject(r, id).byTag ==>
              DoDestroyObject(r, id).byTag[t] == Without(r.byTag[t], id)
    ensures forall k :: k in r.byType ==>
              DoDestroyObject(r, id).byType[k] == Without(r.byType[k], id)
  {
    if id !in r.byId {
      WithoutAbsent(r.objects, id);
      forall t | t in r.byTag ensures r.byTag[t] == Without(r.byTag[t], id) {
        if id in Ids(r.byTag[t]) {
          InIds(r.byTag[t], id);
          var z :| z in r.byTag[t] && z.id == id;
          InWithTag(r.objects, t, z);
          assert false;
        }
        WithoutAbsent(r.byTag[t], id);
      }
      forall k | k in r.byType ensures r.byType[k] == Without(r.byType[k], id) {
        if id in Ids(r.byType[k]) {
          InIds(r.byType[k], id);
          var z :| z in r.byType[k] && z.id == id;
          InOfKind(r.objects, k, z);
          assert false;
        }
        WithoutAbsent(r.byType[k], id);
      }
    } else {
      var o := r.byId[id];
      InIds(r.objects, id);
      OnlyObjectWithId(r.objects, r.byId, o);
      DestroyIdIndex(r.objects, r.byId, id);
      DestroyTagIndex(r.objects, r.byTag, o);
      DestroyTypeIndex(r.objects, r.byType, o);
    }
  }

  /** Destroying a set of ids removes exactly those objects and keeps the
    * registry consistent. */
  lemma {:induction false} DestroyAllSpec(r: Registry, ids: set<nat>)
    requires Consistent(r)
    ensures Consistent(DestroyAll(r, ids))
    ensures DestroyAll(r, ids).objects == WithoutAll(r.objects, ids)
    decreases |ids|
  {
    if ids == {} {
      WithoutAllEmpty(r.objects);
    } else {
      var m := MinId(ids);
      DoDestroyObjectSpec(r, m);
      DestroyAllSpec(DoDestroyObject(r, m), ids - {m});
      WithoutAllStep(r.objects, ids, m);
    }
  }

  lemma {:induction false} WithoutAllEmpty(s: seq<Obj>)
    ensures WithoutAll(s, {}) == s
  {
    if s != [] {
      WithoutAllEmpty(s[1..]);
    }
  }

  /** The first phase of an update removes exactly the pending objects. */
  lemma UpdateRegistrySpec(r: Registry)
    requires Consistent(r)
    ensures Consistent(UpdateRegistry(r))
    ensures UpdateRegistry(r).objects == WithoutAll(r.objects, r.toDestroy)
  {
    DestroyAllSpec(r, r.toDestroy);
  }

  /** In a consistent registry the tag lookup walks the objects with that
    * tag in insertion order. */
  lemma GetObjectByTagInOrder(r: Registry, tag: string, nth: int)
    requires Consistent(r)
    ensures GetObjectByTag(r, tag, nth).Some? <==> 0 <= nth < |WithTag(r.objects, tag)|
    ensures GetObjectByTag(r, tag, nth).Some? ==>
              GetObjectByTag(r, tag, nth).value == WithTag(r.objects, tag)[nth]
  {
    if tag !in r.byTag {
      WithTagEmpty(r.objects, tag);
    }
  }
}
