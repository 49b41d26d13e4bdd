/** Object selection in an area: the list of selectable objects around the
  * party leader, nearest first, and cycling the selection through it. */
module Selection {
  import opened Wrappers
  import opened Sorting

  /** An object as the selection sees it: whether it is selectable, has a
    * visible model, and its squared distance to the party leader. */
  datatype Selectable = Selectable(id: nat, selectable: bool, hasModel: bool, visible: bool, dist2: real)

  /** An object is offered when it is selectable, is not the leader, has a
    * visible model and lies within the selection distance. */
  predicate Offered(o: Selectable, leader: nat, maxDist: real) {
    o.selectable && o.id != leader && o.hasModel && o.visible && o.dist2 <= maxDist * maxDist
  }

  function OfferedKeyed(objects: seq<Selectable>, leader: nat, maxDist: real): (r: seq<Keyed<Selectable>>)
    ensures |r| <= |objects|
    ensures forall i :: 0 <= i < |r| ==>
              r[i].item in objects && Offered(r[i].item, leader, maxDist) && r[i].key == Key(0, r[i].item.dist2)
  {
    if objects == [] then []
    else
      var rest := OfferedKeyed(objects[1..], leader, maxDist);
      var o := objects[0];
      if Offered(o, leader, maxDist) then [Keyed(Key(0, o.dist2), o)] + rest else rest
  }

  lemma {:induction false} OfferedKeyedComplete(objects: seq<Selectable>, leader: nat, maxDist: real, o: Selectable)
    requires o in objects && Offered(o, leader, maxDist)
    ensures Keyed(Key(0, o.dist2), o) in OfferedKeyed(objects, leader, maxDist)
  {
    if objects[0] != o {
      OfferedKeyedComplete(objects[1..], leader, maxDist, o);
    }
  }

  /** The offered objects in the order of the area's object list. */
  function OfferedObjects(objects: seq<Selectable>, leader: nat, maxDist: real): (r: seq<Selectable>)
    ensures multiset(r) <= multiset(objects)
  {
    if objects == [] then []
    else
      assert objects == [objects[0]] + objects[1..];
      (if Offered(objects[0], leader, maxDist) then [objects[0]] else []) + OfferedObjects(objects[1..], leader, maxDist)
  }

  lemma {:induction false} ItemsOfOfferedKeyed(objects: seq<Selectable>, leader: nat, maxDist: real)
    ensures Items(OfferedKeyed(objects, leader, maxDist)) == OfferedObjects(objects, leader, maxDist)
  {
    if objects != [] {
      ItemsOfOfferedKeyed(objects[1..], leader, maxDist);
    }
  }

  /** The selectable objects, nearest first: a reordering of exactly the
    * offered objects, each as often as the area lists it. */
  function GetSelectableObjects(objects: seq<Selectable>, leader: nat, maxDist: real): (r: seq<Selectable>)
    ensures forall o :: o in r ==> o in objects && Offered(o, leader, maxDist)
    ensures forall o :: o in objects && Offered(o, leader, maxDist) ==> o in r
    ensures forall i, j :: 0 <= i < j < |r| ==> r[i].dist2 <= r[j].dist2
    ensures multiset(r) == multiset(OfferedObjects(objects, leader, maxDist))
  {
    SelectableFacts(objects, leader, maxDist);
    SelectablePermutation(objects, leader, maxDist);
    Items(SortByKey(OfferedKeyed(objects, leader, maxDist)))
  }

  lemma SelectablePermutation(objects: seq<Selectable>, leader: nat, maxDist: real)
    ensures multiset(Items(SortByKey(OfferedKeyed(objects, leader, maxDist))))
            == multiset(OfferedObjects(objects, leader, maxDist))
  {
    var keyed := OfferedKeyed(objects, leader, maxDist);
    ItemsPermutation(SortByKey(keyed), keyed);
    ItemsOfOfferedKeyed(objects, leader, maxDist);
  }

  function Ids(s: seq<Selectable>): (r: seq<nat>)
    ensures |r| == |s| && forall i :: 0 <= i < |s| ==> r[i] == s[i].id
  {
    seq(|s|, i requires 0 <= i < |s| => s[i].id)
  }

  /** No id occurs twice in a list whose elements have distinct ids. */
  lemma {:induction false} DistinctIdsCount(s: seq<Selectable>, x: Selectable)
    requires Distinct(Ids(s))
    ensures multiset(s)[x] <= 1
  {
    if s != [] {
      assert s == [s[0]] + s[1..];
      assert Distinct(Ids(s[1..])) by {
        forall i, j | 0 <= i < j < |s[1..]| ensures Ids(s[1..])[i] != Ids(s[1..])[j] {
          assert Ids(s)[i + 1] != Ids(s)[j + 1];
        }
      }
      DistinctIdsCount(s[1..], x);
      if s[0] == x {
        assert x !in s[1..] by {
          forall k | 0 <= k < |s[1..]| ensures s[1..][k] != x {
            assert Ids(s)[0] != Ids(s)[k + 1];
          }
        }
      }
    }
  }

  /** An element at two positions occurs at least twice. */
  lemma TwiceCounted(r: seq<Selectable>, i: nat, j: nat)
    requires i < j < |r| && r[i] == r[j]
    ensures multiset(r)[r[j]] >= 2
  {
    assert r == r[..j] + [r[j]] + r[j + 1..];
    assert r[i] in r[..j];
    assert multiset(r) == multiset(r[..j]) + multiset{r[j]} + multiset(r[j + 1..]);
  }

  /** When the area's objects have distinct ids, so do the selectable
    * objects, so cycling through them forward and back returns to the
    * start (`SelectNextThenBack`). */
  lemma SelectableIdsDistinct(objects: seq<Selectable>, leader: nat, maxDist: real)
    requires Distinct(Ids(objects))
    ensures Distinct(Ids(GetSelectableObjects(objects, leader, maxDist)))
  {
    var r := GetSelectableObjects(objects, leader, maxDist);
    assert multiset(r) <= multiset(objects);
    SubMultisetIdsDistinct(r, objects);
  }

  /** Taking each element of a list with distinct ids at most as often as
    * it occurs keeps the ids distinct. */
  lemma SubMultisetIdsDistinct(r: seq<Selectable>, objects: seq<Selectable>)
    requires Distinct(Ids(objects)) && multiset(r) <= multiset(objects)
    ensures Distinct(Ids(r))
  {
    forall i, j | 0 <= i < j < |r|
      ensures Ids(r)[i] != Ids(r)[j]
    {
      if r[i] == r[j] {
        TwiceCounted(r, i, j);
        DistinctIdsCount(objects, r[j]);
        assert false;
      } else {
        assert r[i] in multiset(objects) && r[j] in multiset(objects);
        var p :| 0 <= p < |objects| && objects[p] == r[i];
        var q :| 0 <= q < |objects| && objects[q] == r[j];
        assert Ids(objects)[p] != Ids(objects)[q] || p == q;
      }
    }
  }


  lemma SelectableFacts(objects: seq<Selectable>, leader: nat, maxDist: real)
    ensures var sorted := SortByKey(OfferedKeyed(objects, leader, maxDist));
            && (forall i :: 0 <= i < |sorted| ==>
                  sorted[i].item in objects && Offered(sorted[i].item, leader, maxDist)
                  && sorted[i].key == Key(0, sorted[i].item.dist2))
            && (forall o :: o in objects && Offered(o, leader, maxDist) ==> Keyed(Key(0, o.dist2), o) in sorted)
  {
    var keyed := OfferedKeyed(objects, leader, maxDist);
    forall i | 0 <= i < |SortByKey(keyed)|
      ensures SortByKey(keyed)[i] in keyed
    {
      SortMember(keyed, i);
    }
    forall o | o in objects && Offered(o, leader, maxDist)
      ensures Keyed(Key(0, o.dist2), o) in SortByKey(keyed)
    {
      OfferedKeyedComplete(objects, leader, maxDist, o);
      SortContains(keyed, Keyed(Key(0, o.dist2), o));
    }
  }

  /** Index of the first occurrence of `x` in `s`. */
  function IndexOf(s: seq<nat>, x: nat): (i: nat)
    requires x in s
    ensures i < |s| && s[i] == x
    ensures forall j :: 0 <= j < i ==> s[j] != x
  {
    if s[0] == x then 0 else 1 + IndexOf(s[1..], x)
  }

  /** Index of the last occurrence of `x` in `s`. */
  function LastIndexOf(s: seq<nat>, x: nat): (i: nat)
    requires x in s
    ensures i < |s| && s[i] == x
    ensures forall j :: i < j < |s| ==> s[j] != x
  {
    if s[|s| - 1] == x then |s| - 1 else LastIndexOf(s[..|s| - 1], x)
  }

  /** Moves the selection through the selectable objects. No selectables
    * clears it; no selection takes the nearest. Otherwise the selection
    * steps forward (or, reversed, backward) from its position, wrapping to
    * the front (or the back); a selection no longer in the list also
    * restarts at the front (or the back). */
  function SelectNextObject(selectables: seq<nat>, selected: Option<nat>, reverse: bool): (r: Option<nat>)
    ensures selectables == [] <==> r.None?
    ensures r.Some? ==> r.value in selectables
    ensures selectables != [] && selected.None? ==> r == Some(selectables[0])
    ensures selectables != [] && selected.Some? && selected.value !in selectables ==>
              r == Some(if reverse then selectables[|selectables| - 1] else selectables[0])
    ensures selected.Some? && selected.value in selectables && !reverse ==>
              var i := IndexOf(selectables, selected.value);
              r == Some(if i + 1 < |selectables| then selectables[i + 1] else selectables[0])
    ensures selected.Some? && selected.value in selectables && reverse ==>
              var i := LastIndexOf(selectables, selected.value);
              r == Some(if i > 0 then selectables[i - 1] else selectables[|selectables| - 1])
  {
    if selectables == [] then None
    else if selected.None? then Some(selectables[0])
    else if reverse then
      if selected.value in selectables then
        var i := LastIndexOf(selectables, selected.value);
        Some(if i > 0 then selectables[i - 1] else selectables[|selectables| - 1])
      else Some(selectables[|selectables| - 1])
    else
      if selected.value in selectables then
        var i := IndexOf(selectables, selected.value);
        Some(if i + 1 < |selectables| then selectables[i + 1] else selectables[0])
      else Some(selectables[0])
  }

  predicate Distinct(s: seq<nat>) {
    forall i, j :: 0 <= i < j < |s| ==> s[i] != s[j]
  }

  /** Over distinct selectables, stepping forward and then back returns to
    * the object selected before. */
  lemma SelectNextThenBack(selectables: seq<nat>, x: nat)
    requires Distinct(selectables) && x in selectables
    ensures SelectNextObject(selectables, SelectNextObject(selectables, Some(x), false), true) == Some(x)
  {
    var n := |selectables|;
    var i := IndexOf(selectables, x);
    var y := SelectNextObject(selectables, Some(x), false).value;
    var k := if i + 1 < n then i + 1 else 0;
    assert y == selectables[k];
    var l := LastIndexOf(selectables, y);
    assert l == k;
  }

  /** Selecting the nearest object clears the selection and steps once: the
    * result is the nearest selectable, if any. */
  function SelectNearestObject(selectables: seq<nat>): (r: Option<nat>)
    ensures selectables == [] ==> r.None?
    ensures selectables != [] ==> r == Some(selectables[0])
  {
    SelectNextObject(selectables, None, false)
  }

  /** Drops a hilighted or selected object that is no longer selectable. */
  function UpdateObjectSelection(current: Option<nat>, selectable: nat -> bool): (r: Option<nat>)
    ensures r.Some? ==> r == current && selectable(r.value)
    ensures current.Some? && selectable(current.value) ==> r == current
  {
    if current.Some? && !selectable(current.value) then None else current
  }
}
