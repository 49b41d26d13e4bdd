/** The per-frame bookkeeping of the scene graph: culling of root nodes, the
  * lights that affect a reference node, the shadow light and its fade, and
  * the grass clusters worth drawing. Distances, frustum tests and screen
  * projections are inputs. */
module SceneGraph {
  import opened Wrappers
  import opened Sorting

  const MaxLights: int := 16
  const MaxGrassClusters: nat := 256
  const MaxGrassDistance: real := 16.0

  // ---------------------------------------------------------------------
  // Culling

  /** A root node as culling sees it: its visibility, squared distance to
    * the active camera, draw distance, and whether it is cullable and
    * inside the camera frustum. */
  datatype RootView = RootView(visible: bool, dist2: real, drawDistance: real, cullable: bool, inFrustum: bool)

  /** The culled flag of each root node, in order. */
  function CullRoots(roots: seq<RootView>): (culled: seq<bool>)
    ensures |culled| == |roots|
    ensures forall i :: 0 <= i < |roots| && !culled[i] ==>
              roots[i].visible && roots[i].dist2 <= roots[i].drawDistance * roots[i].drawDistance
    ensures forall i :: 0 <= i < |roots| && roots[i].cullable && !roots[i].inFrustum ==> culled[i]
  {
    seq(|roots|, i requires 0 <= i < |roots| =>
      var root := roots[i];
      !root.visible || root.dist2 > root.drawDistance * root.drawDistance || (root.cullable && !root.inFrustum))
  }

  /** A visible root within its draw distance stays drawn when it is inside
    * the frustum or cannot be culled at all. */
  lemma VisibleNearRootDrawn(roots: seq<RootView>, i: nat)
    requires i < |roots| && roots[i].visible && roots[i].dist2 <= roots[i].drawDistance * roots[i].drawDistance
    requires !roots[i].cullable || roots[i].inFrustum
    ensures !CullRoots(roots)[i]
  {
  }

  // ---------------------------------------------------------------------
  // Lights

  /** A light as the lookup sees it: its priority (lower first), squared
    * distance to the reference node, radius and kind. */
  datatype LightView = LightView(id: nat, priority: int, dist2: real, radius: real, ambientOnly: bool, shadow: bool)

  type LightFilter = LightView -> bool

  predicate InRange(l: LightView) {
    l.dist2 <= l.radius * l.radius
  }

  function LightKey(l: LightView): Key {
    Key(l.priority, l.dist2)
  }

  /** The lights passing the filter and within their own radius of the
    * reference node, in scene order. */
  function LightCandidates(lights: seq<LightView>, accept: LightFilter): (r: seq<Keyed<LightView>>)
    ensures |r| <= |lights|
    ensures forall i :: 0 <= i < |r| ==>
              r[i].item in lights && accept(r[i].item) && InRange(r[i].item) && r[i].key == LightKey(r[i].item)
  {
    if lights == [] then []
    else
      var rest := LightCandidates(lights[1..], accept);
      var l := lights[0];
      if accept(l) && InRange(l) then [Keyed(LightKey(l), l)] + rest else rest
  }

  lemma {:induction false} LightCandidatesComplete(lights: seq<LightView>, accept: LightFilter, l: LightView)
    requires l in lights && accept(l) && InRange(l)
    ensures Keyed(LightKey(l), l) in LightCandidates(lights, accept)
  {
    if lights[0] != l {
      LightCandidatesComplete(lights[1..], accept, l);
    }
  }

  /** The size comparison against `count` is unsigned, so a negative count
    * keeps every candidate. */
  function Limit(count: int): nat {
    if count < 0 then 0 else count
  }

  function SortedLights(lights: seq<LightView>, accept: LightFilter, count: int): seq<Keyed<LightView>> {
    var sorted := SortByKey(LightCandidates(lights, accept));
    if count < 0 then sorted else Truncate(sorted, count)
  }

  /** The lights affecting a node: those passing the filter and in range,
    * by ascending priority and then ascending distance, at most `count`. */
  function GetLightsAt(lights: seq<LightView>, accept: LightFilter, count: int): (r: seq<LightView>)
    ensures forall l :: l in r ==> l in lights && accept(l) && InRange(l)
    ensures count >= 0 ==> |r| == if |LightCandidates(lights, accept)| < count then |LightCandidates(lights, accept)| else count
    ensures count < 0 ==> |r| == |LightCandidates(lights, accept)|
    ensures forall i, j :: 0 <= i < j < |r| ==> KeyLe(LightKey(r[i]), LightKey(r[j]))
  {
    var kept := SortedLights(lights, accept, count);
    KeptLightsFacts(lights, accept, count);
    Items(kept)
  }

  lemma KeptLightsFacts(lights: seq<LightView>, accept: LightFilter, count: int)
    ensures var kept := SortedLights(lights, accept, count);
            && (forall i :: 0 <= i < |kept| ==>
                  kept[i].key == LightKey(kept[i].item) && kept[i].item in lights
                  && accept(kept[i].item) && InRange(kept[i].item))
            && (forall i, j :: 0 <= i < j < |kept| ==> KeyLe(kept[i].key, kept[j].key))
  {
    var cands := LightCandidates(lights, accept);
    var kept := SortedLights(lights, accept, count);
    forall i | 0 <= i < |kept|
      ensures kept[i].key == LightKey(kept[i].item) && kept[i].item in lights
              && accept(kept[i].item) && InRange(kept[i].item)
    {
      SortMember(cands, i);
      var k :| 0 <= k < |cands| && cands[k] == kept[i];
    }
  }

  /** A light in range that passes the filter but is left out ranks no
    * better than every light returned, and was left out only because
    * `count` lights were returned. */
  lemma GetLightsAtKeepsBest(lights: seq<LightView>, accept: LightFilter, count: int, l: LightView)
    requires l in lights && accept(l) && InRange(l) && l !in GetLightsAt(lights, accept, count)
    ensures count >= 0 && |GetLightsAt(lights, accept, count)| == count
    ensures forall m :: m in GetLightsAt(lights, accept, count) ==> KeyLe(LightKey(m), LightKey(l))
  {
    var cands := LightCandidates(lights, accept);
    var c := Keyed(LightKey(l), l);
    LightCandidatesComplete(lights, accept, l);
    var kept := SortedLights(lights, accept, count);
    var r := GetLightsAt(lights, accept, count);
    if count < 0 {
      SortContains(cands, c);
    }
    TruncateKeepsBest(cands, Limit(count), c);
    forall m | m in r ensures KeyLe(LightKey(m), LightKey(l)) {
      var i :| 0 <= i < |r| && r[i] == m;
      KeptLightsFacts(lights, accept, count);
      assert kept[i] in kept;
    }
  }

  predicate NotAmbientOnly(l: LightView) {
    !l.ambientOnly
  }

  predicate CastsShadow(l: LightView) {
    l.shadow
  }

  /** With a lighting reference node, the closest lights are at most
    * MaxLights non-ambient lights in range; without one there are none. */
  function UpdateLighting(hasRefNode: bool, lights: seq<LightView>): (r: seq<LightView>)
    ensures !hasRefNode ==> r == []
    ensures |r| <= MaxLights
    ensures forall l :: l in r ==> l in lights && !l.ambientOnly && InRange(l)
  {
    if hasRefNode then GetLightsAt(lights, NotAmbientOnly, MaxLights) else []
  }

  // ---------------------------------------------------------------------
  // Shadows

  /** One step of the shadow fade: fading out lowers the strength by `dt`
    * down to zero, otherwise it rises by `dt` up to one. */
  function UpdateShadows(strength: real, fading: bool, dt: real): (r: real)
    ensures fading ==> r >= 0.0 && (r == 0.0 || r == strength - dt)
    ensures !fading ==> r <= 1.0 && (r == 1.0 || r == strength + dt)
    ensures 0.0 <= strength <= 1.0 && dt >= 0.0 ==> 0.0 <= r <= 1.0
    ensures 0.0 <= strength && dt >= 0.0 ==> if fading then r <= strength else r >= strength || r == 1.0
  {
    if fading then (if strength - dt > 0.0 then strength - dt else 0.0)
    else (if strength + dt < 1.0 then strength + dt else 1.0)
  }

  /** The shadow state the scene keeps between frames. */
  datatype ShadowState = ShadowState(light: Option<nat>, fading: bool, strength: real)

  /** The light that should cast shadows: the best-ranked shadow light in
    * range of the reference node. */
  function NextShadowLight(hasRefNode: bool, lights: seq<LightView>): (r: Option<nat>)
    ensures r.Some? ==> hasRefNode
    ensures r.Some? ==> exists l :: l in lights && l.shadow && InRange(l) && l.id == r.value
    ensures hasRefNode && (exists l :: l in lights && l.shadow && InRange(l)) ==> r.Some?
  {
    if !hasRefNode then None
    else
      var found := GetLightsAt(lights, CastsShadow, 1);
      if found == [] then
        NoShadowLightFound(lights);
        None
      else
        assert found[0] in found;
        Some(found[0].id)
  }

  lemma NoShadowLightFound(lights: seq<LightView>)
    requires GetLightsAt(lights, CastsShadow, 1) == []
    ensures forall l :: l in lights ==> !(l.shadow && InRange(l))
  {
    forall l | l in lights && l.shadow && InRange(l) ensures false {
      GetLightsAtKeepsBest(lights, CastsShadow, 1, l);
    }
  }

  /** Picks the shadow light. No candidate clears it; no current light
    * takes the candidate at once; a different candidate first starts a
    * fade-out and replaces the light only once the strength is zero. */
  function RefreshShadowLight(s: ShadowState, next: Option<nat>): (r: ShadowState)
    ensures next.None? ==> r.light.None?
    ensures r.strength == s.strength
    ensures next.Some? && s.light.None? ==> r.light == next && !r.fading
    ensures r.light.Some? && s.light.Some? && r.light != s.light ==> s.fading && s.strength == 0.0
    ensures next.Some? && s.light.Some? && s.light != next && !(s.fading && s.strength == 0.0) ==>
              r.light == s.light && r.fading
    ensures next.Some? && next == s.light ==> r == s
  {
    if next.None? then s.(light := None)
    else if s.light.None? then s.(light := next, fading := false)
    else if s.light == next then s
    else if s.fading && s.strength == 0.0 then s.(light := next, fading := false)
    else s.(fading := true)
  }

  /** A change of shadow light completes in three frames when the frame
    * time covers the fade: the refresh starts the fade-out, the update
    * brings the strength to zero, the next refresh switches lights and
    * starts fading the new one in. */
  lemma ShadowLightHandover(a: nat, b: nat, strength: real, dt: real)
    requires a != b && dt >= strength
    ensures var s1 := RefreshShadowLight(ShadowState(Some(a), false, strength), Some(b));
            var s2 := s1.(strength := UpdateShadows(s1.strength, s1.fading, dt));
            var s3 := RefreshShadowLight(s2, Some(b));
            && s1.light == Some(a) && s1.fading
            && s2.strength == 0.0
            && s3 == ShadowState(Some(b), false, 0.0)
  {
  }

  // ---------------------------------------------------------------------
  // Grass

  /** A grass cluster as the preparation sees it: its squared distance to
    * the camera and its projected screen position. */
  datatype ClusterView = ClusterView(id: nat, dist2: real, screenX: real, screenY: real, screenZ: real)

  function Abs(x: real): real {
    if x < 0.0 then -x else x
  }

  /** Near enough to the camera, in front of it and inside the viewport. */
  predicate GrassVisible(c: ClusterView) {
    c.dist2 <= MaxGrassDistance * MaxGrassDistance
    && c.screenZ >= 0.5 && Abs(c.screenX) <= 1.0 && Abs(c.screenY) <= 1.0
  }

  /** Clusters are sorted by descending depth: the key is the negated depth. */
  function GrassKey(c: ClusterView): Key {
    Key(0, -c.screenZ)
  }

  function GrassCandidates(clusters: seq<ClusterView>): (r: seq<Keyed<ClusterView>>)
    ensures |r| <= |clusters|
    ensures forall i :: 0 <= i < |r| ==>
              r[i].item in clusters && GrassVisible(r[i].item) && r[i].key == GrassKey(r[i].item)
  {
    if clusters == [] then []
    else
      var rest := GrassCandidates(clusters[1..]);
      var c := clusters[0];
      if GrassVisible(c) then [Keyed(GrassKey(c), c)] + rest else rest
  }

  lemma {:induction false} GrassCandidatesComplete(clusters: seq<ClusterView>, c: ClusterView)
    requires c in clusters && GrassVisible(c)
    ensures Keyed(GrassKey(c), c) in GrassCandidates(clusters)
  {
    if clusters[0] != c {
      GrassCandidatesComplete(clusters[1..], c);
    }
  }

  /** The clusters of one grass node to draw: the visible ones, farthest
    * first, with the farthest dropped so that at most MaxGrassClusters
    * remain. */
  function PrepareGrassNode(clusters: seq<ClusterView>): (r: seq<ClusterView>)
    ensures |r| == if |GrassCandidates(clusters)| < MaxGrassClusters then |GrassCandidates(clusters)| else MaxGrassClusters
    ensures forall c :: c in r ==> c in clusters && GrassVisible(c)
    ensures forall i, j :: 0 <= i < j < |r| ==> r[i].screenZ >= r[j].screenZ
  {
    var kept := KeepLast(SortByKey(GrassCandidates(clusters)), MaxGrassClusters);
    KeptGrassFacts(clusters, kept);
    Items(kept)
  }

  lemma KeptGrassFacts(clusters: seq<ClusterView>, kept: seq<Keyed<ClusterView>>)
    requires kept == KeepLast(SortByKey(GrassCandidates(clusters)), MaxGrassClusters)
    ensures forall i :: 0 <= i < |kept| ==>
              kept[i].key == GrassKey(kept[i].item) && kept[i].item in clusters && GrassVisible(kept[i].item)
    ensures forall i, j :: 0 <= i < j < |kept| ==> KeyLe(kept[i].key, kept[j].key)
  {
    var sorted := SortByKey(GrassCandidates(clusters));
    SortedGrassFacts(clusters, sorted);
    var start := |sorted| - |kept|;
    assert forall i :: 0 <= i < |kept| ==> kept[i] == sorted[start + i];
  }

  lemma SortedGrassFacts(clusters: seq<ClusterView>, sorted: seq<Keyed<ClusterView>>)
    requires sorted == SortByKey(GrassCandidates(clusters))
    ensures forall i :: 0 <= i < |sorted| ==>
              sorted[i].key == GrassKey(sorted[i].item) && sorted[i].item in clusters && GrassVisible(sorted[i].item)
  {
    var cands := GrassCandidates(clusters);
    forall i | 0 <= i < |sorted|
      ensures sorted[i].key == GrassKey(sorted[i].item) && sorted[i].item in clusters && GrassVisible(sorted[i].item)
    {
      SortMember(cands, i);
      var k :| 0 <= k < |cands| && cands[k] == sorted[i];
    }
  }

  /** A visible cluster left out lies at least as deep as every cluster
    * kept, and was dropped only because the cap was reached. */
  lemma PrepareGrassKeepsNearest(clusters: seq<ClusterView>, c: ClusterView)
    requires c in clusters && GrassVisible(c) && c !in PrepareGrassNode(clusters)
    ensures |PrepareGrassNode(clusters)| == MaxGrassClusters
    ensures forall d :: d in PrepareGrassNode(clusters) ==> d.screenZ <= c.screenZ
  {
    var cands := GrassCandidates(clusters);
    var kc := Keyed(GrassKey(c), c);
    GrassCandidatesComplete(clusters, c);
    var kept := KeepLast(SortByKey(cands), MaxGrassClusters);
    var r := PrepareGrassNode(clusters);
    KeptGrassFacts(clusters, kept);
    KeepLastKeepsWorst(cands, MaxGrassClusters, kc);
    forall d | d in r ensures d.screenZ <= c.screenZ {
      var i :| 0 <= i < |r| && r[i] == d;
      assert kept[i] in kept;
      assert KeyLe(kc.key, kept[i].key);
      assert kept[i].key == GrassKey(d);
    }
  }

  /** With an active camera, one cluster list per grass node; otherwise
    * none. */
  function PrepareGrass(hasCamera: bool, grass: seq<seq<ClusterView>>): (r: seq<seq<ClusterView>>)
    ensures !hasCamera ==> r == []
    ensures hasCamera ==> |r| == |grass|
    ensures forall i :: 0 <= i < |r| ==> |r[i]| <= MaxGrassClusters
    ensures forall i :: 0 <= i < |r| ==> forall c :: c in r[i] ==> c in grass[i] && GrassVisible(c)
  {
    if !hasCamera then []
    else seq(|grass|, i requires 0 <= i < |grass| => PrepareGrassNode(grass[i]))
  }
}
