/** A model: a tree of named nodes, its own animations and an optional
  * supermodel whose nodes and animations it inherits. */
module Models {
  import opened Wrappers
  import opened Text
  import Animation

  /** A node with its children; `boneSerials` is present on skinned meshes
    * and holds, per bone, the depth-first serial number of the bone's node. */
  datatype ModelNode = ModelNode(name: string, boneSerials: Option<seq<nat>>, children: seq<ModelNode>)

  /** Own animations are keyed by name and kept in ascending name order.
    * The engine's map is unordered, so this is one order it may list them
    * in. */
  datatype Model = Model(
    name: string,
    root: ModelNode,
    animations: seq<Animation.Anim>,
    superModel: Option<Model>,
    animationScale: real)

  // ---------------------------------------------------------------------
  // Nodes

  /** The nodes of the tree in depth-first pre-order: the order of the
    * model's node list and of the serial numbers bones refer to. */
  function Flatten(n: ModelNode): (r: seq<ModelNode>)
    ensures |r| >= 1 && r[0] == n
    decreases n, |n.children| + 1
  {
    [n] + FlattenFrom(n, 0)
  }

  /** The flattened subtrees of children `i` onwards. */
  function FlattenFrom(n: ModelNode, i: nat): seq<ModelNode>
    decreases n, |n.children| - i
  {
    if i >= |n.children| then [] else Flatten(n.children[i]) + FlattenFrom(n, i + 1)
  }

  /** Checks the root: the constructor rejects a missing root node. */
  function NewModel(name: string, root: Option<ModelNode>, superModel: Option<Model>, animationScale: real): (r: Result<Model>)
    ensures r.Err? <==> root.None?
    ensures r.Err? ==> r.error == InvalidArgument
    ensures r.Ok? ==> r.value.root == root.value && r.value.animations == [] && r.value.superModel == superModel
  {
    if root.None? then Err(InvalidArgument) else Ok(Model(name, root.value, [], superModel, animationScale))
  }

  function Nodes(m: Model): seq<ModelNode> {
    Flatten(m.root)
  }

  /** The first node of that name in `nodes`: the name lookup keeps the
    * first node inserted under each name. */
  function FirstNamed(nodes: seq<ModelNode>, name: string): (r: Option<ModelNode>)
    ensures r.None? <==> forall i :: 0 <= i < |nodes| ==> nodes[i].name != name
    ensures r.Some? ==> exists i :: 0 <= i < |nodes| && nodes[i] == r.value && r.value.name == name
                                    && forall j :: 0 <= j < i ==> nodes[j].name != name
  {
    if nodes == [] then None
    else if nodes[0].name == name then Some(nodes[0])
    else
      var r := FirstNamed(nodes[1..], name);
      if r.Some? then
        ghost var i :| 0 <= i < |nodes[1..]| && nodes[1..][i] == r.value && r.value.name == name
                       && forall j :: 0 <= j < i ==> nodes[1..][j].name != name;
        assert forall j :: 0 <= j < i + 1 ==> nodes[j].name != name by {
          forall j | 0 <= j < i + 1 ensures nodes[j].name != name {
            if j > 0 {
              assert nodes[j] == nodes[1..][j - 1];
            }
          }
        }
        assert nodes[i + 1] == r.value;
        r
      else
        assert forall i :: 1 <= i < |nodes| ==> nodes[i] == nodes[1..][i - 1];
        r
  }

  function GetNodeByName(m: Model, name: string): (r: Option<ModelNode>)
    ensures r.Some? ==> r.value.name == name && r.value in Nodes(m)
    ensures r.None? <==> forall n :: n in Nodes(m) ==> n.name != name
  {
    FirstNamed(Nodes(m), name)
  }

  /** The model itself, then its supermodel chain. */
  function Chain(m: Model): (r: seq<Model>)
    ensures |r| >= 1 && r[0] == m
    decreases m
  {
    if m.superModel.None? then [m] else [m] + Chain(m.superModel.value)
  }

  /** Looks the name up in the model, then along the supermodel chain. */
  function GetNodeByNameRecursive(m: Model, name: string): (r: Option<ModelNode>)
    ensures r.None? <==> forall k :: k in Chain(m) ==> GetNodeByName(k, name).None?
    ensures GetNodeByName(m, name).Some? ==> r == GetNodeByName(m, name)
    ensures r.Some? ==> r.value.name == name && exists k :: k in Chain(m) && r.value in Nodes(k)
    decreases m
  {
    var own := GetNodeByName(m, name);
    if own.Some? || m.superModel.None? then own
    else GetNodeByNameRecursive(m.superModel.value, name)
  }

  // ---------------------------------------------------------------------
  // Ancestors

  /** Looking a name up in two lists placed one after the other finds it
    * in the first list if it is there, else in the second. */
  lemma {:induction false} FirstNamedAppend(a: seq<ModelNode>, b: seq<ModelNode>, name: string)
    ensures FirstNamed(a + b, name) == if FirstNamed(a, name).Some? then FirstNamed(a, name) else FirstNamed(b, name)
  {
    if a != [] {
      assert (a + b)[0] == a[0];
      assert (a + b)[1..] == a[1..] + b;
      FirstNamedAppend(a[1..], b, name);
    } else {
      assert a + b == b;
    }
  }

  /** `p` starts at `n` and each node after the first is a child of the
    * one before it. */
  predicate Descends(n: ModelNode, p: seq<ModelNode>) {
    |p| >= 1 && p[0] == n && forall k :: 0 <= k < |p| - 1 ==> p[k + 1] in p[k].children
  }

  /** The nodes from `n` down to the first node named `target` in
    * pre-order, both ends included; none when no node has the name. */
  function NodePath(n: ModelNode, target: string): (r: Option<seq<ModelNode>>)
    decreases n, |n.children| + 1
  {
    if n.name == target then Some([n])
    else
      var below := NodePathFrom(n, 0, target);
      if below.Some? then Some([n] + below.value) else None
  }

  function NodePathFrom(n: ModelNode, i: nat, target: string): (r: Option<seq<ModelNode>>)
    decreases n, |n.children| - i
  {
    if i >= |n.children| then None
    else
      var here := NodePath(n.children[i], target);
      if here.Some? then here else NodePathFrom(n, i + 1, target)
  }

  /** A path is found exactly when some node of the tree has the name. It
    * descends from `n` through children to the node the name lookup finds,
    * and no node above that one carries the name. */
  lemma {:induction false} NodePathFacts(n: ModelNode, target: string)
    ensures NodePath(n, target).Some? <==> FirstNamed(Flatten(n), target).Some?
    ensures NodePath(n, target).Some? ==>
              var p := NodePath(n, target).value;
              && Descends(n, p)
              && p[|p| - 1] == FirstNamed(Flatten(n), target).value
              && forall k :: 0 <= k < |p| - 1 ==> p[k].name != target
    decreases n, |n.children| + 1
  {
    NodePathFromFacts(n, 0, target);
    assert Flatten(n) == [n] + FlattenFrom(n, 0);
    FirstNamedAppend([n], FlattenFrom(n, 0), target);
    if n.name != target && NodePathFrom(n, 0, target).Some? {
      var q := NodePathFrom(n, 0, target).value;
      var p := [n] + q;
      forall k | 0 <= k < |p| - 1
        ensures p[k + 1] in p[k].children
      {
        if k > 0 {
          assert p[k] == q[k - 1] && p[k + 1] == q[k];
        }
      }
    }
  }

  lemma {:induction false} NodePathFromFacts(n: ModelNode, i: nat, target: string)
    ensures NodePathFrom(n, i, target).Some? <==> FirstNamed(FlattenFrom(n, i), target).Some?
    ensures NodePathFrom(n, i, target).Some? ==>
              var p := NodePathFrom(n, i, target).value;
              && |p| >= 1 && p[0] in n.children && Descends(p[0], p)
              && p[|p| - 1] == FirstNamed(FlattenFrom(n, i), target).value
              && forall k :: 0 <= k < |p| - 1 ==> p[k].name != target
    decreases n, |n.children| - i
  {
    if i < |n.children| {
      NodePathFacts(n.children[i], target);
      NodePathFromFacts(n, i + 1, target);
      FirstNamedAppend(Flatten(n.children[i]), FlattenFrom(n, i + 1), target);
    }
  }

  /** The names of the ancestors of the node called `parentName`, up to
    * the root: exactly the names of the nodes above the node the name
    * lookup finds, on the path that descends from the root to it. Empty
    * when no node has the name, and for the root itself. */
  function GetAncestorNodes(m: Model, parentName: string): (r: set<string>)
    ensures parentName !in r
    ensures GetNodeByName(m, parentName).None? ==> r == {}
    ensures m.root.name == parentName ==> r == {}
    ensures GetNodeByName(m, parentName).Some? && m.root.name != parentName ==> m.root.name in r
    ensures GetNodeByName(m, parentName).Some? <==> NodePath(m.root, parentName).Some?
    ensures NodePath(m.root, parentName).Some? ==>
              var p := NodePath(m.root, parentName).value;
              && Descends(m.root, p)
              && p[|p| - 1] == GetNodeByName(m, parentName).value
              && r == set k | 0 <= k < |p| - 1 :: p[k].name
  {
    NodePathFacts(m.root, parentName);
    var path := NodePath(m.root, parentName);
    if path.Some? then set k | 0 <= k < |path.value| - 1 :: path.value[k].name else {}
  }

  // ---------------------------------------------------------------------
  // Bones

  /** Resolves bone serial numbers to node names; a serial past the node
    * list resolves to the empty name. */
  function BoneNodeNames(m: Model, serials: seq<nat>): (r: seq<string>)
    ensures |r| == |serials|
    ensures forall i :: 0 <= i < |serials| && serials[i] < |Nodes(m)| ==> r[i] == Nodes(m)[serials[i]].name
    ensures forall i :: 0 <= i < |serials| && serials[i] >= |Nodes(m)| ==> r[i] == ""
  {
    var nodes := Nodes(m);
    seq(|serials|, i requires 0 <= i < |serials| => if serials[i] < |nodes| then nodes[serials[i]].name else "")
  }

  /** Every non-empty bone name names a node of the model. */
  lemma BoneNamesResolve(m: Model, serials: seq<nat>, i: nat)
    requires i < |serials| && BoneNodeNames(m, serials)[i] != ""
    ensures GetNodeByName(m, BoneNodeNames(m, serials)[i]).Some?
  {
    var nodes := Nodes(m);
    assert nodes[serials[i]] in nodes;
  }

  // ---------------------------------------------------------------------
  // Animations

  predicate NamesAscending(anims: seq<Animation.Anim>) {
    forall i, j :: 0 <= i < j < |anims| ==> LexLess(anims[i].name, anims[j].name)
  }

  function FindAnim(anims: seq<Animation.Anim>, name: string): (r: Option<Animation.Anim>)
    ensures r.None? <==> forall a :: a in anims ==> a.name != name
    ensures r.Some? ==> r.value in anims && r.value.name == name
  {
    if anims == [] then None
    else if anims[0].name == name then Some(anims[0])
    else FindAnim(anims[1..], name)
  }

  /** Inserts `a` before the first animation with a greater name. */
  function InsertAnim(a: Animation.Anim, anims: seq<Animation.Anim>): (r: seq<Animation.Anim>)
    requires NamesAscending(anims) && forall b :: b in anims ==> b.name != a.name
    ensures NamesAscending(r)
    ensures multiset(r) == multiset(anims) + multiset{a}
  {
    if anims == [] || LexLess(a.name, anims[0].name) then
      InsertInFront(a, anims);
      [a] + anims
    else
      LexTotal(a.name, anims[0].name);
      var rest := InsertAnim(a, anims[1..]);
      InsertBehind(a, anims, rest);
      [anims[0]] + rest
  }

  lemma InsertInFront(a: Animation.Anim, anims: seq<Animation.Anim>)
    requires NamesAscending(anims) && (anims == [] || LexLess(a.name, anims[0].name))
    ensures NamesAscending([a] + anims)
  {
    var r := [a] + anims;
    forall i, j | 0 <= i < j < |r| ensures LexLess(r[i].name, r[j].name) {
      if i == 0 && j > 1 {
        LexTransitive(a.name, anims[0].name, anims[j - 1].name);
      }
    }
  }

  lemma InsertBehind(a: Animation.Anim, anims: seq<Animation.Anim>, rest: seq<Animation.Anim>)
    requires anims != [] && NamesAscending(anims) && LexLess(anims[0].name, a.name)
    requires NamesAscending(rest) && multiset(rest) == multiset(anims[1..]) + multiset{a}
    ensures NamesAscending([anims[0]] + rest)
    ensures multiset([anims[0]] + rest) == multiset(anims) + multiset{a}
  {
    HeadBelowRest(a, anims, rest);
    var r := [anims[0]] + rest;
    forall i, j | 0 <= i < j < |r| ensures LexLess(r[i].name, r[j].name) {
      if i > 0 {
        assert r[i] == rest[i - 1] && r[j] == rest[j - 1];
      }
    }
    assert anims == [anims[0]] + anims[1..];
  }

  /** Every animation inserted behind the head has a later name. */
  lemma HeadBelowRest(a: Animation.Anim, anims: seq<Animation.Anim>, rest: seq<Animation.Anim>)
    requires anims != [] && NamesAscending(anims) && LexLess(anims[0].name, a.name)
    requires multiset(rest) == multiset(anims[1..]) + multiset{a}
    ensures forall j :: 0 <= j < |rest| ==> LexLess(anims[0].name, rest[j].name)
  {
    forall j | 0 <= j < |rest| ensures LexLess(anims[0].name, rest[j].name) {
      assert rest[j] in multiset(rest);
      if rest[j] != a {
        assert rest[j] in multiset(anims[1..]);
        var k :| 0 <= k < |anims[1..]| && anims[1..][k] == rest[j];
        assert anims[k + 1] == rest[j];
      }
    }
  }

  /** Adds an animation; a name already present keeps its animation. */
  function AddAnimation(m: Model, a: Animation.Anim): (r: Model)
    requires NamesAscending(m.animations)
    ensures NamesAscending(r.animations)
    ensures FindAnim(m.animations, a.name).Some? ==> r == m
    ensures FindAnim(m.animations, a.name).None? ==> multiset(r.animations) == multiset(m.animations) + multiset{a}
    ensures r.superModel == m.superModel && r.root == m.root
  {
    if FindAnim(m.animations, a.name).Some? then m
    else m.(animations := InsertAnim(a, m.animations))
  }

  /** After adding, the name resolves to the animation added, unless the
    * model already had one of that name. */
  lemma AddThenGetAnimation(m: Model, a: Animation.Anim)
    requires NamesAscending(m.animations)
    ensures GetAnimation(AddAnimation(m, a), a.name) ==
              if FindAnim(m.animations, a.name).Some? then FindAnim(m.animations, a.name) else Some(a)
  {
    var r := AddAnimation(m, a);
    if FindAnim(m.animations, a.name).None? {
      assert a in multiset(r.animations);
      var found := FindAnim(r.animations, a.name);
      assert found.value in multiset(r.animations);
      assert found.value in multiset(m.animations) + multiset{a};
    }
  }

  /** Looks the animation up in the model, then along the supermodel chain. */
  function GetAnimation(m: Model, name: string): (r: Option<Animation.Anim>)
    ensures r.None? <==> forall k :: k in Chain(m) ==> FindAnim(k.animations, name).None?
    ensures FindAnim(m.animations, name).Some? ==> r == FindAnim(m.animations, name)
    ensures r.Some? ==> r.value.name == name
    decreases m
  {
    var own := FindAnim(m.animations, name);
    if own.Some? || m.superModel.None? then own
    else GetAnimation(m.superModel.value, name)
  }

  function Names(anims: seq<Animation.Anim>): (r: seq<string>)
    ensures |r| == |anims|
    ensures forall i :: 0 <= i < |anims| ==> r[i] == anims[i].name
  {
    seq(|anims|, i requires 0 <= i < |anims| => anims[i].name)
  }

  /** The supermodel's animation names, then the model's own. */
  function GetAnimationNames(m: Model): (r: seq<string>)
    ensures m.superModel.None? ==> r == Names(m.animations)
    ensures |r| >= |m.animations| && r[|r| - |m.animations|..] == Names(m.animations)
    ensures m.superModel.Some? ==> r[..|r| - |m.animations|] == GetAnimationNames(m.superModel.value)
    decreases m
  {
    if m.superModel.None? then Names(m.animations)
    else GetAnimationNames(m.superModel.value) + Names(m.animations)
  }

  /** A name is listed exactly when it resolves to an animation. */
  lemma {:induction false} ListedIffFound(m: Model, name: string)
    ensures name in GetAnimationNames(m) <==> GetAnimation(m, name).Some?
    decreases m
  {
    var own := Names(m.animations);
    assert name in own <==> FindAnim(m.animations, name).Some? by {
      if name in own {
        var i :| 0 <= i < |own| && own[i] == name;
        assert m.animations[i] in m.animations;
      }
    }
    if m.superModel.Some? {
      ListedIffFound(m.superModel.value, name);
    }
  }
}
