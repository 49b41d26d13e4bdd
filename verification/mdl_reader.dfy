/** The decision logic of the binary MDL model reader: node-name
  * de-duplication, the node-flag check, which controller reader handles a
  * controller type, and the small decoders for classifications, emitter
  * modes, emitter grids and danglymesh constraints. Reading bytes from the
  * file is not modelled: the decoders take the values already read. */
module MdlReader {
  import opened Wrappers
  import opened Arith
  import opened Text

  // ---------------------------------------------------------------------
  // Node flags

  const FlagHeader: nat := 1
  const FlagLight: nat := 2
  const FlagEmitter: nat := 4
  const FlagCamera: nat := 8
  const FlagReference: nat := 0x10
  const FlagMesh: nat := 0x20
  const FlagSkin: nat := 0x40
  const FlagAnim: nat := 0x80
  const FlagDanglymesh: nat := 0x100
  const FlagAabb: nat := 0x200
  const FlagSaber: nat := 0x800

  /** The flag bits the reader refuses. */
  const UnsupportedFlags: bv16 := 0xf408

  /** A node whose 16-bit flags meet the unsupported bits is a runtime
    * error. */
  function CheckNodeFlags(flags: bv16): (r: Result<bv16>)
    ensures r.Err? <==> flags & UnsupportedFlags != 0
    ensures r.Err? ==> r.error == RuntimeError
    ensures r.Ok? ==> r.value == flags
  {
    if flags & UnsupportedFlags != 0 then Err(RuntimeError) else Ok(flags)
  }

  /** Any combination of the named flags other than the camera flag is
    * accepted. */
  lemma NamedFlagsAccepted(flags: bv16)
    requires flags & 0x0bf7 == flags
    ensures CheckNodeFlags(flags).Ok?
  {
  }

  /** A camera node is refused, whatever else is set. */
  lemma CameraRejected(flags: bv16)
    requires flags & (FlagCamera as bv16) != 0
    ensures CheckNodeFlags(flags) == Err(RuntimeError)
  {
  }

  /** What a node of the given flags carries and which sections are read
    * for it. A saber is read by the saber reader instead of the mesh
    * reader, though it has the mesh flag. */
  datatype NodeParts = NodeParts(
    light: bool, emitter: bool, reference: bool, skin: bool, danglymesh: bool, saber: bool,
    readsMesh: bool, readsAabb: bool)

  function GetNodeParts(flags: nat): (p: NodeParts)
    ensures p.light <==> HasFlag(flags, FlagLight)
    ensures p.emitter <==> HasFlag(flags, FlagEmitter)
    ensures p.reference <==> HasFlag(flags, FlagReference)
    ensures p.skin <==> HasFlag(flags, FlagSkin)
    ensures p.danglymesh <==> HasFlag(flags, FlagDanglymesh)
    ensures p.saber <==> HasFlag(flags, FlagSaber)
    ensures p.readsAabb <==> HasFlag(flags, FlagAabb)
    ensures p.readsMesh <==> HasFlag(flags, FlagMesh) && !p.saber
  {
    NodeParts(
      HasFlag(flags, FlagLight), HasFlag(flags, FlagEmitter), HasFlag(flags, FlagReference),
      HasFlag(flags, FlagSkin), HasFlag(flags, FlagDanglymesh), HasFlag(flags, FlagSaber),
      HasFlag(flags, FlagMesh) && !HasFlag(flags, FlagSaber), HasFlag(flags, FlagAabb))
  }

  /** The flags that choose a node's controller readers: its own while the
    * model is read, and those recorded for the model node of the same
    * number while its animations are read. The engine does not check that
    * the model has such a node. */
  function ControllerNodeFlags(readingAnimations: bool, modelFlags: map<nat, nat>, nodeNumber: nat, flags: nat): (f: nat)
    requires readingAnimations ==> nodeNumber in modelFlags
    ensures !readingAnimations ==> f == flags
    ensures readingAnimations ==> f == modelFlags[nodeNumber]
  {
    if readingAnimations then modelFlags[nodeNumber] else flags
  }

  /** An animation node whose model node is an emitter applies none of its
    * controllers, whatever flags the animation node itself has. */
  lemma AnimatedEmitterIgnored(modelFlags: map<nat, nat>, nodeNumber: nat, flags: nat, types: seq<nat>)
    requires nodeNumber in modelFlags && HasFlag(modelFlags[nodeNumber], FlagEmitter)
    ensures ReadControllers(true, ControllerNodeFlags(true, modelFlags, nodeNumber, flags), types) == []
  {
  }

  // ---------------------------------------------------------------------
  // Node names

  /** The name given to a node whose lower-cased name has already been
    * seen `hits` times. */
  function DedupName(base: string, hits: nat): string {
    if hits == 0 then base else base + "_dup" + Decimal(hits)
  }

  function Lowered(raw: seq<string>): (r: seq<string>)
    ensures |r| == |raw|
    ensures forall i :: 0 <= i < |raw| ==> r[i] == ToLower(raw[i])
  {
    seq(|raw|, i requires 0 <= i < |raw| => ToLower(raw[i]))
  }

  /** How often `x` occurs in `s`. */
  function Count(s: seq<string>, x: string): nat
    decreases |s|
  {
    if s == [] then 0 else Count(s[..|s| - 1], x) + (if s[|s| - 1] == x then 1 else 0)
  }

  lemma {:induction false} CountPrefixGrows(s: seq<string>, i: nat, j: nat)
    requires i < j <= |s|
    ensures Count(s[..j], s[i]) > Count(s[..i], s[i])
    decreases j - i
  {
    if j == i + 1 {
      assert s[..j][..|s[..j]| - 1] == s[..i];
    } else {
      CountPrefixGrows(s, i, j - 1);
      assert s[..j][..|s[..j]| - 1] == s[..j - 1];
    }
  }

  /** The names read for the nodes, in order: lower-cased, and the k-th
    * repeat of a name (k >= 1) gets the suffix "_dup" followed by k. */
  method ReadNodeNames(raw: seq<string>) returns (names: seq<string>)
    ensures |names| == |raw|
    ensures forall i :: 0 <= i < |raw| ==>
              names[i] == DedupName(ToLower(raw[i]), Count(Lowered(raw)[..i], ToLower(raw[i])))
  {
    names := Dedup(Lowered(raw));
  }

  /** Renames repeats among names that are already lower-cased. */
  method Dedup(lowered: seq<string>) returns (names: seq<string>)
    ensures |names| == |lowered|
    ensures forall k :: 0 <= k < |lowered| ==>
              names[k] == DedupName(lowered[k], Count(lowered[..k], lowered[k]))
  {
    var hits: map<string, nat> := map[];
    names := [];
    var i := 0;
    while i < |lowered|
      invariant 0 <= i <= |lowered|
      invariant |names| == i
      invariant forall k :: 0 <= k < i ==> names[k] == NthName(lowered, k)
      invariant forall x :: Hits(hits, x) == Count(lowered[..i], x)
    {
      var name := lowered[i];
      var hitCount := Hits(hits, name);
      CountSnoc(lowered, i);
      var seen := hits[name := hitCount + 1];
      forall x ensures Hits(seen, x) == Count(lowered[..i + 1], x) {
        assert Hits(seen, x) == Hits(hits, x) + (if lowered[i] == x then 1 else 0);
      }
      hits := seen;
      var renamed := names + [DedupName(name, hitCount)];
      forall k | 0 <= k < i + 1 ensures renamed[k] == NthName(lowered, k) {
        if k < i {
          assert renamed[k] == names[k];
        }
      }
      names := renamed;
      i := i + 1;
    }
  }

  /** The name given to the `k`-th node. */
  function NthName(lowered: seq<string>, k: nat): string
    requires k < |lowered|
  {
    DedupName(lowered[k], Count(lowered[..k], lowered[k]))
  }

  /** How often a name has been seen so far. */
  function Hits(hits: map<string, nat>, x: string): nat {
    if x in hits then hits[x] else 0
  }

  lemma CountSnoc(s: seq<string>, i: nat)
    requires i < |s|
    ensures forall x :: Count(s[..i + 1], x) == Count(s[..i], x) + (if s[i] == x then 1 else 0)
  {
    assert s[..i + 1][..i] == s[..i];
  }

  /** Two nodes whose names differ only in case never end up with the same
    * name. */
  lemma SameBaseDistinct(raw: seq<string>, names: seq<string>, i: nat, j: nat)
    requires |names| == |raw|
    requires forall k :: 0 <= k < |raw| ==>
               names[k] == DedupName(ToLower(raw[k]), Count(Lowered(raw)[..k], ToLower(raw[k])))
    requires i < j < |raw| && ToLower(raw[i]) == ToLower(raw[j])
    ensures names[i] != names[j]
  {
    var lowered := Lowered(raw);
    var base := ToLower(raw[i]);
    var ci := Count(lowered[..i], base);
    var cj := Count(lowered[..j], base);
    CountPrefixGrows(lowered, i, j);
    CountPrefixGrows(lowered[..j], i, i + 1);
    assert lowered[..j][..i + 1] == lowered[..i + 1];
    assert lowered[..j][..i] == lowered[..i];
    if ci == 0 {
      assert |names[j]| > |base|;
    } else if names[i] == names[j] {
      var si := base + "_dup";
      assert names[i][|si|..] == Decimal(ci);
      assert names[j][|si|..] == Decimal(cj);
      DecimalInjective(ci, cj);
    }
  }

  /** A node literally named like a renamed duplicate collides with it:
    * de-duplication does not make all names unique. */
  lemma DuplicateSuffixCollides()
    ensures var raw := ["a", "A", "a_dup1"];
            DedupName(ToLower(raw[1]), Count(Lowered(raw)[..1], ToLower(raw[1]))) == "a_dup1"
            && DedupName(ToLower(raw[2]), Count(Lowered(raw)[..2], ToLower(raw[2]))) == "a_dup1"
  {
    var raw := ["a", "A", "a_dup1"];
    LoweredExample();
    CountExample();
    assert Decimal(1) == "1";
  }

  lemma LoweredExample()
    ensures Lowered(["a", "A", "a_dup1"]) == ["a", "a", "a_dup1"]
  {
    var r := Lowered(["a", "A", "a_dup1"]);
    LowerA();
    assert r[0] == "a" && r[1] == "a";
    ToLowerOfLower("a_dup1");
    assert r[2] == "a_dup1";
  }

  lemma LowerA()
    ensures ToLower("a") == "a" && ToLower("A") == "a"
  {
    assert LowerChar('a') == 'a' && LowerChar('A') == 'a';
  }

  lemma CountExample()
    ensures Count(["a"], "a") == 1 && Count(["a", "a"], "a_dup1") == 0
  {
    assert ["a"][..0] == [];
    assert ["a", "a"][..1] == ["a"];
  }

  // ---------------------------------------------------------------------
  // Classification

  datatype Classification = Other | Effect | Tile | Character | Door | Lightsaber | Placeable | Flyer

  /** The byte that encodes each classification. */
  function ClassificationCode(c: Classification): nat {
    match c
    case Other => 0
    case Effect => 1
    case Tile => 2
    case Character => 4
    case Door => 8
    case Lightsaber => 0x10
    case Placeable => 0x20
    case Flyer => 0x40
  }

  /** Decodes the classification byte; an unknown byte is Other. */
  function GetClassification(ordinal: nat): (c: Classification)
    ensures ordinal !in {1, 2, 4, 8, 0x10, 0x20, 0x40} ==> c == Other
    ensures c != Other ==> ClassificationCode(c) == ordinal
  {
    match ordinal
    case 1 => Effect
    case 2 => Tile
    case 4 => Character
    case 8 => Door
    case 0x10 => Lightsaber
    case 0x20 => Placeable
    case 0x40 => Flyer
    case _ => Other
  }

  lemma ClassificationRoundTrip(c: Classification)
    ensures GetClassification(ClassificationCode(c)) == c
  {
  }

  // ---------------------------------------------------------------------
  // Controllers

  datatype ControllerTable = GenericTable | MeshTable | LightTable | EmitterTable

  /** A controller reader: the table it comes from and the property it
    * reads. */
  datatype Controller = Controller(table: ControllerTable, property: string)

  /** The property each table reads for a controller type, if any. */
  function Lookup(t: ControllerTable, controllerType: nat): Option<string> {
    match t
    case GenericTable => GenericController(controllerType)
    case MeshTable => MeshController(controllerType)
    case LightTable => LightController(controllerType)
    case EmitterTable => EmitterController(controllerType)
  }

  function GenericController(controllerType: nat): Option<string> {
    match controllerType
    case 8 => Some("position")
    case 20 => Some("orientation")
    case 36 => Some("scale")
    case _ => None
  }

  function MeshController(controllerType: nat): Option<string> {
    match controllerType
    case 100 => Some("selfillumcolor")
    case 132 => Some("alpha")
    case _ => None
  }

  function LightController(controllerType: nat): Option<string> {
    match controllerType
    case 76 => Some("color")
    case 88 => Some("radius")
    case 96 => Some("shadowradius")
    case 100 => Some("verticaldisplacement")
    case 140 => Some("multiplier")
    case _ => None
  }

  function EmitterController(controllerType: nat): Option<string> {
    match controllerType
    case 80 => Some("alphaend")
    case 84 => Some("alphastart")
    case 88 => Some("birthrate")
    case 92 => Some("bounce_co")
    case 96 => Some("combinetime")
    case 100 => Some("drag")
    case 104 => Some("fps")
    case 108 => Some("frameend")
    case 112 => Some("framestart")
    case 116 => Some("grav")
    case 120 => Some("lifeexp")
    case 124 => Some("mass")
    case 128 => Some("p2p_bezier2")
    case 132 => Some("p2p_bezier3")
    case 136 => Some("particlerot")
    case 140 => Some("randvel")
    case 144 => Some("sizestart")
    case 148 => Some("sizeend")
    case 152 => Some("sizestart_y")
    case 156 => Some("sizeend_y")
    case 160 => Some("spread")
    case 164 => Some("threshold")
    case 168 => Some("velocity")
    case 172 => Some("xsize")
    case 176 => Some("ysize")
    case 180 => Some("blurlength")
    case 184 => Some("lightningdelay")
    case 188 => Some("lightningradius")
    case 192 => Some("lightningscale")
    case 196 => Some("lightningsubdiv")
    case 200 => Some("lightningzigzag")
    case 216 => Some("alphamid")
    case 220 => Some("percentstart")
    case 224 => Some("percentmid")
    case 228 => Some("percentend")
    case 232 => Some("sizemid")
    case 236 => Some("sizemid_y")
    case 240 => Some("randombirthrate")
    case 252 => Some("targetsize")
    case 256 => Some("numcontrolpts")
    case 260 => Some("controlptradius")
    case 264 => Some("controlptdelay")
    case 268 => Some("tangentspread")
    case 272 => Some("tangentlength")
    case 284 => Some("colormid")
    case 380 => Some("colorend")
    case 392 => Some("colorstart")
    case 502 => Some("detonate")
    case _ => None
  }

  /** The node-specific table: mesh before light before emitter. */
  function NodeTable(nodeFlags: nat): (t: Option<ControllerTable>)
    ensures t == Some(MeshTable) <==> HasFlag(nodeFlags, FlagMesh)
    ensures t == Some(LightTable) <==> !HasFlag(nodeFlags, FlagMesh) && HasFlag(nodeFlags, FlagLight)
    ensures t == Some(EmitterTable) <==>
              !HasFlag(nodeFlags, FlagMesh) && !HasFlag(nodeFlags, FlagLight) && HasFlag(nodeFlags, FlagEmitter)
    ensures t != Some(GenericTable)
  {
    if HasFlag(nodeFlags, FlagMesh) then Some(MeshTable)
    else if HasFlag(nodeFlags, FlagLight) then Some(LightTable)
    else if HasFlag(nodeFlags, FlagEmitter) then Some(EmitterTable)
    else None
  }

  /** The reader for a controller type: the node's own table first, then
    * the generic one; none when neither knows the type. */
  function GetControllerFn(controllerType: nat, nodeFlags: nat): (r: Option<Controller>)
    ensures r.Some? ==> Lookup(r.value.table, controllerType) == Some(r.value.property)
    ensures r.Some? && r.value.table != GenericTable ==> NodeTable(nodeFlags) == Some(r.value.table)
    ensures r.Some? && r.value.table == GenericTable ==>
              NodeTable(nodeFlags).None? || Lookup(NodeTable(nodeFlags).value, controllerType).None?
    ensures r.None? <==>
              GenericController(controllerType).None?
              && (NodeTable(nodeFlags).None? || Lookup(NodeTable(nodeFlags).value, controllerType).None?)
  {
    var own := NodeTable(nodeFlags);
    var specific := if own.Some? then Lookup(own.value, controllerType) else None;
    if specific.Some? then Some(Controller(own.value, specific.value))
    else if GenericController(controllerType).Some? then
      Some(Controller(GenericTable, GenericController(controllerType).value))
    else None
  }

  /** Type 100 means a different property on a mesh, a light and an
    * emitter; a node that is both mesh and light reads it as a mesh. */
  lemma ControllerDispatchExamples()
    ensures GetControllerFn(100, FlagMesh) == Some(Controller(MeshTable, "selfillumcolor"))
    ensures GetControllerFn(100, FlagLight) == Some(Controller(LightTable, "verticaldisplacement"))
    ensures GetControllerFn(100, FlagEmitter) == Some(Controller(EmitterTable, "drag"))
    ensures GetControllerFn(100, FlagMesh + FlagLight) == Some(Controller(MeshTable, "selfillumcolor"))
    ensures GetControllerFn(8, FlagEmitter) == Some(Controller(GenericTable, "position"))
    ensures GetControllerFn(100, FlagHeader) == None
  {
    assert HasFlag(FlagMesh + FlagLight, FlagMesh);
    assert !HasFlag(FlagEmitter, FlagMesh) && !HasFlag(FlagEmitter, FlagLight);
    assert NodeTable(FlagEmitter) == Some(EmitterTable);
    assert !HasFlag(FlagLight, FlagMesh);
    assert !HasFlag(FlagHeader, FlagMesh) && !HasFlag(FlagHeader, FlagLight) && !HasFlag(FlagHeader, FlagEmitter);
  }

  /** The controllers applied to a node, in key order; unknown types are
    * skipped, and emitter controllers are not applied while reading
    * animations. */
  function ReadControllers(readingAnimations: bool, nodeFlags: nat, types: seq<nat>): (r: seq<Controller>)
    ensures readingAnimations && HasFlag(nodeFlags, FlagEmitter) ==> r == []
    ensures |r| <= |types|
    ensures forall c :: c in r ==> exists t :: t in types && GetControllerFn(t, nodeFlags) == Some(c)
    ensures !(readingAnimations && HasFlag(nodeFlags, FlagEmitter)) ==>
              forall t :: t in types && GetControllerFn(t, nodeFlags).Some? ==> GetControllerFn(t, nodeFlags).value in r
    decreases |types|
  {
    if readingAnimations && HasFlag(nodeFlags, FlagEmitter) then []
    else if types == [] then []
    else
      var rest := ReadControllers(readingAnimations, nodeFlags, types[1..]);
      assert forall t :: t in types <==> t == types[0] || t in types[1..];
      match GetControllerFn(types[0], nodeFlags)
      case Some(c) => [c] + rest
      case None => rest
  }

  // ---------------------------------------------------------------------
  // Emitters

  datatype UpdateMode = InvalidUpdate | Fountain | SingleUpdate | Explosion
  datatype RenderMode = InvalidRender | Normal | BillboardToWorldZ | MotionBlur | BillboardToLocalZ | AlignedToParticleDir
  datatype EmitterBlend = InvalidBlend | NormalBlend | Punch | Lighten

  function UpdateModeName(m: UpdateMode): string {
    match m
    case InvalidUpdate => ""
    case Fountain => "fountain"
    case SingleUpdate => "single"
    case Explosion => "explosion"
  }

  function RenderModeName(m: RenderMode): string {
    match m
    case InvalidRender => ""
    case Normal => "normal"
    case BillboardToWorldZ => "billboard_to_world_z"
    case MotionBlur => "motion_blur"
    case BillboardToLocalZ => "billboard_to_local_z"
    case AlignedToParticleDir => "aligned_to_particle_dir"
  }

  function BlendName(m: EmitterBlend): string {
    match m
    case InvalidBlend => ""
    case NormalBlend => "normal"
    case Punch => "punch"
    case Lighten => "lighten"
  }

  /** An unknown update string decodes to Invalid. */
  function ParseEmitterUpdate(s: string): (m: UpdateMode)
    ensures m == InvalidUpdate <==> s !in {"fountain", "single", "explosion"}
    ensures m != InvalidUpdate ==> UpdateModeName(m) == s
  {
    if s == "fountain" then Fountain
    else if s == "single" then SingleUpdate
    else if s == "explosion" then Explosion
    else InvalidUpdate
  }

  /** An unknown render string decodes to Invalid. */
  function ParseEmitterRender(s: string): (m: RenderMode)
    ensures m == InvalidRender <==>
              s !in {"normal", "billboard_to_world_z", "motion_blur", "billboard_to_local_z", "aligned_to_particle_dir"}
    ensures m != InvalidRender ==> RenderModeName(m) == s
  {
    if s == "normal" then Normal
    else if s == "billboard_to_world_z" then BillboardToWorldZ
    else if s == "motion_blur" then MotionBlur
    else if s == "billboard_to_local_z" then BillboardToLocalZ
    else if s == "aligned_to_particle_dir" then AlignedToParticleDir
    else InvalidRender
  }

  /** An unknown blend string decodes to Invalid. */
  function ParseEmitterBlend(s: string): (m: EmitterBlend)
    ensures m == InvalidBlend <==> s !in {"normal", "punch", "lighten"}
    ensures m != InvalidBlend ==> BlendName(m) == s
  {
    if s == "normal" then NormalBlend
    else if s == "punch" then Punch
    else if s == "lighten" then Lighten
    else InvalidBlend
  }

  /** Every valid mode decodes from its own name. */
  lemma EmitterModesRoundTrip(u: UpdateMode, r: RenderMode, b: EmitterBlend)
    ensures u != InvalidUpdate ==> ParseEmitterUpdate(UpdateModeName(u)) == u
    ensures r != InvalidRender ==> ParseEmitterRender(RenderModeName(r)) == r
    ensures b != InvalidBlend ==> ParseEmitterBlend(BlendName(b)) == b
  {
  }

  datatype EmitterSettings = EmitterSettings(
    gridWidth: nat, gridHeight: nat, update: UpdateMode, render: RenderMode, blend: EmitterBlend, loop: bool)

  /** The emitter settings from the raw fields: grid sizes of at least one,
    * mode strings lower-cased before decoding, any non-zero loop word
    * meaning true. */
  function ReadEmitter(xGrid: nat, yGrid: nat, update: string, render: string, blend: string, loop: nat): (e: EmitterSettings)
    ensures e.gridWidth >= 1 && e.gridHeight >= 1
    ensures xGrid >= 1 ==> e.gridWidth == xGrid
    ensures yGrid >= 1 ==> e.gridHeight == yGrid
    ensures e.update == ParseEmitterUpdate(ToLower(update))
    ensures e.render == ParseEmitterRender(ToLower(render))
    ensures e.blend == ParseEmitterBlend(ToLower(blend))
    ensures e.loop <==> loop != 0
  {
    EmitterSettings(
      if xGrid >= 1 then xGrid else 1, if yGrid >= 1 then yGrid else 1,
      ParseEmitterUpdate(ToLower(update)), ParseEmitterRender(ToLower(render)), ParseEmitterBlend(ToLower(blend)),
      loop != 0)
  }

  /** Mode strings are read without regard to case. */
  lemma EmitterModesIgnoreCase()
    ensures ReadEmitter(0, 0, "Fountain", "NORMAL", "Punch", 1).update == Fountain
    ensures ReadEmitter(0, 0, "Fountain", "NORMAL", "Punch", 1).render == Normal
    ensures ReadEmitter(0, 0, "Fountain", "NORMAL", "Punch", 1).blend == Punch
    ensures ReadEmitter(0, 0, "Fountain", "NORMAL", "Punch", 1).gridWidth == 1
  {
    LowerFountain();
    LowerNormal();
    LowerPunch();
  }

  lemma LowerFountain()
    ensures ToLower("Fountain") == "fountain"
  {
    assert LowerChar('F') == 'f';
  }

  lemma LowerNormal()
    ensures ToLower("NORMAL") == "normal"
  {
    assert LowerChar('N') == 'n' && LowerChar('O') == 'o' && LowerChar('R') == 'r';
    assert LowerChar('M') == 'm' && LowerChar('A') == 'a' && LowerChar('L') == 'l';
  }

  lemma LowerPunch()
    ensures ToLower("Punch") == "punch"
  {
    assert LowerChar('P') == 'p';
  }

  // ---------------------------------------------------------------------
  // Danglymesh

  datatype DanglymeshSettings = DanglymeshSettings(displacement: real, tightness: real, period: real)

  /** The stored displacement is half the file's value. */
  function ReadDanglymesh(displacement: real, tightness: real, period: real): (d: DanglymeshSettings)
    ensures d.displacement * 2.0 == displacement
    ensures d.tightness == tightness && d.period == period
  {
    DanglymeshSettings(0.5 * displacement, tightness, period)
  }

  /** A constraint's multiplier: the file's 0-255 value scaled to [0, 1]
    * and clamped there. */
  function ConstraintMultiplier(raw: real): (m: real)
    ensures 0.0 <= m <= 1.0
    ensures 0.0 <= raw <= 255.0 ==> m * 255.0 == raw
    ensures raw < 0.0 ==> m == 0.0
    ensures raw > 255.0 ==> m == 1.0
  {
    ClampReal(raw / 255.0, 0.0, 1.0)
  }
}
