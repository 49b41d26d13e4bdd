/** The RIM archive reader: a signature, a resource count and a table of
  * entries (resref, type, offset, size). Resrefs are stored lower-cased and
  * looked up without regard to case. The byte stream is not modelled: the
  * reader is given the signature, the count and the entries as read, and
  * a lookup yields the table entry whose bytes the engine would read. */
module RimReader {
  import opened Wrappers
  import opened Text

  const Signature: string := "RIM V1.0"

  type Uint16 = x: nat | x < 0x1_0000

  /** A table entry as it is stored in the file. */
  datatype RawEntry = RawEntry(resRef: string, resType: Uint16, offset: nat, size: nat)

  /** A table entry as the reader keeps it. */
  datatype Resource = Resource(resRef: string, resType: Uint16, offset: nat, size: nat)

  datatype Rim = Rim(resourceCount: nat, resources: seq<Resource>)

  /** A loaded archive holds exactly as many entries as it declares. */
  predicate Valid(rim: Rim) {
    |rim.resources| == rim.resourceCount
    && forall i :: 0 <= i < |rim.resources| ==> IsLower(rim.resources[i].resRef)
  }

  /** An entry with its resref lower-cased and the rest unchanged. */
  function ReadResource(raw: RawEntry): (r: Resource)
    ensures IsLower(r.resRef) && |r.resRef| == |raw.resRef|
    ensures r.resRef == ToLower(raw.resRef)
    ensures r.resType == raw.resType && r.offset == raw.offset && r.size == raw.size
  {
    ToLowerIdempotent(raw.resRef);
    Resource(ToLower(raw.resRef), raw.resType, raw.offset, raw.size)
  }

  /** Reads `count` entries from the table; a table shorter than that ends
    * the stream, which the engine reports as an error. */
  function LoadResources(count: nat, table: seq<RawEntry>): (r: Result<seq<Resource>>)
    ensures r.Err? <==> count > |table|
    ensures r.Ok? ==> |r.value| == count
    ensures r.Ok? ==> forall i :: 0 <= i < count ==> r.value[i] == ReadResource(table[i])
  {
    if count > |table| then Err(RuntimeError)
    else Ok(seq(count, i requires 0 <= i < count => ReadResource(table[i])))
  }

  /** Loads an archive: the signature must match, then the declared number
    * of entries is read. */
  function Load(signature: string, count: nat, table: seq<RawEntry>): (r: Result<Rim>)
    ensures r.Ok? <==> signature == Signature && count <= |table|
    ensures r.Ok? ==> Valid(r.value) && r.value.resourceCount == count
    ensures r.Ok? ==> forall i :: 0 <= i < count ==> r.value.resources[i] == ReadResource(table[i])
  {
    if signature != Signature then Err(RuntimeError)
    else
      var resources := LoadResources(count, table);
      if resources.Err? then Err(resources.error)
      else Ok(Rim(count, resources.value))
  }

  predicate Matches(res: Resource, resRef: string, resType: Uint16) {
    res.resRef == ToLower(resRef) && res.resType == resType
  }

  /** The first entry whose resref equals the lower-cased query and whose
    * type equals the query type; none when no entry does. */
  function Find(resources: seq<Resource>, resRef: string, resType: Uint16): (r: Option<nat>)
    ensures r.Some? ==> r.value < |resources| && Matches(resources[r.value], resRef, resType)
    ensures r.Some? ==> forall j :: 0 <= j < r.value ==> !Matches(resources[j], resRef, resType)
    ensures r.None? <==> forall j :: 0 <= j < |resources| ==> !Matches(resources[j], resRef, resType)
  {
    if resources == [] then None
    else if Matches(resources[0], resRef, resType) then Some(0)
    else
      var rest := Find(resources[1..], resRef, resType);
      if rest.None? then None else Some(rest.value + 1)
  }

  /** The entry a lookup finds, if any. */
  function FindResource(rim: Rim, resRef: string, resType: Uint16): (r: Option<Resource>)
    ensures r.Some? ==> r.value in rim.resources && r.value.resRef == ToLower(resRef) && r.value.resType == resType
    ensures r.None? <==> forall j :: 0 <= j < |rim.resources| ==> !Matches(rim.resources[j], resRef, resType)
  {
    var i := Find(rim.resources, resRef, resType);
    if i.None? then None else Some(rim.resources[i.value])
  }

  /** Lookups ignore the case of the query. */
  lemma FindIgnoresCase(rim: Rim, a: string, b: string, resType: Uint16)
    requires ToLower(a) == ToLower(b)
    ensures FindResource(rim, a, resType) == FindResource(rim, b, resType)
  {
    assert forall res :: Matches(res, a, resType) <==> Matches(res, b, resType);
    FindSame(rim.resources, a, b, resType);
  }

  lemma {:induction false} FindSame(resources: seq<Resource>, a: string, b: string, resType: Uint16)
    requires forall res :: Matches(res, a, resType) <==> Matches(res, b, resType)
    ensures Find(resources, a, resType) == Find(resources, b, resType)
    decreases |resources|
  {
    if resources != [] {
      FindSame(resources[1..], a, b, resType);
    }
  }

  /** An entry stored under any capitalisation is found by a query in any
    * capitalisation, unless an earlier entry of the same name and type
    * shadows it. */
  lemma LoadThenFind(signature: string, count: nat, table: seq<RawEntry>, k: nat, query: string)
    requires signature == Signature && k < count <= |table|
    requires ToLower(table[k].resRef) == ToLower(query)
    requires forall j :: 0 <= j < k ==>
               ToLower(table[j].resRef) != ToLower(query) || table[j].resType != table[k].resType
    ensures Load(signature, count, table).Ok?
    ensures FindResource(Load(signature, count, table).value, query, table[k].resType) == Some(ReadResource(table[k]))
  {
    var rim := Load(signature, count, table).value;
    var i := Find(rim.resources, query, table[k].resType);
    assert Matches(rim.resources[k], query, table[k].resType);
    assert forall j :: 0 <= j < k ==> !Matches(rim.resources[j], query, table[k].resType);
    assert i.Some? && i.value == k;
  }

  /** The entry at `idx`; an index at or past the declared count is a logic
    * error. The engine does not check for a negative index. */
  function GetResourceData(rim: Rim, idx: nat): (r: Result<Resource>)
    requires Valid(rim)
    ensures r.Err? <==> idx >= rim.resourceCount
    ensures r.Err? ==> r.error == LogicError
    ensures r.Ok? ==> r.value == rim.resources[idx]
  {
    if idx >= rim.resourceCount then Err(LogicError) else Ok(rim.resources[idx])
  }

  /** Every index below the count of a loaded archive yields the entry read
    * from that position of the table. */
  lemma LoadThenGet(signature: string, count: nat, table: seq<RawEntry>, idx: nat)
    requires Load(signature, count, table).Ok?
    ensures GetResourceData(Load(signature, count, table).value, idx).Ok? <==> idx < count
    ensures idx < count ==> GetResourceData(Load(signature, count, table).value, idx).value == ReadResource(table[idx])
  {
  }
}
