/** Game-wide state: global script variables, object lookup by id, the
  * developer speed keys and the deferred module transition. */
module GameState {
  import opened Wrappers

  // ---------------------------------------------------------------------
  // Global variables

  datatype Location = Location(x: real, y: real, z: real, facing: real)

  datatype Globals = Globals(
    booleans: map<string, bool>,
    numbers: map<string, int>,
    strings: map<string, string>,
    locations: map<string, Option<Location>>)

  const EmptyGlobals := Globals(map[], map[], map[], map[])

  /** An unset boolean reads false. */
  function GetGlobalBoolean(g: Globals, name: string): (b: bool)
    ensures name !in g.booleans ==> !b
    ensures name in g.booleans ==> b == g.booleans[name]
  {
    if name in g.booleans then g.booleans[name] else false
  }

  /** An unset number reads 0. */
  function GetGlobalNumber(g: Globals, name: string): (n: int)
    ensures name !in g.numbers ==> n == 0
    ensures name in g.numbers ==> n == g.numbers[name]
  {
    if name in g.numbers then g.numbers[name] else 0
  }

  /** An unset string reads empty. */
  function GetGlobalString(g: Globals, name: string): (s: string)
    ensures name !in g.strings ==> s == ""
    ensures name in g.strings ==> s == g.strings[name]
  {
    if name in g.strings then g.strings[name] else ""
  }

  /** An unset location reads null; a set one reads what was stored, which
    * may itself be null. */
  function GetGlobalLocation(g: Globals, name: string): (l: Option<Location>)
    ensures name !in g.locations ==> l.None?
    ensures name in g.locations ==> l == g.locations[name]
    ensures l.Some? <==> name in g.locations && g.locations[name].Some?
  {
    if name in g.locations then g.locations[name] else None
  }

  function SetGlobalBoolean(g: Globals, name: string, value: bool): (r: Globals)
    ensures r.numbers == g.numbers && r.strings == g.strings && r.locations == g.locations
    ensures r.booleans.Keys == g.booleans.Keys + {name}
  {
    g.(booleans := g.booleans[name := value])
  }

  function SetGlobalNumber(g: Globals, name: string, value: int): (r: Globals)
    ensures r.booleans == g.booleans && r.strings == g.strings && r.locations == g.locations
    ensures r.numbers.Keys == g.numbers.Keys + {name}
  {
    g.(numbers := g.numbers[name := value])
  }

  function SetGlobalString(g: Globals, name: string, value: string): (r: Globals)
    ensures r.booleans == g.booleans && r.numbers == g.numbers && r.locations == g.locations
    ensures r.strings.Keys == g.strings.Keys + {name}
  {
    g.(strings := g.strings[name := value])
  }

  /** Stores a location, or null, under the name. */
  function SetGlobalLocation(g: Globals, name: string, value: Option<Location>): (r: Globals)
    ensures r.booleans == g.booleans && r.numbers == g.numbers && r.strings == g.strings
    ensures r.locations.Keys == g.locations.Keys + {name}
  {
    g.(locations := g.locations[name := value])
  }

  /** Nothing set reads as false, 0, empty and null. */
  lemma UnsetGlobals(name: string)
    ensures !GetGlobalBoolean(EmptyGlobals, name)
    ensures GetGlobalNumber(EmptyGlobals, name) == 0
    ensures GetGlobalString(EmptyGlobals, name) == ""
    ensures GetGlobalLocation(EmptyGlobals, name).None?
  {
  }

  /** Setting a global reads back, and no other name or kind changes. */
  lemma SetThenGetGlobals(g: Globals, name: string, other: string, b: bool, n: int, s: string, l: Option<Location>)
    ensures GetGlobalBoolean(SetGlobalBoolean(g, name, b), name) == b
    ensures GetGlobalNumber(SetGlobalNumber(g, name, n), name) == n
    ensures GetGlobalString(SetGlobalString(g, name, s), name) == s
    ensures GetGlobalLocation(SetGlobalLocation(g, name, l), name) == l
    ensures other != name ==>
              && GetGlobalBoolean(SetGlobalBoolean(g, name, b), other) == GetGlobalBoolean(g, other)
              && GetGlobalNumber(SetGlobalNumber(g, name, n), other) == GetGlobalNumber(g, other)
              && GetGlobalString(SetGlobalString(g, name, s), other) == GetGlobalString(g, other)
              && GetGlobalLocation(SetGlobalLocation(g, name, l), other) == GetGlobalLocation(g, other)
  {
  }

  // ---------------------------------------------------------------------
  // Objects by id

  const ObjectSelf: nat := 0
  const ObjectInvalid: nat := 1

  /** Looks an object up by script id. The self id must have been resolved
    * by the caller and is an invalid argument here; the invalid id is
    * null; any other id is the object factory's answer, `live` being the
    * ids it knows. */
  function GetObjectById(id: nat, live: set<nat>): (r: Result<Option<nat>>)
    ensures id == ObjectSelf <==> r.Err?
    ensures r.Err? ==> r.error == InvalidArgument
    ensures id == ObjectInvalid ==> r == Ok(None)
    ensures r.Ok? && r.value.Some? ==> r.value.value == id && id in live && id > ObjectInvalid
  {
    if id == ObjectSelf then Err(InvalidArgument)
    else if id == ObjectInvalid then Ok(None)
    else if id in live then Ok(Some(id))
    else Ok(None)
  }

  /** A live object other than the two reserved ids is found. */
  lemma GetLiveObject(id: nat, live: set<nat>)
    requires id in live && id > ObjectInvalid
    ensures GetObjectById(id, live) == Ok(Some(id))
  {
  }

  // ---------------------------------------------------------------------
  // Game speed

  const DefaultGameSpeed: real := 1.0

  datatype Key = MinusKey | EqualsKey | OtherKey

  datatype SpeedKeyResult = SpeedKeyResult(speed: real, handled: bool)

  /** In developer mode minus slows the game by 1 down to 1 and equals
    * speeds it up by 1 up to 8; a key that changes nothing is not handled. */
  function HandleSpeedKey(speed: real, developer: bool, key: Key): (r: SpeedKeyResult)
    ensures 1.0 <= speed <= 8.0 ==> 1.0 <= r.speed <= 8.0
    ensures r.handled <==> developer && ((key == MinusKey && speed > 1.0) || (key == EqualsKey && speed < 8.0))
    ensures !r.handled ==> r.speed == speed
    ensures r.handled && key == MinusKey ==> r.speed < speed
    ensures r.handled && key == EqualsKey ==> r.speed > speed
  {
    match key
    case MinusKey =>
      if developer && speed > 1.0 then
        SpeedKeyResult(if speed - 1.0 >= 1.0 then speed - 1.0 else 1.0, true)
      else SpeedKeyResult(speed, false)
    case EqualsKey =>
      if developer && speed < 8.0 then
        SpeedKeyResult(if speed + 1.0 <= 8.0 then speed + 1.0 else 8.0, true)
      else SpeedKeyResult(speed, false)
    case OtherKey => SpeedKeyResult(speed, false)
  }

  function HandleSpeedKeys(speed: real, developer: bool, keys: seq<Key>): (r: real)
    ensures 1.0 <= speed <= 8.0 ==> 1.0 <= r <= 8.0
    decreases |keys|
  {
    if keys == [] then speed
    else HandleSpeedKeys(HandleSpeedKey(speed, developer, keys[0]).speed, developer, keys[1..])
  }

  /** From the default speed any key sequence keeps the speed in [1, 8]. */
  lemma SpeedStaysInRange(developer: bool, keys: seq<Key>)
    ensures 1.0 <= HandleSpeedKeys(DefaultGameSpeed, developer, keys) <= 8.0
  {
  }

  // ---------------------------------------------------------------------
  // Module transition

  datatype Transition = Transition(nextModule: string, nextEntry: string)

  function ScheduleModuleTransition(moduleName: string, entry: string): (t: Transition)
    ensures t.nextModule == moduleName && t.nextEntry == entry
  {
    Transition(moduleName, entry)
  }

  datatype FrameResult = FrameResult(transition: Transition, load: Option<(string, string)>)

  /** At the start of a frame a scheduled module (non-empty name) is loaded
    * with its entry and the schedule is cleared. */
  function LoadScheduled(t: Transition): (r: FrameResult)
    ensures r.transition == Transition("", "")  || (t.nextModule == "" && r.transition == t)
    ensures r.load.Some? <==> t.nextModule != ""
    ensures r.load.Some? ==> r.load.value == (t.nextModule, t.nextEntry) && r.transition == Transition("", "")
  {
    if t.nextModule != "" then FrameResult(Transition("", ""), Some((t.nextModule, t.nextEntry)))
    else FrameResult(t, None)
  }

  /** A scheduled transition is carried out once: the next frame loads it,
    * the frame after loads nothing. */
  lemma TransitionHappensOnce(moduleName: string, entry: string)
    requires moduleName != ""
    ensures var f1 := LoadScheduled(ScheduleModuleTransition(moduleName, entry));
            f1.load == Some((moduleName, entry)) && LoadScheduled(f1.transition).load.None?
  {
  }

  datatype Screen = InGame | Conversation | OtherScreen

  /** The module and combat advance only without a video, with a module
    * loaded, in game or in conversation, and when not paused. */
  predicate UpdatesWorld(video: bool, hasModule: bool, screen: Screen, paused: bool) {
    !video && hasModule && (screen == InGame || screen == Conversation) && !paused
  }
}
