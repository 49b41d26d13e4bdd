# reone game-logic core in Dafny

This project models the discrete game-logic layer of reone. reone is a
re-implementation of the engine behind role-playing games built on 2DA, GFF
and MDL assets. Each module below is a pure, immutable model of one source
component, with the engine's mutable state turned into values passed in and
returned. Random rolls, clocks, geometry (ray, walkmesh, box and frustum
tests, distances, line of sight) and file reading become inputs to the
functions.

- **Area**: `AreaRegistry` covers the object registry: adding, deferred
  destruction, and lookup by id, tag and type. `AreaRules` covers the
  per-tick rules: symmetric room visibility, sound prioritisation, trigger
  entry, nearest-object queries, grass variants, elevation and creature
  movement. `Triggers` covers trigger tenancy, and `Selection` covers
  cycling the selected object. `Collision` covers the ray cast over rooms
  and objects.
- **Creatures**: `Perception` models what creatures hear and see, and
  `CreatureFinder` models the criteria matcher. `Reputes` models the
  faction reputation table.
- **d20 rules**: `CreatureClass` models the class tables and `Attributes`
  models class levels, abilities and skills. `ChargenSkills` models the
  character-generation skill budget and `PartySelect` the party-selection
  counter. `Combat` models attack resolution and the combat-round state
  machine, and `RoutinesD20` the d20 script routines.
- **Game**: `GameState` models global variables, the object lookup, the
  developer speed keys and the deferred module transition. `SoundObject`
  models a sound object's playlist.
- **Scene and graphics**: `SceneGraph` models light selection, shadow
  fading, root culling and the grass cap. `Animation` models animation
  channels and `Keyframes` keyframed properties. `Models` models model
  node and animation lookups, and `MdlReader` the MDL reader's decisions.
  `Mesh` models the vertex count and face texture coordinates.
- **Resources and GUI**: `RimReader` models RIM archive lookup.
  `GuiControl` models control extents and border colours, and `Gui` models
  hit-testing and focus.
- **Shared**: `Wrappers` holds `Option` and `Result` and `Sorting` a
  key-ordered sort. `Text` holds lower-casing and decimal strings, and
  `Arith` holds C++ truncating division and float-to-int conversion.

Errors the engine throws are `Err` values of a `Result`. A null pointer
the engine returns is `None`. Floats are `real`, so rounding is not
modelled. Where the source truncates (integer division, a cast to `int`),
the truncation is written out.

## Model

| member | source | states |
|---|---|---|
| AreaRegistry.Init | src/game/object/area.cpp:87-101 | A new area has no objects and nothing pending. It has an empty list for each of the ten initial object types and none for Camera, and its indexes are consistent. |
| AreaRegistry.Add | src/game/object/area.cpp:265-272 | Adding an object appends it to the master list, to its type list and to its tag list, and maps its id to it. Every other type and tag entry and the pending set are unchanged. |
| AreaRegistry.AddPreservesConsistent | src/game/object/area.cpp:265-272 | Adding an object with a fresh id keeps the id, tag and type indexes in agreement with the master list. The object is then found by its id, and as the next tagged object by its tag. |
| AreaRegistry.GetObjectById | src/game/object/area.cpp:334-339 | Returns the mapped object, or none exactly when the id is unknown. |
| AreaRegistry.GetObjectByTag | src/game/object/area.cpp:341-347 | Returns none exactly when the tag is absent or nth is out of range. A negative nth is out of range because of the unsigned comparison. Otherwise it returns the nth entry of the tag list. |
| AreaRegistry.GetObjectByTagInOrder | src/game/object/area.cpp:341-347 | In a consistent registry, the tag lookup returns the nth object with that tag in insertion order. It finds one exactly when nth is in range. |
| AreaRegistry.GetObjectsByType | src/game/object/area.cpp:349-351 | Returns the stored list of the type, or an empty list for a type that has none. |
| AreaRegistry.DestroyObject | src/game/object/area.cpp:628-630 | Destroying an object only records its id as pending; the list and every index are untouched. |
| AreaRegistry.RemoveFirst | src/game/object/area.cpp:306-309 | Erasing with find_if removes exactly one element when the object is present and leaves the list unchanged when it is absent. |
| AreaRegistry.EraseFromTag | src/game/object/area.cpp:312-323 | Erasing from the tag index never adds a key and leaves other tags unchanged. A key whose list becomes empty is dropped. |
| AreaRegistry.EraseFromType | src/game/object/area.cpp:325-331 | Erasing from the type index keeps every key and leaves the other types' lists unchanged. |
| AreaRegistry.DoDestroyObject | src/game/object/area.cpp:290-332 | An unknown id is a no-op. Otherwise the id leaves the id map, every type key stays, and no object is added. |
| AreaRegistry.DoDestroyObjectSpec | src/game/object/area.cpp:290-332 | In a consistent registry, destroying an id removes exactly that object from the master list and from every tag and type list. The indexes stay consistent. |
| AreaRegistry.MinId | src/game/object/area.cpp:284-286 | Pending ids are visited in ascending order, as std::set iterates: this returns the least id of a non-empty set. |
| AreaRegistry.DestroyAll | src/game/object/area.cpp:283-288 | Destroying a set of ids one by one removes exactly those ids from the id map and leaves the pending set alone. |
| AreaRegistry.DestroyAllSpec | src/game/object/area.cpp:283-288 | Destroying a set of ids removes exactly the objects with those ids from the master list and keeps the registry consistent. |
| AreaRegistry.DoDestroyObjects | src/game/object/area.cpp:283-288 | Destroying the pending objects removes every pending id from the id map and then empties the pending set. |
| AreaRegistry.UpdatePhases | src/game/object/area.cpp:490-518 | An update runs pending destruction first and never again in the same update. When paused it runs exactly four phases, with no perception. Otherwise it ends with the heartbeat. |
| AreaRegistry.UpdateRegistry | src/game/object/area.cpp:490-491 | After the first phase of an update nothing is pending, and no destroyed id resolves any more. |
| AreaRegistry.UpdateRegistrySpec | src/game/object/area.cpp:283-291 | The first phase of an update removes exactly the pending objects from the master list and keeps the registry consistent. |
| AreaRules.FixVisibility | src/game/object/area.cpp:145-152 | The fixed multimap has two entries per input pair: the pair and its reverse. Nothing else is in it. |
| AreaRules.FixVisibilitySymmetric | src/game/object/area.cpp:145-152 | The fixed multimap contains (a, b) exactly when it contains (b, a), which is exactly when the input holds either orientation. |
| AreaRules.RoomVisibility | src/game/object/area.cpp:751-779 | Every room gets a flag. All rooms are visible when the camera is not third-person or the leader has no room. Otherwise a room is visible exactly when it is the leader's room or is listed as visible from it. |
| AreaRules.RoomVisibilityMutual | src/game/object/area.cpp:138-152 | With the fixed multimap, a third-person leader in room a sees room b exactly when a leader in b would see a. |
| AreaRules.UpdateVisibility | src/game/object/area.cpp:795-800 | Outside third person every room is made visible each frame. In third person the flags are left as they were. |
| AreaRules.OnPartyLeaderMoved | src/game/object/area.cpp:740-749 | Without a leader, or when the leader stayed in its room, the flags are kept. Otherwise each room of the area is visible exactly when the camera is not third person, there is no leader room, the room is the leader room, or the leader room sees it. |
| AreaRules.LeaderMoveForgetsHistory | src/game/object/area.cpp:740-749 | After the leader changes room, two areas whose flags differed hold the same flags. Outside third person the result is the same as a plain visibility update. |
| AreaRules.SoundCandidates | src/game/object/area.cpp:852-866 | The candidates are active sounds whose squared distance is within the square of their maximum distance. Each is keyed by priority, then distance. |
| AreaRules.UpdateSounds | src/game/object/area.cpp:841-881 | The audible sounds are at most four, all active and within range. There are min(4, number of candidates) of them, ordered by priority then distance. |
| AreaRules.UpdateSoundsKeepsBest | src/game/object/area.cpp:868-877 | A sound in earshot that is not made audible means all four slots are taken, each by a sound ranking no worse than it. |
| AreaRules.StopIndex | src/game/object/area.cpp:883-902 | The trigger pass stops at the first entered trigger that links to another module, and at no earlier one. |
| AreaRules.CheckTriggersIntersection | src/game/object/area.cpp:883-902 | Each trigger up to the stopping one that the object enters gets the object as tenant, and every other trigger is unchanged. All events before the last are enter scripts. A module transition occurs exactly when a linked trigger is entered, and it is the last event, naming that trigger's module and entry. |
| AreaRules.TriggersAfterEntry | src/game/object/area.cpp:887-894 | The triggers after the pass: those entered up to the stopping one take the object as tenant, and the rest are unchanged. |
| AreaRules.EntryEvents | src/game/object/area.cpp:894-900 | The events of the pass are enter scripts, then at most one transition, which is last and present exactly when a linked trigger stops the pass. |
| AreaRules.EnteredTriggerNotReentered | src/game/object/area.cpp:888-890 | An entered trigger now has the object as tenant, so the same object at the same place does not enter it again. |
| AreaRules.NearestObjectAsWritten | src/game/object/area.cpp:1026-1043 | As written, the guard returns null exactly when nth is at least the candidate count. A negative nth passes the guard and is read out of bounds. |
| AreaRules.NearestObjectNegativeNth | src/game/object/area.cpp:1036-1042 | nth = -1 with one matching object reads index -1 of the candidates. |
| AreaRules.NearestObject | src/game/object/area.cpp:1026-1043 | Returns none exactly when nth is outside [0, number of matches). Otherwise it returns a matching object whose squared distance ranks nth among the matches: fewer than nth+1 are strictly nearer, and more than nth are no farther. |
| AreaRules.NearestObjectAgrees | src/game/object/area.cpp:1026-1043 | For nth ≥ 0 the as-written query and the corrected one agree on null and on the object found. |
| AreaRules.GetRandomGrassVariant | src/game/object/area.cpp:704-715 | The variant is in 0..3. It is the first i < 3 whose running probability sum exceeds draw × total, and 3 when none does. |
| AreaRules.GetElevationAt | src/game/object/area.cpp:441-488 | Three rays are cast down from height 1024 through `Collision.Raycast`. There is no ground exactly when, with creatures tested, an alive creature box other than the excepted one is hit, or a placeable is hit, or no room stops the walkable ray. Otherwise the ground is the first room that stops that ray, at 1024 minus the hit distance, and never below −1024. |
| AreaRules.ExceptedCreatureDoesNotBlock | src/game/object/area.cpp:441-488 | When the only creature box below the point belongs to the excepted object, the ground is the same as with creatures not tested at all. |
| AreaRules.GetCreatureObstacle | src/game/object/area.cpp:224-263 | Two rays go through `Collision.Raycast`: one at alive creature boxes other than the mover, one at room walls first and doors after. The way is blocked exactly when a creature collides within `ObstacleDistance`, or the first room wall the wall ray meets is within it, or no room stops the wall ray and a door collides within it. |
| AreaRules.NearRoomWallBlocks | src/game/object/area.cpp:248-259 | When the first room that stops the wall ray does so within the blocking distance, the way is blocked, whatever the creatures and doors. |
| AreaRules.NearestWithin | src/game/collisiondetect.cpp:81-137 | The nearest object collision is within a distance exactly when some collision is. |
| AreaRules.ObstacleDistance | src/game/object/area.cpp:231 | The blocking distance is the move length, but never less than 0.5. |
| AreaRules.FarRoomWallHidesDoors | src/game/object/area.cpp:224-263 | When the wall ray meets a room wall beyond the blocking distance and no creature is within it, the way is clear, however near a door is. The rooms are tested first and their hit is the answer. |
| AreaRules.MoveCreature | src/game/object/area.cpp:520-546 | The facing is set first. The creature moves exactly when the straight step is clear and has ground, or it is blocked and the step deflected by −0.75π is clear and has ground. It lands on the step taken, and otherwise stays put. |
| AreaRules.MoveCreatureBlockedTwice | src/game/object/area.cpp:535-542 | When both the straight and the deflected probe are blocked, the creature does not move. |
| Triggers.AddTenant | src/engine/game/object/trigger.cpp:109-111 | Adding a tenant inserts its id into the tenant set. Every other field of the trigger is unchanged. |
| Triggers.AddTenantThenIsTenant | src/engine/game/object/trigger.cpp:109-111 | After addTenant(o), o is a tenant. Every earlier tenant still is, and membership of any other object is unchanged. |
| Triggers.IsTenant | src/engine/game/object/trigger.cpp:124-127 | An object is a tenant exactly when its id is in the tenant set. |
| Triggers.IsIn | src/engine/game/object/trigger.cpp:113-122 | Fewer than three points is never inside. With exactly three points, the result is the ray hit on the first triangle. |
| Triggers.IsInReadsFourPoints | src/engine/game/object/trigger.cpp:119-121 | Points after the fourth are never consulted. |
| Triggers.Update | src/engine/game/object/trigger.cpp:92-107 | Exactly the tenants no longer inside are removed. The exit script runs for each removed tenant when the trigger has one, and for none when its exit script is empty. Every other field of the trigger is unchanged. |
| Triggers.UpdateIdempotent | src/engine/game/object/trigger.cpp:92-107 | A second update with nobody moving removes no one and runs no exit script. |
| Selection.OfferedKeyed | src/engine/game/object/area_selection.cpp:75-85 | Only objects that are selectable, are not the leader, have a visible model and lie within the selection distance are offered, each keyed by its squared distance. |
| Selection.GetSelectableObjects | src/engine/game/object/area_selection.cpp:68-95 | The result is a permutation of the offered objects, taken in list order, and is sorted by ascending squared distance. |
| Selection.SelectableIdsDistinct | src/engine/game/object/area_selection.cpp:68-95 | When the area lists each object once, the selectable list holds each object at most once. |
| Selection.SelectNextObject | src/engine/game/object/area_selection.cpp:41-66 | No selectables gives no selection. No current selection takes the first. Forward steps from the first occurrence and wraps to the front; reverse steps back from the last occurrence and wraps to the back. A selection missing from the list restarts at the front, or at the back in reverse. |
| Selection.SelectNextThenBack | src/engine/game/object/area_selection.cpp:52-65 | Over distinct selectables, stepping forward and then in reverse returns to the object selected before. |
| Selection.SelectNearestObject | src/engine/game/object/area_selection.cpp:97-100 | Selecting the nearest object gives the first selectable, or nothing when there is none. |
| Selection.UpdateObjectSelection | src/engine/game/object/area_selection.cpp:32-39 | A hilighted or selected object is kept exactly when it is still selectable, and is dropped otherwise. |
| Reputes.Init | src/engine/game/reputes.cpp:36-59 | Labels are the lower-cased row labels, and the table is square. The player and glb_xor columns hold 50 in every row. Every other cell is the 2DA integer under that column's label, or 50 when the cell is missing. |
| Reputes.GetRepute | src/engine/game/reputes.cpp:72-80 | Returns 50 when either faction index is outside the table, and the stored cell otherwise. |
| Reputes.GetIsEnemy | src/engine/game/reputes.cpp:61-70 | The Friendly1/Friendly2 pair, in either order, are enemies exactly when both are min-one-HP. Any other pair are enemies exactly when their repute is below 50. |
| Reputes.GetIsFriend | src/engine/game/reputes.cpp:82-84 | Friends stand above 50. |
| Reputes.GetIsNeutral | src/engine/game/reputes.cpp:86-88 | Neutrals stand at exactly 50. |
| Reputes.ExactlyOneStanding | src/engine/game/reputes.cpp:61-88 | Outside the friendly pair, two creatures are exactly one of friend (> 50), neutral (== 50) or enemy (< 50). |
| Reputes.OutOfTableNeutral | src/engine/game/reputes.cpp:76-77 | A faction index outside the table is neutral and not a friend. It is not an enemy either, unless it forms the friendly pair. |
| Reputes.FixedColumnsNeutral | src/engine/game/reputes.cpp:49-51 | Every faction reads as neutral towards a faction labelled player or glb_xor, and never as its enemy outside the friendly pair. |
| Reputes.LoadedCell | src/engine/game/reputes.cpp:43-58 | For any other column, the loaded repute is the 2DA cell under that label, with 50 for a missing cell. |
| CreatureFinder.PerceptionKindsCompose | src/engine/game/creaturefinder.cpp:82-109 | Each compound perception kind is the conjunction of its simple kinds, and NotSeen/NotHeard are the complements of Seen/Heard. |
| CreatureFinder.PerceptionCombinationsPartition | src/engine/game/creaturefinder.cpp:83-94 | Exactly one of SeenAndHeard, NotSeenAndNotHeard, HeardAndNotSeen and SeenAndNotHeard matches any seen/heard state. |
| CreatureFinder.MatchesCriteria | src/engine/game/creaturefinder.cpp:55-120 | A creature matches exactly when every criterion holds. Reputation criteria need a target of the right standing, perception criteria need a target seen or heard as the kind says, and unknown criteria hold. |
| CreatureFinder.EmptyCriteriaMatch | src/engine/game/creaturefinder.cpp:55-56 | An empty criteria list matches every creature. |
| CreatureFinder.NoTargetFails | src/engine/game/creaturefinder.cpp:62-76 | Without a target, any list that holds a perception criterion or a friend/enemy/neutral criterion matches no creature. |
| CreatureFinder.Candidates | src/engine/game/creaturefinder.cpp:40-46 | Each candidate is an area creature that matches the criteria, keyed by its squared distance. There are no more candidates than creatures. |
| CreatureFinder.GetNearest | src/engine/game/creaturefinder.cpp:48-52 | No result exactly when nth is negative or not below the number of candidates. Otherwise the result is a matching creature with at most nth candidates strictly nearer and more than nth at most as near. |
| CreatureFinder.GetNearestCreature | src/engine/game/creaturefinder.cpp:37-53 | Any creature found matches the criteria against the target, and a negative nth finds none. |
| CreatureFinder.GetNearestCreatureToLocation | src/engine/game/creaturefinder.cpp:122-138 | Any creature found matches the criteria with no target, and a negative nth finds none. |
| CreatureFinder.NearestWithoutCriteria | src/engine/game/creaturefinder.cpp:37-53 | With no criteria, the 0th nearest creature exists exactly when the area has a creature, and no creature is strictly nearer than it. |
| Perception.DoorBlocksSight | src/engine/game/perception.cpp:97-114 | A door whose walkmesh the subject-to-target ray hits within their distance breaks the line of sight. |
| Perception.IsInLineOfSight | src/engine/game/perception.cpp:97-114 | Sight holds exactly when the ray over the distance between the two creatures, cast against room walkmeshes and doors only, hits nothing. |
| Perception.StepSenses | src/engine/game/perception.cpp:63-92 | After one creature is re-decided, it is heard exactly when within hearing range and seen exactly when within sight range and in line of sight. Every other creature keeps its state. |
| Perception.StepEvents | src/engine/game/perception.cpp:74-92 | One creature is re-decided and reports an event exactly when its hearing or sight state changed: heard, inaudible, seen or vanished. |
| Perception.UpdateSubjectHeard | src/engine/game/perception.cpp:56-82 | After the update, the subject hears exactly the other area creatures within hearing range. It never hears itself anew, and creatures outside the area keep their state. |
| Perception.UpdateSubjectSeen | src/engine/game/perception.cpp:57-92 | After the update, the subject sees exactly the other area creatures within sight range and in line of sight. Creatures outside the area keep their state. |
| Perception.UpdateSubjectEvents | src/engine/game/perception.cpp:59-92 | The subject's update reports an event exactly for each other area creature whose hearing or sight state changed. |
| Perception.UpdateAll | src/engine/game/perception.cpp:51-94 | Dead creatures are skipped and keep their state. Each living creature is updated against the full creature list, dead creatures included. |
| Perception.DoUpdate | src/engine/game/perception.cpp:48-95 | The pass keeps the list and its order, and it leaves dead creatures untouched. |
| Perception.UpdateSubjectStable | src/engine/game/perception.cpp:59-92 | Re-deciding a subject a second time, with nobody moved, changes nothing and reports nothing. |
| Perception.DoUpdateIdempotent | src/engine/game/perception.cpp:48-95 | A second pass with nobody moved changes no creature and reports no event. |
| Perception.StableSenses | src/engine/game/perception.cpp:59-92 | A second pass over the same creatures with the same distances and lines of sight leaves the heard and seen sets as the first pass left them. |
| Perception.StableEvents | src/engine/game/perception.cpp:74-92 | A second pass over the same creatures with the same distances and lines of sight reports no event. |
| CreatureClass.LoadSavingThrows | src/engine/game/d20/class.cpp:72-84 | The loaded table has an entry for exactly the levels that some row names. |
| CreatureClass.LoadSavingThrowsFirstWins | src/engine/game/d20/class.cpp:82 | Map insertion keeps an existing key, so a level's entry holds the throws of the first row with that level. |
| CreatureClass.GetSavingThrows | src/engine/game/d20/class.cpp:97-103 | A level without an entry is a logic error. Any other level yields its stored throws. |
| CreatureClass.GetAttackBonus | src/engine/game/d20/class.cpp:105-110 | A level outside 1..#rows is an invalid argument. Level k yields the k-th row's bonus. |
| CreatureClass.LoadedSavingThrows | src/engine/game/d20/class.cpp:72-103 | After loading, a level's throws are those of its first row. |
| CreatureClass.AttackBonusRows | src/engine/game/d20/class.cpp:86-110 | The loaded bonuses answer exactly the levels 1..n, where n is the number of rows. |
| Attributes.AddClassLevels | src/engine/game/d20/attributes.cpp:30-38 | A class already taken gets the levels added to its first entry, and nothing else changes. A new class is appended with the levels. Abilities and skills are untouched, and distinct classes stay distinct. |
| Attributes.GetClassByPosition | src/engine/game/d20/attributes.cpp:40-44 | Position p in 1..#classes yields the class of the p-th entry. Any other position yields Invalid. |
| Attributes.GetLevelByPosition | src/engine/game/d20/attributes.cpp:50-54 | Position p in 1..#classes yields the levels of the p-th entry. Any other position yields 0. |
| Attributes.GetEffectiveClass | src/engine/game/d20/attributes.cpp:46-48 | The effective class is the class at the last position, so it is Invalid without classes. |
| Attributes.GetClassLevel | src/engine/game/d20/attributes.cpp:56-62 | Yields the levels of the class's first entry, or 0 for a class not taken. |
| Attributes.PositionAgreesWithClass | src/engine/game/d20/attributes.cpp:40-62 | With distinct classes, the level at a position is the class level of the class at that position. |
| Attributes.AddThenGetClassLevel | src/engine/game/d20/attributes.cpp:30-62 | Adding levels raises that class's level by the amount and leaves every other class's level unchanged. |
| Attributes.GetAggregateLevel | src/engine/game/d20/attributes.cpp:72-78 | Without classes the total is 0. When no entry is negative, the total is non-negative and at least the levels of any one class. |
| Attributes.AddClassLevelsAggregate | src/engine/game/d20/attributes.cpp:30-78 | Adding levels to any class raises the total level by exactly that amount. |
| Attributes.AggregateLevelOfAdds | src/engine/game/d20/attributes.cpp:30-78 | Any sequence of level-ups, in any classes and order, raises the aggregate level by the sum of their levels. Starting from no classes, the aggregate is exactly that sum. |
| Attributes.GetAggregateHitDie | src/engine/game/d20/attributes.cpp:64-70 | Without classes the sum is 0. It is non-negative when all levels and hit dice are. |
| Attributes.AddClassLevelsHitDie | src/engine/game/d20/attributes.cpp:30-70 | Adding levels of a known class raises the aggregate hit die by those levels times the class hit die. |
| Attributes.GetAggregateSavingThrows | src/engine/game/d20/attributes.cpp:80-92 | A logic error exactly when some class has no throws for its level. Otherwise each throw is 1 plus the sum of that throw over the classes at their levels. Without classes the throws are 1/1/1. |
| Attributes.AddNewClassSavingThrows | src/engine/game/d20/attributes.cpp:30-92 | Taking a new class adds that class's throws at its level to the aggregate. |
| Attributes.GetAggregateAttackBonus | src/engine/game/d20/attributes.cpp:94-101 | An invalid argument exactly when some class's level falls outside its attack-bonus table. Otherwise the result is the sum, over the classes, of each table's entry at the class level. |
| Attributes.SingleClassAttackBonus | src/engine/game/d20/attributes.cpp:94-101 | A single class at level 1 has the first row of its table as its attack bonus. |
| Attributes.AddNewClassAttackBonus | src/engine/game/d20/attributes.cpp:30-101 | Taking a new class adds its table's bonus at its level to the aggregate. |
| Attributes.GetAbilityScore | src/engine/game/d20/attributes_abilities.cpp:26-30 | A score never set reads as 8. A set score reads back. |
| Attributes.GetAbilityModifier | src/engine/game/d20/attributes_abilities.cpp:32-35 | The modifier is (score - 10) / 2 rounded toward zero: twice the modifier is within 1 of score - 10, on the side of zero. |
| Attributes.SetAbilityScore | src/engine/game/d20/attributes_abilities.cpp:61-63 | Only the score map changes, and it gains the ability as a key. |
| Attributes.SetThenGetAbility | src/engine/game/d20/attributes_abilities.cpp:26-63 | A set score reads back, and every other ability keeps its score. |
| Attributes.ModifierExamples | src/engine/game/d20/attributes_abilities.cpp:26-35 | An unset ability has modifier -1. Scores 9, 7 and 14 give 0, -1 and 2. |
| Attributes.ModifierMonotone | src/engine/game/d20/attributes_abilities.cpp:32-35 | The modifier never decreases as the score grows. |
| Attributes.GetDefense | src/engine/game/d20/attributes.cpp:103-105 | Defence is 10 plus the dexterity modifier of the ability record. |
| Attributes.DefenseIgnoresScoreMap | src/engine/game/d20/attributes.cpp:103-105 | Setting dexterity in the score map does not move defence, which reads the separate ability record. |
| Attributes.GetSkillRank | src/engine/game/d20/attributes_skills.cpp:26-34 | A rank never set reads as 0. A set rank reads back. |
| Attributes.SetSkillRank | src/engine/game/d20/attributes_skills.cpp:68-70 | Only the rank map changes, and it gains the skill as a key. |
| Attributes.SetThenGetSkill | src/engine/game/d20/attributes_skills.cpp:28-70 | A set rank reads back, HasSkill holds exactly for a positive rank, and other skills are unchanged. |
| Attributes.NoRanksNoSkill | src/engine/game/d20/attributes_skills.cpp:28-34 | A creature with no ranks set has no skill. |
| Attributes.HasSkill | src/engine/game/d20/attributes_skills.cpp:28-30 | A skill is had exactly when its rank is positive. |
| Attributes.AddThenGetSameClass | src/engine/game/d20/attributes.cpp:30-62 | Adding levels of a class raises that class's level by exactly the levels added, whether or not the class was present. |
| Attributes.AddThenGetOtherClass | src/engine/game/d20/attributes.cpp:30-62 | Adding levels of one class leaves the level of every other class unchanged. |
| ChargenSkills.GetPointCost | src/engine/game/gui/chargen/skills.cpp:219-223 | The cost is 1 for a class skill and 2 otherwise. |
| ChargenSkills.MaxSkillRank | src/engine/game/gui/chargen/skills.cpp:172 | The cap is 4 for a class skill and 2 otherwise. |
| ChargenSkills.Reset | src/engine/game/gui/chargen/skills.cpp:113-135 | Points are max(1, (skill point base + intelligence modifier) / 2), rounded toward zero, and four times that in a new game. A new game zeroes all eight ranks and keeps the screen's classes and scores. A level-up takes the character's attributes. |
| ChargenSkills.ClearRanks | src/engine/game/gui/chargen/skills.cpp:122-129 | Every listed skill reads rank 0, unlisted skills keep their rank, and classes and scores are untouched. |
| ChargenSkills.Plus | src/engine/game/gui/chargen/skills.cpp:203-207 | The plus button spends the skill's cost and raises its rank by one. Every other rank is unchanged. |
| ChargenSkills.Minus | src/engine/game/gui/chargen/skills.cpp:197-201 | The minus button refunds the skill's cost and lowers its rank by one. Every other rank is unchanged. |
| ChargenSkills.SpentChange | src/engine/game/gui/chargen/skills.cpp:197-207 | Changing one rank by d changes the cost-weighted rank sum by cost times d, for each time the skill occurs in the list. |
| ChargenSkills.AllSkillsOnce | src/engine/game/gui/chargen/skills.cpp:122-147 | Each of the eight skills occurs once in the list the screen displays and resets. |
| ChargenSkills.ButtonsPreserveBudget | src/engine/game/gui/chargen/skills.cpp:197-208 | Remaining points plus the sum of cost times rank over the eight skills is the same before and after plus or minus. |
| ChargenSkills.SpentNothing | src/engine/game/gui/chargen/skills.cpp:122-129 | With every listed rank at 0, nothing is spent. |
| ChargenSkills.NewGameBudget | src/engine/game/gui/chargen/skills.cpp:113-130 | After a new-game reset, the whole budget is the remaining points. |
| ChargenSkills.OfferedButtonsStayWithinLimits | src/engine/game/gui/chargen/skills.cpp:149-208 | Pressing only the buttons the screen shows keeps points non-negative and every rank within 0..cap. Plus is shown when the points cover the cost and the rank is below the cap; minus is shown when the rank is positive. |
| ChargenSkills.PlusKeepsBudget | src/engine/game/gui/chargen/skills.cpp:203-223 | A plus raises the points spent on ranks by exactly the skill's cost. |
| ChargenSkills.MinusKeepsBudget | src/engine/game/gui/chargen/skills.cpp:197-223 | A minus lowers the points spent on ranks by exactly the skill's cost. |
| ChargenSkills.CanIncreaseSkill | src/engine/game/gui/chargen/skills.cpp:168-177 | The plus button is shown when the points cover the cost and the rank is below its cap. |
| ChargenSkills.CanDecreaseSkill | src/engine/game/gui/chargen/skills.cpp:149-156 | The minus button is shown when the rank is positive. |
| PartySelect.AddNpc | src/engine/game/gui/partyselect.cpp:119-124 | One free slot fewer and the NPC's flag set. No other flag changes, and the added count grows by one when the NPC was not yet added. |
| PartySelect.RemoveNpc | src/engine/game/gui/partyselect.cpp:176-181 | One free slot more and the NPC's flag cleared. No other flag changes, and the added count drops by one when the NPC was added. |
| PartySelect.Prepare | src/engine/game/gui/partyselect.cpp:75-88 | Exactly the forced NPCs are flagged. Two slots, minus one per forced NPC, remain free. |
| PartySelect.OnNpcButtonClick | src/engine/game/gui/partyselect.cpp:183-185 | Clicking an NPC button selects that NPC and changes nothing else. |
| PartySelect.OnAcceptButtonClick | src/engine/game/gui/partyselect.cpp:151-163 | With no selection (-1) nothing changes. An added, non-forced NPC is removed. A non-added NPC is added while a slot is free. Otherwise nothing changes, and no other flag ever moves. |
| PartySelect.PrepareBalanced | src/engine/game/gui/partyselect.cpp:75-124 | With distinct forced NPCs, the screen opens with free slots plus added NPCs equal to two, no negative count, and every forced NPC added. |
| PartySelect.AcceptKeepsBalanced | src/engine/game/gui/partyselect.cpp:151-185 | Selecting an NPC and pressing accept keeps that invariant. |
| PartySelect.SameForcedNpcTwice | src/engine/game/gui/partyselect.cpp:83-88 | The same NPC forced in both slots is added once but takes both slots, so the invariant fails. |
| Combat.Defense | src/engine/game/combat/combat_attack.cpp:38-43 | A target that is not a creature defends with 10. |
| Combat.DetermineAttackResult | src/engine/game/combat/combat_attack.cpp:34-54 | A roll of 20 is an automatic hit. Otherwise, roll plus attack bonus at least the defence is a hit, and below it is a miss. Each result comes with both directions. |
| Combat.RollSuccess | src/engine/game/combat/combat_attack.cpp:45-65 | A fresh roll succeeds exactly when it is a 20 or reaches the defence, and it is never a critical hit. |
| Combat.WieldTypesDisjoint | src/engine/game/combat/combat_attack.cpp:67-88 | No wield type is both melee and ranged, and wielding nothing is neither. |
| Combat.IsAttackSuccessful | src/engine/game/combat/combat_attack.cpp:56-65 | A successful hit, a critical hit and an automatic hit count as success; any other result does not. |
| Combat.IsMeleeWieldType | src/engine/game/combat/combat_attack.cpp:67-76 | The single sword, double-bladed sword and dual swords are melee wield types. |
| Combat.IsRangedWieldType | src/engine/game/combat/combat_attack.cpp:78-88 | The blaster pistol, dual pistols, blaster rifle and heavy weapon are ranged wield types. |
| Combat.DetermineAttackAnimation | src/engine/game/combat/combat_attack.cpp:90-134 | Outside a duel the target does not animate, and the attacker fires a blaster exactly when wielding a ranged weapon. In a duel the target plays a damage animation exactly when the attack succeeded, and melee against melee is cinematic. |
| Combat.ApplyAttackResult | src/engine/game/combat/combat_attack.cpp:136-161 | An undecided result is a logic error. Any kind of miss has no effect. A hit applies the fixed damage as universal damage, or the weapon damage when the damage is -1. |
| Combat.AddAttack | src/game/combat/combat.cpp:58-84 | An attacker that owns a round is ignored. The reverse attacker of an open round joins it as a duel, but only while it has no second attack and is not past half time; otherwise it is ignored. Anyone else starts a new round. |
| Combat.Decide | src/game/combat/combat.cpp:148-151 | Starting an attack keeps a decided result and decides an undecided one, and it keeps the attacker, target and damage. |
| Combat.UpdateRound | src/game/combat/combat.cpp:100-146 | The clock advances but stops at 3.0. The state moves Started to FirstAttack at once, FirstAttack to SecondAttack exactly when past half time, and SecondAttack to Finished exactly at 3.0. The state never skips a step, and the participants are kept. The effects: a started round starts its decided first attack. Reaching SecondAttack applies the first attack, then starts the decided second one if there is one. Finishing applies the second attack if there is one, then finishes the round. A step that keeps the state has at most one effect, a projectile step. |
| Combat.RoundEffectsInOrder | src/game/combat/combat.cpp:103-142 | Over three full-round updates, a started round starts and applies its first attack, starts and applies its second attack if it has one, and finishes last. So each attack is applied exactly once, after it is decided and before the round finishes. |
| Combat.Update | src/game/combat/combat.cpp:86-98 | After the update, exactly the rounds that did not finish remain, each one updated. |
| Combat.AddAttackWellFormed | src/game/combat/combat.cpp:58-84 | Adding an attack keeps each round keyed by its first attacker. A second attack exists exactly in a duel and answers the first, and clocks stay within 0..3. |
| Combat.UpdateWellFormed | src/game/combat/combat.cpp:86-101 | An update by a non-negative step keeps the same invariant. |
| Combat.RoundFinishesInThreeUpdates | src/game/combat/combat.cpp:100-146 | Three updates of at least a full round each finish any round. |
| Combat.NoSkippedAttack | src/game/combat/combat.cpp:103-142 | A round that has not reached its second attack cannot finish in a single update. |
| RoutinesD20.NumDice | src/engine/game/script/routines_d20.cpp:39 | The dice count is the first argument, or 1 when it is absent. It is never below 1, and an argument below 1 gives exactly 1. |
| RoutinesD20.RollDice | src/engine/game/script/routines_d20.cpp:38-135 | The roll is the sum of the first NumDice die results, so n dice of N sides give a value in [n, n*N]. |
| RoutinesD20.GetHitDice | src/engine/game/script/routines_d20.cpp:150-161 | An invalid creature has 0 hit dice. A valid one has its aggregate level. |
| RoutinesD20.GetClassByPositionRoutine | src/engine/game/script/routines_d20.cpp:163-175 | An invalid creature yields Invalid. A valid one yields its class at the position. |
| RoutinesD20.GetLevelByClass | src/engine/game/script/routines_d20.cpp:177-189 | An invalid creature yields 0. A valid one yields its class level. |
| RoutinesD20.GetHasSkill | src/engine/game/script/routines_d20.cpp:205-217 | The result is 1 exactly when the creature is valid and has the skill, and 0 otherwise. |
| RoutinesD20.GetAbilityScoreRoutine | src/engine/game/script/routines_d20.cpp:283-295 | An invalid creature yields 0. A valid one yields its ability score. |
| RoutinesD20.GetLevelByPositionRoutine | src/engine/game/script/routines_d20.cpp:297-309 | An invalid creature yields 0. A valid one yields its level at the position. |
| RoutinesD20.GetSkillRankRoutine | src/engine/game/script/routines_d20.cpp:311-323 | An invalid creature yields 0. A valid one yields its skill rank. |
| RoutinesD20.InvalidLooksClassless | src/engine/game/script/routines_d20.cpp:150-323 | A script's class, level and skill queries cannot tell an invalid creature from a valid one without classes or skills. Its ability queries can: the unset score reads 8, while an invalid creature reads 0. |
| GameState.GetGlobalBoolean | src/engine/game/game.cpp:816-818 | An unset boolean reads false. A set one reads its value. |
| GameState.GetGlobalNumber | src/engine/game/game.cpp:820-822 | An unset number reads 0. A set one reads its value. |
| GameState.GetGlobalString | src/engine/game/game.cpp:824-827 | An unset string reads empty. A set one reads its value. |
| GameState.GetGlobalLocation | src/engine/game/game.cpp:829-831 | An unset location reads null. A set one reads what was stored, and that may be null too: a location is present exactly when one was stored under the name. |
| GameState.SetGlobalBoolean | src/engine/game/game.cpp:833-835 | Only the boolean table changes, and it gains the name. |
| GameState.SetGlobalNumber | src/engine/game/game.cpp:837-839 | Only the number table changes, and it gains the name. |
| GameState.SetGlobalString | src/engine/game/game.cpp:841-843 | Only the string table changes, and it gains the name. |
| GameState.SetGlobalLocation | src/engine/game/game.cpp:845-847 | Stores a location or null under the name. Only the location table changes, and it gains the name. |
| GameState.UnsetGlobals | src/engine/game/game.cpp:816-831 | With nothing set, every global reads false, 0, empty or null. |
| GameState.SetThenGetGlobals | src/engine/game/game.cpp:816-847 | Each kind of global reads back what was set, a null location included, and other names keep their values. |
| GameState.GetObjectById | src/engine/game/game.cpp:344-353 | The self id is an invalid argument and the invalid id yields null. Any object found has the id asked for and is known to the object factory. |
| GameState.GetLiveObject | src/engine/game/game.cpp:350-351 | Any id the object factory knows, other than the two reserved ids, is found. |
| GameState.HandleSpeedKey | src/engine/game/game.cpp:774-786 | A key is handled exactly in developer mode when minus finds the speed above 1 or equals finds it below 8. Minus lowers the speed and equals raises it, within [1, 8]. An unhandled key leaves the speed alone. |
| GameState.HandleSpeedKeys | src/engine/game/game.cpp:770-814 | Any sequence of keys keeps a speed that starts within [1, 8] inside [1, 8]. |
| GameState.SpeedStaysInRange | src/engine/game/game.cpp:770-786 | Starting from the default speed, any key sequence keeps the speed within [1, 8]. |
| GameState.ScheduleModuleTransition | src/engine/game/game.cpp:659-662 | Scheduling records the module and entry to load next. |
| GameState.LoadScheduled | src/engine/game/game.cpp:468-513 | A frame loads the scheduled module with its entry exactly when its name is non-empty, and then clears both. Otherwise the schedule is kept. |
| GameState.UpdatesWorld | src/engine/game/game.cpp:473-477 | The module and combat advance only without a video, with a module loaded, in game or in conversation, and when not paused. |
| GameState.TransitionHappensOnce | src/engine/game/game.cpp:508-513 | A scheduled transition is loaded by the next frame and not again by the one after it. |
| SoundObject.Update | src/engine/game/object/sound.cpp:76-110 | An inaudible object drops its playback and plays nothing. A sound is only started by an active, audible, idle object whose timeout has run out and whose list is non-empty. The started sound is the next one, wrapping to the first. It loops only when it is the only sound and the object is continuous, and the timeout restarts at the interval. The timeout never goes negative, and the object never reactivates itself. |
| SoundObject.IsStopped | src/engine/game/object/sound.cpp:89 | Playback is over when there is none, or when the playing sound has finished. |
| SoundObject.Play | src/engine/game/object/sound.cpp:117-124 | Playing stops any playback, clears the timeout and activates the object. |
| SoundObject.Stop | src/engine/game/object/sound.cpp:126-133 | Stopping drops the playback and deactivates the object. |
| SoundObject.SetAudible | src/engine/game/object/sound.cpp:141-143 | Only the audible flag changes. |
| SoundObject.PlayStartsAtOnce | src/engine/game/object/sound.cpp:89-124 | After play, the next frame of an audible object with a sound left to play starts it. |
| SoundObject.StoppedStaysSilent | src/engine/game/object/sound.cpp:87-133 | A stopped object plays nothing and stays inactive on the next frame. |
| SoundObject.EmptyListDeactivates | src/engine/game/object/sound.cpp:96-98 | An active, audible, idle object with no sounds deactivates once its timeout has run out. |
| SoundObject.EndOfList | src/engine/game/object/sound.cpp:99-107 | Past the last sound, a non-looping object deactivates without playing, and a looping one plays the first sound. |
| SceneGraph.CullRoots | src/engine/scene/scenegraph.cpp:77-86 | There is one flag per root. A root is drawn only if it is visible, within its draw distance, and either not cullable or inside the frustum. A cullable root outside the frustum is culled. |
| SceneGraph.VisibleNearRootDrawn | src/engine/scene/scenegraph.cpp:79-82 | A visible root within its draw distance is drawn when it is inside the frustum or not cullable. |
| SceneGraph.LightCandidates | src/engine/scene/scenegraph.cpp:361-371 | Each candidate is a scene light that passes the filter and is within its own radius of the node, keyed by priority and then squared distance. |
| SceneGraph.LightCandidatesComplete | src/engine/scene/scenegraph.cpp:361-371 | Every light that passes the filter and is in range is a candidate. |
| SceneGraph.GetLightsAt | src/engine/scene/scenegraph.cpp:352-387 | Every light returned passes the filter and is in range, and the result is ordered by priority and then distance. It holds min(#candidates, count) lights, or all candidates for a negative count, since the size comparison is unsigned. |
| SceneGraph.GetLightsAtKeepsBest | src/engine/scene/scenegraph.cpp:373-386 | A candidate left out means exactly count lights were returned, none ranked after it. |
| SceneGraph.UpdateLighting | src/engine/scene/scenegraph.cpp:88-94 | Without a reference node there are no closest lights. Otherwise there are at most 16, each non-ambient, in range and in the scene. |
| SceneGraph.UpdateShadows | src/engine/scene/scenegraph.cpp:96-103 | Fading lowers the strength by dt, down to 0. Otherwise it rises by dt, up to 1. A strength in [0, 1] stays in [0, 1]. |
| SceneGraph.NextShadowLight | src/engine/scene/scenegraph.cpp:166-176 | A shadow light is proposed only with a reference node, it is a shadow-casting light in range, and one is proposed whenever such a light exists. |
| SceneGraph.NoShadowLightFound | src/engine/scene/scenegraph.cpp:171-175 | An empty one-light lookup means no shadow-casting light is in range. |
| SceneGraph.RefreshShadowLight | src/engine/scene/scenegraph.cpp:178-197 | No candidate clears the light. A candidate with no current light is taken at once, unfaded. The same light changes nothing. A different light only starts a fade-out, and replaces the current one once the fade has reached zero. |
| SceneGraph.ShadowLightHandover | src/engine/scene/scenegraph.cpp:166-197 | When a frame's dt covers the strength, a change of shadow light takes three frames: fade out, reach zero, switch and fade in. |
| SceneGraph.PrepareGrassNode | src/engine/scene/scenegraph.cpp:268-290 | At most 256 clusters are kept, or all visible ones when fewer. Each is a visible cluster of the node, and they are ordered farthest first. |
| SceneGraph.PrepareGrassKeepsNearest | src/engine/scene/scenegraph.cpp:280-286 | A visible cluster is dropped only when 256 are kept, and every kept cluster is at most as deep as it. |
| SceneGraph.PrepareGrass | src/engine/scene/scenegraph.cpp:259-293 | Without a camera nothing is prepared. Otherwise each grass node gets a list of at most 256 of its own visible clusters. |
| Animation.GetAnimationBlendMode | src/engine/scene/node/modelnode_animation.cpp:98-102 | The mode is Blend exactly when the blend flag is set, and Overlay exactly when overlay is set without blend. Otherwise it is Single. |
| Animation.ResetChannel | src/engine/scene/node/modelnode_animation.cpp:104-113 | A reset channel holds the given animation and properties at time 0, not finished, not in transition and not frozen. |
| Animation.PlayAnimation | src/engine/scene/node/modelnode_animation.cpp:38-86 | The first channel starts the animation at time 0, with a zero scale replaced by the model's scale. Single leaves the other channels. Blend moves an unfinished first channel to the second, frozen, and marks the new one as in transition. Overlay shifts every channel down when already in overlay, and otherwise resets the others. |
| Animation.PlayAnimationByName | src/engine/scene/node/modelnode_animation.cpp:31-36 | An unknown name changes nothing. A known one plays that animation in the first channel. |
| Animation.Fired | src/engine/scene/node/modelnode_animation.cpp:143-148 | The names signalled are exactly those of the events whose time lies in the step's interval (previous time, new time]. |
| Animation.FiredSplit | src/engine/scene/node/modelnode_animation.cpp:143-148 | Two consecutive intervals signal, together, exactly the events of the joined interval. |
| Animation.AdvancedTime | src/engine/scene/node/modelnode_animation.cpp:133-136 | The new time is the old time plus speed times dt, capped at the lip-sync or animation length. |
| Animation.UpdateChannelAsWritten | src/engine/scene/node/modelnode_animation.cpp:144-148 | As written, the event test compares each event with the new time on both sides, so no event is ever signalled. |
| Animation.WrittenUpdateKeepsChannel | src/engine/scene/node/modelnode_animation.cpp:127-159 | The engine's channel update and the corrected one leave the channel in the same state. The engine's signals no events. |
| Animation.EventNeverSignalled | src/engine/scene/node/modelnode_animation.cpp:144-148 | An event at 0.5 s within a 1 s step from 0 is dropped by the code as written but signalled by the corrected update. |
| Animation.UpdateChannel | src/engine/scene/node/modelnode_animation.cpp:127-158 | A channel with no animation, frozen or finished is untouched. Otherwise the time advances up to the length, and the events in (old time, new time] are signalled. At the length a looping channel returns to 0 and any other finishes, and the transition flag stays only before the transition time. |
| Animation.FinishedStaysFinished | src/engine/scene/node/modelnode_animation.cpp:130 | A finished channel stays finished and signals nothing. |
| Animation.ShortStep | src/engine/scene/node/modelnode_animation.cpp:133-148 | A step that stays short of the end advances the time by speed times dt and leaves the channel running. |
| Animation.TwoStepsFireOnce | src/engine/scene/node/modelnode_animation.cpp:143-148 | Two steps short of the end signal, together, exactly the events of one step covering both, so no event is lost or repeated. |
| Animation.UpdateChannels | src/engine/scene/node/modelnode_animation.cpp:116-118 | Each channel is updated on its own. An event is returned exactly when the corrected update of some channel signals it, and the first channel's events come first. |
| Animation.UpdateAnimations | src/engine/scene/node/modelnode_animation.cpp:115-125 | Every channel is updated, and the mode and scale are kept. An event is returned exactly when the corrected update of some channel signals it, and none is returned when no channel advances. |
| Animation.PlayThenFinish | src/engine/scene/node/modelnode_animation.cpp:127-158 | A freshly played animation is not finished. A non-looping one played alone is finished after an update that reaches its length. |
| Animation.IsAnimationFinished | src/engine/scene/node/modelnode_animation.cpp:330-332 | Only the first channel decides: it has an animation and that animation has finished. `Animation.PlayThenFinish` relates it to playing and updating. |
| Animation.FiredNothingInEmptyInterval | src/engine/scene/node/modelnode_animation.cpp:143-148 | A step that does not advance the time signals no event. |
| Keyframes.AddKeyframe | src/graphics/model/animatedproperty.h:87-89 | The new keyframe is appended after all the earlier ones, which keep their places, and the count grows by one. |
| Keyframes.AddKeyframesCount | src/graphics/model/animatedproperty.h:46-89 | After adding a list of keyframes one by one, the count has grown by the length of the list and the keyframes are the old ones followed by the list. |
| Keyframes.GetNumKeyframes | src/graphics/model/animatedproperty.h:46-48 | The number of keyframes stored. |
| Keyframes.Update | src/graphics/model/animatedproperty.h:91-95 | Sorting leaves the keyframes in non-decreasing time order, as a permutation of the keyframes before, with the same count. |
| Keyframes.FirstAtOrAfter | src/graphics/model/animatedproperty.h:55-63 | The search finds the first keyframe whose time is at or after the query time: every earlier keyframe is before it. It finds none exactly when all keyframes are before the query time. |
| Keyframes.Between | src/graphics/model/animatedproperty.h:65-72 | Interpolating between a keyframe and the one before it gives a value between their two values, and exactly the later value at the later keyframe's time. |
| Keyframes.GetByTimeAsWritten | src/graphics/model/animatedproperty.h:50-75 | As written, an empty property yields nothing. When every keyframe is before the query time, the search leaves both interpolation ends on the first keyframe, so the first value is returned. |
| Keyframes.PastLastKeyframeSnapsBack | src/graphics/model/animatedproperty.h:53-63 | With keyframes (0 s, 0) and (1 s, 10), the value read at 2 s is 0 as written but 10 with the correction. |
| Keyframes.GetByTime | src/graphics/model/animatedproperty.h:50-75 | An empty property yields nothing. At or before the first keyframe the value is the first value, and after the last keyframe it is the last value. Wherever a keyframe at or after the time exists, the result is the engine's own. |
| Keyframes.GetByTimeBetween | src/graphics/model/animatedproperty.h:55-72 | With sorted keyframes, a time between two neighbouring keyframes reads a value between their values. |
| Keyframes.GetByTimeAtKeyframe | src/graphics/model/animatedproperty.h:55-72 | With strictly increasing times, reading at a keyframe's own time gives that keyframe's value. |
| Keyframes.GetByKeyframeOrElse | src/graphics/model/animatedproperty.h:81-85 | An index at or past the count yields the default. |
| Keyframes.GetByKeyframe | src/graphics/model/animatedproperty.h:77-79 | The value of the keyframe at the index, which must exist. |
| Keyframes.AddThenGetByKeyframe | src/graphics/model/animatedproperty.h:77-89 | A keyframe added last is read back at the old count. The earlier indices read what they read before, and the index after the new one reads the default. |
| Models.Flatten | src/engine/graphics/model/model.cpp:53-60 | The depth-first node list starts at the root. |
| Models.NewModel | src/engine/graphics/model/model.cpp:31-46 | A missing root node is an invalid argument. Otherwise the model keeps the root and the supermodel, and starts with no animations. |
| Models.FirstNamed | src/engine/graphics/model/model.cpp:53-56 | The node found is the first in the list with the name, since a name lookup keeps the first node inserted under it. Nothing is found exactly when no node has the name. |
| Models.GetNodeByName | src/engine/graphics/model/model.cpp:102-104 | A node found has the name and belongs to the model's tree. Nothing is found exactly when no node of the tree has the name. |
| Models.GetNodeByNameRecursive | src/engine/graphics/model/model.cpp:106-112 | The model's own node wins. Otherwise the supermodel chain is searched, and nothing is found exactly when no model of the chain has such a node. |
| Models.NodePathFacts | src/engine/graphics/model/model.cpp:149-157 | A path is found exactly when some node of the tree has the name. It descends from the root through children to the node the name lookup finds, and no node above that one has the name. |
| Models.GetAncestorNodes | src/engine/graphics/model/model.cpp:149-160 | The result is exactly the names of the nodes above the found node, on the path from the root down to it. An unknown name and the root have none, and the node is never its own ancestor. |
| Models.BoneNodeNames | src/engine/graphics/model/model.cpp:62-81 | There is one name per bone serial. A serial within the node list names the node at that depth-first position, and any other serial gives the empty name. |
| Models.BoneNamesResolve | src/engine/graphics/model/model.cpp:62-81 | Every non-empty bone name resolves to a node of the model. |
| Models.FindAnim | src/engine/graphics/model/model.cpp:121-123 | An animation found has the name and belongs to the model. Nothing is found exactly when no animation has the name. |
| Models.InsertAnim | src/engine/graphics/model/model.cpp:98-100 | Inserting adds exactly the new animation and keeps the animations in the model's chosen ascending name order. |
| Models.AddAnimation | src/engine/graphics/model/model.cpp:98-100 | A name already present keeps its animation and the model is unchanged. Otherwise exactly the new animation is added, and the nodes and supermodel are kept. |
| Models.AddThenGetAnimation | src/engine/graphics/model/model.cpp:98-131 | After adding, the name resolves to the added animation, unless the model already had one of that name. |
| Models.GetAnimation | src/engine/graphics/model/model.cpp:121-131 | The model's own animation wins. Otherwise the supermodel chain is searched, and nothing is found exactly when no model of the chain has the name. |
| Models.GetAnimationNames | src/engine/graphics/model/model.cpp:133-147 | The supermodel's names come first, then the model's own names in the order the model keeps them. |
| Models.ListedIffFound | src/engine/graphics/model/model.cpp:121-147 | A name is listed exactly when looking it up finds an animation. |
| MdlReader.CheckNodeFlags | src/engine/graphics/model/mdlreader.cpp:583-597 | A node's flags are refused as a runtime error exactly when they meet the bits 0xf408, and otherwise pass unchanged. |
| MdlReader.NamedFlagsAccepted | src/engine/graphics/model/mdlreader.cpp:595-597 | Every combination of the named node flags other than the camera flag is accepted. |
| MdlReader.CameraRejected | src/engine/graphics/model/mdlreader.cpp:595-597 | A node with the camera flag is refused, whatever else is set. |
| MdlReader.GetNodeParts | src/engine/graphics/model/mdlreader.cpp:615-670 | Each part of a node exists exactly when its flag is set. The mesh section is read exactly for a mesh that is not a saber. |
| MdlReader.ControllerNodeFlags | src/engine/graphics/model/mdlreader.cpp:634-642 | While a model is read a node's own flags choose its controllers. While its animations are read, the flags recorded for the model node of the same number do. |
| MdlReader.AnimatedEmitterIgnored | src/engine/graphics/model/mdlreader.cpp:634-705 | An animation node whose model node is an emitter applies no controller, whatever flags it carries itself. |
| MdlReader.Lowered | src/engine/graphics/model/mdlreader.cpp:569 | Each node name is lower-cased, in order. |
| MdlReader.Dedup | src/engine/graphics/model/mdlreader.cpp:566-577 | Each name is followed by "_dup" and a count when it has been seen before, the count being how often it was seen earlier. A first occurrence is kept as it is. |
| MdlReader.ReadNodeNames | src/engine/graphics/model/mdlreader.cpp:566-577 | There is one name per node. Each is lower-cased, and the k-th repeat of a lower-cased name (k at least 1) gets the suffix "_dup" followed by k. |
| MdlReader.CountPrefixGrows | src/engine/graphics/model/mdlreader.cpp:570 | A name is counted once more by the time a later prefix has passed its position. |
| MdlReader.SameBaseDistinct | src/engine/graphics/model/mdlreader.cpp:566-577 | Two nodes whose names differ only in case never receive the same name. |
| MdlReader.DuplicateSuffixCollides | src/engine/graphics/model/mdlreader.cpp:566-577 | Nodes named "a", "A" and "a_dup1" end up with two nodes named "a_dup1", so renaming does not make all names unique. |
| MdlReader.GetClassification | src/engine/graphics/model/mdlreader.cpp:61-74 | The eight listed bytes decode to their classification, and any other byte decodes to Other. |
| MdlReader.ClassificationRoundTrip | src/engine/graphics/model/mdlreader.cpp:61-74 | Each classification decodes from its own byte. |
| MdlReader.NodeTable | src/engine/graphics/model/mdlreader.cpp:688-696 | The mesh table serves a mesh node. The light table serves a light that is not a mesh, and the emitter table an emitter that is neither. Any other node has no table of its own. |
| MdlReader.GetControllerFn | src/engine/graphics/model/mdlreader.cpp:688-701 | The node's own table decides first and the generic table second. Nothing is found exactly when neither table knows the type. |
| MdlReader.GenericController | src/engine/graphics/model/mdlreader.cpp:419-423 | Types 8, 20 and 36 are position, orientation and scale; other types have no generic controller. |
| MdlReader.MeshController | src/engine/graphics/model/mdlreader.cpp:425-428 | Types 100 and 132 are self-illumination colour and alpha; other types have no mesh controller. |
| MdlReader.LightController | src/engine/graphics/model/mdlreader.cpp:430-436 | Types 76, 88, 96, 100 and 140 are colour, radius, shadow radius, vertical displacement and multiplier. |
| MdlReader.EmitterController | src/engine/graphics/model/mdlreader.cpp:438-487 | The emitter table maps each listed type to its emitter property; other types have none. |
| MdlReader.ControllerDispatchExamples | src/engine/graphics/model/mdlreader.cpp:419-487 | Type 100 is self-illumination colour on a mesh, vertical displacement on a light and drag on an emitter. A mesh-and-light node uses the mesh table. Type 8 falls back to position, and a header node knows no type 100. |
| MdlReader.ReadControllers | src/engine/graphics/model/mdlreader.cpp:703-735 | While animations are read an emitter applies nothing. Otherwise every key whose type has a reader applies it, and unknown types are skipped. |
| MdlReader.ParseEmitterUpdate | src/engine/graphics/model/mdlreader.cpp:791-803 | Exactly the strings "fountain", "single" and "explosion" decode to a mode, each to its own, and anything else is Invalid. |
| MdlReader.ParseEmitterRender | src/engine/graphics/model/mdlreader.cpp:805-821 | Exactly the five render names decode to a mode, each to its own, and anything else is Invalid. |
| MdlReader.ParseEmitterBlend | src/engine/graphics/model/mdlreader.cpp:823-835 | Exactly "normal", "punch" and "lighten" decode to a mode, each to its own, and anything else is Invalid. |
| MdlReader.EmitterModesRoundTrip | src/engine/graphics/model/mdlreader.cpp:791-835 | Every valid mode decodes from its own name. |
| MdlReader.ReadEmitter | src/engine/graphics/model/mdlreader.cpp:837-867 | Grid sizes are at least one and otherwise as read. The mode strings are decoded after lower-casing, and the loop flag is set exactly for a non-zero value. |
| MdlReader.EmitterModesIgnoreCase | src/engine/graphics/model/mdlreader.cpp:846-863 | Mode strings in any capitalisation decode to their modes, and a zero grid becomes one. |
| MdlReader.ReadDanglymesh | src/engine/graphics/model/mdlreader.cpp:1129-1138 | The stored displacement is half the file's value, and tightness and period are kept. |
| MdlReader.ConstraintMultiplier | src/engine/graphics/model/mdlreader.cpp:1143-1146 | A constraint's multiplier lies in [0, 1]. A raw value in [0, 255] maps to itself over 255, and values outside that range go to the nearer end. |
| RimReader.ReadResource | src/engine/resource/format/rimreader.cpp:54-68 | An entry keeps its type, offset and size, and its resref is lower-cased with its length unchanged. |
| RimReader.LoadResources | src/engine/resource/format/rimreader.cpp:45-52 | The declared number of entries is read, each as read from the same position of the table. A table shorter than the count is an error. |
| RimReader.Load | src/engine/resource/format/rimreader.cpp:30-52 | Loading succeeds exactly when the signature is "RIM V1.0" and the table holds the declared count. A loaded archive holds that many entries, all lower-cased, in table order. |
| RimReader.Find | src/engine/resource/format/rimreader.cpp:74-82 | The first entry whose resref equals the lower-cased query and whose type matches is found. Nothing is found exactly when no entry matches. |
| RimReader.FindResource | src/engine/resource/format/rimreader.cpp:74-85 | An entry found belongs to the archive, with the lower-cased query as resref and the query's type. Nothing is found exactly when no entry matches. |
| RimReader.FindIgnoresCase | src/engine/resource/format/rimreader.cpp:74-80 | Two queries that differ only in case find the same entry. |
| RimReader.LoadThenFind | src/engine/resource/format/rimreader.cpp:36-85 | An entry stored under any capitalisation is found by a query in any capitalisation, unless an earlier entry of the same name and type shadows it. |
| RimReader.GetResourceData | src/engine/resource/format/rimreader.cpp:91-96 | An index at or past the declared count is a logic error. Any other index yields the entry at that position. |
| RimReader.LoadThenGet | src/engine/resource/format/rimreader.cpp:36-96 | In a loaded archive, an index succeeds exactly when it is below the count, and it yields the entry read from that position of the table. |
| GuiControl.ContainsEdges | src/engine/gui/control/control.cpp:106-108 | All four corners of an extent of non-negative size hit it, and a point one step outside any edge does not. |
| GuiControl.GetCenter | src/engine/gui/control/control.cpp:110-113 | Each centre coordinate is within half a unit of the exact midpoint, with the half-size rounded toward zero for negative sizes too. |
| GuiControl.CenterInside | src/engine/gui/control/control.cpp:106-113 | The centre of an extent of non-negative size hits the extent. |
| GuiControl.Stretch | src/engine/gui/control/control.cpp:511-525 | Each selected field is scaled by its direction's factor with the fraction dropped toward zero, and every other field keeps its value. |
| GuiControl.StretchIdentity | src/engine/gui/control/control.cpp:511-525 | Stretching by one in both directions, or with nothing selected, leaves the extent unchanged. |
| GuiControl.StretchSizeBounds | src/engine/gui/control/control.cpp:518-523 | Stretching a non-negative size by a non-negative factor gives a non-negative size no larger than the exact product. |
| GuiControl.GetBorderColor | src/engine/gui/control/control.cpp:422-427 | The override colour is used when the override is on. Otherwise the hilight colour is used for a focused control with a hilight, and the border colour in every other case. |
| GuiControl.SetFocus | src/engine/gui/control/control.cpp:545-547 | Only the focus flag changes. |
| GuiControl.SetBorderColorOverride | src/engine/gui/control/control.cpp:594-600 | Only the override colour and whether it is used change. |
| GuiControl.SetBorderColor | src/engine/gui/control/control.cpp:590-592 | Only the border's colour changes. |
| GuiControl.SetBorderFill | src/engine/gui/control/control.cpp:577-588 | The control has a border afterwards exactly when it had one or a texture is given. The border's fill becomes the texture, an existing border keeps its colour, and a new one gets the default colour. Nothing else changes. |
| GuiControl.SetHilightColor | src/engine/gui/control/control.cpp:606-611 | The control has a hilight of the given colour, keeping the old hilight's fill or none if it had no hilight. Nothing else changes. |
| GuiControl.HilightShowsWhenFocused | src/engine/gui/control/control.cpp:422-427 | Without the override, a focused control is drawn in the newly set hilight colour, and an unfocused one in its border colour. |
| GuiControl.OverrideWins | src/engine/gui/control/control.cpp:422-427 | An override in use wins over the hilight, whatever the focus. |
| GuiControl.BorderFillClearing | src/engine/gui/control/control.cpp:577-588 | Clearing the fill twice is the same as clearing it once, and setting then clearing leaves a border without fill. |
| Gui.GetControlAt | src/engine/gui/gui.cpp:218-229 | The control found is the last loaded one that is shown, enabled, passes the test and contains the point, so no later control can be hit there. Nothing is found exactly when no control can be hit. |
| Gui.GetControlAtIgnoresFocus | src/engine/gui/gui.cpp:218-229 | Hit-testing depends only on which controls can be hit at the point, not on their focus flags. |
| Gui.Unfocus | src/engine/gui/gui.cpp:274-281 | The focus is cleared and its loss is announced for the focused control. The flag is cleared only if that control is still focusable, and every other control is unchanged. |
| Gui.UpdateFocus | src/engine/gui/gui.cpp:200-216 | The focus moves to the focusable control under the mouse. When that is already the focus nothing changes and nothing is announced. Otherwise the old focus's loss is announced first, then the new control gains its flag and its gain is announced. Only those two controls change. |
| Gui.UpdateFocusIdempotent | src/engine/gui/gui.cpp:200-229 | A second update at the same point changes nothing and announces nothing. |
| Gui.ResetFocus | src/engine/gui/gui.cpp:274-282 | The focus is cleared, and a loss is announced exactly when something had the focus. |
| Gui.ResetFocusTwice | src/engine/gui/gui.cpp:274-282 | Resetting twice announces the loss of focus only once. |
| Gui.GetControl | src/engine/gui/gui.cpp:324-329 | The first control with the tag is found. A tag that no control has is a runtime error. |
| Gui.PositionRelativeToCenter | src/engine/gui/gui.cpp:140-149 | A coordinate in the far half of the layout keeps its distance to the far edge of the screen, one in the near half keeps its value, and the size is kept. |
| Gui.PositionRelativeToCenterSameSize | src/engine/gui/gui.cpp:140-149 | On a screen the size of the layout nothing moves. |
| Mesh.VertexCount | src/engine/graphics/mesh/mesh.cpp:43 | The corrected count is the number of whole vertices: count times stride fits in the data's byte size, and one more vertex would not. |
| Mesh.VertexCountOfWholeVertices | src/engine/graphics/mesh/mesh.cpp:43 | Data made of n whole vertices of k floats each, with a stride of k floats, holds exactly n vertices. |
| Mesh.VertexCountUndercounts | src/engine/graphics/mesh/mesh.cpp:43 | Three vertices of three floats with a 12-byte stride: the engine's formula counts none of them, the corrected count three. |
| Mesh.VertexCountAsWritten | src/engine/graphics/mesh/mesh.cpp:43 | The engine's formula: floats divided by the stride, then by the size of a float. `Mesh.VertexCountUndercounts` shows where it goes wrong. |
| Mesh.VertexCountAsWrittenBelow | src/engine/graphics/mesh/mesh.cpp:43 | The engine's formula never exceeds the corrected count, so the bounding box never reads past the data, but it can miss vertices. |
| Mesh.NewMesh | src/engine/graphics/mesh/mesh.cpp:34-44 | A zero stride is an invalid argument. Otherwise the mesh keeps its data. Its vertex count is the corrected `Mesh.VertexCount`, not the engine's formula, so count times stride fits in the data's byte size. |
| Mesh.BoundingBoxVertices | src/engine/graphics/mesh/mesh.cpp:131-140 | The bounding box reads one position per counted vertex. |
| Mesh.BoundingBoxReadsInside | src/engine/graphics/mesh/mesh.cpp:131-140 | With the corrected count, when the position is a whole attribute inside the vertex, every coordinate the bounding box reads lies in the vertex data. |
| Mesh.Clamp01 | src/engine/graphics/mesh/mesh.cpp:161 | The result lies in [0, 1], and a value already there is kept. |
| Mesh.GetFaceCenterUV | src/engine/graphics/mesh/mesh.cpp:142-164 | A mesh that is not a triangle list is a logic error, and a face index outside [0, number of indices / 3) is out of range. Without texture coordinates the result is zero. Otherwise it is the mean of the three corners' coordinates, clamped to [0, 1]. |
| Mesh.UniformFaceCenter | src/engine/graphics/mesh/mesh.cpp:142-164 | A face whose three corners share the same coordinates in [0, 1] has exactly those coordinates at its centre. |
| Collision.RayTestRooms | src/game/collisiondetect.cpp:52-79 | The first room in map order that stops the ray is the hit, at its walkmesh distance. A room stops the ray when it has a model whose box holds the origin in 2-D, a walkmesh, and a walkmesh hit within the ray's distance. Nothing is hit exactly when no room stops the ray. |
| Collision.CollisionDistance | src/game/collisiondetect.cpp:97-123 | Under the box flag, a box hit in [0, distance] on an object with a model counts. Otherwise a walkmesh hit within the distance counts. There is no collision exactly when the chosen test fails. |
| Collision.Collisions | src/game/collisiondetect.cpp:81-124 | Every colliding object is recorded with its distance, and every record comes from a colliding object. |
| Collision.RayTestObjects | src/game/collisiondetect.cpp:81-137 | Nothing is hit exactly when no tested object collides. Otherwise the hit is a colliding object at its own distance, and no colliding object is nearer. |
| Collision.Raycast | src/game/collisiondetect.cpp:44-50 | With the rooms flag set, a room hit is the answer. Otherwise the nearest object is, and no hit means no object collides. |
| Collision.ExcludedNeverHit | src/game/collisiondetect.cpp:85-90 | An object that is excepted, of an unwanted type, not selectable under the selectable flag, dead under the alive flag or too far in 2-D is never the hit. |
| Collision.RoomHitBeatsNearerObject | src/game/collisiondetect.cpp:44-50 | A room hit at 5 wins over an object hit at 1 under the rooms flag, so the ray cast does not return the nearest hit overall. |
| Sorting.SortByKey | src/game/collisiondetect.cpp:128-130 | The result is sorted by key and is a permutation of the input. |
| Sorting.TruncateKeepsBest | src/engine/scene/scenegraph.cpp:373-386 | An element cut off by truncating the sorted sequence to n ranks no better than every element kept, and the cut happens only when n elements are kept. |
| Arith.TruncDiv | src/engine/gui/control/control.cpp:110-113 | The quotient is rounded toward zero, with the remainder taking the sign of the dividend, as integer division in C++ does. |
| Arith.TruncReal | src/engine/gui/control/control.cpp:511-525 | Converting a float to an int drops the fraction toward zero. |
| Text.ToLowerIdempotent | src/engine/resource/format/rimreader.cpp:62-75 | A lower-cased name is all lower case, and lower-casing it again changes nothing. |

## Notes on the engine's behaviour

- The ray cast does not return the nearest hit overall. With the rooms
  flag set, any room hit is returned before objects are tested
  (src/game/collisiondetect.cpp:44-50). `Collision.Raycast` does the same,
  and `Collision.RoomHitBeatsNearerObject` shows a room at distance 5
  beating an object at distance 1.
- In `Area::getNearestObject` a negative `nth` passes the range guard
  (src/game/object/area.cpp:1036-1042). This is the first finding below.
- Node-name de-duplication in the MDL reader does not make names unique.
  A node literally named "a_dup1" collides with the renamed second "a"
  (`MdlReader.DuplicateSuffixCollides`).

## Left out

- Rendering, shaders, textures, GPU upload and drawing, audio playback,
  video, save games and file I/O are not modelled. None of them affect the
  decisions modelled here.
- Geometry is an input: ray, walkmesh, box and frustum tests, squared
  distances, line of sight, point-in-polygon and elevation. Float
  arithmetic is not modelled.
- Randomness is an input. The d20 roll, dice rolls, grass probabilities
  and the sound-variant choice are passed in as values.
- The byte-level `BinaryReader` is not part of this model. The RIM reader
  receives the signature, count and table as read. A wrong signature and a
  table shorter than the count are modelled as errors, matching the
  reader's throw on a bad signature and the end-of-stream failure.
- These engine constants are parameters of the model rather than fixed
  values: the faction indices, kNpcCount, the animation flag values,
  kNumAnimationChannels, kDefaultRaycastDistance, kSelectionDistance and
  the control stretch mask bits. The stretch mask becomes four booleans.
  The scene graph's kMaxLights (16), kMaxGrassClusters (256) and
  kMaxGrassDistance (16.0), the area's kElevationTestZ (1024) and
  kMaxSoundCount (4) are fixed constants as in the engine.
- `std::sort` leaves the order of equal keys unspecified. The model's
  insertion sort places a later element before an earlier one with the
  same key, so ties come out in reverse input order. With equal distances
  or priorities it picks one of the orders the engine may produce.
- Perception callbacks into creature code are not modelled. They are
  assumed to add the subject to, or remove it from, the heard and seen
  sets. The perception update timer is left out.
- Trigger tenants that have become null are not modelled; tenants are
  object ids.
- The named ability and skill getters (getStrength, getComputerUse and so
  on) are one-line aliases and are not modelled separately.
  `CreatureClass.IsClassSkill` is a predicate over the loaded set.
- The chargen screen's accept and back buttons, `updateCharacter`, and
  the loading of class skills and class tables from 2DA files are left
  out. The class tables are inputs.
- The developer keys in `Game::handleKeyDown` other than the speed keys
  are left out, as is key repeat.
- Party-member portrait and GUI loading are left out.
- Combat.UpdateRound: firing a projectile and updating one
  (src/game/combat/combat.cpp:117-122, 134-139) become a single
  `ProjectileStep` effect, and the round keeps no projectile state.
  `resetProjectile` (src/game/combat/combat.cpp:109, 126) is not modelled.
- src/engine/game/d20/attributes_classes.cpp duplicates the class-level
  functions of attributes.cpp. The model follows attributes.cpp, with the
  class registry as a map.
- `playAnimation` also passes the animation on to attachments
  (src/engine/scene/node/modelnode_animation.cpp:89-95). That propagation
  is left out, as are animation state computation, bone transforms and
  lip-sync playback. The lip animation's length is an input.
- `setBorderFill` by resref loads a texture. The model takes the texture
  as a name. `onFocusChanged` hooks become returned focus events.
- AreaRegistry.GetObjectsByType: a type with no entry is undefined
  behaviour in the engine, since it dereferences a missing map entry. The
  model returns the empty list.
- GuiControl.GetBorderColor: requires a border whenever neither the
  override nor a focused hilight supplies the colour, because the engine
  dereferences a null border there.
- GuiControl.SetBorderColor: requires a border, because the engine
  dereferences a null border.
- Mesh.GetFaceCenterUV: requires the three corners' texture coordinates
  to lie inside the vertex data, because the engine reads them unchecked.
- RimReader.GetResourceData: the index is a `nat`. The engine does not
  check for a negative index, which reads before the table.
- Keyframes.GetByKeyframeOrElse: the index is a `nat`. A negative index
  reads before the keyframes in the engine.
- MdlReader.ControllerNodeFlags: requires the model node to exist while
  animations are read, because the engine dereferences the lookup result
  unchecked.
- Animation.PlayAnimation: requires at least two channels, because the
  engine's channel array always has kNumAnimationChannels entries.
- AreaRules.GetRandomGrassVariant: requires four probabilities, because
  the engine's grass probability array has four entries.
- Attributes.GetAggregateHitDie: requires every class the creature has to
  be in the class registry, as the engine's lookup assumes.
- Attributes.GetAggregateSavingThrows: requires every class the creature
  has to be in the class registry, as the engine's lookup assumes.
- Attributes.GetAggregateAttackBonus: requires every class the creature
  has to be in the class registry, as the engine's lookup assumes.
- Combat.DetermineAttackResult: the roll is a d20 result in 1..20 passed
  in.
- RoutinesD20.RollDice: the rolls are passed in, one per die, each within
  the die's sides.
- PartySelect.AddNpc: the NPC index is within the fixed NPC array, as in
  the engine.
- PartySelect.RemoveNpc: the NPC index is within the fixed NPC array, as
  in the engine.
- AreaRegistry.Add: the engine also calls `determineObjectRoom`
  (src/game/object/area.cpp:271, 274-281), which finds the room holding
  the object and calls `setRoom`. Room membership is geometry and
  `setRoom` is not part of this model, so the added object has no room.
- AreaRegistry.DoDestroyObject: the engine removes the object from its
  room's tenants (src/game/object/area.cpp:297-302). Room tenancy is not
  modelled, so this step is left out.
- Mesh.NewMesh: the mesh is built with the corrected `Mesh.VertexCount`,
  not the engine's formula at src/engine/graphics/mesh/mesh.cpp:43.
  `Mesh.VertexCountAsWritten` models that formula and the fourth finding
  shows where it undercounts.
- Models.InsertAnim, Models.AddAnimation, Models.GetAnimationNames: the
  engine keeps a model's own animations in an unordered map
  (src/engine/graphics/model/model.h:88), so the order of
  `getAnimationNames` is unspecified. The model chooses ascending name
  order, which is one of the orders the engine may produce.
- Animation.UpdateAnimations, Animation.UpdateChannels: the events they
  return are those of the corrected `Animation.UpdateChannel`. The engine
  as written signals no event at all
  (src/engine/scene/node/modelnode_animation.cpp:144-148; second finding).
  The channel states are the engine's, as `Animation.WrittenUpdateKeepsChannel`
  shows.
- AreaRules.MoveCreature: the blocked test and the ground lookup are
  passed in as functions of the destination. In the engine they are
  `getCreatureObstacle` and `getElevationAt`, modelled as
  `AreaRules.GetCreatureObstacle` and `AreaRules.GetElevationAt`. The
  follow-ups of doMoveCreature (src/game/object/area.cpp:548-566) are not
  composed with the move: `AreaRules.OnPartyLeaderMoved` on a room change,
  then `AreaRules.CheckTriggersIntersection`. Each is modelled on its own.
- AreaRules.MoveCreature: the facing is `-atan2(dir.x, dir.y)` in the
  engine (src/game/object/area.cpp:521). Trigonometry on floats is not
  modelled, so the facing is an input and is not tied to the direction.
- The integer widths of ids, counts and offsets are not modelled, so
  wrap-around in uint16, uint32 or int is not modelled either.

## Findings

| source | as written | input that shows it | evidently intended | confidence | as-written member | corrected member |
|---|---|---|---|---|---|---|
| src/game/object/area.cpp:1036-1042 | Only `nth >= count` is rejected, so a negative `nth` indexes the candidate vector out of range. | nth = -1 with one matching object | A negative `nth` returns null, like any other out-of-range index | high (not executed) | AreaRules.NearestObjectNegativeNth | AreaRules.NearestObject |
| src/engine/scene/node/modelnode_animation.cpp:144-148 | The event test compares the event time with the new channel time on both sides, so it is always false and no event is ever signalled. | An event at 0.5 s and a 1 s step from time 0 at speed 1 | Signal the events in (previous time, new time] | high (not executed) | Animation.EventNeverSignalled | Animation.UpdateChannel |
| src/graphics/model/animatedproperty.h:53-63 | When every keyframe is before the query time the search finds nothing, and both interpolation ends stay on the first keyframe. | Keyframes (0 s, 0) and (1 s, 10) read at 2 s give 0 | Hold the last keyframe's value past the end | medium (not executed) | Keyframes.PastLastKeyframeSnapsBack | Keyframes.GetByTime |
| src/engine/graphics/mesh/mesh.cpp:43 | The float count is divided by the stride in bytes and then by the size of a float, instead of converting floats to bytes first. | Nine floats (three vertices of three floats) with a 12-byte stride give 0 vertices | Count = floats × 4 / stride, which gives 3 | high (not executed) | Mesh.VertexCountUndercounts | Mesh.VertexCount |
