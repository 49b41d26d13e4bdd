/** The party selection screen: up to two followers are picked from the
  * NPC roster, some of which a script may force into the party. */
module PartySelect {

  const MaxFollowerCount: int := 2

  /** The screen's state. `added` has one flag per roster slot; the roster
    * size is a parameter of the model. `selected` is -1 when no NPC button
    * has been clicked. A forced NPC index is -1 when unused. */
  datatype PartySelection = PartySelection(
    available: int,
    added: seq<bool>,
    selected: int,
    forceNpc1: int,
    forceNpc2: int)

  function CountAdded(added: seq<bool>): (n: nat)
    ensures n <= |added|
  {
    if added == [] then 0 else (if added[0] then 1 else 0) + CountAdded(added[1..])
  }

  /** Setting one flag changes the count by one exactly when it flips. */
  lemma {:induction false} CountAddedUpdate(added: seq<bool>, i: nat, b: bool)
    requires i < |added|
    ensures CountAdded(added[i := b]) ==
              CountAdded(added) + (if b && !added[i] then 1 else 0) - (if !b && added[i] then 1 else 0)
  {
    if i > 0 {
      assert added[i := b][1..] == added[1..][i - 1 := b];
      CountAddedUpdate(added[1..], i - 1, b);
    } else {
      assert added[i := b][1..] == added[1..];
    }
  }

  lemma {:induction false} CountAddedNone(n: nat)
    ensures CountAdded(seq(n, i => false)) == 0
  {
    if n > 0 {
      assert seq(n, i => false)[1..] == seq(n - 1, i => false);
      CountAddedNone(n - 1);
    }
  }

  /** Adds an NPC: one follower slot fewer, its flag set. */
  function AddNpc(s: PartySelection, npc: int): (r: PartySelection)
    requires 0 <= npc < |s.added|
    ensures |r.added| == |s.added| && r.available == s.available - 1 && r.added[npc]
    ensures forall i :: 0 <= i < |s.added| && i != npc ==> r.added[i] == s.added[i]
    ensures !s.added[npc] ==> CountAdded(r.added) == CountAdded(s.added) + 1
  {
    CountAddedUpdate(s.added, npc, true);
    s.(available := s.available - 1, added := s.added[npc := true])
  }

  /** Removes an NPC: one follower slot more, its flag cleared. */
  function RemoveNpc(s: PartySelection, npc: int): (r: PartySelection)
    requires 0 <= npc < |s.added|
    ensures |r.added| == |s.added| && r.available == s.available + 1 && !r.added[npc]
    ensures forall i :: 0 <= i < |s.added| && i != npc ==> r.added[i] == s.added[i]
    ensures s.added[npc] ==> CountAdded(r.added) == CountAdded(s.added) - 1
  {
    CountAddedUpdate(s.added, npc, false);
    s.(available := s.available + 1, added := s.added[npc := false])
  }

  predicate ValidForce(npcCount: nat, force: int) {
    force < npcCount
  }

  /** Opens the screen: two free slots, nobody added, then the forced NPCs
    * added in order. */
  function Prepare(npcCount: nat, selected: int, forceNpc1: int, forceNpc2: int): (r: PartySelection)
    requires ValidForce(npcCount, forceNpc1) && ValidForce(npcCount, forceNpc2)
    ensures |r.added| == npcCount
    ensures r.forceNpc1 == forceNpc1 && r.forceNpc2 == forceNpc2
    ensures forall i :: 0 <= i < npcCount ==> (r.added[i] <==> i == forceNpc1 || i == forceNpc2)
    ensures r.available == MaxFollowerCount - (if forceNpc1 >= 0 then 1 else 0) - (if forceNpc2 >= 0 then 1 else 0)
  {
    var s0 := PartySelection(MaxFollowerCount, seq(npcCount, i => false), selected, forceNpc1, forceNpc2);
    var s1 := if forceNpc1 >= 0 then AddNpc(s0, forceNpc1) else s0;
    if forceNpc2 >= 0 then AddNpc(s1, forceNpc2) else s1
  }

  /** Clicking an NPC button selects that NPC. */
  function OnNpcButtonClick(s: PartySelection, npc: int): (r: PartySelection)
    ensures r.selected == npc && r.added == s.added && r.available == s.available
  {
    s.(selected := npc)
  }

  predicate IsForced(s: PartySelection, npc: int) {
    s.forceNpc1 == npc || s.forceNpc2 == npc
  }

  /** The accept button toggles the selected NPC: an added NPC that is not
    * forced is removed; an NPC not yet added is added while a slot is free.
    * Without a selection it does nothing. */
  function OnAcceptButtonClick(s: PartySelection): (r: PartySelection)
    requires s.selected == -1 || 0 <= s.selected < |s.added|
    ensures s.selected == -1 ==> r == s
    ensures |r.added| == |s.added| && r.selected == s.selected
    ensures s.selected != -1 ==>
              forall i :: 0 <= i < |s.added| && i != s.selected ==> r.added[i] == s.added[i]
    ensures s.selected != -1 && s.added[s.selected] && !IsForced(s, s.selected) ==>
              !r.added[s.selected] && r.available == s.available + 1
    ensures s.selected != -1 && !s.added[s.selected] && s.available > 0 ==>
              r.added[s.selected] && r.available == s.available - 1
    ensures s.selected != -1 && s.added[s.selected] && IsForced(s, s.selected) ==> r == s
    ensures s.selected != -1 && !s.added[s.selected] && s.available <= 0 ==> r == s
  {
    if s.selected == -1 then s
    else if s.added[s.selected] && s.forceNpc1 != s.selected && s.forceNpc2 != s.selected then RemoveNpc(s, s.selected)
    else if !s.added[s.selected] && s.available > 0 then AddNpc(s, s.selected)
    else s
  }

  /** The screen's invariant: free slots plus added NPCs is two, no slot
    * count is negative, and every forced NPC is added. */
  predicate Balanced(s: PartySelection) {
    && s.available >= 0
    && s.available + CountAdded(s.added) == MaxFollowerCount
    && (0 <= s.forceNpc1 < |s.added| ==> s.added[s.forceNpc1])
    && (0 <= s.forceNpc2 < |s.added| ==> s.added[s.forceNpc2])
  }

  /** Preparing with distinct forced NPCs establishes the invariant. */
  lemma PrepareBalanced(npcCount: nat, selected: int, forceNpc1: int, forceNpc2: int)
    requires ValidForce(npcCount, forceNpc1) && ValidForce(npcCount, forceNpc2)
    requires forceNpc1 >= 0 && forceNpc2 >= 0 ==> forceNpc1 != forceNpc2
    ensures Balanced(Prepare(npcCount, selected, forceNpc1, forceNpc2))
  {
    var s0 := PartySelection(MaxFollowerCount, seq(npcCount, i => false), selected, forceNpc1, forceNpc2);
    CountAddedNone(npcCount);
    var s1 := if forceNpc1 >= 0 then AddNpc(s0, forceNpc1) else s0;
    assert s1.available + CountAdded(s1.added) == MaxFollowerCount;
    assert forceNpc2 >= 0 ==> !s1.added[forceNpc2];
  }

  /** Clicking and accepting keep the invariant. */
  lemma AcceptKeepsBalanced(s: PartySelection, npc: int)
    requires Balanced(s) && (npc == -1 || 0 <= npc < |s.added|)
    ensures Balanced(OnAcceptButtonClick(OnNpcButtonClick(s, npc)))
  {
  }

  /** The same NPC forced twice is added once but takes both slots: the
    * invariant does not hold for it. */
  lemma SameForcedNpcTwice()
    ensures var s := Prepare(3, -1, 0, 0);
            s.available == 0 && CountAdded(s.added) == 1 && !Balanced(s)
  {
    var s := Prepare(3, -1, 0, 0);
    assert s.added == [true, false, false];
    assert s.added[1..] == [false, false];
    assert s.added[2..] == [false];
    assert CountAdded([false]) == 0;
    assert CountAdded([false, false]) == 0;
  }
}
