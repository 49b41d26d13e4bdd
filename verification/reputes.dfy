/** The faction reputation table. Each row of the repute 2DA is a faction;
  * its label (lower-cased) names the column that holds every faction's
  * standing towards it. */
module Reputes {
  import opened Text

  const DefaultRepute: int := 50

  /** One row of the repute 2DA: its label and the integer cells it holds,
    * keyed by column name. A missing or unreadable cell is absent. */
  datatype ReputeRow = ReputeRow(name: string, cells: map<string, int>)

  /** The loaded table. `friendly1` and `friendly2` are the indices of the
    * two friendly factions, whose enumeration is not part of this model. */
  datatype Reputes = Reputes(labels: seq<string>, values: seq<seq<int>>, friendly1: int, friendly2: int)

  /** The creature attributes the reputation rules read. */
  datatype Member = Member(faction: int, minOneHP: bool)

  predicate FixedColumn(name: string) {
    name == "player" || name == "glb_xor"
  }

  /** The value of cell (row, column): the player and glb_xor columns are
    * always the default, any other column reads the 2DA with the default
    * as fallback. */
  function Cell(rows: seq<ReputeRow>, labels: seq<string>, row: nat, column: nat): int
    requires row < |rows| && column < |labels|
  {
    var name := labels[column];
    if FixedColumn(name) then DefaultRepute
    else if name in rows[row].cells then rows[row].cells[name]
    else DefaultRepute
  }

  function Init(rows: seq<ReputeRow>, friendly1: int, friendly2: int): (r: Reputes)
    ensures |r.labels| == |rows| && |r.values| == |rows|
    ensures forall i :: 0 <= i < |rows| ==> r.labels[i] == ToLower(rows[i].name)
    ensures forall i :: 0 <= i < |rows| ==> |r.values[i]| == |rows|
    ensures forall i, j :: 0 <= i < |rows| && 0 <= j < |rows| && FixedColumn(r.labels[j]) ==>
              r.values[i][j] == DefaultRepute
    ensures forall i, j :: 0 <= i < |rows| && 0 <= j < |rows| && !FixedColumn(r.labels[j]) ==>
              r.values[i][j] == if r.labels[j] in rows[i].cells then rows[i].cells[r.labels[j]] else DefaultRepute
    ensures r.friendly1 == friendly1 && r.friendly2 == friendly2
  {
    var labels := seq(|rows|, i requires 0 <= i < |rows| => ToLower(rows[i].name));
    var values := seq(|rows|, i requires 0 <= i < |rows| =>
                        seq(|rows|, j requires 0 <= j < |rows| => Cell(rows, labels, i, j)));
    Reputes(labels, values, friendly1, friendly2)
  }

  predicate InTable(t: Reputes, left: int, right: int) {
    0 <= left < |t.values| && 0 <= right < |t.values[left]|
  }

  /** The standing of the left creature's faction towards the right one's;
    * a faction index outside the table reads as the default. */
  function GetRepute(t: Reputes, left: Member, right: Member): (r: int)
    ensures !InTable(t, left.faction, right.faction) ==> r == DefaultRepute
    ensures InTable(t, left.faction, right.faction) ==> r == t.values[left.faction][right.faction]
  {
    if left.faction < 0 || left.faction >= |t.values|
       || right.faction < 0 || right.faction >= |t.values[left.faction]| then DefaultRepute
    else t.values[left.faction][right.faction]
  }

  predicate GetIsFriend(t: Reputes, left: Member, right: Member) {
    GetRepute(t, left, right) > 50
  }

  predicate GetIsNeutral(t: Reputes, left: Member, right: Member) {
    GetRepute(t, left, right) == 50
  }

  predicate FriendlyPair(t: Reputes, left: Member, right: Member) {
    (left.faction == t.friendly1 && right.faction == t.friendly2)
    || (left.faction == t.friendly2 && right.faction == t.friendly1)
  }

  /** Enemies are those with standing below 50, except that the two
    * friendly factions are enemies only when both creatures are immortal. */
  function GetIsEnemy(t: Reputes, left: Member, right: Member): (b: bool)
    ensures FriendlyPair(t, left, right) ==> (b <==> left.minOneHP && right.minOneHP)
    ensures !FriendlyPair(t, left, right) ==> (b <==> GetRepute(t, left, right) < 50)
  {
    if FriendlyPair(t, left, right) then left.minOneHP && right.minOneHP
    else GetRepute(t, left, right) < 50
  }

  /** Outside the friendly pair a creature is exactly one of friend,
    * neutral or enemy. */
  lemma ExactlyOneStanding(t: Reputes, left: Member, right: Member)
    requires !FriendlyPair(t, left, right)
    ensures GetIsFriend(t, left, right) || GetIsNeutral(t, left, right) || GetIsEnemy(t, left, right)
    ensures !(GetIsFriend(t, left, right) && GetIsNeutral(t, left, right))
    ensures !(GetIsFriend(t, left, right) && GetIsEnemy(t, left, right))
    ensures !(GetIsNeutral(t, left, right) && GetIsEnemy(t, left, right))
  {
  }

  /** A faction outside the table is neutral towards everyone, and everyone
    * towards it, unless the pair is the friendly pair. */
  lemma OutOfTableNeutral(t: Reputes, left: Member, right: Member)
    requires left.faction < 0 || left.faction >= |t.values|
    ensures GetIsNeutral(t, left, right) && !GetIsFriend(t, left, right)
    ensures !FriendlyPair(t, left, right) ==> !GetIsEnemy(t, left, right)
  {
  }

  /** Every faction is neutral towards a faction labelled "player" or
    * "glb_xor" in the loaded table, and such a pair is never enemies unless
    * it is the friendly pair. */
  lemma FixedColumnsNeutral(rows: seq<ReputeRow>, friendly1: int, friendly2: int, left: Member, right: Member)
    requires 0 <= left.faction < |rows| && 0 <= right.faction < |rows|
    requires FixedColumn(ToLower(rows[right.faction].name))
    ensures GetIsNeutral(Init(rows, friendly1, friendly2), left, right)
    ensures !FriendlyPair(Init(rows, friendly1, friendly2), left, right) ==>
              !GetIsEnemy(Init(rows, friendly1, friendly2), left, right)
  {
    var t := Init(rows, friendly1, friendly2);
    assert t.labels[right.faction] == ToLower(rows[right.faction].name);
    assert t.values[left.faction][right.faction] == DefaultRepute;
  }

  /** The loaded table reads every other column from the 2DA, with the
    * default for a missing cell. */
  lemma LoadedCell(rows: seq<ReputeRow>, friendly1: int, friendly2: int, left: Member, right: Member)
    requires 0 <= left.faction < |rows| && 0 <= right.faction < |rows|
    requires !FixedColumn(ToLower(rows[right.faction].name))
    ensures var name := ToLower(rows[right.faction].name);
            GetRepute(Init(rows, friendly1, friendly2), left, right)
            == if name in rows[left.faction].cells then rows[left.faction].cells[name] else DefaultRepute
  {
    var t := Init(rows, friendly1, friendly2);
    assert t.labels[right.faction] == ToLower(rows[right.faction].name);
  }
}
