/**
 * The checklist bookkeeping of the page script: sorting the rooms loaded from
 * `checklist.json`, the map of checked items, the sorted list of checked
 * item ids, and the text that the checklist fingerprint is computed from.
 */
module Checklist {
  import StringOrder
  import opened Sorting

  datatype Item = Item(id: string, title: string)

  /** A room of the checklist; `extra` holds any further fields of the JSON object. */
  datatype Room = Room(name: string, items: seq<Item>, extra: map<string, string>)

  function ItemId(i: Item): string { i.id }

  function RoomName(r: Room): string { r.name }

  /** A room up to the order of its items. */
  datatype RoomContents = RoomContents(name: string, items: multiset<Item>, extra: map<string, string>)

  function Contents(r: Room): RoomContents {
    RoomContents(r.name, multiset(r.items), r.extra)
  }

  /** The room with its items sorted by id and every other field kept. */
  function SortItems(r: Room): (s: Room)
    ensures s.name == r.name && s.extra == r.extra
    ensures multiset(s.items) == multiset(r.items)
    ensures SortedBy(s.items, ItemId)
  {
    r.(items := SortBy(r.items, ItemId))
  }

  /**
   * `sortRooms`: every room's items sorted by id, then the rooms sorted by
   * name. The result holds the same rooms, each with the same fields and
   * the same items, only reordered.
   */
  function SortRooms(rooms: seq<Room>): (r: seq<Room>)
    ensures |r| == |rooms|
    ensures SortedBy(r, RoomName)
    ensures forall i :: 0 <= i < |r| ==> SortedBy(r[i].items, ItemId)
    ensures multiset(MapSeq(r, Contents)) == multiset(MapSeq(rooms, Contents))
  {
    var withSortedItems := MapSeq(rooms, SortItems);
    var r := SortBy(withSortedItems, RoomName);
    PermutationOfSortedItems(rooms, r);
    MapSeqPreservesPermutation(r, withSortedItems, Contents);
    SortItemsKeepsContents(rooms);
    r
  }

  lemma SortItemsKeepsContents(rooms: seq<Room>)
    ensures MapSeq(MapSeq(rooms, SortItems), Contents) == MapSeq(rooms, Contents)
  {
    var withSortedItems := MapSeq(rooms, SortItems);
    var lhs, rhs := MapSeq(withSortedItems, Contents), MapSeq(rooms, Contents);
    forall i | 0 <= i < |rooms| ensures lhs[i] == rhs[i] {
      assert withSortedItems[i] == SortItems(rooms[i]);
    }
  }

  /** Every room of a reordering of the item-sorted rooms has its items sorted. */
  lemma PermutationOfSortedItems(rooms: seq<Room>, r: seq<Room>)
    requires multiset(r) == multiset(MapSeq(rooms, SortItems))
    ensures forall i :: 0 <= i < |r| ==> SortedBy(r[i].items, ItemId)
  {
    var withSortedItems := MapSeq(rooms, SortItems);
    forall i | 0 <= i < |r| ensures SortedBy(r[i].items, ItemId) {
      assert r[i] in multiset(withSortedItems);
      var j := IndexOf(withSortedItems, r[i]);
      assert withSortedItems[j] == SortItems(rooms[j]);
    }
  }

  /** Sorting already sorted rooms changes nothing, so `sortRooms` is idempotent. */
  lemma SortRoomsIdempotent(rooms: seq<Room>)
    ensures SortRooms(SortRooms(rooms)) == SortRooms(rooms)
  {
    var once := SortRooms(rooms);
    forall i | 0 <= i < |once| ensures SortItems(once[i]) == once[i] {
      SortBySortedIsIdentity(once[i].items, ItemId);
    }
    assert MapSeq(once, SortItems) == once;
    SortBySortedIsIdentity(once, RoomName);
  }

  // ----------------------------------------------------------------- checks

  /**
   * `state.checks` as the entries of a JavaScript object: item id and the
   * checkbox state last stored for it. The positions are not the order in
   * which `Object.entries` lists the keys (integer-like keys come first, in
   * ascending numeric order); nothing here depends on that order, because
   * the checked ids are sorted before use.
   */
  type Checks = seq<(string, bool)>

  /** An object never holds the same key twice. */
  predicate KeysDistinct(checks: Checks) {
    forall i, j :: 0 <= i < j < |checks| ==> checks[i].0 != checks[j].0
  }

  /** The ids whose stored value is true. */
  function CheckedIds(checks: Checks): set<string> {
    set i | 0 <= i < |checks| && checks[i].1 :: checks[i].0
  }

  /** The position of the entry for `id`, or the number of entries when there is none. */
  function FindKey(checks: Checks, id: string): (k: nat)
    ensures k <= |checks|
    ensures k < |checks| ==> checks[k].0 == id
    ensures forall j :: 0 <= j < k ==> checks[j].0 != id
  {
    if |checks| == 0 then 0
    else if checks[0].0 == id then 0
    else 1 + FindKey(checks[1..], id)
  }

  /**
   * `state.checks[id] = checked` from a checkbox's change listener: an existing
   * entry is updated in place, a new id gets an entry of its own.
   */
  function SetCheck(checks: Checks, id: string, checked: bool): (r: Checks)
    requires KeysDistinct(checks)
    ensures KeysDistinct(r)
    ensures |r| == |checks| || |r| == |checks| + 1
    ensures (id, checked) in r
    ensures forall i :: 0 <= i < |checks| && checks[i].0 != id ==> r[i] == checks[i]
    ensures forall e :: e in r ==> e == (id, checked) || e in checks
  {
    var k := FindKey(checks, id);
    if k < |checks| then
      var r := checks[k := (id, checked)];
      assert r[k] == (id, checked);
      r
    else
      var r := checks + [(id, checked)];
      assert r[|checks|] == (id, checked);
      r
  }

  /** The ids of the checked entries, in the model's entry positions. */
  function CheckedKeys(checks: Checks): (r: seq<string>)
    ensures forall k :: k in r <==> exists i :: 0 <= i < |checks| && checks[i].1 && checks[i].0 == k
    ensures KeysDistinct(checks) ==> Distinct(r)
  {
    if |checks| == 0 then []
    else
      var rest := CheckedKeys(checks[1..]);
      assert forall i :: 0 < i < |checks| ==> checks[i] == checks[1..][i - 1];
      if checks[0].1 then
        assert KeysDistinct(checks) ==> checks[0].0 !in rest;
        [checks[0].0] + rest
      else rest
  }

  function Identity(s: string): string { s }

  /**
   * `getCheckedItems`: the ids whose value is truthy, sorted, each once.
   */
  function GetCheckedItems(checks: Checks): (r: seq<string>)
    requires KeysDistinct(checks)
    ensures forall k :: k in r <==> k in CheckedIds(checks)
    ensures forall i, j :: 0 <= i < j < |r| ==> StringOrder.Le(r[i], r[j]) && r[i] != r[j]
  {
    var keys := CheckedKeys(checks);
    var r := SortBy(keys, Identity);
    DistinctPermutation(keys, r);
    assert forall k :: k in r <==> k in multiset(r);
    assert forall k :: k in keys <==> k in multiset(keys);
    r
  }

  /**
   * Ticking a checkbox puts its id in the checked list, unticking removes it,
   * and every other id keeps its membership.
   */
  lemma SetCheckThenChecked(checks: Checks, id: string, checked: bool, other: string)
    requires KeysDistinct(checks)
    requires other != id
    ensures var after := GetCheckedItems(SetCheck(checks, id, checked));
      && (id in after <==> checked)
      && (other in after <==> other in GetCheckedItems(checks))
  {
  }

  // --------------------------------------------------------------- flatten

  /** `parts.join(sep)`. */
  function Join(parts: seq<string>, sep: string): string {
    if |parts| == 0 then ""
    else if |parts| == 1 then parts[0]
    else parts[0] + sep + Join(parts[1..], sep)
  }

  function ItemText(i: Item): string {
    i.id + ":" + i.title
  }

  function RoomText(r: Room): string {
    r.name + ":" + Join(MapSeq(r.items, ItemText), "|")
  }

  /** The text the checklist fingerprint is the digest of. */
  function Flatten(rooms: seq<Room>): (r: string)
    ensures |rooms| == 0 ==> r == ""
    ensures |rooms| == 1 ==> r == RoomText(rooms[0])
    ensures |rooms| > 1 ==> |r| >= |RoomText(rooms[0])| + 2 && r[..|RoomText(rooms[0])| + 2] == RoomText(rooms[0]) + "||"
  {
    var texts := MapSeq(rooms, RoomText);
    assert |rooms| > 0 ==> texts[0] == RoomText(rooms[0]);
    Join(texts, "||")
  }

  /** Two or more rooms flatten to the first room's text, `||`, and the rest flattened. */
  lemma FlattenCons(rooms: seq<Room>)
    requires |rooms| > 1
    ensures Flatten(rooms) == RoomText(rooms[0]) + "||" + Flatten(rooms[1..])
  {
    assert MapSeq(rooms, RoomText)[1..] == MapSeq(rooms[1..], RoomText);
  }

  /** Joining one more part appends the separator and that part. */
  lemma {:induction false} JoinSnoc(parts: seq<string>, p: string, sep: string)
    requires |parts| > 0
    ensures Join(parts + [p], sep) == Join(parts, sep) + sep + p
    decreases |parts|
  {
    if |parts| > 1 {
      assert (parts + [p])[1..] == parts[1..] + [p];
      JoinSnoc(parts[1..], p, sep);
    } else {
      assert (parts + [p])[1..] == [p];
    }
  }

  /** Appending a room appends `||` and that room's text. */
  lemma FlattenAppendRoom(rooms: seq<Room>, room: Room)
    requires |rooms| > 0
    ensures Flatten(rooms + [room]) == Flatten(rooms) + "||" + RoomText(room)
  {
    assert MapSeq(rooms + [room], RoomText) == MapSeq(rooms, RoomText) + [RoomText(room)];
    JoinSnoc(MapSeq(rooms, RoomText), RoomText(room), "||");
  }

  /**
   * The flattened text does not tell every checklist apart: separators inside
   * names are not escaped, so one room named `a:||b` flattens like two empty
   * rooms `a` and `b`, and the fingerprints agree.
   */
  lemma FlattenNotInjective()
    ensures Flatten([Room("a:||b", [], map[])]) == Flatten([Room("a", [], map[]), Room("b", [], map[])])
  {
    assert RoomText(Room("a", [], map[])) == "a:";
    assert RoomText(Room("b", [], map[])) == "b:";
    assert RoomText(Room("a:||b", [], map[])) == "a:||b:";
    assert MapSeq([Room("a", [], map[]), Room("b", [], map[])], RoomText) == ["a:", "b:"];
    assert MapSeq([Room("a:||b", [], map[])], RoomText) == ["a:||b:"];
    assert Join(["a:", "b:"], "||") == "a:" + "||" + Join(["b:"], "||");
  }
}
