/** `moveItem` exactly as the create page writes it, on JavaScript array
    semantics, and how it departs from the intended `MoveInItems` when no
    item carries the id (src/pages/CreateList.tsx:95-107).

    `findIndex` answers -1 for a missing id. The `'down'` guard then reads
    `-1 < items.length - 1`, which holds for every non-empty list, so the
    destructuring swap runs with `index = -1`: reading `items[-1]` yields
    `undefined`, writing `items[-1]` creates a property that is not an array
    element, and `items[0]` becomes `undefined`. */
module MoveAsWritten {
  import opened Optional
  import opened ListModel

  /** A JavaScript array of items; `None` is an `undefined` slot. */
  type Slots = seq<Option<ListItem>>

  function Lift(items: seq<ListItem>): (r: Slots)
    ensures |r| == |items|
    ensures forall k :: 0 <= k < |items| ==> r[k] == Some(items[k])
  {
    seq(|items|, k requires 0 <= k < |items| => Some(items[k]))
  }

  /** `a[k]` on an array: `undefined` outside the index range. */
  function Read(a: Slots, k: int): Option<ListItem> {
    if 0 <= k < |a| then a[k] else None
  }

  /** `a[k] = v` on an array, for an index below its length: a negative
      index names a non-element property that no later reader of the list
      sees. (An index at or past the length would grow the array; `moveItem`
      never writes one.) */
  function Write(a: Slots, k: int, v: Option<ListItem>): Slots
    requires k < |a|
  {
    if 0 <= k < |a| then a[k := v] else a
  }

  /** The body of `moveItem`, statement by statement. */
  function MoveItemAsWritten(items: seq<ListItem>, id: string, dir: Direction): (r: Slots)
    ensures |r| == |items|
  {
    var slots := Lift(items);
    var index := FindIndex(items, id);
    if (dir == Up && index > 0) || (dir == Down && index < |items| - 1) then
      var newIndex := if dir == Up then index - 1 else index + 1;
      var fromNew := Read(slots, newIndex);
      var fromOld := Read(slots, index);
      Write(Write(slots, index, fromNew), newIndex, fromOld)
    else slots
  }

  /** Wherever the id is present, the code as written does what the
      corrected `MoveInItems` does. */
  lemma AsWrittenAgreesWhenPresent(items: seq<ListItem>, id: string, dir: Direction)
    requires HasId(items, id)
    ensures MoveItemAsWritten(items, id, dir) == Lift(MoveInItems(items, id, dir))
  {
  }

  /** With a missing id, `'up'` is harmless: the guard `index > 0` fails. */
  lemma AsWrittenUpAbsentIsNoop(items: seq<ListItem>, id: string)
    requires !HasId(items, id)
    ensures MoveItemAsWritten(items, id, Up) == Lift(items)
  {
  }

  /** The discrepancy: with a missing id, `'down'` on any non-empty list
      replaces the first item by `undefined` and loses it, where `'up'`
      already changes nothing. */
  lemma AsWrittenDownAbsentLosesFirstItem(items: seq<ListItem>, id: string)
    requires !HasId(items, id) && |items| > 0
    ensures MoveItemAsWritten(items, id, Down)[0] == None
    ensures MoveItemAsWritten(items, id, Down)[1..] == Lift(items)[1..]
    ensures MoveItemAsWritten(items, id, Down) != Lift(MoveInItems(items, id, Down))
  {
  }

  /** A concrete instance: one item, moved down by an id it does not carry. */
  lemma AsWrittenDownAbsentExample()
    ensures var one := [ListItem("1", TextItem, "Soup", Some(""), Some(""))];
      MoveItemAsWritten(one, "2", Down) == [None]
  {
  }
}
