/** The list document edited on the create page and the pure edits the
    editor applies to its item sequence (src/pages/CreateList.tsx). Item ids
    come from the clock in the program; here every operation that mints an
    item takes its id as a parameter. */
module ListModel {
  import opened Optional

  /** The closed set of item kinds. Only text and image items are ever
      created or rendered; video and file are declared and inert. */
  datatype ItemType = TextItem | ImageItem | VideoItem | FileItem

  /** One entry of a list. The record type declares `title` and
      `description` optional; an absent field and "" behave alike wherever
      they are read. (`kind` is the source's `type` field.) */
  datatype ListItem = ListItem(
    id: string,
    kind: ItemType,
    content: string,
    title: Option<string>,
    description: Option<string>)

  datatype ListData = ListData(
    title: string,
    description: string,
    items: seq<ListItem>,
    theme: string)

  /** The item fields the editor's inputs write through `updateItem`. */
  datatype Field = TitleField | ContentField | DescriptionField

  datatype Direction = Up | Down

  /** An image the user picked: its file name and the data URL it was read as. */
  datatype ImageFile = ImageFile(name: string, dataUrl: string)

  const DefaultTheme: string := "default"

  /** The document the editor holds when it opens. */
  const EmptyList: ListData := ListData("", "", [], DefaultTheme)

  /** JavaScript truthiness of an optional string: present and non-empty. */
  predicate Truthy(s: Option<string>) {
    s.Some? && s.value != ""
  }

  /** `s || fallback` for an optional string. */
  function OrElse(s: Option<string>, fallback: string): string {
    if Truthy(s) then s.value else fallback
  }

  predicate HasId(items: seq<ListItem>, id: string) {
    exists i :: 0 <= i < |items| && items[i].id == id
  }

  /** The invariant the editor intends: no two items share an id. */
  predicate UniqueIds(items: seq<ListItem>) {
    forall i, j :: 0 <= i < j < |items| ==> items[i].id != items[j].id
  }

  /** Position `i` holds the first item whose id is `id`. */
  predicate IsFirst(items: seq<ListItem>, id: string, i: int) {
    && 0 <= i < |items|
    && items[i].id == id
    && forall j :: 0 <= j < i ==> items[j].id != id
  }

  /** `a` is `b` with positions `i` and `j` exchanged and nothing else changed. */
  predicate Swapped<T(==)>(a: seq<T>, b: seq<T>, i: int, j: int) {
    && |a| == |b|
    && 0 <= i < |a| && 0 <= j < |a|
    && a[i] == b[j] && a[j] == b[i]
    && forall k :: 0 <= k < |a| && k != i && k != j ==> a[k] == b[k]
  }

  /** `a` can be obtained from `b` by deleting elements, keeping order. */
  predicate Subsequence<T(==)>(a: seq<T>, b: seq<T>)
    decreases |b|
  {
    || |a| == 0
    || (&& |b| > 0
        && ((a[0] == b[0] && Subsequence(a[1..], b[1..])) || Subsequence(a, b[1..])))
  }

  /** Reads one of the editable fields, as the inputs of the editor do. */
  function FieldValue(item: ListItem, f: Field): Option<string> {
    match f
    case TitleField => item.title
    case ContentField => Some(item.content)
    case DescriptionField => item.description
  }

  /** `{ ...item, [field]: value }`: the named field now reads `value`, the
      other editable fields and the id and kind are untouched. */
  function WithField(item: ListItem, f: Field, value: string): (r: ListItem)
    ensures r.id == item.id && r.kind == item.kind
    ensures FieldValue(r, f) == Some(value)
    ensures forall g :: g != f ==> FieldValue(r, g) == FieldValue(item, g)
  {
    match f
    case TitleField => item.(title := Some(value))
    case ContentField => item.(content := value)
    case DescriptionField => item.(description := Some(value))
  }

  /** `items.map(item => item.id === id ? {...item, [field]: value} : item)`:
      every item carrying `id` is rewritten, duplicates included, and every
      other item stays where it was. */
  function UpdateInItems(items: seq<ListItem>, id: string, f: Field, value: string): (r: seq<ListItem>)
    ensures |r| == |items|
    ensures forall i :: 0 <= i < |items| && items[i].id != id ==> r[i] == items[i]
    ensures forall i :: 0 <= i < |items| && items[i].id == id ==> r[i] == WithField(items[i], f, value)
  {
    if |items| == 0 then []
    else
      var head := if items[0].id == id then WithField(items[0], f, value) else items[0];
      [head] + UpdateInItems(items[1..], id, f, value)
  }

  /** `items.filter(item => item.id !== id)`: the result keeps the other
      items with their multiplicities, in their original relative order, and
      drops every item carrying `id`, duplicates included. */
  function DeleteFromItems(items: seq<ListItem>, id: string): (r: seq<ListItem>)
    ensures forall i :: 0 <= i < |r| ==> r[i].id != id
    ensures forall x: ListItem :: x.id != id ==> multiset(r)[x] == multiset(items)[x]
    ensures Subsequence(r, items)
  {
    if |items| == 0 then []
    else
      assert items == [items[0]] + items[1..];
      if items[0].id == id then DeleteFromItems(items[1..], id)
      else [items[0]] + DeleteFromItems(items[1..], id)
  }

  /** `items.findIndex(item => item.id === id)`: the position of the FIRST
      item carrying `id`, or -1 when there is none. */
  function FindIndex(items: seq<ListItem>, id: string): (r: int)
    ensures -1 <= r < |items|
    ensures r == -1 <==> !HasId(items, id)
    ensures r != -1 ==> IsFirst(items, id, r)
  {
    if |items| == 0 then -1
    else if items[0].id == id then 0
    else
      var k := FindIndex(items[1..], id);
      if k == -1 then -1 else k + 1
  }

  /** Exchanges positions `i` and `i + 1`; a permutation of `s`. */
  function SwapAdjacent<T>(s: seq<T>, i: int): (r: seq<T>)
    requires 0 <= i < |s| - 1
    ensures Swapped(r, s, i, i + 1)
    ensures multiset(r) == multiset(s)
  {
    assert s == s[..i] + [s[i], s[i + 1]] + s[i + 2..];
    s[..i] + [s[i + 1], s[i]] + s[i + 2..]
  }

  /** `moveItem` with the evidently intended guard: the first item carrying
      `id` trades places with its neighbour in `dir`; at the boundary, or
      when no item carries `id`, nothing changes. (The code as written
      differs on a missing id: see module MoveAsWritten.) */
  function MoveInItems(items: seq<ListItem>, id: string, dir: Direction): (r: seq<ListItem>)
    ensures |r| == |items|
    ensures multiset(r) == multiset(items)
    ensures !HasId(items, id) ==> r == items
    ensures forall i :: IsFirst(items, id, i) && dir == Up && i > 0 ==> Swapped(r, items, i - 1, i)
    ensures forall i :: IsFirst(items, id, i) && dir == Up && i == 0 ==> r == items
    ensures forall i :: IsFirst(items, id, i) && dir == Down && i < |items| - 1 ==> Swapped(r, items, i, i + 1)
    ensures forall i :: IsFirst(items, id, i) && dir == Down && i == |items| - 1 ==> r == items
  {
    var index := FindIndex(items, id);
    if index == -1 then items
    else if dir == Up && index > 0 then SwapAdjacent(items, index - 1)
    else if dir == Down && index < |items| - 1 then SwapAdjacent(items, index)
    else items
  }

  /** The item `addTextItem` appends. */
  function NewTextItem(id: string): (r: ListItem)
    ensures r.id == id && r.kind == TextItem
    ensures forall f :: FieldValue(r, f) == Some("")
  {
    ListItem(id, TextItem, "", Some(""), Some(""))
  }

  /** The item the image reader's callback appends. */
  function NewImageItem(id: string, file: ImageFile): (r: ListItem)
    ensures r.id == id && r.kind == ImageItem
    ensures FieldValue(r, ContentField) == Some(file.dataUrl)
    ensures FieldValue(r, TitleField) == Some(file.name)
    ensures FieldValue(r, DescriptionField) == Some("")
  {
    ListItem(id, ImageItem, file.dataUrl, Some(file.name), Some(""))
  }

  /** `addTextItem`: exactly one empty text item is appended at the end;
      the earlier items and the document's other fields are unchanged. */
  function AddTextItem(d: ListData, newId: string): (r: ListData)
    ensures |r.items| == |d.items| + 1
    ensures r.items[..|d.items|] == d.items
    ensures var last := r.items[|d.items|];
      && last.id == newId && last.kind == TextItem
      && last.content == "" && last.title == Some("") && last.description == Some("")
    ensures r.title == d.title && r.description == d.description && r.theme == d.theme
  {
    d.(items := d.items + [NewTextItem(newId)])
  }

  /** `addImageItem`, from the picked file onwards: nothing happens when no
      file was picked; otherwise one image item is appended whose content is
      the file's data URL, whose title is the file name and whose
      description is empty. */
  function AddImageItem(d: ListData, newId: string, picked: Option<ImageFile>): (r: ListData)
    ensures picked.None? ==> r == d
    ensures picked.Some? ==>
      && |r.items| == |d.items| + 1
      && r.items[..|d.items|] == d.items
      && r.items[|d.items|] == ListItem(newId, ImageItem, picked.value.dataUrl, Some(picked.value.name), Some(""))
    ensures r.title == d.title && r.description == d.description && r.theme == d.theme
  {
    match picked
    case None => d
    case Some(file) => d.(items := d.items + [NewImageItem(newId, file)])
  }

  // ----- Properties of the item edits -----

  /** `updateItem` with an id no item carries leaves the items as they were. */
  lemma UpdateAbsentIsNoop(items: seq<ListItem>, id: string, f: Field, value: string)
    requires !HasId(items, id)
    ensures UpdateInItems(items, id, f, value) == items
  {
  }

  /** `updateItem` never changes which id sits at which position. */
  lemma UpdateKeepsIds(items: seq<ListItem>, id: string, f: Field, value: string)
    ensures var r := UpdateInItems(items, id, f, value);
      forall i :: 0 <= i < |r| ==> r[i].id == items[i].id
  {
  }

  /** `deleteItem` with an id no item carries leaves the items as they were. */
  lemma {:induction false} DeleteAbsentIsNoop(items: seq<ListItem>, id: string)
    requires !HasId(items, id)
    ensures DeleteFromItems(items, id) == items
  {
    if |items| > 0 {
      assert items[0].id != id;
      assert !HasId(items[1..], id) by {
        forall i | 0 <= i < |items[1..]|
          ensures items[1..][i].id != id
        {
          assert items[1..][i] == items[i + 1];
        }
      }
      assert DeleteFromItems(items, id) == [items[0]] + DeleteFromItems(items[1..], id);
      DeleteAbsentIsNoop(items[1..], id);
      assert items == [items[0]] + items[1..];
    }
  }

  /** Every item `deleteItem` keeps was already in the list. */
  lemma DeleteKeepsOnlyOldItems(items: seq<ListItem>, id: string)
    ensures forall x :: x in DeleteFromItems(items, id) ==> x in items
  {
  }

  /** `deleteItem` keeps distinct ids distinct. */
  lemma {:induction false} DeleteKeepsUniqueIds(items: seq<ListItem>, id: string)
    requires UniqueIds(items)
    ensures UniqueIds(DeleteFromItems(items, id))
  {
    if |items| > 0 {
      var tail := items[1..];
      assert UniqueIds(tail) by {
        forall i, j | 0 <= i < j < |tail|
          ensures tail[i].id != tail[j].id
        {
          assert tail[i] == items[i + 1] && tail[j] == items[j + 1];
        }
      }
      DeleteKeepsUniqueIds(tail, id);
      if items[0].id != id {
        assert !HasId(tail, items[0].id) by {
          forall k | 0 <= k < |tail|
            ensures tail[k].id != items[0].id
          {
            assert tail[k] == items[k + 1];
          }
        }
        ConsKeepsUniqueIds(items[0], DeleteFromItems(tail, id), tail);
      }
    }
  }

  /** Putting an item in front of a list drawn from `source` keeps ids
      distinct when `source` has no item with its id. */
  lemma ConsKeepsUniqueIds(x: ListItem, rest: seq<ListItem>, source: seq<ListItem>)
    requires UniqueIds(rest) && !HasId(source, x.id)
    requires forall y :: y in rest ==> y in source
    ensures UniqueIds([x] + rest)
  {
    var r := [x] + rest;
    forall i, j | 0 <= i < j < |r|
      ensures r[i].id != r[j].id
    {
      assert r[j] == rest[j - 1];
      if i == 0 {
        assert rest[j - 1] in source;
      } else {
        assert r[i] == rest[i - 1];
      }
    }
  }

  /** Exchanging two positions keeps distinct ids distinct. */
  lemma SwappedKeepsUniqueIds(a: seq<ListItem>, b: seq<ListItem>, i: int, j: int)
    requires UniqueIds(b) && Swapped(a, b, i, j)
    ensures UniqueIds(a)
  {
  }

  /** `moveItem` keeps distinct ids distinct. */
  lemma MoveKeepsUniqueIds(items: seq<ListItem>, id: string, dir: Direction)
    requires UniqueIds(items)
    ensures UniqueIds(MoveInItems(items, id, dir))
  {
    var r := MoveInItems(items, id, dir);
    var index := FindIndex(items, id);
    if dir == Up && index > 0 {
      SwappedKeepsUniqueIds(r, items, index - 1, index);
    } else if dir == Down && index != -1 && index < |items| - 1 {
      SwappedKeepsUniqueIds(r, items, index, index + 1);
    }
  }

  /** Moving an item up and then down again restores the list. No
      uniqueness is needed: after the first move the item is the first one
      carrying its id. */
  lemma MoveUpThenDownRestores(items: seq<ListItem>, id: string, i: int)
    requires IsFirst(items, id, i) && i > 0
    ensures MoveInItems(MoveInItems(items, id, Up), id, Down) == items
  {
    var up := MoveInItems(items, id, Up);
    assert Swapped(up, items, i - 1, i);
    assert IsFirst(up, id, i - 1);
    var back := MoveInItems(up, id, Down);
    assert Swapped(back, up, i - 1, i);
    assert back == items;
  }

  /** Moving an item down and then up again restores the list, provided the
      neighbour it passes does not carry the same id. */
  lemma MoveDownThenUpRestores(items: seq<ListItem>, id: string, i: int)
    requires IsFirst(items, id, i) && i < |items| - 1
    requires items[i + 1].id != id
    ensures MoveInItems(MoveInItems(items, id, Down), id, Up) == items
  {
    var down := MoveInItems(items, id, Down);
    assert Swapped(down, items, i, i + 1);
    assert IsFirst(down, id, i + 1);
    var back := MoveInItems(down, id, Up);
    assert Swapped(back, down, i, i + 1);
    assert back == items;
  }

  /** The exception in `DuplicateIdsAreTreatedUnevenly`: the first copy,
      moved `'down'`, trades places with a copy directly below it. */
  lemma AdjacentDuplicatesTradePlaces(items: seq<ListItem>, id: string, i: int)
    requires IsFirst(items, id, i) && i + 1 < |items| && items[i + 1].id == id
    ensures MoveInItems(items, id, Down)[i] == items[i + 1]
    ensures MoveInItems(items, id, Down)[i + 1] == items[i]
  {
  }

  /** Duplicate ids (two adds in the same millisecond) are treated
      unevenly: `updateItem` rewrites and `deleteItem` removes every copy,
      while `moveItem` moves only the first and leaves a later copy in place,
      unless that copy is the first copy's lower neighbour and the move is
      `'down'`, in which case the two copies trade places
      (`AdjacentDuplicatesTradePlaces`). */
  lemma DuplicateIdsAreTreatedUnevenly(items: seq<ListItem>, id: string, i: int, j: int, f: Field, value: string)
    requires 0 <= i < j < |items| && items[i].id == id && items[j].id == id
    ensures UpdateInItems(items, id, f, value)[j] == WithField(items[j], f, value)
    ensures items[j] !in DeleteFromItems(items, id)
    ensures j > i + 1 ==> MoveInItems(items, id, Down)[j] == items[j]
    ensures MoveInItems(items, id, Up)[j] == items[j]
  {
    var k := FindIndex(items, id);
    assert IsFirst(items, id, k) && k <= i;
    var down := MoveInItems(items, id, Down);
    if j > i + 1 {
      assert Swapped(down, items, k, k + 1);
    }
    var up := MoveInItems(items, id, Up);
    if k > 0 {
      assert Swapped(up, items, k - 1, k);
    }
  }
}
