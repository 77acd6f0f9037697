/** The editor page as a state machine over one in-memory document: each
    user action replaces the held document by the result of one pure edit
    (src/pages/CreateList.tsx). */
module Editor {
  import opened Optional
  import opened ListModel
  import MoveAsWritten

  /** One user action on the editor page. */
  datatype Edit =
    | AddText(newId: string)
    | AddImage(newId: string, picked: Option<ImageFile>)
    | Update(id: string, field: Field, value: string)
    | Delete(id: string)
    | Move(id: string, dir: Direction)
    | SetTitle(title: string)
    | SetDescription(description: string)

  /** The edit creates an item carrying `id`. */
  predicate Mints(e: Edit, id: string) {
    || (e.AddText? && e.newId == id)
    || (e.AddImage? && e.picked.Some? && e.newId == id)
  }

  /** What the page's controls can send, assuming the clock never repeats a
      reading: an add mints an id no current item carries (ids are
      `Date.now()` readings, src/pages/CreateList.tsx:40, :62), and a move
      names an item on the list, since its buttons are drawn per item
      (src/pages/CreateList.tsx:234, :242). */
  predicate Sendable(d: ListData, e: Edit) {
    && ((e.AddText? || e.AddImage?) ==> !HasId(d.items, e.newId))
    && (e.Move? ==> HasId(d.items, e.id))
  }

  /** The handler each action runs. No edit touches the theme; only the two
      setters touch the title and description, and they touch nothing else;
      every id afterwards was there before or was minted by this edit. */
  function Apply(d: ListData, e: Edit): (r: ListData)
    ensures r.theme == d.theme
    ensures !e.SetTitle? ==> r.title == d.title
    ensures !e.SetDescription? ==> r.description == d.description
    ensures e.SetTitle? ==> r.title == e.title && r.items == d.items
    ensures e.SetDescription? ==> r.description == e.description && r.items == d.items
    ensures forall i :: 0 <= i < |r.items| ==> HasId(d.items, r.items[i].id) || Mints(e, r.items[i].id)
  {
    match e
    case AddText(newId) => AddTextItem(d, newId)
    case AddImage(newId, picked) => AddImageItem(d, newId, picked)
    case Update(id, f, v) =>
      UpdateKeepsIds(d.items, id, f, v);
      d.(items := UpdateInItems(d.items, id, f, v))
    case Delete(id) =>
      DeleteKeepsOnlyOldItems(d.items, id);
      d.(items := DeleteFromItems(d.items, id))
    case Move(id, dir) =>
      var r := MoveInItems(d.items, id, dir);
      assert forall x :: x in r ==> x in d.items by {
        forall x | x in r ensures x in d.items {
          assert multiset(r)[x] > 0;
        }
      }
      d.(items := r)
    case SetTitle(t) => d.(title := t)
    case SetDescription(s) => d.(description := s)
  }

  /** Runs a script of actions from `d`. */
  function ApplyAll(d: ListData, es: seq<Edit>): ListData
    decreases |es|
  {
    if |es| == 0 then d else ApplyAll(Apply(d, es[0]), es[1..])
  }

  /** Every action of the script is one the page can send at that moment. */
  predicate SendableAlong(d: ListData, es: seq<Edit>)
    decreases |es|
  {
    |es| == 0 || (Sendable(d, es[0]) && SendableAlong(Apply(d, es[0]), es[1..]))
  }

  /** On every move the page can send, `Apply` does exactly what `moveItem`
      as written does; the corrected guard only matters for a missing id. */
  lemma SendableMoveIsAsWritten(d: ListData, e: Edit)
    requires e.Move? && Sendable(d, e)
    ensures MoveAsWritten.Lift(Apply(d, e).items) == MoveAsWritten.MoveItemAsWritten(d.items, e.id, e.dir)
  {
    MoveAsWritten.AsWrittenAgreesWhenPresent(d.items, e.id, e.dir);
  }

  /** One action the page can send keeps ids distinct. */
  lemma ApplyKeepsUniqueIds(d: ListData, e: Edit)
    requires UniqueIds(d.items) && Sendable(d, e)
    ensures UniqueIds(Apply(d, e).items)
  {
    match e
    case AddText(newId) =>
      AppendKeepsUniqueIds(d.items, NewTextItem(newId));
    case AddImage(newId, picked) =>
      if picked.Some? {
        AppendKeepsUniqueIds(d.items, NewImageItem(newId, picked.value));
      }
    case Update(id, f, v) =>
      UpdateKeepsIds(d.items, id, f, v);
    case Delete(id) =>
      DeleteKeepsUniqueIds(d.items, id);
    case Move(id, dir) =>
      MoveKeepsUniqueIds(d.items, id, dir);
    case SetTitle(_) =>
    case SetDescription(_) =>
  }

  lemma AppendKeepsUniqueIds(items: seq<ListItem>, x: ListItem)
    requires UniqueIds(items) && !HasId(items, x.id)
    ensures UniqueIds(items + [x])
  {
  }

  /** Item ids stay distinct through any script the page can send. */
  lemma {:induction false} ApplyAllKeepsUniqueIds(d: ListData, es: seq<Edit>)
    requires UniqueIds(d.items) && SendableAlong(d, es)
    ensures UniqueIds(ApplyAll(d, es).items)
    decreases |es|
  {
    if |es| > 0 {
      ApplyKeepsUniqueIds(d, es[0]);
      ApplyAllKeepsUniqueIds(Apply(d, es[0]), es[1..]);
    }
  }

  /** Ids are never reassigned: every id present after a script was
      present before it or was minted by one of its actions. */
  lemma {:induction false} ApplyAllIdsAreStable(d: ListData, es: seq<Edit>, id: string)
    requires HasId(ApplyAll(d, es).items, id)
    ensures HasId(d.items, id) || exists k :: 0 <= k < |es| && Mints(es[k], id)
    decreases |es|
  {
    if |es| > 0 {
      var next := Apply(d, es[0]);
      ApplyAllIdsAreStable(next, es[1..], id);
      if HasId(next.items, id) {
        var i :| 0 <= i < |next.items| && next.items[i].id == id;
        if !HasId(d.items, id) {
          assert Mints(es[0], id);
        }
      } else {
        var k :| 0 <= k < |es[1..]| && Mints(es[1..][k], id);
        assert es[1..][k] == es[k + 1];
      }
    }
  }

  /** However the session goes, the theme stays the initial "default". */
  lemma {:induction false} ThemeStaysDefault(es: seq<Edit>)
    ensures ApplyAll(EmptyList, es).theme == DefaultTheme
  {
    ApplyAllKeepsTheme(EmptyList, es);
  }

  lemma {:induction false} ApplyAllKeepsTheme(d: ListData, es: seq<Edit>)
    ensures ApplyAll(d, es).theme == d.theme
    decreases |es|
  {
    if |es| > 0 {
      ApplyAllKeepsTheme(Apply(d, es[0]), es[1..]);
    }
  }
}
