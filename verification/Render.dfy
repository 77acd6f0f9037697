/** The read-only projection of a list document into abstract page nodes,
    as the editor's preview (src/components/ListPreview.tsx) and the public
    view (src/pages/ViewList.tsx) draw it. Styling, heading levels and the
    phone frame are not modelled. */
module Render {
  import opened Optional
  import opened ListModel
  import opened DocumentStore

  datatype Node =
    | Heading(text: string)
    | Para(text: string)
    | Image(src: string, alt: string)
    | EmptyPlaceholder(message: string)
    | Card(children: seq<Node>)

  const UntitledList: string := "Untitled List"
  const DefaultImageAlt: string := "Image"
  const PreviewEmptyMessage: string := "No items yet"
  const ViewEmptyMessage: string := "This list is empty"

  /** The card of one item, dispatched on its kind; both pages draw the same
      branches. A heading is drawn only for a non-empty title, so no card
      holds a blank heading; video and file items have no branch and give an
      empty card. */
  function ItemCard(item: ListItem): (r: Node)
    ensures r.Card?
    ensures forall k :: 0 <= k < |r.children| && r.children[k].Heading? ==> r.children[k].text != ""
    ensures (item.kind == VideoItem || item.kind == FileItem) <==> r.children == []
    ensures item.kind == TextItem ==>
      && |r.children| == (if Truthy(item.title) then 2 else 1)
      && r.children[|r.children| - 1] == Para(item.content)
    ensures item.kind == ImageItem ==>
      && |r.children| == 1 + (if Truthy(item.title) then 1 else 0) + (if Truthy(item.description) then 1 else 0)
      && Image(item.content, OrElse(item.title, DefaultImageAlt)) in r.children
      && (Truthy(item.description) ==> r.children[|r.children| - 1] == Para(item.description.value))
    ensures (item.kind == TextItem || item.kind == ImageItem) && Truthy(item.title) ==>
      r.children[0] == Heading(item.title.value)
  {
    var heading := if Truthy(item.title) then [Heading(item.title.value)] else [];
    match item.kind
    case TextItem => Card(heading + [Para(item.content)])
    case ImageItem =>
      var caption := if Truthy(item.description) then [Para(item.description.value)] else [];
      Card(heading + [Image(item.content, OrElse(item.title, DefaultImageAlt))] + caption)
    case VideoItem => Card([])
    case FileItem => Card([])
  }

  /** `items.map(...)`: one card per item, in the stored order. */
  function CardsOf(items: seq<ListItem>): (r: seq<Node>)
    ensures |r| == |items|
    ensures forall i :: 0 <= i < |items| ==> r[i] == ItemCard(items[i])
  {
    if |items| == 0 then [] else [ItemCard(items[0])] + CardsOf(items[1..])
  }

  /** The description paragraph, drawn only when the description is non-empty. */
  function DescriptionNodes(d: ListData): (r: seq<Node>)
    ensures |r| == (if d.description != "" then 1 else 0)
    ensures d.description != "" ==> r == [Para(d.description)]
  {
    if d.description != "" then [Para(d.description)] else []
  }

  /** The preview: the title, or "Untitled List" when it is empty, so the
      header is never blank; the description when non-empty; then exactly
      the "No items yet" placeholder for an empty list, or otherwise one
      card per item in order and no placeholder. */
  function PreviewRender(d: ListData): (r: seq<Node>)
    ensures |r| == 1 + |DescriptionNodes(d)| + (if |d.items| == 0 then 1 else |d.items|)
    ensures r[0].Heading? && r[0].text != ""
    ensures d.title != "" ==> r[0] == Heading(d.title)
    ensures d.title == "" ==> r[0] == Heading(UntitledList)
    ensures var h := 1 + |DescriptionNodes(d)|;
      && r[1..h] == DescriptionNodes(d)
      && (|d.items| == 0 ==> r[h..] == [EmptyPlaceholder(PreviewEmptyMessage)])
      && (|d.items| > 0 ==> r[h..] == CardsOf(d.items))
  {
    var title := if d.title != "" then d.title else UntitledList;
    var body := if |d.items| == 0 then [EmptyPlaceholder(PreviewEmptyMessage)] else CardsOf(d.items);
    [Heading(title)] + DescriptionNodes(d) + body
  }

  /** The public view of a found list: the title as stored, with no
      fallback; the description when non-empty; one card per item in order;
      and the "This list is empty" placeholder exactly when there are no
      items. */
  function ViewRender(d: ListData): (r: seq<Node>)
    ensures |r| == 1 + |DescriptionNodes(d)| + (if |d.items| == 0 then 1 else |d.items|)
    ensures r[0] == Heading(d.title)
    ensures var h := 1 + |DescriptionNodes(d)|;
      && r[1..h] == DescriptionNodes(d)
      && r[h..h + |d.items|] == CardsOf(d.items)
      && (EmptyPlaceholder(ViewEmptyMessage) in r <==> |d.items| == 0)
  {
    var placeholder := if |d.items| == 0 then [EmptyPlaceholder(ViewEmptyMessage)] else [];
    var top := [Heading(d.title)] + DescriptionNodes(d);
    var cards := CardsOf(d.items);
    var r := top + cards + placeholder;
    assert EmptyPlaceholder(ViewEmptyMessage) !in top;
    assert EmptyPlaceholder(ViewEmptyMessage) !in cards by {
      forall k | 0 <= k < |cards|
        ensures cards[k].Card?
      {
      }
    }
    assert EmptyPlaceholder(ViewEmptyMessage) in r <==> EmptyPlaceholder(ViewEmptyMessage) in placeholder;
    r
  }

  /** Preview and public view draw every item identically; for a titled,
      non-empty list the two projections are the same. The card half holds
      because both renderers share `ItemCard`: that the card markup of
      src/components/ListPreview.tsx:80-112 and src/pages/ViewList.tsx:164-197
      agrees was read from the two files, not derived here. */
  lemma PreviewMatchesView(d: ListData)
    ensures |d.items| > 0 ==> PreviewRender(d)[1..] == ViewRender(d)[1..]
    ensures d.title != "" && |d.items| > 0 ==> PreviewRender(d) == ViewRender(d)
  {
  }

  /** The page the public view draws in each state. */
  datatype Page = LoadingPage | NotFoundPage | ListPage(nodes: seq<Node>)

  function ViewPage(state: ViewState): (r: Page)
    ensures r.ListPage? <==> state.Found?
    ensures r.NotFoundPage? <==> state.NotFound?
  {
    match state
    case Loading => LoadingPage
    case NotFound => NotFoundPage
    case Found(doc) => ListPage(ViewRender(doc))
  }

  /** Opening the link of a list just shared draws that list. */
  lemma SharedListIsDrawn(store: Store, doc: ListData, origin: string, listId: string)
    requires listId != ""
    ensures ViewPage(LoadView(GenerateListUrl(store, doc, origin, listId).store, Some(listId)))
      == ListPage(ViewRender(doc))
  {
  }

  /** An id never stored draws the Not Found page, not an empty list. */
  lemma MissingListIsNotFound(store: Store, listId: string)
    requires listId != "" && StorageKey(listId) !in store
    ensures ViewPage(LoadView(store, Some(listId))) == NotFoundPage
  {
  }

  /** The document the editor opens with previews as an untitled, empty list. */
  lemma EmptyListPreview()
    ensures PreviewRender(EmptyList) == [Heading(UntitledList), EmptyPlaceholder(PreviewEmptyMessage)]
  {
  }
}
