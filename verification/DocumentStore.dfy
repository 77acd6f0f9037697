/** The browser's local storage as the list store, the share link the
    editor mints, and the lookup the public view performs
    (src/pages/CreateList.tsx:110-115, src/pages/ViewList.tsx:28-40).
    Serialisation to and from JSON is taken to be the identity. */
module DocumentStore {
  import opened Optional
  import opened ListModel

  /** Storage key to stored document. */
  type Store = map<string, ListData>

  const KeyPrefix: string := "list-"
  const ListPath: string := "/list/"

  /** `list-${id}`, the key both pages use. */
  function StorageKey(listId: string): (r: string)
    ensures |r| == |KeyPrefix| + |listId|
    ensures r[..|KeyPrefix|] == KeyPrefix && r[|KeyPrefix|..] == listId
  {
    KeyPrefix + listId
  }

  /** Distinct ids never share a storage key. */
  lemma StorageKeyInjective(a: string, b: string)
    requires StorageKey(a) == StorageKey(b)
    ensures a == b
  {
    assert a == StorageKey(a)[|KeyPrefix|..];
    assert b == StorageKey(b)[|KeyPrefix|..];
  }

  /** `localStorage.setItem(key, value)`: one entry written, last write
      wins, every other key untouched. */
  function Put(store: Store, listId: string, doc: ListData): (r: Store)
    ensures r.Keys == store.Keys + {StorageKey(listId)}
    ensures r[StorageKey(listId)] == doc
    ensures forall k :: k in store && k != StorageKey(listId) ==> r[k] == store[k]
  {
    store[StorageKey(listId) := doc]
  }

  /** `localStorage.getItem(key)`, `None` standing for `null`. */
  function Get(store: Store, listId: string): (r: Option<ListData>)
    ensures r.Some? <==> StorageKey(listId) in store
    ensures r.Some? ==> r.value == store[StorageKey(listId)]
  {
    var key := StorageKey(listId);
    if key in store then Some(store[key]) else None
  }

  /** Reading back what was just written gives the written document. */
  lemma PutThenGet(store: Store, listId: string, doc: ListData)
    ensures Get(Put(store, listId, doc), listId) == Some(doc)
  {
  }

  /** Writing under one id leaves what every other id reads unchanged. */
  lemma PutLeavesOtherIds(store: Store, listId: string, other: string, doc: ListData)
    requires other != listId
    ensures Get(Put(store, listId, doc), other) == Get(store, other)
  {
    if StorageKey(other) == StorageKey(listId) {
      StorageKeyInjective(other, listId);
    }
  }

  /** `${origin}/list/${listId}`. */
  function ShareUrl(origin: string, listId: string): (r: string)
    ensures |r| == |origin| + |ListPath| + |listId|
    ensures r[..|origin|] == origin
    ensures r[|origin|..|origin| + |ListPath|] == ListPath
    ensures r[|origin| + |ListPath|..] == listId
  {
    origin + ListPath + listId
  }

  /** From one origin, distinct ids give distinct links. */
  lemma ShareUrlInjective(origin: string, a: string, b: string)
    requires ShareUrl(origin, a) == ShareUrl(origin, b)
    ensures a == b
  {
    var n := |origin + ListPath|;
    assert a == ShareUrl(origin, a)[n..];
    assert b == ShareUrl(origin, b)[n..];
  }

  datatype Shared = Shared(store: Store, url: string)

  /** `generateListUrl`, with the clock's reading passed in as `listId`:
      the current document is stored under `list-<listId>` and the link to
      it is returned. */
  function GenerateListUrl(store: Store, doc: ListData, origin: string, listId: string): (r: Shared)
    ensures r.store.Keys == store.Keys + {StorageKey(listId)}
    ensures Get(r.store, listId) == Some(doc)
    ensures forall k :: k in store && k != StorageKey(listId) ==> r.store[k] == store[k]
    ensures |r.url| >= |origin + ListPath| && r.url[..|origin + ListPath|] == origin + ListPath
    ensures r.url[|origin + ListPath|..] == listId
  {
    Shared(Put(store, listId, doc), ShareUrl(origin, listId))
  }

  /** What the public view shows. */
  datatype ViewState = Loading | NotFound | Found(doc: ListData)

  /** The view's state once its effect has run for the route parameter
      `routeId` (`None` when the route supplies none): it leaves Loading
      only for a non-empty id, and then shows the stored document or
      Not Found, never an empty list in place of a missing one. */
  function LoadView(store: Store, routeId: Option<string>): (r: ViewState)
    ensures r.Loading? <==> (routeId.None? || routeId.value == "")
    ensures r.NotFound? <==> (routeId.Some? && routeId.value != "" && StorageKey(routeId.value) !in store)
    ensures r.Found? ==> Get(store, routeId.value) == Some(r.doc)
  {
    match routeId
    case None => Loading
    case Some(id) =>
      if id == "" then Loading
      else match Get(store, id)
        case None => NotFound
        case Some(doc) => Found(doc)
  }

  /** Viewing the id just shared shows the document that was shared. */
  lemma ShareThenView(store: Store, doc: ListData, origin: string, listId: string)
    requires listId != ""
    ensures LoadView(GenerateListUrl(store, doc, origin, listId).store, Some(listId)) == Found(doc)
  {
  }

  /** Sharing twice under two different ids keeps both snapshots readable,
      each under its own id. */
  lemma TwoSharesBothReadable(store: Store, doc1: ListData, doc2: ListData, origin: string, id1: string, id2: string)
    requires id1 != id2 && id1 != "" && id2 != ""
    ensures var s := GenerateListUrl(GenerateListUrl(store, doc1, origin, id1).store, doc2, origin, id2).store;
      LoadView(s, Some(id1)) == Found(doc1) && LoadView(s, Some(id2)) == Found(doc2)
  {
    PutLeavesOtherIds(Put(store, id1, doc1), id2, id1, doc2);
  }

  /** Two shares in the same millisecond get the same id: the second
      silently overwrites the first. */
  lemma SameIdShareOverwrites(store: Store, doc1: ListData, doc2: ListData, origin: string, listId: string)
    requires listId != ""
    ensures var s := GenerateListUrl(GenerateListUrl(store, doc1, origin, listId).store, doc2, origin, listId).store;
      LoadView(s, Some(listId)) == Found(doc2)
  {
  }
}
