# ScanShare list model

A Dafny model of the core of ScanShare, a browser tool for composing a
"list" of text and image items. The user previews the list in a phone frame
and shares it through a link and a QR code. The model covers four parts:

- **List document and editor** (`ListModel`, `Editor`, `MoveAsWritten`).
  This is the `ListData`/`ListItem` record of the create page and the five
  item edits: append a text item, append an image item, `updateItem` (a
  map), `deleteItem` (a filter) and `moveItem` (an adjacent swap). It also
  covers the title and description setters. A session is a script of edits
  run from the empty document.
- **Local document store and share link** (`DocumentStore`). Local
  storage is a `map<string, ListData>` keyed by `list-<id>`.
  `generateListUrl` writes one entry and returns `<origin>/list/<id>`. The
  public view looks the same key up and ends in Loading, Not Found or Found.
- **QR link** (`UriComponent`, `QrCode`). The QR request is the fixed
  `api.qrserver.com` endpoint followed by `encodeURIComponent` of the share
  link. `encodeURIComponent` is modelled on every string of Unicode scalar
  values: UTF-8 over Dafny's `char`, then every octet that is not one of
  the characters `A-Z a-z 0-9 - _ . ! ~ * ' ( )` is written as `%XY` with
  two upper-case hex digits, the percent-encoding of section 2.1 of
  RFC 3986. (This kept set is wider than that RFC's own unreserved set.)
  A decoder serves as the
  partner for the round trip. The module also models the title gate on
  link generation, the download file name and the summary card.
- **Render projection** (`Render`). A pure function from a document to
  abstract nodes (`Heading`, `Para`, `Image`, `EmptyPlaceholder`, `Card`)
  for the editor's preview and for the public view.

Ids come from `Date.now()` in the program. Here every operation that mints
an id takes it as a parameter, and so does the share action. The picked
image file is an input too: its name and the data URL it was read as.
Serialisation to and from JSON is the identity.

Points where the program behaves less uniformly than one might expect:

- `moveItem` treats a missing id unevenly: `'up'` leaves the list alone,
  `'down'` does not (see Findings). The model keeps both definitions; the
  editor's scripts only move items that are on the list, where the two
  agree.
- An image item's title is the file name.
- The preview falls back to "Untitled List" and the public view does not;
  the two empty-list placeholders differ.

## Model

| member | source | states |
|---|---|---|
| ListModel.WithField | src/pages/CreateList.tsx:83 | after `{...item, [field]: value}` the named field reads `value`; the other editable fields, the id and the type are unchanged |
| ListModel.UpdateInItems | src/pages/CreateList.tsx:79-86 | same length; every item carrying the id has the named field replaced, duplicates included; every other item stays unchanged in its place |
| ListModel.DeleteFromItems | src/pages/CreateList.tsx:88-93 | no kept item carries the id; every other item keeps its multiplicity; the result is a subsequence, so relative order is kept |
| ListModel.FindIndex | src/pages/CreateList.tsx:98 | -1 exactly when no item carries the id; otherwise the position of the first item that does |
| ListModel.SwapAdjacent | src/pages/CreateList.tsx:103-104 | the destructuring swap exchanges two neighbours, changes nothing else and is a permutation |
| ListModel.MoveInItems | src/pages/CreateList.tsx:95-108 | length and multiset kept; the first item with the id swaps with its neighbour in the requested direction; 'up' at index 0 and 'down' at the last index change nothing; a missing id changes nothing (the intended guard, see Findings) |
| ListModel.NewTextItem | src/pages/CreateList.tsx:39-45 | the new text item carries the given id and type text, and its content, title and description all read as empty |
| ListModel.NewImageItem | src/pages/CreateList.tsx:61-67 | the new image item carries the given id and type image; its content is the data URL, its title the file name, its description empty |
| ListModel.AddTextItem | src/pages/CreateList.tsx:38-50 | exactly one item is appended at the end: the given id, type text, empty content, title and description; earlier items, title, description and theme are unchanged |
| ListModel.AddImageItem | src/pages/CreateList.tsx:56-74 | no file picked means no change; otherwise one image item is appended with content = data URL, title = file name and empty description, and nothing else changes |
| ListModel.UpdateAbsentIsNoop | src/pages/CreateList.tsx:79-86 | `updateItem` with an id no item carries leaves the items unchanged |
| ListModel.UpdateKeepsIds | src/pages/CreateList.tsx:82-84 | `updateItem` never changes the id at any position |
| ListModel.DeleteAbsentIsNoop | src/pages/CreateList.tsx:88-93 | `deleteItem` with an id no item carries leaves the items unchanged |
| ListModel.DeleteKeepsOnlyOldItems | src/pages/CreateList.tsx:91 | every item left after `deleteItem` was in the list before |
| ListModel.DeleteKeepsUniqueIds | src/pages/CreateList.tsx:88-93 | `deleteItem` keeps distinct ids distinct |
| ListModel.ConsKeepsUniqueIds | src/pages/CreateList.tsx:91 | putting an item before items drawn from a list that lacks its id keeps ids distinct |
| ListModel.SwappedKeepsUniqueIds | src/pages/CreateList.tsx:104 | exchanging two positions keeps distinct ids distinct |
| ListModel.MoveKeepsUniqueIds | src/pages/CreateList.tsx:95-108 | `moveItem` keeps distinct ids distinct |
| ListModel.MoveUpThenDownRestores | src/pages/CreateList.tsx:95-108 | 'up' then 'down' on an item not at the top restores the list |
| ListModel.MoveDownThenUpRestores | src/pages/CreateList.tsx:95-108 | 'down' then 'up' on an item not at the bottom restores the list when its lower neighbour has a different id |
| ListModel.DuplicateIdsAreTreatedUnevenly | src/pages/CreateList.tsx:82-104 | with two items sharing an id, update rewrites and delete removes the later copy too, while move leaves the later copy in place, unless it is the first copy's lower neighbour and the move is 'down' |
| ListModel.AdjacentDuplicatesTradePlaces | src/pages/CreateList.tsx:98-104 | when the first copy of an id has a second copy directly below it, moving 'down' makes the two copies trade places |
| MoveAsWritten.MoveItemAsWritten | src/pages/CreateList.tsx:95-108 | `moveItem` on JavaScript array semantics keeps the array length |
| MoveAsWritten.AsWrittenAgreesWhenPresent | src/pages/CreateList.tsx:95-108 | when the id is present, the code as written does exactly what `MoveInItems` does |
| MoveAsWritten.AsWrittenUpAbsentIsNoop | src/pages/CreateList.tsx:99-100 | 'up' with a missing id changes nothing, because the guard `index > 0` fails |
| MoveAsWritten.AsWrittenDownAbsentLosesFirstItem | src/pages/CreateList.tsx:98-104 | 'down' with a missing id on a non-empty list turns slot 0 into `undefined`, keeps the rest, and differs from the intended no-op |
| MoveAsWritten.AsWrittenDownAbsentExample | src/pages/CreateList.tsx:98-104 | a one-item list moved down by an id it lacks becomes `[undefined]` |
| Editor.Apply | src/pages/CreateList.tsx:38-108 | no edit changes the theme; only the title and description setters change those fields, and they change nothing else; every id afterwards was present before or was minted by this edit |
| Editor.ApplyKeepsUniqueIds | src/pages/CreateList.tsx:38-108 | one edit the page can send (an add with a fresh id, a move of an item on the list, any other edit) keeps ids distinct |
| Editor.SendableMoveIsAsWritten | src/pages/CreateList.tsx:234-242 | for every move the item buttons can send, the edit the scripts apply is exactly `moveItem` as written |
| Editor.AppendKeepsUniqueIds | src/pages/CreateList.tsx:48 | appending an item with a fresh id keeps ids distinct |
| Editor.ApplyAllKeepsUniqueIds | src/pages/CreateList.tsx:38-108 | ids stay distinct through any script the page can send, whose adds use fresh ids and whose moves name items on the list |
| Editor.ApplyAllIdsAreStable | src/pages/CreateList.tsx:38-108 | ids are never reassigned: every id after a script was there before or was minted by one of its edits |
| Editor.ThemeStaysDefault | src/pages/CreateList.tsx:29-34 | starting from the initial document, the theme is "default" after any script |
| Editor.ApplyAllKeepsTheme | src/pages/CreateList.tsx:46-106 | no script of edits changes the theme |
| DocumentStore.StorageKey | src/pages/CreateList.tsx:113 | the key is `list-` followed by the id, so the id reads back from the key; the view page uses the same key (src/pages/ViewList.tsx:34) |
| DocumentStore.StorageKeyInjective | src/pages/CreateList.tsx:113 | distinct ids never share a `list-<id>` key |
| DocumentStore.Put | src/pages/CreateList.tsx:113 | `setItem` writes exactly the one key, with the document as its value, and no other key changes |
| DocumentStore.Get | src/pages/ViewList.tsx:34 | `getItem` answers a value exactly when the key is present, and that value is the stored document |
| DocumentStore.PutThenGet | src/pages/CreateList.tsx:113 | reading an id back right after writing it gives the written document |
| DocumentStore.PutLeavesOtherIds | src/pages/CreateList.tsx:113 | writing under one id leaves what every other id reads unchanged |
| DocumentStore.ShareUrl | src/pages/CreateList.tsx:114 | the link is the origin, then `/list/`, then the id, each readable back at its own offset |
| DocumentStore.ShareUrlInjective | src/pages/CreateList.tsx:114 | from one origin, distinct ids give distinct share links |
| DocumentStore.GenerateListUrl | src/pages/CreateList.tsx:110-115 | writes exactly one entry, `list-<id>` holding the document, and changes no other key; the link is the origin, then `/list/`, then the id |
| DocumentStore.LoadView | src/pages/ViewList.tsx:28-40 | stays Loading exactly when the route id is missing or empty; a missing key gives Not Found, not an empty list; Found holds the stored document |
| DocumentStore.ShareThenView | src/pages/ViewList.tsx:34-36 | viewing the id just shared yields the document that was shared |
| DocumentStore.TwoSharesBothReadable | src/pages/CreateList.tsx:110-115 | two shares under different ids stay readable independently |
| DocumentStore.SameIdShareOverwrites | src/pages/CreateList.tsx:111-113 | two shares in the same millisecond collide, and the second overwrites the first |
| UriComponent.Utf8Char | src/components/QRCodeGenerator.tsx:39 | a code point takes 1 to 4 UTF-8 octets; one octet exactly for ASCII, whose octet is its code; every octet of a longer sequence is at least 0x80 |
| UriComponent.Utf8Encode | src/components/QRCodeGenerator.tsx:39 | a string takes between one and four octets per character; ASCII text encodes to exactly its character codes |
| UriComponent.DecodeOneOfChar | src/components/QRCodeGenerator.tsx:39 | the UTF-8 octets of any character decode back to that character |
| UriComponent.Utf8RoundTrip | src/components/QRCodeGenerator.tsx:39 | decoding the UTF-8 octets of a string gives the string back |
| UriComponent.EncodeByte | src/components/QRCodeGenerator.tsx:39 | an encoded octet is written with unreserved characters and `%` only |
| UriComponent.PercentEncode | src/components/QRCodeGenerator.tsx:39 | percent-encoded octets are written with unreserved characters and `%` only |
| UriComponent.DecodeEncodedByte | src/components/QRCodeGenerator.tsx:39 | one encoded octet is read back as that octet |
| UriComponent.PercentRoundTrip | src/components/QRCodeGenerator.tsx:39 | percent-decoding percent-encoded octets gives the octets back |
| UriComponent.EncodeUriComponent | src/components/QRCodeGenerator.tsx:39 | the encoded data holds only unreserved characters and `%` |
| UriComponent.UriComponentRoundTrip | src/components/QRCodeGenerator.tsx:39 | decoding an encoded component gives exactly the original string |
| UriComponent.EncodeKeepsUnreserved | src/components/QRCodeGenerator.tsx:39 | a string of unreserved characters is left unchanged |
| UriComponent.EncodedHasNoDelimiters | src/components/QRCodeGenerator.tsx:39 | no `&`, `=`, `?`, `#`, `/` or `:` survives encoding |
| QrCode.QrImageUrl | src/components/QRCodeGenerator.tsx:36-41 | the QR URL is the fixed endpoint with size 300x300 and a data parameter; the parameter holds no raw `&`, `=`, `?`, `#` or `/` and decodes to the share link |
| QrCode.DataAfterEndpoint | src/components/QRCodeGenerator.tsx:39 | encoded data appended to the endpoint follows it unchanged, and none of its characters is `&`, `=`, `?`, `#` or `/` |
| QrCode.OpenDialog | src/components/QRCodeGenerator.tsx:28-41 | an untitled list gets no link, no QR URL and no store write; a titled list gets one new store entry holding it, a link to its id and a QR URL that starts with the service endpoint and whose data decodes to that link |
| QrCode.QrSection | src/components/QRCodeGenerator.tsx:117-130 | the QR image is drawn exactly when the QR URL is non-empty, and its source is that URL |
| QrCode.QrShownExactlyForTitledList | src/components/QRCodeGenerator.tsx:28-41 | the QR image appears exactly when the list has a title, and then shows the service's picture of that list's share link |
| QrCode.DownloadQr | src/components/QRCodeGenerator.tsx:59-73 | nothing is downloaded without a QR URL; the file name is the title, or "list" when it is empty, followed by "-qr-code.png" |
| QrCode.DownloadFollowsDialog | src/components/QRCodeGenerator.tsx:28-73 | after the dialog opens, a download is offered exactly for a titled list; its target is the QR image of the list's link and its file name is the title followed by "-qr-code.png" |
| QrCode.SummaryCard | src/components/QRCodeGenerator.tsx:108-114 | the card shows the title or "Untitled List" and the description or "No description", so neither is blank; the count is the number of items |
| QrCode.SummaryMatchesPreview | src/components/QRCodeGenerator.tsx:108-114 | the card's name is the preview's heading, "Untitled List" fallback included, and its count is the number of cards the preview draws |
| QrCode.QrLinkLeadsToList | src/components/QRCodeGenerator.tsx:28-41 | for a titled list, the QR data decodes to the share link and the id in it draws the shared list |
| Render.ItemCard | src/components/ListPreview.tsx:78-115 | dispatch on the type. Text: optional heading, content always last. Image: optional heading, image with src = content and alt = title or "Image", caption only when there is a description. Video and file: empty card. No blank heading |
| Render.CardsOf | src/pages/ViewList.tsx:161-200 | one card per item, in stored order |
| Render.DescriptionNodes | src/components/ListPreview.tsx:62-66 | the description paragraph is present exactly when the description is non-empty |
| Render.PreviewRender | src/components/ListPreview.tsx:58-117 | the header is the title or "Untitled List", never blank; the description appears only when non-empty; an empty list gives exactly the "No items yet" placeholder; otherwise one card per item in order and no placeholder |
| Render.ViewRender | src/pages/ViewList.tsx:147-215 | the header is the stored title with no fallback; the description appears only when non-empty; one card per item in order; the "This list is empty" placeholder appears exactly when there are no items |
| Render.PreviewMatchesView | src/pages/ViewList.tsx:164-197 | preview and public view draw the same cards (both use one card function, so the agreement of the two files' card markup is read from the source, not derived); a titled, non-empty list projects identically in both |
| Render.ViewPage | src/pages/ViewList.tsx:81-109 | the list is drawn only in the Found state and the Not Found page only in the Not Found state |
| Render.SharedListIsDrawn | src/pages/ViewList.tsx:31-40 | opening the link of a list just shared draws that list |
| Render.MissingListIsNotFound | src/pages/ViewList.tsx:92-109 | an id never stored draws the Not Found page |
| Render.EmptyListPreview | src/pages/CreateList.tsx:29-34 | the initial document previews as "Untitled List" with the "No items yet" placeholder |
| Scenarios.RunFour | src/pages/CreateList.tsx:46-106 | proof helper, modelling no lines of its own: running a script of four edits is applying them one after another, which keeps `MoveSecondUp` small |
| Scenarios.ShareMenuAndView | src/pages/CreateList.tsx:110-115 | title "Menu" plus one text item "Soup - $5", shared and viewed, shows that item first |
| Scenarios.MoveSecondUp | src/pages/CreateList.tsx:95-108 | adding a, b, c and then moving b up gives b, a, c |
| Scenarios.AddThreeTexts | src/pages/CreateList.tsx:38-50 | three text appends give the three items in order |
| Scenarios.MoveSecondOfThreeUp | src/pages/CreateList.tsx:95-108 | moving the middle of three distinct items up swaps it with the first |
| Scenarios.NeverStoredIdIsNotFound | src/pages/ViewList.tsx:34-36 | an empty store shows Not Found for any id |
| Scenarios.EncodeShareLinkExample | src/components/QRCodeGenerator.tsx:39 | `a/b` encodes as `a%2Fb` |

## Left out

- `Date.now()` as the id source. Ids and share ids are parameters. Two
  reads in the same millisecond are modelled as an id collision
  (`SameIdShareOverwrites`, `DuplicateIdsAreTreatedUnevenly`).
- The file picker and `FileReader.readAsDataURL`. The picked file arrives
  as an optional name and data URL. The asynchronous callback and its
  stale-closure timing are not modelled. That an image item's content
  decodes back to the file's bytes is not stated.
- `localStorage` I/O and `JSON.stringify`/`JSON.parse`. These are an
  in-memory map with identity serialisation. `setItem` throwing
  `QuotaExceededError` for a document too large for the storage (image
  data URLs make that likely) is not modelled: the exception would escape
  the dialog's effect, while `Put` always succeeds. A malformed stored
  payload is not handled by the code, so it is not modelled.
- `navigator.share`, the clipboard fallback and toast notifications.
  These are OS integration with no stated result.
- The external QR image service and the anchor-click download mechanics.
  `DownloadQr` returns the link's target and file name only.
- Routing (`useParams`, `useNavigate`). The route parameter is an
  optional string passed to `LoadView`.
- React effect scheduling. `OpenDialog` models one run of the dialog's
  effect. In the program `generateUrl` is recreated on every render of the
  create page, so the effect may run again and write another entry.
- `updateItem` is typed with `keyof ListItem`, which also admits `id`
  and `type`. Every call site passes `title`, `content` or `description`,
  and only those are modelled.
- The editor page's own item forms and empty-state card
  (src/pages/CreateList.tsx:221-320), the landing page
  (src/pages/Index.tsx), headers, footers, buttons, heading levels,
  styling and the phone frame. These are presentational.
- `decodeURIComponent` itself: the program never decodes. The model's
  `DecodeUriComponent` is the partner of the encoder's round trip. Like
  ECMAScript's Decode it rejects stray continuation octets, overlong forms,
  surrogates and values above 0x10FFFF; that it agrees with that algorithm
  on every malformed input is not proved.
- `encodeURIComponent` throws `URIError` on a string holding a lone
  surrogate. A Dafny `string` holds only Unicode scalar values, so that
  error path is not modelled.
- Editor.Apply: a `Move` of an id no item carries follows the corrected
  guard of `MoveInItems` (no change), not `moveItem` as written. The page's
  buttons never send such a move, and the script lemmas that need it
  (`ApplyAllKeepsUniqueIds`) require scripts the page can send;
  `ApplyAllIdsAreStable` and `ApplyAllKeepsTheme` cover other scripts only
  for the corrected guard.

## Findings

| source | as written | input that shows it | evidently intended | confidence | as-written member | corrected member |
|---|---|---|---|---|---|---|
| src/pages/CreateList.tsx:98-104 | `findIndex` gives -1 for a missing id. The `'down'` guard `index < items.length - 1` still holds, so the swap writes `items[0] = undefined` and moves the first item to a non-element property | a list holding one item with id "1", then `moveItem("2", 'down')`, gives `[undefined]` | a missing id leaves the list unchanged, as `'up'` already does | medium: the editor's buttons only pass ids that are present; not executed | MoveAsWritten.AsWrittenDownAbsentLosesFirstItem | ListModel.MoveInItems |
