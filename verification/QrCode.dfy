/** The share dialog (src/components/QRCodeGenerator.tsx): it stores the
    document and composes the share link once the list has a title, builds
    the QR image request for the external service, and offers the image
    for download. The service itself and the anchor-click mechanics are
    outside the model. */
module QrCode {
  import opened Optional
  import opened ListModel
  import opened DocumentStore
  import opened UriComponent
  import opened Render

  const QrServiceEndpoint: string := "https://api.qrserver.com/v1/create-qr-code/?size=300x300&data="
  const QrFileSuffix: string := "-qr-code.png"
  const DefaultFileStem: string := "list"
  const NoDescription: string := "No description"
  const QrImageAlt: string := "QR Code"

  /** `generateQRCode`: the service endpoint followed by the encoded link.
      The data parameter holds no raw `&`, `=`, `?`, `#` or `/`, so the link
      cannot add parameters to the request, and decoding it gives the link
      back. */
  function QrImageUrl(listUrl: string): (r: string)
    ensures |r| >= |QrServiceEndpoint| && r[..|QrServiceEndpoint|] == QrServiceEndpoint
    ensures forall k :: |QrServiceEndpoint| <= k < |r| ==> !QueryDelimiter(r[k])
    ensures DecodeUriComponent(r[|QrServiceEndpoint|..]) == Some(listUrl)
  {
    var data := EncodeUriComponent(listUrl);
    UriComponentRoundTrip(listUrl);
    DataAfterEndpoint(QrServiceEndpoint, data);
    QrServiceEndpoint + data
  }

  /** The characters that end or split a query parameter, or start a path. */
  predicate QueryDelimiter(c: char) {
    c == '&' || c == '=' || c == '?' || c == '#' || c == '/'
  }

  /** Encoded data appended to an endpoint sits, unchanged and free of
      delimiters, right after it. */
  lemma DataAfterEndpoint(endpoint: string, data: string)
    requires forall k :: 0 <= k < |data| ==> Unreserved(data[k]) || data[k] == '%'
    ensures var r := endpoint + data;
      && r[..|endpoint|] == endpoint
      && r[|endpoint|..] == data
      && forall k :: |endpoint| <= k < |r| ==> !QueryDelimiter(r[k])
  {
  }

  /** The dialog's state: the link field, the QR image URL and the store. */
  datatype Dialog = Dialog(listUrl: string, qrCodeUrl: string, store: Store)

  /** The dialog once its effect has run for `doc`, with the clock's
      reading passed in as `listId`. An untitled list gets no link, no QR
      image and no store write. A titled list is stored under exactly one
      new key, its link points at that id, and the QR image carries that
      link. */
  function OpenDialog(doc: ListData, store: Store, origin: string, listId: string): (r: Dialog)
    ensures doc.title == "" ==> r == Dialog("", "", store)
    ensures r.qrCodeUrl == "" <==> doc.title == ""
    ensures doc.title != "" ==>
      && r.store.Keys == store.Keys + {StorageKey(listId)}
      && (forall k :: k in store && k != StorageKey(listId) ==> r.store[k] == store[k])
      && Get(r.store, listId) == Some(doc)
      && r.listUrl == ShareUrl(origin, listId)
      && |r.qrCodeUrl| >= |QrServiceEndpoint|
      && r.qrCodeUrl[..|QrServiceEndpoint|] == QrServiceEndpoint
      && DecodeUriComponent(r.qrCodeUrl[|QrServiceEndpoint|..]) == Some(r.listUrl)
  {
    if doc.title != "" then
      var shared := GenerateListUrl(store, doc, origin, listId);
      Dialog(shared.url, QrImageUrl(shared.url), shared.store)
    else Dialog("", "", store)
  }

  /** The QR image block, drawn only once there is a QR image URL. */
  function QrSection(d: Dialog): (r: seq<Node>)
    ensures r == [] <==> d.qrCodeUrl == ""
    ensures r != [] ==> r == [Image(d.qrCodeUrl, QrImageAlt)]
  {
    if d.qrCodeUrl != "" then [Image(d.qrCodeUrl, QrImageAlt)] else []
  }

  /** The dialog draws a QR image exactly for a titled list, and that
      image is the service's picture of the list's link. */
  lemma QrShownExactlyForTitledList(doc: ListData, store: Store, origin: string, listId: string)
    ensures QrSection(OpenDialog(doc, store, origin, listId)) != [] <==> doc.title != ""
    ensures doc.title != "" ==>
      QrSection(OpenDialog(doc, store, origin, listId))
        == [Image(QrImageUrl(ShareUrl(origin, listId)), QrImageAlt)]
  {
  }

  datatype DownloadLink = DownloadLink(href: string, filename: string)

  /** `downloadQRCode`: nothing without a QR image URL; otherwise a link to
      that URL named after the title, or "list" when it is empty, followed
      by "-qr-code.png", so the name before the suffix is never blank. */
  function DownloadQr(qrCodeUrl: string, title: string): (r: Option<DownloadLink>)
    ensures r.None? <==> qrCodeUrl == ""
    ensures r.Some? ==>
      var name := r.value.filename;
      var stem := |name| - |QrFileSuffix|;
      && r.value.href == qrCodeUrl
      && |name| > |QrFileSuffix|
      && name[stem..] == QrFileSuffix
      && name[..stem] == (if title != "" then title else DefaultFileStem)
  {
    if qrCodeUrl == "" then None
    else
      var stem := if title != "" then title else DefaultFileStem;
      var name := stem + QrFileSuffix;
      assert name[..|stem|] == stem && name[|stem|..] == QrFileSuffix;
      Some(DownloadLink(qrCodeUrl, name))
  }

  /** After the dialog's effect, the download offers exactly for a titled
      list, names the file after that title, and fetches the QR image of
      the list's share link. */
  lemma DownloadFollowsDialog(doc: ListData, store: Store, origin: string, listId: string)
    ensures DownloadQr(OpenDialog(doc, store, origin, listId).qrCodeUrl, doc.title).Some? <==> doc.title != ""
    ensures doc.title != "" ==>
      DownloadQr(OpenDialog(doc, store, origin, listId).qrCodeUrl, doc.title)
        == Some(DownloadLink(QrImageUrl(ShareUrl(origin, listId)), doc.title + QrFileSuffix))
  {
  }

  datatype Summary = Summary(heading: string, description: string, itemCount: nat)

  /** The list-info card: the title or "Untitled List", the description or
      "No description" (never blank), and the number of items. */
  function SummaryCard(d: ListData): (r: Summary)
    ensures r.itemCount == |d.items|
    ensures r.heading != "" && r.description != ""
    ensures d.title != "" ==> r.heading == d.title
    ensures d.title == "" ==> r.heading == UntitledList
    ensures d.description != "" ==> r.description == d.description
    ensures d.description == "" ==> r.description == NoDescription
  {
    Summary(
      if d.title != "" then d.title else UntitledList,
      if d.description != "" then d.description else NoDescription,
      |d.items|)
  }

  /** The dialog's card names the list as the preview heads it, and its
      count is the number of cards the preview draws for a non-empty list. */
  lemma SummaryMatchesPreview(d: ListData)
    ensures PreviewRender(d)[0] == Heading(SummaryCard(d).heading)
    ensures |d.items| > 0 ==> SummaryCard(d).itemCount == |CardsOf(d.items)|
  {
  }

  /** A titled list opened in the dialog can be fetched through the link
      the QR image carries: decoding the data parameter gives the link, and
      the id in the link reads back the document. */
  lemma QrLinkLeadsToList(doc: ListData, store: Store, origin: string, listId: string)
    requires doc.title != "" && listId != ""
    ensures var r := OpenDialog(doc, store, origin, listId);
      && DecodeUriComponent(r.qrCodeUrl[|QrServiceEndpoint|..]) == Some(ShareUrl(origin, listId))
      && ViewPage(LoadView(r.store, Some(listId))) == ListPage(ViewRender(doc))
  {
  }
}
