/**
 * The message scraper of one jurisdiction (`MessageScraper` in scraper_messages.py): the
 * PDF links of a message page, the download bookkeeping, and the select / truncate /
 * parse / read pipeline over the message list.
 *
 * Navigation outcomes are inputs: whether the Messages tab opened, and for the j-th parsed
 * message its `DetailView`, which also says where each download landed on disk.
 */
module Scraper {
  import opened Wrappers
  import opened PyText
  import opened Patterns
  import opened Dom

  /** Prefix given to root-relative PDF links. */
  const BaseUrl := "https://www.telerecours.juradm.fr"

  // ---------------------------------------------------------------------------------------
  // PDF links of a message page (`extraire_liens_pdf`)

  /** An entry of `hrefs_directs`. */
  datatype DirectLink = DirectLink(id: string, nom: string, href: string, cls: string, text: string)

  /** An entry of `onclick`. */
  datatype OnclickLink = OnclickLink(id: string, text: string, suggestedName: string)

  datatype PdfLinks = PdfLinks(direct: seq<DirectLink>, onclick: seq<OnclickLink>)

  /** `soup.find_all('a', href=True)` */
  function DirectCandidates(page: Node): seq<Node> {
    Filter(FindAll(page, "a"), HasAttr("href"))
  }

  /** `soup.find_all('a', class_='hplGenFichier')` */
  function OnclickCandidates(page: Node): seq<Node> {
    FindAllWithClass(page, "a", "hplGenFichier")
  }

  /** An anchor whose `href` is non-empty and mentions `.pdf` in any letter case. */
  predicate IsDirectPdf(a: Node) {
    a.Element? && "href" in a.attrs && a.attrs["href"] != "" && Contains(Lower(a.attrs["href"]), ".pdf")
  }

  function DirectLinkOf(a: Node): DirectLink
    requires IsDirectPdf(a)
  {
    var href := a.attrs["href"];
    DirectLink(Get(a, "id", ""), AfterLast(href, '/'), href, Join(a.classes, " "), GetText(a))
  }

  /** The `hrefs_directs` list built from the candidate anchors. */
  function DirectLinks(anchors: seq<Node>): seq<DirectLink> {
    if anchors == [] then []
    else
      var a := anchors[|anchors| - 1];
      DirectLinks(anchors[..|anchors| - 1]) + (if IsDirectPdf(a) then [DirectLinkOf(a)] else [])
  }

  /** A `hplGenFichier` anchor whose lower-cased text mentions `accusé` or `pdf`. */
  predicate IsOnclickPdf(a: Node) {
    var t := Lower(GetText(a));
    Contains(t, "accus\U{E9}") || Contains(t, "pdf")
  }

  function OnclickLinkOf(a: Node): OnclickLink {
    var t := GetText(a);
    OnclickLink(Get(a, "id", ""), t, ReplaceChar(t, ' ', '_') + ".pdf")
  }

  /** The `onclick` list built from the candidate anchors. */
  function OnclickLinks(anchors: seq<Node>): seq<OnclickLink> {
    if anchors == [] then []
    else
      var a := anchors[|anchors| - 1];
      OnclickLinks(anchors[..|anchors| - 1]) + (if IsOnclickPdf(a) then [OnclickLinkOf(a)] else [])
  }

  /** `extraire_liens_pdf`: both lists, each in document order. */
  method ExtractPdfLinks(page: Node) returns (r: PdfLinks)
    ensures r.direct == DirectLinks(DirectCandidates(page))
    ensures r.onclick == OnclickLinks(OnclickCandidates(page))
  {
    var direct := ExtractDirectLinks(DirectCandidates(page));
    var onclick := ExtractOnclickLinks(OnclickCandidates(page));
    r := PdfLinks(direct, onclick);
  }

  /** The first loop of `extraire_liens_pdf`, over the anchors that have an `href`. */
  method ExtractDirectLinks(anchors: seq<Node>) returns (direct: seq<DirectLink>)
    ensures direct == DirectLinks(anchors)
  {
    direct := [];
    for i := 0 to |anchors|
      invariant direct == DirectLinks(anchors[..i])
    {
      assert anchors[..i + 1][..i] == anchors[..i];
      var link := anchors[i];
      var href := Get(link, "href", "");
      if href != "" && Contains(Lower(href), ".pdf") {
        var nom := AfterLast(href, '/');
        direct := direct + [DirectLink(Get(link, "id", ""), nom, href, Join(link.classes, " "), GetText(link))];
      }
    }
    assert anchors[..|anchors|] == anchors;
  }

  /** The second loop of `extraire_liens_pdf`, over the `hplGenFichier` anchors. */
  method ExtractOnclickLinks(marked: seq<Node>) returns (onclick: seq<OnclickLink>)
    ensures onclick == OnclickLinks(marked)
  {
    onclick := [];
    for i := 0 to |marked|
      invariant onclick == OnclickLinks(marked[..i])
    {
      assert marked[..i + 1][..i] == marked[..i];
      var link := marked[i];
      var text := GetText(link);
      assert OnclickLinks(marked[..i + 1]) ==
        OnclickLinks(marked[..i]) + (if IsOnclickPdf(link) then [OnclickLinkOf(link)] else []);
      if Contains(Lower(text), "accus\U{E9}") || Contains(Lower(text), "pdf") {
        onclick := onclick + [OnclickLink(Get(link, "id", ""), text, ReplaceChar(text, ' ', '_') + ".pdf")];
      }
    }
    assert marked[..|marked|] == marked;
  }

  /** The direct entries are exactly those of the anchors that pass the `.pdf` test. */
  lemma {:induction false} DirectLinksExact(anchors: seq<Node>)
    ensures forall d :: d in DirectLinks(anchors) <==> exists a :: a in anchors && IsDirectPdf(a) && d == DirectLinkOf(a)
  {
    if anchors != [] {
      var init := anchors[..|anchors| - 1];
      DirectLinksExact(init);
      assert anchors == init + [anchors[|anchors| - 1]];
    }
  }

  /** Every direct entry has a non-empty `href` that mentions `.pdf` in some letter case, and
      its `nom` is what follows the last `/` of that `href`. */
  lemma DirectLinkFields(anchors: seq<Node>)
    ensures forall d :: d in DirectLinks(anchors) ==>
      && d.href != "" && Contains(Lower(d.href), ".pdf")
      && d.nom == AfterLast(d.href, '/') && '/' !in d.nom
      && |d.nom| <= |d.href| && d.href[|d.href| - |d.nom|..] == d.nom
  {
    DirectLinksExact(anchors);
  }

  /** Entries keep document order: the links of an earlier part of the page come first. */
  lemma {:induction false} DirectLinksAppend(xs: seq<Node>, ys: seq<Node>)
    ensures DirectLinks(xs + ys) == DirectLinks(xs) + DirectLinks(ys)
    decreases |ys|
  {
    if ys == [] {
      assert xs + ys == xs;
    } else {
      var ysInit := ys[..|ys| - 1];
      assert (xs + ys)[..|xs + ys| - 1] == xs + ysInit;
      DirectLinksAppend(xs, ysInit);
    }
  }

  /** The onclick entries are exactly those of the `hplGenFichier` anchors of the page whose
      lower-cased text mentions `accusé` or `pdf`. */
  lemma {:induction false} OnclickLinksExact(anchors: seq<Node>)
    ensures forall o :: o in OnclickLinks(anchors) <==> exists a :: a in anchors && IsOnclickPdf(a) && o == OnclickLinkOf(a)
  {
    if anchors != [] {
      var init := anchors[..|anchors| - 1];
      OnclickLinksExact(init);
      assert anchors == init + [anchors[|anchors| - 1]];
    }
  }

  lemma OnclickLinksOfPage(page: Node)
    ensures forall o :: o in OnclickLinks(OnclickCandidates(page)) <==>
      exists a :: && a in Descendants(page) && a.Element? && a.tag == "a" && "hplGenFichier" in a.classes
                  && IsOnclickPdf(a) && o == OnclickLinkOf(a)
  {
    OnclickLinksExact(OnclickCandidates(page));
  }

  /** The suggested name is the link text with blanks turned into underscores, plus `.pdf`. */
  lemma OnclickLinkFields(anchors: seq<Node>)
    ensures forall o :: o in OnclickLinks(anchors) ==>
      && (Contains(Lower(o.text), "accus\U{E9}") || Contains(Lower(o.text), "pdf"))
      && |o.suggestedName| == |o.text| + 4
      && o.suggestedName[|o.text|..] == ".pdf"
      && forall k :: 0 <= k < |o.text| ==> o.suggestedName[k] == (if o.text[k] == ' ' then '_' else o.text[k])
  {
    OnclickLinksExact(anchors);
  }

  lemma {:induction false} OnclickLinksAppend(xs: seq<Node>, ys: seq<Node>)
    ensures OnclickLinks(xs + ys) == OnclickLinks(xs) + OnclickLinks(ys)
    decreases |ys|
  {
    if ys == [] {
      assert xs + ys == xs;
    } else {
      var ysInit := ys[..|ys| - 1];
      assert (xs + ys)[..|xs + ys| - 1] == xs + ysInit;
      OnclickLinksAppend(xs, ysInit);
    }
  }

  /** An anchor that is both a direct PDF link and an `hplGenFichier` accusé link. */
  const OverlapAnchor := Element("a", ["hplGenFichier"], map["href" := "/a.pdf"], [Text("PDF")])

  lemma OverlapAnchorIsDirect()
    ensures IsDirectPdf(OverlapAnchor)
  {
    LowerContains("/a.pdf", ".pdf", 2);
  }

  lemma OverlapAnchorText()
    ensures GetText(OverlapAnchor) == "PDF"
  {
    assert NoOuterSpace("PDF");
    assert GetText(Text("PDF")) == "PDF";
    assert ForestText([Text("PDF")]) == "PDF" + ForestText([]);
  }

  lemma OverlapAnchorIsOnclick()
    ensures IsOnclickPdf(OverlapAnchor)
  {
    OverlapAnchorText();
    LowerContains("PDF", "pdf", 0);
  }

  /** The two lists are not deduplicated against each other: one anchor can be in both. */
  lemma DirectAndOnclickOverlap()
    ensures DirectLinks([OverlapAnchor]) != [] && OnclickLinks([OverlapAnchor]) != []
  {
    OverlapAnchorIsDirect();
    OverlapAnchorIsOnclick();
    DirectLinksExact([OverlapAnchor]);
    OnclickLinksExact([OverlapAnchor]);
    assert DirectLinkOf(OverlapAnchor) in DirectLinks([OverlapAnchor]);
    assert OnclickLinkOf(OverlapAnchor) in OnclickLinks([OverlapAnchor]);
  }

  // ---------------------------------------------------------------------------------------
  // Downloads of one message (`telecharger_pdfs_message`)

  /** The URL fetched for a direct link: root-relative links are put under `BaseUrl`, any
      other `href` is fetched as it is. */
  function ResolvePdfUrl(href: string): (url: string)
    ensures |href| <= |url| && url[|url| - |href|..] == href
    ensures StartsWith(href, "/") ==> StartsWith(url, BaseUrl + "/") && |url| == |BaseUrl| + |href|
    ensures !StartsWith(href, "/") ==> url == href
  {
    if StartsWith(href, "/") then BaseUrl + href else href
  }

  /** Where the file of a direct link is looked for after the browser download ran. */
  datatype Landing =
    | Raised        // the download run raised
    | InRoot        // found in the parent directory and moved into `dossier`
    | AlreadyFinal  // not in the parent directory, but already at its final path
    | Nowhere       // in neither place

  predicate Kept(l: Landing) {
    l.InRoot? || l.AlreadyFinal?
  }

  /** An entry of `fichiers_telecharges`. */
  datatype StoredFile = StoredFile(kind: string, originalName: string, path: string)

  /** `str(Path(dossier) / f"{msg_id}_{nom}")` for a `dossier` without a trailing slash. */
  function FinalPath(dossier: string, msgId: string, nom: string): string {
    dossier + "/" + (msgId + "_" + nom)
  }

  function StoredFileOf(d: DirectLink, msgId: string, dossier: string): StoredFile {
    StoredFile("href_direct", d.nom, FinalPath(dossier, msgId, d.nom))
  }

  /** The records kept for the direct links `ds`, the k-th landing as `landing(k)`. */
  function StoredFiles(ds: seq<DirectLink>, msgId: string, dossier: string, landing: nat -> Landing): seq<StoredFile> {
    if ds == [] then []
    else
      var k := |ds| - 1;
      StoredFiles(ds[..k], msgId, dossier, landing)
        + (if Kept(landing(k)) then [StoredFileOf(ds[k], msgId, dossier)] else [])
  }

  /** The files of a message page as `telecharger_pdfs_message` reports them. */
  function MessageFiles(page: Node, msgId: string, dossier: string, landing: nat -> Landing): seq<StoredFile> {
    StoredFiles(DirectLinks(DirectCandidates(page)), msgId, dossier, landing)
  }

  /** `telecharger_pdfs_message`: the files it reports, the URLs it fetches (one per direct
      link) and the element ids it clicks (one per onclick link). */
  method DownloadMessagePdfs(page: Node, msgId: string, dossier: string, landing: nat -> Landing)
    returns (files: seq<StoredFile>, fetched: seq<string>, clicked: seq<string>)
    ensures files == MessageFiles(page, msgId, dossier, landing)
    ensures var ds := DirectLinks(DirectCandidates(page));
      |fetched| == |ds| && forall k :: 0 <= k < |ds| ==> fetched[k] == ResolvePdfUrl(ds[k].href)
    ensures var os := OnclickLinks(OnclickCandidates(page));
      |clicked| == |os| && forall k :: 0 <= k < |os| ==> clicked[k] == os[k].id
  {
    var pdfs := ExtractPdfLinks(page);
    if |pdfs.direct| + |pdfs.onclick| == 0 {
      return [], [], [];
    }
    files, fetched := FetchDirectLinks(pdfs.direct, msgId, dossier, landing);
    clicked := ClickOnclickLinks(pdfs.onclick);
  }

  /** The URLs fetched for the direct links `ds`, in order. */
  function PdfUrls(ds: seq<DirectLink>): (urls: seq<string>)
    ensures |urls| == |ds| && forall k :: 0 <= k < |ds| ==> urls[k] == ResolvePdfUrl(ds[k].href)
  {
    if ds == [] then [] else PdfUrls(ds[..|ds| - 1]) + [ResolvePdfUrl(ds[|ds| - 1].href)]
  }

  /** The download loop over the direct links. */
  method FetchDirectLinks(ds: seq<DirectLink>, msgId: string, dossier: string, landing: nat -> Landing)
    returns (files: seq<StoredFile>, fetched: seq<string>)
    ensures files == StoredFiles(ds, msgId, dossier, landing)
    ensures fetched == PdfUrls(ds)
  {
    files, fetched := [], [];
    for k := 0 to |ds|
      invariant files == StoredFiles(ds[..k], msgId, dossier, landing)
      invariant fetched == PdfUrls(ds[..k])
    {
      FetchStep(ds, k, msgId, dossier, landing);
      var info := ds[k];
      var pdfUrl := ResolvePdfUrl(info.href);
      fetched := fetched + [pdfUrl];
      var finalPath := FinalPath(dossier, msgId, info.nom);
      var landed := landing(k);
      // found in the parent directory (and moved) or already at its final path
      if landed.InRoot? || landed.AlreadyFinal? {
        files := files + [StoredFile("href_direct", info.nom, finalPath)];
      }
    }
    assert ds[..|ds|] == ds;
  }

  /** One more direct link adds its URL and, when its file was kept, its record. */
  lemma FetchStep(ds: seq<DirectLink>, k: nat, msgId: string, dossier: string, landing: nat -> Landing)
    requires k < |ds|
    ensures PdfUrls(ds[..k + 1]) == PdfUrls(ds[..k]) + [ResolvePdfUrl(ds[k].href)]
    ensures StoredFiles(ds[..k + 1], msgId, dossier, landing) == StoredFiles(ds[..k], msgId, dossier, landing)
      + (if Kept(landing(k)) then [StoredFileOf(ds[k], msgId, dossier)] else [])
  {
    assert ds[..k + 1][..k] == ds[..k];
  }

  /** The click loop over the onclick links: one click per link, by element id. */
  method ClickOnclickLinks(os: seq<OnclickLink>) returns (clicked: seq<string>)
    ensures |clicked| == |os| && forall k :: 0 <= k < |os| ==> clicked[k] == os[k].id
  {
    clicked := [];
    for k := 0 to |os|
      invariant |clicked| == k && forall t :: 0 <= t < k ==> clicked[t] == os[t].id
    {
      clicked := clicked + [os[k].id];
    }
  }

  /** Only `href_direct` records are reported, one for each direct link whose file was found
      in the parent directory or already in place, and none for any other link. */
  lemma {:induction false} StoredFilesExact(ds: seq<DirectLink>, msgId: string, dossier: string, landing: nat -> Landing)
    ensures |StoredFiles(ds, msgId, dossier, landing)| <= |ds|
    ensures forall f :: f in StoredFiles(ds, msgId, dossier, landing) <==>
      exists k :: 0 <= k < |ds| && Kept(landing(k)) && f == StoredFileOf(ds[k], msgId, dossier)
  {
    if ds != [] {
      var k := |ds| - 1;
      StoredFilesExact(ds[..k], msgId, dossier, landing);
      forall f ensures f in StoredFiles(ds, msgId, dossier, landing) <==>
        exists t :: 0 <= t < |ds| && Kept(landing(t)) && f == StoredFileOf(ds[t], msgId, dossier)
      {
        if f in StoredFiles(ds[..k], msgId, dossier, landing) {
          var t :| 0 <= t < k && Kept(landing(t)) && f == StoredFileOf(ds[..k][t], msgId, dossier);
          assert ds[..k][t] == ds[t];
        }
        if exists t :: 0 <= t < |ds| && Kept(landing(t)) && f == StoredFileOf(ds[t], msgId, dossier) {
          var t :| 0 <= t < |ds| && Kept(landing(t)) && f == StoredFileOf(ds[t], msgId, dossier);
          if t < k {
            assert ds[..k][t] == ds[t];
          }
        }
      }
    }
  }

  /** Every reported file sits at `dossier/<msg_id>_<nom>` for the `nom` of its link. */
  lemma StoredFileFields(ds: seq<DirectLink>, msgId: string, dossier: string, landing: nat -> Landing)
    ensures forall f :: f in StoredFiles(ds, msgId, dossier, landing) ==>
      f.kind == "href_direct" && f.path == dossier + "/" + msgId + "_" + f.originalName
  {
    StoredFilesExact(ds, msgId, dossier, landing);
    forall f | f in StoredFiles(ds, msgId, dossier, landing)
      ensures f.kind == "href_direct" && f.path == dossier + "/" + msgId + "_" + f.originalName
    {
      var k :| 0 <= k < |ds| && Kept(landing(k)) && f == StoredFileOf(ds[k], msgId, dossier);
      assert dossier + "/" + (msgId + "_" + f.originalName) == dossier + "/" + msgId + "_" + f.originalName;
    }
  }

  // ---------------------------------------------------------------------------------------
  // The message list (`scraper_tous_messages`)

  datatype Details = Details(files: seq<StoredFile>, html: string)

  /** A parsed row; `details` holds `fichiers_telecharges` and `html_complet` once the
      message has been read. */
  datatype Message = Message(
    index: nat, msgId: string, msgType: string, statut: string,
    expediteur: string, dossier: string, objet: string, rapporteur: string, date: string,
    details: Option<Details>)

  /** The rows taken from the message list: in unread mode the `tr.messageNonLu` rows,
      otherwise the `tr.tableListeTrR2` rows without `messageNonLu`. */
  function SelectRows(page: Node, unreadOnly: bool): (rows: seq<Node>)
    ensures forall n :: n in rows <==>
      && n in Descendants(page) && n.Element? && n.tag == "tr"
      && (if unreadOnly then "messageNonLu" in n.classes
          else "tableListeTrR2" in n.classes && "messageNonLu" !in n.classes)
  {
    if unreadOnly then FindAllWithClass(page, "tr", "messageNonLu")
    else Filter(FindAllWithClass(page, "tr", "tableListeTrR2"), LacksClass("messageNonLu"))
  }

  /** A `tableListeTrR1` row is selected in neither mode unless it also carries the class of
      that mode. */
  lemma RowR1NeverSelected(page: Node, unreadOnly: bool, n: Node)
    requires n.Element? && "tableListeTrR1" in n.classes && "tableListeTrR2" !in n.classes && "messageNonLu" !in n.classes
    ensures n !in SelectRows(page, unreadOnly)
  {
  }

  /** The end of the Python slice `s[:n]` on a sequence of length `len`. */
  function SliceEnd(len: nat, n: int): (e: nat)
    ensures e <= len
    ensures 0 <= n ==> e == if n < len then n else len
    ensures n < 0 ==> e == if len + n < 0 then 0 else len + n
  {
    if 0 <= n then (if n < len then n else len) else if len + n < 0 then 0 else len + n
  }

  /** `s[:n]`: a prefix of `s`, of length `n` when `0 <= n <= |s|`; a negative `n` drops
      that many elements from the end. */
  function PyTake<T>(s: seq<T>, n: int): (r: seq<T>)
    ensures |r| == SliceEnd(|s|, n)
    ensures r == s[..|r|]
  {
    s[..SliceEnd(|s|, n)]
  }

  const LinkClass := "numMessage"

  /** The message link of a row: the row needs at least six cells, and the link is the first
      `a.numMessage` in the fourth. */
  function RowLink(tr: Node): (link: Option<Node>)
    ensures link.Some? ==> |FindAll(tr, "td")| >= 6
  {
    var tds := FindAll(tr, "td");
    if |tds| < 6 then None else FindWithClass(tds[3], "a", LinkClass)
  }

  /** The onclick text of the row's message link, when the row has one. */
  function RowOnclick(tr: Node): Option<string> {
    if RowLink(tr).None? then None else Some(Get(RowLink(tr).value, "onclick", ""))
  }

  /** The row at 1-based position `i` of the truncated list, if it yields a message: it needs
      a message link (`RowLink`) whose `onclick` holds a `lireMessage('...', '...')` call. */
  function ParseRow(tr: Node, i: nat): Option<Message> {
    var link := RowLink(tr);
    if link.None? then None
    else
      var m := Search(LireMessage, Get(link.value, "onclick", ""));
      if m.None? then None
      else
        var tds := FindAll(tr, "td");
        var statut := if tr.Element? && "messageNonLu" in tr.classes then "non_lu" else "lu";
        Some(Message(i, m.value.0, m.value.1, statut, GetText(tds[1]), GetText(tds[2]),
                     GetText(link.value), GetText(tds[4]), GetText(tds[5]), None))
  }

  /** A row is dropped exactly when it lacks a `lireMessage` call; a parsed message carries
      the position it was given, and its status says whether the row was unread. */
  lemma ParseRowStatus(tr: Node, i: nat)
    ensures ParseRow(tr, i).Some? <==> RowOnclick(tr).Some? && Search(LireMessage, RowOnclick(tr).value).Some?
    ensures ParseRow(tr, i).Some? ==>
      var m := ParseRow(tr, i).value;
      && m.index == i && m.details.None?
      && (m.statut == "non_lu" <==> tr.Element? && "messageNonLu" in tr.classes)
      && (m.statut == "lu" <==> !(tr.Element? && "messageNonLu" in tr.classes))
  {
  }

  /** The id and type of a parsed message are the groups of a `lireMessage` call in the
      row's onclick text. */
  lemma ParseRowGroups(tr: Node, i: nat)
    requires ParseRow(tr, i).Some?
    ensures var m := ParseRow(tr, i).value;
      exists j: nat, w :: j <= |RowOnclick(tr).value| && OccursWith(LireMessage, RowOnclick(tr).value, j, m.msgId, w, m.msgType)
  {
    SearchFromSome(LireMessage, RowOnclick(tr).value, 0);
  }

  /** A row whose link calls `lireMessage('<id>',<blanks>'<type>')` yields that id and type. */
  lemma ParseRowOfCall(tr: Node, i: nat, id: string, w: string, kind: string)
    requires RowOnclick(tr) == Some(Instance(LireMessage, id, w, kind))
    requires ValidGroups(LireMessage, id, w, kind)
    ensures ParseRow(tr, i).Some?
    ensures ParseRow(tr, i).value.msgId == id && ParseRow(tr, i).value.msgType == kind
  {
    PatternsWellFormed();
    SearchInstance(LireMessage, id, w, kind);
  }

  /** The messages of the truncated rows, numbered by their position in `rows`, from 1. */
  function ParsedMessages(rows: seq<Node>): seq<Message> {
    ParsedWith(rows, ParseRow)
  }

  /** The messages `parse` yields for `rows`, the row at position k numbered k + 1. */
  function ParsedWith(rows: seq<Node>, parse: (Node, nat) -> Option<Message>): seq<Message> {
    if rows == [] then []
    else
      var k := |rows| - 1;
      ParsedWith(rows[..k], parse) + (match parse(rows[k], k + 1) case None => [] case Some(m) => [m])
  }

  /** A row parser that numbers its message with the position it is given. */
  ghost predicate KeepsIndex(parse: (Node, nat) -> Option<Message>) {
    forall tr, i :: parse(tr, i).Some? ==> parse(tr, i).value.index == i
  }

  lemma ParseRowKeepsIndex()
    ensures KeepsIndex(ParseRow)
  {
  }

  /** The parsing loop of `scraper_tous_messages` (`for i, tr in enumerate(messages_tr, 1)`). */
  method ParseRows(rows: seq<Node>) returns (msgs: seq<Message>)
    ensures msgs == ParsedMessages(rows)
  {
    msgs := [];
    for k := 0 to |rows|
      invariant msgs == ParsedWith(rows[..k], ParseRow)
    {
      assert rows[..k + 1][..k] == rows[..k];
      var i := k + 1;
      var tr := rows[k];
      var tds := FindAll(tr, "td");
      if |tds| >= 6 {
        var statut := if tr.Element? && "messageNonLu" in tr.classes then "non_lu" else "lu";
        var expediteur := GetText(tds[1]);
        var dossier := GetText(tds[2]);
        var linkMsg := FindWithClass(tds[3], "a", LinkClass);
        if linkMsg.None? {
          continue;
        }
        var objet := GetText(linkMsg.value);
        var onclick := Get(linkMsg.value, "onclick", "");
        var matchMsg := Search(LireMessage, onclick);
        if matchMsg.None? {
          continue;
        }
        var msgId, msgType := matchMsg.value.0, matchMsg.value.1;
        var rapporteur := GetText(tds[4]);
        var date := GetText(tds[5]);
        msgs := msgs + [Message(i, msgId, msgType, statut, expediteur, dossier, objet, rapporteur, date, None)];
      }
    }
    assert rows[..|rows|] == rows;
  }

  /** Each message is what its own row yields, at the 1-based position of that row in the
      truncated list. */
  lemma {:induction false} ParsedWithOrigin(rows: seq<Node>, parse: (Node, nat) -> Option<Message>)
    requires KeepsIndex(parse)
    ensures forall k :: 0 <= k < |ParsedWith(rows, parse)| ==>
      var m := ParsedWith(rows, parse)[k];
      1 <= m.index <= |rows| && parse(rows[m.index - 1], m.index) == Some(m)
  {
    if rows != [] {
      var n := |rows| - 1;
      ParsedWithOrigin(rows[..n], parse);
      var ms := ParsedWith(rows[..n], parse);
      forall t | 0 <= t < |ms|
        ensures ms[t].index <= n && parse(rows[ms[t].index - 1], ms[t].index) == Some(ms[t])
      {
        assert rows[..n][ms[t].index - 1] == rows[ms[t].index - 1];
      }
    }
  }

  /** Indices are strictly increasing, and may have gaps where rows were dropped. */
  lemma {:induction false} ParsedWithIncreasing(rows: seq<Node>, parse: (Node, nat) -> Option<Message>)
    requires KeepsIndex(parse)
    ensures forall k :: 0 <= k < |ParsedWith(rows, parse)| ==> ParsedWith(rows, parse)[k].index <= |rows|
    ensures forall k, l :: 0 <= k < l < |ParsedWith(rows, parse)| ==>
      ParsedWith(rows, parse)[k].index < ParsedWith(rows, parse)[l].index
  {
    if rows != [] {
      ParsedWithIncreasing(rows[..|rows| - 1], parse);
    }
  }

  /** No row that yields a message is dropped. */
  lemma {:induction false} ParsedWithComplete(rows: seq<Node>, parse: (Node, nat) -> Option<Message>)
    ensures forall k :: 0 <= k < |rows| && parse(rows[k], k + 1).Some? ==>
      parse(rows[k], k + 1).value in ParsedWith(rows, parse)
  {
    if rows != [] {
      var n := |rows| - 1;
      ParsedWithComplete(rows[..n], parse);
      forall k | 0 <= k < n
        ensures rows[..n][k] == rows[k]
      {
      }
    }
  }

  lemma {:induction false} ParsedWithLength(rows: seq<Node>, parse: (Node, nat) -> Option<Message>)
    ensures |ParsedWith(rows, parse)| <= |rows|
  {
    if rows != [] {
      ParsedWithLength(rows[..|rows| - 1], parse);
    }
  }

  /** Every parsed message comes from its own row, at its own 1-based position. */
  lemma ParsedMessagesOrigin(rows: seq<Node>)
    ensures |ParsedMessages(rows)| <= |rows|
    ensures forall k :: 0 <= k < |ParsedMessages(rows)| ==>
      var m := ParsedMessages(rows)[k];
      1 <= m.index <= |rows| && ParseRow(rows[m.index - 1], m.index) == Some(m)
  {
    ParsedWithLength(rows, ParseRow);
    ParsedMessagesFrom(rows);
  }

  lemma ParsedMessagesFrom(rows: seq<Node>)
    ensures forall k :: 0 <= k < |ParsedMessages(rows)| ==>
      var m := ParsedMessages(rows)[k];
      1 <= m.index <= |rows| && ParseRow(rows[m.index - 1], m.index) == Some(m)
  {
    ParseRowKeepsIndex();
    ParsedWithOrigin(rows, ParseRow);
  }

  /** Indices strictly increase along the parsed list. */
  lemma ParsedMessagesIncreasing(rows: seq<Node>)
    ensures forall k, l :: 0 <= k < l < |ParsedMessages(rows)| ==>
      ParsedMessages(rows)[k].index < ParsedMessages(rows)[l].index
  {
    ParseRowKeepsIndex();
    ParsedWithIncreasing(rows, ParseRow);
  }

  /** No row that yields a message is dropped. */
  lemma ParsedMessagesComplete(rows: seq<Node>)
    ensures forall k :: 0 <= k < |rows| && ParseRow(rows[k], k + 1).Some? ==>
      ParseRow(rows[k], k + 1).value in ParsedMessages(rows)
  {
    ParsedWithComplete(rows, ParseRow);
  }

  /** What the browser shows for the j-th parsed message once `lireMessage` ran. */
  datatype DetailView =
    | Failed
    | Opened(page: Node, cleanedHtml: string, landing: nat -> Landing)

  /** A read message: the parsed record with its files and the page's cleaned HTML. */
  function Enrich(m: Message, v: DetailView, pdfDir: string): Message
    requires v.Opened?
  {
    m.(details := Some(Details(MessageFiles(v.page, m.msgId, pdfDir, v.landing), v.cleanedHtml)))
  }

  /** The messages kept by the reading loop, the j-th detail view as `detail(j)`. */
  function ReadResult(ms: seq<Message>, pdfDir: string, detail: nat -> DetailView): seq<Message> {
    if ms == [] then []
    else
      var j := |ms| - 1;
      ReadResult(ms[..j], pdfDir, detail) + (if detail(j).Opened? then [Enrich(ms[j], detail(j), pdfDir)] else [])
  }

  /** The positions, in increasing order, of the messages whose detail view opened. */
  function OpenedPositions(n: nat, detail: nat -> DetailView): seq<nat> {
    if n == 0 then [] else OpenedPositions(n - 1, detail) + (if detail(n - 1).Opened? then [n - 1] else [])
  }

  /** The reading loop of `scraper_tous_messages`. */
  method ReadMessages(ms: seq<Message>, pdfDir: string, detail: nat -> DetailView) returns (r: seq<Message>)
    ensures r == ReadResult(ms, pdfDir, detail)
  {
    r := [];
    for j := 0 to |ms|
      invariant r == ReadResult(ms[..j], pdfDir, detail)
    {
      assert ms[..j + 1][..j] == ms[..j];
      var msg := ms[j];
      var view := detail(j);
      if view.Failed? {
        continue;
      }
      var fichiers, _, _ := DownloadMessagePdfs(view.page, msg.msgId, pdfDir, view.landing);
      msg := msg.(details := Some(Details(fichiers, view.cleanedHtml)));
      r := r + [msg];
    }
    assert ms[..|ms|] == ms;
  }

  lemma {:induction false} OpenedPositionsFacts(n: nat, detail: nat -> DetailView)
    ensures forall t :: 0 <= t < |OpenedPositions(n, detail)| ==> OpenedPositions(n, detail)[t] < n
    ensures forall t, u :: 0 <= t < u < |OpenedPositions(n, detail)| ==>
      OpenedPositions(n, detail)[t] < OpenedPositions(n, detail)[u]
    ensures forall j: nat :: j in OpenedPositions(n, detail) <==> j < n && detail(j).Opened?
  {
    if n > 0 {
      OpenedPositionsFacts(n - 1, detail);
    }
  }

  /** The loop keeps, in order, exactly the messages whose detail view opened, each with its
      files and HTML added and every other field unchanged. */
  lemma {:induction false} ReadResultKeeps(ms: seq<Message>, pdfDir: string, detail: nat -> DetailView)
    ensures var r := ReadResult(ms, pdfDir, detail);
      var pos := OpenedPositions(|ms|, detail);
      && |r| == |pos|
      && forall t :: 0 <= t < |r| ==>
           (pos[t] < |ms| && detail(pos[t]).Opened? && r[t] == Enrich(ms[pos[t]], detail(pos[t]), pdfDir))
  {
    OpenedPositionsFacts(|ms|, detail);
    if ms != [] {
      var j := |ms| - 1;
      ReadResultKeeps(ms[..j], pdfDir, detail);
      OpenedPositionsFacts(j, detail);
      var pos := OpenedPositions(j, detail);
      forall t | 0 <= t < |pos| ensures ms[..j][pos[t]] == ms[pos[t]] {
      }
    }
  }

  /** `scraper_tous_messages`: `[]` when the Messages tab does not open or no row is
      selected; otherwise the selected rows are cut to `maxMessages`, parsed, and read. */
  method ScrapeAllMessages(tabOpened: bool, page: Node, unreadOnly: bool, maxMessages: int,
                           pdfDir: string, detail: nat -> DetailView)
    returns (r: seq<Message>)
    ensures !tabOpened ==> r == []
    ensures tabOpened ==> r == ScrapeResult(page, unreadOnly, maxMessages, pdfDir, detail)
  {
    if !tabOpened {
      return [];
    }
    var rows := SelectRows(page, unreadOnly);
    if rows == [] {
      return [];
    }
    rows := PyTake(rows, maxMessages);
    var parsed := ParseRows(rows);
    r := ReadMessages(parsed, pdfDir, detail);
  }

  /** The list returned once the Messages tab has opened. */
  function ScrapeResult(page: Node, unreadOnly: bool, maxMessages: int, pdfDir: string, detail: nat -> DetailView): seq<Message> {
    ReadResult(ParsedMessages(PyTake(SelectRows(page, unreadOnly), maxMessages)), pdfDir, detail)
  }

  /** `'non_lu'` for a row with class `messageNonLu`, `'lu'` for any other. */
  function RowStatus(tr: Node): string {
    if tr.Element? && "messageNonLu" in tr.classes then "non_lu" else "lu"
  }

  /** A row parser whose message status is that of its row. */
  ghost predicate StatusFromRow(parse: (Node, nat) -> Option<Message>) {
    forall tr, i :: parse(tr, i).Some? ==> parse(tr, i).value.statut == RowStatus(tr)
  }

  lemma ParseRowStatusFromRow()
    ensures StatusFromRow(ParseRow)
  {
  }

  lemma ParsedWithStatus(rows: seq<Node>, parse: (Node, nat) -> Option<Message>)
    requires KeepsIndex(parse) && StatusFromRow(parse)
    ensures forall m :: m in ParsedWith(rows, parse) ==>
      1 <= m.index <= |rows| && m.statut == RowStatus(rows[m.index - 1])
  {
    ParsedWithOrigin(rows, parse);
  }

  /** A message parsed from selected rows has the status of the selecting mode. */
  lemma ParsedStatus(page: Node, unreadOnly: bool, rows: seq<Node>)
    requires forall r :: r in rows ==> r in SelectRows(page, unreadOnly)
    ensures forall m :: m in ParsedMessages(rows) ==>
      m.statut == (if unreadOnly then "non_lu" else "lu") && 1 <= m.index <= |rows|
  {
    ParseRowKeepsIndex();
    ParseRowStatusFromRow();
    ParsedWithStatus(rows, ParseRow);
    forall m | m in ParsedWith(rows, ParseRow)
      ensures m.statut == (if unreadOnly then "non_lu" else "lu")
    {
      assert rows[m.index - 1] in rows;
    }
  }

  /** A read message is a parsed one with the same index and status, and details attached. */
  lemma ReadResultOrigin(ms: seq<Message>, pdfDir: string, detail: nat -> DetailView)
    ensures forall m :: m in ReadResult(ms, pdfDir, detail) ==>
      m.details.Some? && exists p :: p in ms && p.index == m.index && p.statut == m.statut
  {
    ReadResultKeeps(ms, pdfDir, detail);
    var r := ReadResult(ms, pdfDir, detail);
    var pos := OpenedPositions(|ms|, detail);
    forall m | m in r
      ensures m.details.Some? && exists p :: p in ms && p.index == m.index && p.statut == m.statut
    {
      var t :| 0 <= t < |r| && r[t] == m;
      assert ms[pos[t]] in ms;
    }
  }

  /** Every returned message has the status of the mode that selected it, an index within
      the truncated list (so at most `maxMessages`), and files and HTML attached. */
  lemma ScrapeResultFields(page: Node, unreadOnly: bool, maxMessages: int, pdfDir: string, detail: nat -> DetailView)
    ensures var rows := PyTake(SelectRows(page, unreadOnly), maxMessages);
      forall m :: m in ScrapeResult(page, unreadOnly, maxMessages, pdfDir, detail) ==>
        && m.statut == (if unreadOnly then "non_lu" else "lu")
        && 1 <= m.index <= |rows|
        && (0 <= maxMessages ==> m.index <= maxMessages)
        && m.details.Some?
  {
    var sel := SelectRows(page, unreadOnly);
    var rows := PyTake(sel, maxMessages);
    forall r | r in rows ensures r in sel {
      var k :| 0 <= k < |rows| && rows[k] == r;
      assert sel[k] == r;
    }
    ParsedStatus(page, unreadOnly, rows);
    ReadResultOrigin(ParsedMessages(rows), pdfDir, detail);
  }
}
