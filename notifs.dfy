/**
 * Jurisdiction detection on the jurisdiction-selection page (notifs.py): which `<li name>`
 * entries have unread notifications, under what name, with how many, and with which
 * ASP.NET postback target; the summary order and total; and the selection postback.
 */
module Notifs {
  import opened Wrappers
  import opened PyText
  import opened Patterns
  import opened Dom

  /** `JuridictionNotification` */
  datatype Juridiction = Juridiction(code: string, nom: string, nbNotifs: int, eventTarget: string, eventArgument: string)

  /** The class of the span that holds the notification count. */
  const NotifClass := "page-choixJuridiction-mail"

  /** `soup.find_all('li', attrs={'name': True})` */
  function Candidates(page: Node): seq<Node> {
    Filter(FindAll(page, "li"), HasAttr("name"))
  }

  // ---------------------------------------------------------------------------------------
  // The display name

  /** The stripped direct strings of a link, up to its first `span` child; other child
      elements are skipped. */
  function NameParts(cs: seq<Node>): seq<string> {
    if cs == [] then []
    else if cs[0].Text? then [Strip(cs[0].content)] + NameParts(cs[1..])
    else if cs[0].tag == "span" then []
    else NameParts(cs[1..])
  }

  predicate IsSpan(n: Node) {
    n.Element? && n.tag == "span"
  }

  /** The `nom_parts` loop over `link.contents`, which stops at the first `span`. */
  method CollectNameParts(cs: seq<Node>) returns (parts: seq<string>)
    ensures parts == NameParts(cs)
  {
    parts := [];
    var i := 0;
    while i < |cs|
      invariant 0 <= i <= |cs|
      invariant parts + NameParts(cs[i..]) == NameParts(cs)
    {
      var content := cs[i];
      assert cs[i..][1..] == cs[i + 1..];
      if content.Text? {
        parts := parts + [Strip(content.content)];
      } else if content.tag == "span" {
        break;
      }
      i := i + 1;
    }
  }

  /** Nothing after the first `span` child contributes to the name. */
  lemma {:induction false} NamePartsStopAtSpan(cs: seq<Node>, span: Node, rest: seq<Node>)
    requires IsSpan(span) && forall k :: 0 <= k < |cs| ==> !IsSpan(cs[k])
    ensures NameParts(cs + [span] + rest) == NameParts(cs)
  {
    if cs != [] {
      assert (cs + [span] + rest)[1..] == cs[1..] + [span] + rest;
      NamePartsStopAtSpan(cs[1..], span, rest);
    } else {
      assert cs + [span] + rest == [span] + rest;
    }
  }

  /** A child element other than a `span` is skipped. */
  lemma NamePartsSkipElement(e: Node, cs: seq<Node>)
    requires e.Element? && e.tag != "span"
    ensures NameParts([e] + cs) == NameParts(cs)
  {
    assert ([e] + cs)[1..] == cs;
  }

  /** Every part is a stripped direct string of the link. */
  lemma {:induction false} NamePartsAreStripped(cs: seq<Node>)
    ensures |NameParts(cs)| <= |cs|
    ensures forall p :: p in NameParts(cs) ==> NoOuterSpace(p) && exists k :: 0 <= k < |cs| && cs[k].Text? && p == Strip(cs[k].content)
  {
    if cs != [] {
      NamePartsAreStripped(cs[1..]);
      forall p | p in NameParts(cs[1..])
        ensures exists k :: 0 <= k < |cs| && cs[k].Text? && p == Strip(cs[k].content)
      {
        var k :| 0 <= k < |cs[1..]| && cs[1..][k].Text? && p == Strip(cs[1..][k].content);
        assert cs[k + 1] == cs[1..][k];
      }
    }
  }

  // ---------------------------------------------------------------------------------------
  // One entry

  /** The notification count and display name of a link: both spans present gives the
      inner span's integer and the text before the first span; no notification span gives
      0 and the whole text; a notification span without an inner span gives 0. When the
      inner span's text is not an integer, `int()` raises: `Err` with that text. */
  function CountAndName(link: Node): Result<(int, string), string> {
    var spanNotif := FindWithClass(link, "span", NotifClass);
    if spanNotif.None? then Ok((0, GetText(link)))
    else
      var spanNombre := Find(spanNotif.value, "span");
      var count := if spanNombre.None? then Some(0) else ParseInt(GetText(spanNombre.value));
      if count.None? then Err(GetText(spanNombre.value))
      else Ok((count.value, Strip(Concat(NameParts(link.children)))))
  }

  /** What one `<li name>` contributes: nothing without a link, or without a postback call
      in the link's `href`, or with no notification; an error when the count is not an
      integer. */
  function ParseEntry(li: Node): Result<Option<Juridiction>, string> {
    var link := Find(li, "a");
    if link.None? then Ok(None)
    else
      var cn := CountAndName(link.value);
      if cn.Err? then Err(cn.error)
      else
        var m := Search(DoPostBack, Get(link.value, "href", ""));
        if m.Some? && cn.value.0 > 0 then
          Ok(Some(Juridiction(Get(li, "name", ""), cn.value.1, cn.value.0, m.value.0, m.value.1)))
        else Ok(None)
  }

  /** An emitted entry has the `li`'s name as code, a positive count read from the nested
      spans, the text before the first span as name, and the two groups of the link's
      `__doPostBack('<t>','<a>')` call as target and argument. */
  lemma ParseEntryEmitted(li: Node)
    requires ParseEntry(li).Ok? && ParseEntry(li).value.Some?
    ensures var j := ParseEntry(li).value.value;
      var link := Find(li, "a").value;
      var spanNotif := FindWithClass(link, "span", NotifClass);
      && Find(li, "a").Some? && j.code == Get(li, "name", "")
      && j.nbNotifs > 0
      && spanNotif.Some? && Find(spanNotif.value, "span").Some?
      && ParseInt(GetText(Find(spanNotif.value, "span").value)) == Some(j.nbNotifs)
      && j.nom == Strip(Concat(NameParts(link.children)))
      && Search(DoPostBack, Get(link, "href", "")) == Some((j.eventTarget, j.eventArgument))
  {
  }

  /** Conversely, a link with both spans, a positive integer count and a postback call is
      emitted. */
  lemma ParseEntryEmits(li: Node, n: int)
    requires Find(li, "a").Some?
    requires var link := Find(li, "a").value;
      var spanNotif := FindWithClass(link, "span", NotifClass);
      && spanNotif.Some? && Find(spanNotif.value, "span").Some?
      && ParseInt(GetText(Find(spanNotif.value, "span").value)) == Some(n) && n > 0
      && Search(DoPostBack, Get(link, "href", "")).Some?
    ensures ParseEntry(li).Ok? && ParseEntry(li).value.Some? && ParseEntry(li).value.value.nbNotifs == n
  {
  }

  /** A link without the notification span, or with it but without an inner span, counts 0
      and is never emitted. */
  lemma ParseEntryWithoutCount(li: Node)
    requires Find(li, "a").Some?
    requires var spanNotif := FindWithClass(Find(li, "a").value, "span", NotifClass);
      spanNotif.None? || Find(spanNotif.value, "span").None?
    ensures ParseEntry(li) == Ok(None)
  {
  }

  /** Non-numeric count text raises instead of being skipped. */
  lemma ParseEntryRaises(li: Node)
    requires Find(li, "a").Some?
    requires var spanNotif := FindWithClass(Find(li, "a").value, "span", NotifClass);
      && spanNotif.Some? && Find(spanNotif.value, "span").Some?
      && ParseInt(GetText(Find(spanNotif.value, "span").value)).None?
    ensures ParseEntry(li).Err?
  {
  }

  /** A link whose `href` is the call `__doPostBack('<t>','<a>')` yields that target and
      argument. */
  lemma PostBackOfHref(t: string, a: string)
    requires ValidGroups(DoPostBack, t, "", a)
    ensures Search(DoPostBack, Instance(DoPostBack, t, "", a)) == Some((t, a))
  {
    PatternsWellFormed();
    SearchInstance(DoPostBack, t, "", a);
  }

  // ---------------------------------------------------------------------------------------
  // The whole page (`get_juridictions_avec_notifs`)

  /** The entries of the candidates `lis`, or the error of the first one that raises. */
  function ParsedJuridictions(lis: seq<Node>): Result<seq<Juridiction>, string> {
    EntriesWith(lis, ParseEntry)
  }

  /** The entries `parse` yields for `lis`, in order, or the first error it raises. */
  function EntriesWith(lis: seq<Node>, parse: Node -> Result<Option<Juridiction>, string>): Result<seq<Juridiction>, string> {
    if lis == [] then Ok([])
    else
      var n := |lis| - 1;
      var prev := EntriesWith(lis[..n], parse);
      if prev.Err? then prev
      else
        match parse(lis[n])
        case Err(e) => Err(e)
        case Ok(None) => prev
        case Ok(Some(j)) => Ok(prev.value + [j])
  }

  /** The count and name part of one pass of the loop of `get_juridictions_avec_notifs`. */
  method ReadCountAndName(a: Node) returns (r: Result<(int, string), string>)
    ensures r == CountAndName(a)
  {
    var nom := GetText(a);
    var nbNotifs := 0;
    var spanNotif := FindWithClass(a, "span", NotifClass);
    if spanNotif.Some? {
      var spanNombre := Find(spanNotif.value, "span");
      if spanNombre.Some? {
        var parsed := ParseInt(GetText(spanNombre.value));
        if parsed.None? {
          return Err(GetText(spanNombre.value));
        }
        nbNotifs := parsed.value;
      }
      var nomParts := CollectNameParts(a.children);
      nom := Strip(Concat(nomParts));
    }
    return Ok((nbNotifs, nom));
  }

  /** One pass of the loop of `get_juridictions_avec_notifs`, on one `li`. */
  method ReadEntry(li: Node) returns (r: Result<Option<Juridiction>, string>)
    ensures r == ParseEntry(li)
  {
    var code := Get(li, "name", "");
    var link := Find(li, "a");
    if link.None? {
      return Ok(None);
    }
    var a := link.value;
    var cn := ReadCountAndName(a);
    if cn.Err? {
      return Err(cn.error);
    }
    var nbNotifs, nom := cn.value.0, cn.value.1;
    var href := Get(a, "href", "");
    var m := Search(DoPostBack, href);
    if m.Some? && nbNotifs > 0 {
      return Ok(Some(Juridiction(code, nom, nbNotifs, m.value.0, m.value.1)));
    }
    return Ok(None);
  }

  /** Once an entry has raised, the rest of the page is not looked at. */
  lemma {:induction false} EntriesWithErrPersists(lis: seq<Node>, k: nat, parse: Node -> Result<Option<Juridiction>, string>)
    requires k <= |lis| && EntriesWith(lis[..k], parse).Err?
    ensures EntriesWith(lis, parse) == EntriesWith(lis[..k], parse)
    decreases |lis| - k
  {
    if k < |lis| {
      assert lis[..k + 1][..k] == lis[..k];
      EntriesWithErrPersists(lis, k + 1, parse);
    } else {
      assert lis[..k] == lis;
    }
  }

  /** One more candidate either raises, adds nothing, or adds its entry. */
  lemma EntriesWithStep(lis: seq<Node>, k: nat, parse: Node -> Result<Option<Juridiction>, string>, found: seq<Juridiction>)
    requires k < |lis| && EntriesWith(lis[..k], parse) == Ok(found)
    ensures parse(lis[k]).Err? ==> EntriesWith(lis[..k + 1], parse) == Err(parse(lis[k]).error)
    ensures parse(lis[k]) == Ok(None) ==> EntriesWith(lis[..k + 1], parse) == Ok(found)
    ensures parse(lis[k]).Ok? && parse(lis[k]).value.Some? ==>
      EntriesWith(lis[..k + 1], parse) == Ok(found + [parse(lis[k]).value.value])
  {
    assert lis[..k + 1][..k] == lis[..k];
  }

  /** The loop of `get_juridictions_avec_notifs` over the candidates. */
  method ParseJuridictions(page: Node) returns (r: Result<seq<Juridiction>, string>)
    ensures r == ParsedJuridictions(Candidates(page))
  {
    var lis := Candidates(page);
    var found: seq<Juridiction> := [];
    for k := 0 to |lis|
      invariant EntriesWith(lis[..k], ParseEntry) == Ok(found)
    {
      EntriesWithStep(lis, k, ParseEntry, found);
      var entry := ReadEntry(lis[k]);
      if entry.Err? {
        EntriesWithErrPersists(lis, k + 1, ParseEntry);
        return Err(entry.error);
      }
      if entry.value.Some? {
        found := found + [entry.value.value];
      }
    }
    assert lis[..|lis|] == lis;
    return Ok(found);
  }

  /** `get_juridictions_avec_notifs`: the page given, or else the one fetched; a failed fetch
      gives no jurisdiction. */
  method DetectJuridictions(given: Option<Node>, fetchOk: bool, fetched: Node) returns (r: Result<seq<Juridiction>, string>)
    ensures given.None? && !fetchOk ==> r == Ok([])
    ensures given.Some? ==> r == ParsedJuridictions(Candidates(given.value))
    ensures given.None? && fetchOk ==> r == ParsedJuridictions(Candidates(fetched))
  {
    var page: Node;
    if given.None? {
      if !fetchOk {
        return Ok([]);
      }
      page := fetched;
    } else {
      page := given.value;
    }
    r := ParseJuridictions(page);
  }

  lemma {:induction false} EntriesWithFrom(lis: seq<Node>, parse: Node -> Result<Option<Juridiction>, string>)
    requires EntriesWith(lis, parse).Ok?
    ensures |EntriesWith(lis, parse).value| <= |lis|
    ensures forall j :: j in EntriesWith(lis, parse).value ==> exists k :: 0 <= k < |lis| && parse(lis[k]) == Ok(Some(j))
  {
    if lis != [] {
      var n := |lis| - 1;
      EntriesWithFrom(lis[..n], parse);
      forall j | j in EntriesWith(lis[..n], parse).value
        ensures exists k :: 0 <= k < |lis| && parse(lis[k]) == Ok(Some(j))
      {
        var k :| 0 <= k < n && parse(lis[..n][k]) == Ok(Some(j));
        assert lis[k] == lis[..n][k];
      }
    }
  }

  lemma {:induction false} EntriesWithComplete(lis: seq<Node>, parse: Node -> Result<Option<Juridiction>, string>)
    requires EntriesWith(lis, parse).Ok?
    ensures forall k :: 0 <= k < |lis| && parse(lis[k]).Ok? && parse(lis[k]).value.Some? ==>
      parse(lis[k]).value.value in EntriesWith(lis, parse).value
  {
    if lis != [] {
      var n := |lis| - 1;
      EntriesWithComplete(lis[..n], parse);
      forall k | 0 <= k < n ensures lis[..n][k] == lis[k] {
      }
    }
  }

  lemma {:induction false} EntriesWithRaise(lis: seq<Node>, parse: Node -> Result<Option<Juridiction>, string>)
    ensures EntriesWith(lis, parse).Err? <==> exists k :: 0 <= k < |lis| && parse(lis[k]).Err?
  {
    if lis != [] {
      var n := |lis| - 1;
      EntriesWithRaise(lis[..n], parse);
      if exists k :: 0 <= k < n && parse(lis[..n][k]).Err? {
        var k :| 0 <= k < n && parse(lis[..n][k]).Err?;
        assert lis[k] == lis[..n][k];
      }
      if exists k :: 0 <= k < n && parse(lis[k]).Err? {
        var k :| 0 <= k < n && parse(lis[k]).Err?;
        assert lis[..n][k] == lis[k];
      }
    }
  }

  lemma {:induction false} EntriesWithAppend(xs: seq<Node>, ys: seq<Node>, parse: Node -> Result<Option<Juridiction>, string>)
    requires EntriesWith(xs, parse).Ok? && EntriesWith(ys, parse).Ok?
    ensures EntriesWith(xs + ys, parse) == Ok(EntriesWith(xs, parse).value + EntriesWith(ys, parse).value)
    decreases |ys|
  {
    if ys == [] {
      assert xs + ys == xs;
      assert EntriesWith(xs, parse).value + EntriesWith(ys, parse).value == EntriesWith(xs, parse).value;
    } else {
      var ysInit := ys[..|ys| - 1];
      assert (xs + ys)[..|xs + ys| - 1] == xs + ysInit;
      assert EntriesWith(ysInit, parse).Ok?;
      var last := ys[|ys| - 1];
      assert (xs + ys)[|xs + ys| - 1] == last;
      EntriesWithAppend(xs, ysInit, parse);
      var a, b := EntriesWith(xs, parse).value, EntriesWith(ysInit, parse).value;
      assert EntriesWith(xs + ysInit, parse) == Ok(a + b);
      match parse(last)
      case Ok(None) =>
      case Ok(Some(j)) =>
        assert a + b + [j] == a + (b + [j]);
      case Err(_) =>
    }
  }

  /** The result is the list of emitted entries, each with a positive count and coming from
      one of the candidates, and none of them is left out. */
  lemma ParsedJuridictionsFrom(lis: seq<Node>)
    requires ParsedJuridictions(lis).Ok?
    ensures |ParsedJuridictions(lis).value| <= |lis|
    ensures forall j :: j in ParsedJuridictions(lis).value ==> exists k :: 0 <= k < |lis| && ParseEntry(lis[k]) == Ok(Some(j))
    ensures forall k :: 0 <= k < |lis| && ParseEntry(lis[k]).Ok? && ParseEntry(lis[k]).value.Some? ==>
      ParseEntry(lis[k]).value.value in ParsedJuridictions(lis).value
  {
    EntriesWithFrom(lis, ParseEntry);
    EntriesWithComplete(lis, ParseEntry);
  }

  /** Every entry listed has a positive count. */
  lemma ParsedJuridictionsPositive(lis: seq<Node>)
    requires ParsedJuridictions(lis).Ok?
    ensures forall j :: j in ParsedJuridictions(lis).value ==> j.nbNotifs > 0
  {
    EntriesWithFrom(lis, ParseEntry);
    forall j | j in ParsedJuridictions(lis).value ensures j.nbNotifs > 0 {
      var k :| 0 <= k < |lis| && ParseEntry(lis[k]) == Ok(Some(j));
      ParseEntryEmitted(lis[k]);
    }
  }

  /** The page raises exactly when one of its candidates does. */
  lemma ParsedJuridictionsRaise(lis: seq<Node>)
    ensures ParsedJuridictions(lis).Err? <==> exists k :: 0 <= k < |lis| && ParseEntry(lis[k]).Err?
  {
    EntriesWithRaise(lis, ParseEntry);
  }

  /** Source order: the entries of an earlier part of the page come first. */
  lemma ParsedJuridictionsAppend(xs: seq<Node>, ys: seq<Node>)
    requires ParsedJuridictions(xs).Ok? && ParsedJuridictions(ys).Ok?
    ensures ParsedJuridictions(xs + ys) == Ok(ParsedJuridictions(xs).value + ParsedJuridictions(ys).value)
  {
    EntriesWithAppend(xs, ys, ParseEntry);
  }

  // ---------------------------------------------------------------------------------------
  // The summary (`afficher_juridictions_avec_notifs`)

  /** `sum(j.nb_notifs for j in juridictions)` */
  function TotalNotifs(js: seq<Juridiction>): int {
    if js == [] then 0 else js[0].nbNotifs + TotalNotifs(js[1..])
  }

  /** Inserts `j` before the first entry whose count is not larger, so that entries with
      equal counts keep their order. */
  function Insert(j: Juridiction, s: seq<Juridiction>): seq<Juridiction> {
    if s == [] || s[0].nbNotifs <= j.nbNotifs then [j] + s else [s[0]] + Insert(j, s[1..])
  }

  /** `sorted(juridictions, key=lambda x: x.nb_notifs, reverse=True)` */
  function DisplayOrder(js: seq<Juridiction>): seq<Juridiction> {
    if js == [] then [] else Insert(js[0], DisplayOrder(js[1..]))
  }

  predicate SortedByCountDesc(s: seq<Juridiction>) {
    forall k, l :: 0 <= k < l < |s| ==> s[k].nbNotifs >= s[l].nbNotifs
  }

  /** The entries with count `c`, in their order. */
  function WithCount(s: seq<Juridiction>, c: int): seq<Juridiction> {
    if s == [] then [] else (if s[0].nbNotifs == c then [s[0]] else []) + WithCount(s[1..], c)
  }

  lemma {:induction false} InsertMultiset(j: Juridiction, s: seq<Juridiction>)
    ensures multiset(Insert(j, s)) == multiset(s) + multiset{j}
  {
    if !(s == [] || s[0].nbNotifs <= j.nbNotifs) {
      InsertMultiset(j, s[1..]);
      assert s == [s[0]] + s[1..];
    }
  }

  lemma {:induction false} InsertTotal(j: Juridiction, s: seq<Juridiction>)
    ensures TotalNotifs(Insert(j, s)) == j.nbNotifs + TotalNotifs(s)
  {
    if s == [] || s[0].nbNotifs <= j.nbNotifs {
      assert ([j] + s)[1..] == s;
    } else {
      InsertTotal(j, s[1..]);
      assert ([s[0]] + Insert(j, s[1..]))[1..] == Insert(j, s[1..]);
    }
  }

  lemma WithCountCons(x: Juridiction, s: seq<Juridiction>, c: int)
    ensures WithCount([x] + s, c) == (if x.nbNotifs == c then [x] else []) + WithCount(s, c)
  {
    assert ([x] + s)[1..] == s;
  }

  lemma {:induction false} InsertWithCount(j: Juridiction, s: seq<Juridiction>, c: int)
    ensures WithCount(Insert(j, s), c) == (if j.nbNotifs == c then [j] else []) + WithCount(s, c)
  {
    if s == [] || s[0].nbNotifs <= j.nbNotifs {
      WithCountCons(j, s, c);
    } else {
      var t := Insert(j, s[1..]);
      assert Insert(j, s) == [s[0]] + t;
      InsertWithCount(j, s[1..], c);
      WithCountCons(s[0], t, c);
      WithCountCons(s[0], s[1..], c);
      assert [s[0]] + s[1..] == s;
      // s[0] counts more than j, so at most one of them has count c
      if j.nbNotifs == c {
        assert WithCount(Insert(j, s), c) == [j] + WithCount(s[1..], c);
      } else {
        assert WithCount(Insert(j, s), c) == WithCount(s, c);
      }
    }
  }

  lemma {:induction false} InsertSorted(j: Juridiction, s: seq<Juridiction>)
    requires SortedByCountDesc(s)
    ensures SortedByCountDesc(Insert(j, s))
  {
    if !(s == [] || s[0].nbNotifs <= j.nbNotifs) {
      InsertSorted(j, s[1..]);
      InsertMultiset(j, s[1..]);
      var r := Insert(j, s);
      var t := Insert(j, s[1..]);
      assert r == [s[0]] + t;
      forall l | 0 <= l < |t| ensures s[0].nbNotifs >= t[l].nbNotifs {
        assert t[l] in multiset(s[1..]) + multiset{j};
        if t[l] in multiset(s[1..]) {
          var q :| 0 <= q < |s[1..]| && s[1..][q] == t[l];
          assert s[q + 1] == t[l];
        }
      }
    }
  }

  /** The presentation order is sorted by count, descending, is a permutation of the input,
      keeps the input order among entries with equal counts, and has the same total. */
  lemma {:induction false} DisplayOrderFacts(js: seq<Juridiction>)
    ensures SortedByCountDesc(DisplayOrder(js))
    ensures multiset(DisplayOrder(js)) == multiset(js)
    ensures forall c :: WithCount(DisplayOrder(js), c) == WithCount(js, c)
    ensures TotalNotifs(DisplayOrder(js)) == TotalNotifs(js)
  {
    if js != [] {
      DisplayOrderFacts(js[1..]);
      InsertMultiset(js[0], DisplayOrder(js[1..]));
      InsertTotal(js[0], DisplayOrder(js[1..]));
      InsertSorted(js[0], DisplayOrder(js[1..]));
      forall c ensures WithCount(DisplayOrder(js), c) == WithCount(js, c) {
        InsertWithCount(js[0], DisplayOrder(js[1..]), c);
      }
      assert js == [js[0]] + js[1..];
    }
  }

  datatype Summary =
    | NoNotifications
    | Listing(count: nat, order: seq<Juridiction>, total: int)

  /** `afficher_juridictions_avec_notifs`: nothing listed for an empty input, otherwise the
      number of entries, the entries by descending count, and the total count. */
  function Display(js: seq<Juridiction>): (d: Summary)
    ensures d.NoNotifications? <==> js == []
    ensures d.Listing? ==> d.count == |js| && d.order == DisplayOrder(js) && d.total == TotalNotifs(js)
  {
    if js == [] then NoNotifications else Listing(|js|, DisplayOrder(js), TotalNotifs(js))
  }

  // ---------------------------------------------------------------------------------------
  // Selection (`selectionner_juridiction`)

  /** The script run to select a jurisdiction: note the blank after the comma. */
  function SelectionScript(j: Juridiction): string {
    "__doPostBack('" + j.eventTarget + "', '" + j.eventArgument + "');"
  }

  /** The shape of `SelectionScript`, as a pattern. */
  const PostBackCall := TwoGroupPattern("__doPostBack('", "',", true, "'", "');")

  /** The selection succeeds exactly when its postback navigation does, and posts back the
      stored target and argument. */
  method SelectJuridiction(j: Juridiction, navigationOk: bool) returns (ok: bool, script: string)
    ensures ok == navigationOk
    ensures script == SelectionScript(j)
  {
    script := "__doPostBack('" + j.eventTarget + "', '" + j.eventArgument + "');";
    if !navigationOk {
      return false, script;
    }
    return true, script;
  }

  /** The stored target and argument can be read back from the selection script. */
  lemma SelectionScriptRoundTrip(j: Juridiction)
    requires ValidGroups(PostBackCall, j.eventTarget, " ", j.eventArgument)
    ensures Search(PostBackCall, SelectionScript(j)) == Some((j.eventTarget, j.eventArgument))
  {
    var t, a := j.eventTarget, j.eventArgument;
    assert SelectionScript(j) == Instance(PostBackCall, t, " ", a);
    SearchInstance(PostBackCall, t, " ", a);
  }

  /** The groups the page's `__doPostBack('<t>','<a>')` pattern finds can be read back
      from the script that selects them. */
  lemma PostBackGroupsSelectable(href: string, t: string, a: string)
    requires Search(DoPostBack, href) == Some((t, a))
    ensures ValidGroups(PostBackCall, t, " ", a)
  {
    SearchFromSome(DoPostBack, href, 0);
    assert IsSpace(' ');
    assert AllSpaces(" ");
  }

  /** An entry found on the page can be selected again with what its `href` contained. */
  lemma EmittedEntriesSelectable(li: Node)
    requires ParseEntry(li).Ok? && ParseEntry(li).value.Some?
    ensures var j := ParseEntry(li).value.value;
      Search(PostBackCall, SelectionScript(j)) == Some((j.eventTarget, j.eventArgument))
  {
    var j := ParseEntry(li).value.value;
    ParseEntryEmitted(li);
    PostBackGroupsSelectable(Get(Find(li, "a").value, "href", ""), j.eventTarget, j.eventArgument);
    SelectionScriptRoundTrip(j);
  }
}
