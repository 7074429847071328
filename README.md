# Télérecours scraper — a verified model of its core

This project models the core of a scraper for Télérecours, the French administrative courts'
web portal. It covers four parts:

- logging in;
- finding the jurisdictions that have unread notifications;
- reading their message lists;
- downloading the attached PDFs.

It then proves what that logic promises.

The browser is not modelled. A page is an already parsed tree (`Dom.Node`). A navigation is a
success flag given as a parameter. A step repeated in a loop (the j-th message view, the
k-th download, the i-th selection) gets its outcome from a function of its position.

The modules follow the program's files:

- `Wrappers` holds `Option` and `Result`.
- `PyText` holds the Python string operations the code uses: `strip`, `lower`, `upper`, `in`,
  `split(c)[-1]`, `replace`, `join`, `int()` and `str()`.
- `Patterns` holds `re.search` for the two-group regular expressions of the core. They are
  `lireMessage(...)` in the message list and `__doPostBack(...)` on the selection page. The
  scan is proved to find the first occurrence and its groups.
- `Dom` holds the BeautifulSoup tree and the searches used on it: `find_all`, `find`, `get`
  and `get_text(strip=True)`.
- `Scraper` models `MessageScraper` in scraper_messages.py:
  - PDF link extraction;
  - the download bookkeeping;
  - the select, truncate, parse and read pipeline of `scraper_tous_messages`.
- `Notifs` models notifs.py: jurisdiction detection, the display order and total, and the
  selection postback.
- `Configuration` holds the `TelecoursConfig` fields that the entry point assigns.
- `Auth` models the `TelecoursAuth` class as a class with `cookies` and `isAuthenticated`
  fields.
- `Orchestration` models main.py:
  - where credentials and the message limit come from;
  - the choice of mode;
  - the lookup by code;
  - the counters of the per-jurisdiction loops;
  - the webhook payload;
  - how each of the three modes ends, and whether it closes the browser session.

## Model

| member | source | states |
|---|---|---|
| PyText.StripLeft | main.py:404 | the leading-whitespace half of `strip()`: a suffix of `s` that does not start with whitespace, everything cut being whitespace |
| PyText.StripRight | main.py:404 | the trailing-whitespace half of `strip()`: a prefix of `s` that does not end with whitespace, everything cut being whitespace |
| PyText.Strip | main.py:404 | `strip()` returns a string with whitespace at neither end, never longer than `s`, and an already stripped string unchanged |
| PyText.StripSpaceAround | main.py:404 | `strip()` returns the slice of `s` between its leading and its trailing whitespace: some cut point has only whitespace before it, and only whitespace follows the result |
| PyText.ContainsFacts | scraper_messages.py:38 | `t in s`: `''` is in every string, a string is in itself, a string found in `s` is no longer than `s` and is still found once text is added around `s` |
| PyText.ConcatAppend | notifs.py:104 | `''.join` of two lists of parts is the concatenation of their joins |
| PyText.JoinContains | scraper_messages.py:45 | `' '.join(classes)` contains each class name of the list |
| PyText.Lower | scraper_messages.py:38 | `lower()`, for ASCII and Latin-1 capitals, keeps the length and lower-cases each character on its own; other characters, such as `İ`, whose lower case Python spells with two characters, stay unchanged |
| PyText.Upper | main.py:305 | `upper()` upper-cases each character on its own and keeps the length, for ASCII and Latin-1 letters whose upper case is one character; ß, which Python maps to `SS`, stays unchanged |
| PyText.AfterLast | scraper_messages.py:39 | `split('/')[-1]` is the longest suffix without `/`: it holds no `/`, and whatever precedes it ends with `/` |
| PyText.ReplaceChar | scraper_messages.py:58 | `replace(' ', '_')` keeps the length, turns every blank into `_` and leaves every other character as it was |
| PyText.ShowNat | main.py:428 | `str(n)` of a non-negative integer is a non-empty run of ASCII digits, which `int()` accepts |
| PyText.ParseInt | notifs.py:95 | `int()` succeeds exactly on an optional sign followed by ASCII digits; a value without a minus sign is non-negative |
| PyText.ParseIntShowInt | main.py:428 | `int(str(n)) == n` for every integer, so a typed count is read back exactly |
| Patterns.MatchAtComplete | scraper_messages.py:288 | an occurrence of the pattern at position i, with groups g1 and g2, is what the anchored scan returns at i |
| Patterns.MatchAtSound | scraper_messages.py:288 | groups returned by the anchored scan are those of a real occurrence of the pattern at that position |
| Patterns.SearchFromSome | scraper_messages.py:288-292 | groups returned by `re.search` belong to an occurrence, and no earlier position matches |
| Patterns.SearchFromNone | scraper_messages.py:288-296 | `re.search` returns nothing only when the pattern occurs nowhere |
| Patterns.SearchInstance | notifs.py:111-113 | matching the text a pattern describes yields back its two groups |
| Dom.Get | scraper_messages.py:42 | `tag.get(k, default)` gives the attribute's value when the element has the attribute, and `default` otherwise; a string node has no attributes |
| Dom.GetTextStrings | notifs.py:95 | `get_text(strip=True)` is the concatenation, in document order, of the stripped strings below the node, leaving out those that strip to nothing |
| Dom.GetTextNoOuterSpace | scraper_messages.py:279-298 | the text `get_text(strip=True)` gives for every message field has no whitespace at either end |
| Dom.Filter | scraper_messages.py:260 | a list comprehension with a condition keeps exactly the members that pass it, and is never longer |
| Dom.FilterAppend | scraper_messages.py:260 | filtering commutes with concatenation, so order is kept |
| Dom.FindAll | scraper_messages.py:275 | `find_all(tag)` returns exactly the descendants with that tag |
| Dom.FindAllWithClass | scraper_messages.py:50 | `find_all(tag, class_=c)` returns exactly the descendants with that tag and that class in their class list |
| Dom.First | notifs.py:82 | `find` gives `None` exactly when there is no match, and otherwise gives the first match |
| Scraper.ExtractPdfLinks | scraper_messages.py:24-61 | both link lists are those defined by `DirectLinks` and `OnclickLinks` over the page's candidate anchors |
| Scraper.ExtractDirectLinks | scraper_messages.py:35-47 | the `hrefs_directs` loop builds `DirectLinks` of its anchors |
| Scraper.ExtractOnclickLinks | scraper_messages.py:50-61 | the `hplGenFichier` loop builds `OnclickLinks` of its anchors |
| Scraper.DirectLinksExact | scraper_messages.py:35-47 | a direct entry exists exactly for each anchor with a non-empty `href` containing `.pdf` in any case |
| Scraper.DirectLinkFields | scraper_messages.py:38-46 | every direct entry's `href` is non-empty and contains `.pdf`; its `nom` is the suffix after the last `/` and holds no `/` |
| Scraper.DirectLinksAppend | scraper_messages.py:35-47 | the direct list keeps document order |
| Scraper.OnclickLinksExact | scraper_messages.py:50-61 | an onclick entry exists exactly for each marked anchor whose lower-cased text contains `accusé` or `pdf` |
| Scraper.OnclickLinksOfPage | scraper_messages.py:50-61 | on a whole page, those are exactly the `a.hplGenFichier` descendants whose text passes the test |
| Scraper.OnclickLinkFields | scraper_messages.py:54-59 | `nom_suggeré` is the text with every blank turned into `_`, followed by `.pdf` |
| Scraper.OnclickLinksAppend | scraper_messages.py:50-61 | the onclick list keeps document order |
| Scraper.OverlapAnchorIsDirect | scraper_messages.py:38 | the sample anchor passes the direct-link test |
| Scraper.OverlapAnchorIsOnclick | scraper_messages.py:54 | the sample anchor passes the onclick test |
| Scraper.DirectAndOnclickOverlap | scraper_messages.py:35-61 | the two lists are not deduplicated: one anchor can be listed in both |
| Scraper.ResolvePdfUrl | scraper_messages.py:90-93 | a root-relative `href` is put under the site's base URL; any other `href` is used unchanged |
| Scraper.DownloadMessagePdfs | scraper_messages.py:73-192 | the files reported are `MessageFiles`; one URL is fetched per direct link and one id clicked per onclick link, in order |
| Scraper.PdfUrls | scraper_messages.py:90-93 | one resolved URL per direct link, in order |
| Scraper.FetchDirectLinks | scraper_messages.py:85-164 | the download loop reports `StoredFiles` and fetches `PdfUrls` |
| Scraper.ClickOnclickLinks | scraper_messages.py:167-190 | one click per onclick link, by its id, in order |
| Scraper.StoredFilesExact | scraper_messages.py:144-164 | at most one record per direct link, and a record exactly for the links whose file was in the parent directory or already in place |
| Scraper.StoredFileFields | scraper_messages.py:95-159 | every record is `href_direct` and lies at `dossier/<msg_id>_<nom>` |
| Scraper.SelectRows | scraper_messages.py:254-261 | unread mode selects exactly the `tr.messageNonLu` rows; otherwise exactly the `tr.tableListeTrR2` rows without `messageNonLu` |
| Scraper.RowR1NeverSelected | scraper_messages.py:233-261 | a `tableListeTrR1` row is never selected unless it also has the class of the mode |
| Scraper.SliceEnd | scraper_messages.py:268 | the end of `s[:n]`, including negative `n` |
| Scraper.PyTake | scraper_messages.py:268 | `s[:n]` is a prefix of `s` with the length Python gives it |
| Scraper.ParseRowStatus | scraper_messages.py:274-311 | a row yields a message exactly when it has six cells, an `a.numMessage` link in the fourth and a `lireMessage` call in its onclick. A kept row carries its given index and no details, and is `non_lu` exactly when the row has `messageNonLu` |
| Scraper.ParseRowGroups | scraper_messages.py:288-292 | `msg_id` and `msg_type` are the two groups of an occurrence of `lireMessage('…',␣*'…')` in the onclick text |
| Scraper.ParseRowOfCall | scraper_messages.py:286-292 | a link calling `lireMessage('<id>', '<type>')` yields that id and type |
| Scraper.ParseRows | scraper_messages.py:272-311 | the parsing loop builds `ParsedMessages` of the truncated rows |
| Scraper.ParseRowKeepsIndex | scraper_messages.py:274-302 | the row parser numbers its message with the position it is given |
| Scraper.ParsedWithOrigin | scraper_messages.py:274-311 | each parsed message is what its own row yields, at its 1-based position in the truncated list |
| Scraper.ParsedWithIncreasing | scraper_messages.py:274 | indices are at most the number of truncated rows and strictly increase |
| Scraper.ParsedWithComplete | scraper_messages.py:274-311 | no row that yields a message is dropped |
| Scraper.ParsedWithLength | scraper_messages.py:274-311 | at most one message per row |
| Scraper.ParsedMessagesOrigin | scraper_messages.py:274-311 | for the actual row parser: at most one message per row, each from its own row at its own position |
| Scraper.ParsedMessagesIncreasing | scraper_messages.py:274-302 | indices strictly increase and may have gaps |
| Scraper.ParsedMessagesComplete | scraper_messages.py:274-311 | every row that yields a message is in the list |
| Scraper.ReadMessages | scraper_messages.py:317-355 | the reading loop builds `ReadResult` |
| Scraper.OpenedPositionsFacts | scraper_messages.py:340-341 | the kept positions increase and are exactly those whose detail view opened |
| Scraper.ReadResultKeeps | scraper_messages.py:317-355 | the kept messages are, in order, those whose view opened, each with its files and HTML added and every other field unchanged |
| Scraper.ScrapeAllMessages | scraper_messages.py:244-400 | `[]` when the Messages tab does not open; otherwise the select, truncate, parse and read pipeline |
| Scraper.ParseRowStatusFromRow | scraper_messages.py:279 | the status of a parsed message is that of its row |
| Scraper.ParsedWithStatus | scraper_messages.py:274-311 | every parsed message has the status of the row at its index |
| Scraper.ParsedStatus | scraper_messages.py:254-279 | messages parsed from selected rows have the status of the selecting mode |
| Scraper.ReadResultOrigin | scraper_messages.py:352-355 | every read message has details and comes from a parsed message with the same index and status |
| Scraper.ScrapeResultFields | scraper_messages.py:254-400 | every returned message has the mode's status and an index of at most `max_messages`, and carries its files and HTML |
| Notifs.CollectNameParts | notifs.py:97-104 | the `nom_parts` loop with its `break` builds `NameParts` |
| Notifs.NamePartsStopAtSpan | notifs.py:99-103 | nothing after the first `span` child contributes to the name |
| Notifs.NamePartsSkipElement | notifs.py:98-104 | a child element other than a `span` is skipped |
| Notifs.NamePartsAreStripped | notifs.py:99-101 | every part is the stripped text of one direct string child |
| Notifs.ParseEntryEmitted | notifs.py:78-128 | an emitted entry has the `li`'s name as code and a positive count read from the nested spans. Its name is the text before the first span, and its target and argument are the `__doPostBack` groups |
| Notifs.ParseEntryEmits | notifs.py:90-128 | conversely, both spans, a positive integer count and a postback call give an entry with that count |
| Notifs.ParseEntryWithoutCount | notifs.py:90-107 | a link without one of the two spans counts 0 and is never emitted |
| Notifs.ParseEntryRaises | notifs.py:95 | count text that is not an integer raises instead of being skipped |
| Notifs.PostBackOfHref | notifs.py:110-115 | an `href` that is the call `__doPostBack('<t>','<a>')` yields that target and argument |
| Notifs.ReadCountAndName | notifs.py:86-107 | the count and name part of one pass of the loop computes `CountAndName` |
| Notifs.ReadEntry | notifs.py:78-128 | one pass of the loop on one `li` computes `ParseEntry` |
| Notifs.EntriesWithErrPersists | notifs.py:78-128 | once an entry raises, the rest of the page is not looked at |
| Notifs.ParseJuridictions | notifs.py:76-128 | the loop over the `li[name]` candidates computes `ParsedJuridictions`, or the first error |
| Notifs.DetectJuridictions | notifs.py:50-130 | the given page is used, or else the fetched one; a failed fetch gives no jurisdiction. `Some(page)` stands for a non-empty `html_selection`; an empty string is treated as absent, as `None` is |
| Notifs.EntriesWithFrom | notifs.py:78-128 | each listed entry comes from one candidate, and no more entries than candidates |
| Notifs.EntriesWithComplete | notifs.py:78-128 | no emitted entry is left out |
| Notifs.EntriesWithRaise | notifs.py:78-128 | the page raises exactly when one of its candidates does |
| Notifs.EntriesWithAppend | notifs.py:78-128 | the entries keep source order |
| Notifs.ParsedJuridictionsFrom | notifs.py:78-128 | the result is exactly the emitted entries of the candidates |
| Notifs.ParsedJuridictionsPositive | notifs.py:126-128 | every listed jurisdiction has a positive count |
| Notifs.ParsedJuridictionsRaise | notifs.py:95 | the page raises exactly when one candidate's count is not an integer |
| Notifs.ParsedJuridictionsAppend | notifs.py:78-128 | entries of an earlier part of the page come first |
| Notifs.InsertMultiset | notifs.py:147 | insertion adds exactly one element |
| Notifs.InsertTotal | notifs.py:145 | insertion adds its count to the total |
| Notifs.InsertWithCount | notifs.py:147 | insertion keeps the order among entries of equal count |
| Notifs.InsertSorted | notifs.py:147 | insertion keeps the list sorted by descending count |
| Notifs.DisplayOrderFacts | notifs.py:145-147 | the display order is sorted by descending count, is a permutation of the input, is stable, and has the same total |
| Notifs.Display | notifs.py:138-151 | nothing is listed for no jurisdiction; otherwise the number of entries, the display order and the sum of the counts |
| Notifs.SelectJuridiction | notifs.py:154-197 | the selection succeeds exactly when its postback navigation does, and runs the script with the stored target and argument |
| Notifs.SelectionScriptRoundTrip | notifs.py:173 | the target and argument can be read back from the selection script |
| Notifs.PostBackGroupsSelectable | notifs.py:111-173 | groups found by the page's postback pattern are valid groups of the selection script |
| Notifs.EmittedEntriesSelectable | notifs.py:110-173 | an entry found on the page is selected again with exactly what its `href` held |
| Configuration.TelecoursConfig.constructor | main.py:389-394 | the configuration built from the command line has no credentials yet |
| Configuration.TelecoursConfig.Default | config.py:10-62 | the default configuration is headless, reads unread messages only, keeps at most 100 per jurisdiction, and has no credentials or webhook |
| Auth.CookieMap | auth.py:106-109 | the cookie map has a key exactly for each name in the captured list |
| Auth.CookieMapLastWins | auth.py:106-109 | a name's value is that of its last occurrence |
| Auth.TelecoursAuth.constructor | auth.py:16-19 | a new session has no cookie and is not logged in |
| Auth.TelecoursAuth.Login | auth.py:21-97 | without both credentials nothing is opened. Otherwise the result is true exactly when the login page and the submit both succeed. Only success sets `is_authenticated`. `login` itself does not assign the cookies; the updates the hook makes during its navigations are not modelled (see Left out) |
| Auth.TelecoursAuth.AfterGoto | auth.py:102-117 | the cookies become the map of those captured, or stay as they were when capture raised; the page is handed back either way |
| Orchestration.CredentialFrom | main.py:402-422 | the value from the command line, else the environment, else the stripped prompt |
| Orchestration.CredentialPriority | main.py:402-422 | the command line wins over the environment, which wins over the prompt. An empty value counts as absent, and the result is empty exactly when all three are |
| Orchestration.MaxMessagesFrom | main.py:425-432 | the command-line limit, else the typed integer, else 10 |
| Orchestration.MaxMessagesPrompted | main.py:427-432 | the prompted limit is the stripped answer read by `int`, and 10 whenever `int` rejects it, including the empty answer |
| Orchestration.MaxMessagesTyped | main.py:427-429 | a typed number, with blanks around it or not, is the limit used |
| Orchestration.ModeOf | main.py:438-443 | `--auto` first, then a non-empty `--juridiction` (upper-cased), then the menu |
| Orchestration.ResolveCredential | main.py:402-422 | the assignments compute `CredentialFrom` |
| Orchestration.ResolveMaxMessages | main.py:425-432 | the assignments compute `MaxMessagesFrom` |
| Orchestration.Configure | main.py:389-443 | builds the configuration fields from the command line, then the identifier, password and limit. An empty identifier or password aborts; the mode starts otherwise |
| Orchestration.FindByCode | main.py:184-191 | `None` exactly when no jurisdiction has the code; otherwise the first one that has it |
| Orchestration.VisitedExact | main.py:117-119 | only jurisdictions whose selection succeeded are scraped, each once, in order |
| Orchestration.AggregateBounds | main.py:111-140 | `juridictions_traitees` is at most the number scraped and at most `total_messages`, and is zero exactly when `total_messages` is |
| Orchestration.ScrapeSelected | main.py:111-140 | the loop computes the visited positions and the two counters |
| Orchestration.Annotate | main.py:42-44 | each message of a file gets its jurisdiction's code and name, in order, nothing else changed |
| Orchestration.AnnotateMessages | main.py:42-44 | the annotation loop computes `Annotate` |
| Orchestration.WebhookPayload | main.py:27-58 | nothing is sent when no message is found. Otherwise the payload holds the number of jurisdictions, the number of messages and the annotated messages |
| Orchestration.CollectedAnnotated | main.py:34-46 | every message sent carries the code and name of the jurisdiction whose file it came from |
| Orchestration.CollectedEmpty | main.py:48-58 | nothing is sent exactly when every jurisdiction's file is missing or empty |
| Orchestration.StartSession | main.py:85-94 | logs in, then detects jurisdictions only after a successful login |
| Orchestration.RunAuto | main.py:61-149 | a failed login, no jurisdiction or an answer other than `o` ends the run early. Otherwise the selectable jurisdictions are scraped and counted, and the session is closed only then |
| Orchestration.RunSingle | main.py:152-219 | a failed login, an unknown code or a failed selection ends the run early; otherwise one jurisdiction is scraped and the session closed |
| Orchestration.ChooseOne | main.py:299-333 | looks up the stripped, upper-cased code and scrapes it. The payload is built for that jurisdiction only if a webhook is set |
| Orchestration.RunInteractive | main.py:222-335 | "0" quits without closing the session, "1" scrapes every selectable jurisdiction. "2" ends exactly as `ChooseOne` does for the typed code: not found, selection failed, or one jurisdiction scraped with its payload when a webhook is set; only a finished run closes the session. Any other answer only closes the session |

## Left out

- The browser: running JavaScript, wait conditions, timeouts and sleeps. Every navigation is a
  success flag. The hook registration (`setup_cookie_hook`) and which navigations trigger it are
  not modelled; `AfterGoto` models one call of the hook.
- The JavaScript text built for each step. Only the selection script is modelled as text
  (`SelectionScript`). The other scripts also carry data. The download URLs and the clicked link
  ids are kept as outputs (`fetched` and `clicked` of `DownloadMessagePdfs`). The credentials
  that the login script fills in (auth.py:59, 64) are not kept. Neither are the id and type that
  the `lireMessage` call passes (scraper_messages.py:324).
- HTML parsing. Pages are given as trees. Comments and other special string node kinds of
  BeautifulSoup are not represented.
- The filesystem. Where a download landed is the `Landing` input. The rename itself is not
  modelled, and neither is `Path` normalisation (`FinalPath` assumes a folder name without a
  trailing `/`).
- Saving to disk: `save_json`, `save_html`, `compte_pdfs_dossier` and `taille_dossier_pdfs`
  (floating point). Neither are the PDF counters of main.py.
- Directory creation and the path helpers of `TelecoursConfig`. URLs, timeouts and the session id
  are browser constants.
- Timing: `time.time` and the timestamp of the webhook payload. `Payload` has no timestamp field.
- Output: every `print`, `print_header`, `print_summary` and the verbose flag. `Display`
  models what the summary lists, not how.
- `send_webhook` is an HTTP call into code outside this model; the model stops at the payload.
  The stored message files are read through the `stored` map from jurisdiction code to the
  messages of that file. `stored` is an independent input: it is not tied to the messages just
  scraped (`scraped`, `targetScraped`). In the program the file can be stale, because
  `scraper_tous_messages` returns without saving when the tab does not open or no row is found
  (scraper_messages.py:244-246 and 264-266).
- Orchestration.RunAuto: the messages of each jurisdiction are an input (`scraped`) and are not
  tied to `Scraper.ScrapeAllMessages`, because the scrape needs page contents and navigation
  outcomes for every jurisdiction. The same holds for RunSingle, ChooseOne and RunInteractive.
- Orchestration.RunAuto: `Crashed` stands for an exception raised out of the
  detection step when a count is not an integer. Exceptions raised elsewhere by the browser are
  not modelled.
- Notifs.DetectJuridictions: the optional HTML is an `Option<Node>`, so an empty string cannot be
  passed; `Some(page)` stands for a non-empty `html_selection`, and an empty one behaves as `None`.
  No caller in main.py passes the argument.
- The cookies the scraper receives from `TelecoursAuth` are only passed along; the model does
  not follow them.
- PyText.ParseInt: does not accept what Python's `int()` also accepts beyond a sign and ASCII
  digits: `_` between digits and non-ASCII digits. Surrounding whitespace does not arise,
  because the code always strips first. The count on the selection page is printed by the site
  in ASCII digits. The message limit typed at the prompt of main.py:427-428 is not: there
  `int("2_0")` gives 20 where `MaxMessagesFrom` falls back to 10. The model treats such input as
  unparsable.
- PyText.Lower: covers ASCII and Latin-1 capitals only, not full Unicode case mapping. `'İ'.lower()`
  has two characters in Python, and the model keeps `İ` unchanged.
- PyText.Upper: covers ASCII and Latin-1 letters whose upper case is one character only; ß, which
  Python maps to 'SS', stays unchanged, and no other character is mapped.
- `Patterns` models only the two regular expressions of the core, not regular expressions in
  general.
- The message dictionaries that main.py and scraper_messages.py update in place are values
  here (`Message`, `AnnotatedMessage`). The lists holding them are local, so no aliasing is lost.
