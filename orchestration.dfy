/**
 * The entry point and the three run modes (main.py): where the credentials and the message
 * limit come from, which mode starts, how a jurisdiction is looked up by code, what the
 * per-jurisdiction loops add up, what the webhook payload holds, and when the browser
 * session is closed. Navigation, detection pages, scrape results and the stored JSON files
 * are given as parameters.
 */
module Orchestration {
  import opened Wrappers
  import opened PyText
  import opened Dom
  import opened Notifs
  import opened Scraper
  import opened Configuration
  import opened Auth

  // ---------------------------------------------------------------------------------------
  // The entry point (`main`)

  /** The parsed command line. */
  datatype CliArgs = CliArgs(
    auto: bool,
    juridiction: Option<string>,
    noHeadless: bool,
    messagesLus: bool,
    maxMessages: Option<int>,
    username: Option<string>,
    password: Option<string>,
    webhook: Option<string>)

  /** What the user types at the identifier, password and message-count prompts, should
      they be asked. */
  datatype Typed = Typed(username: string, password: string, maxMessages: string)

  /** The message limit when the prompt is left empty or is not an integer. */
  const PromptedDefaultMax := 10

  /** `args.x or os.environ.get(...)`, and the stripped prompt when both are absent or empty. */
  function CredentialFrom(cli: Option<string>, env: Option<string>, typed: string): string {
    if Truthy(cli) then cli.value else if Truthy(env) then env.value else Strip(typed)
  }

  /** The command line wins over the environment, which wins over the prompt; an empty
      value counts as absent; the run has no credential exactly when all three are empty. */
  lemma CredentialPriority(cli: Option<string>, env: Option<string>, typed: string)
    ensures Truthy(cli) ==> CredentialFrom(cli, env, typed) == cli.value
    ensures !Truthy(cli) && Truthy(env) ==> CredentialFrom(cli, env, typed) == env.value
    ensures !Truthy(cli) && !Truthy(env) ==> CredentialFrom(cli, env, typed) == Strip(typed)
    ensures CredentialFrom(cli, env, typed) == "" <==> !Truthy(cli) && !Truthy(env) && Strip(typed) == ""
  {
  }

  /** `args.max_messages`, or else the prompt: `int(nb) if nb else 10`, 10 when `int` raises. */
  function MaxMessagesFrom(cli: Option<int>, typed: string): int {
    if cli.Some? then cli.value
    else
      var nb := Strip(typed);
      if nb == "" then PromptedDefaultMax
      else
        var parsed := ParseInt(nb);
        if parsed.None? then PromptedDefaultMax else parsed.value
  }

  /** The empty answer needs no branch of its own: it is one of the answers `int` rejects. */
  lemma MaxMessagesPrompted(typed: string)
    ensures MaxMessagesFrom(None, typed) == (match ParseInt(Strip(typed)) case None => PromptedDefaultMax case Some(v) => v)
  {
  }

  lemma ShowIntNoOuterSpace(n: int)
    ensures NoOuterSpace(ShowInt(n))
  {
    var s := ShowInt(n);
    var d := ShowNat(if n < 0 then -n else n);
    assert IsDigit(d[0]) && IsDigit(d[|d| - 1]);
    assert s[|s| - 1] == d[|d| - 1];
  }

  /** A typed number, blanks around it or not, is the limit used. */
  lemma MaxMessagesTyped(n: int, before: string, after: string)
    requires forall k :: 0 <= k < |before| ==> IsSpace(before[k])
    requires forall k :: 0 <= k < |after| ==> IsSpace(after[k])
    ensures MaxMessagesFrom(None, before + ShowInt(n) + after) == n
  {
    ShowIntNoOuterSpace(n);
    StripAround(before, ShowInt(n), after);
    ParseIntShowInt(n);
  }

  lemma {:induction false} StripAround(before: string, s: string, after: string)
    requires NoOuterSpace(s) && s != ""
    requires forall k :: 0 <= k < |before| ==> IsSpace(before[k])
    requires forall k :: 0 <= k < |after| ==> IsSpace(after[k])
    ensures Strip(before + s + after) == s
  {
    var rest := s + after;
    assert rest[0] == s[0];
    assert before + s + after == before + rest;
    StripLeftAround(before, rest);
    StripRightAround(s, after);
  }

  lemma {:induction false} StripLeftAround(before: string, rest: string)
    requires rest != "" && !IsSpace(rest[0])
    requires forall k :: 0 <= k < |before| ==> IsSpace(before[k])
    ensures StripLeft(before + rest) == rest
  {
    if before != [] {
      assert (before + rest)[1..] == before[1..] + rest;
      StripLeftAround(before[1..], rest);
    } else {
      assert before + rest == rest;
    }
  }

  lemma {:induction false} StripRightAround(s: string, after: string)
    requires s != "" && !IsSpace(s[|s| - 1])
    requires forall k :: 0 <= k < |after| ==> IsSpace(after[k])
    ensures StripRight(s + after) == s
  {
    if after != [] {
      var n := |after| - 1;
      assert (s + after)[..|s + after| - 1] == s + after[..n];
      StripRightAround(s, after[..n]);
    } else {
      assert s + after == s;
    }
  }

  datatype Mode = Auto | Single(code: string) | Interactive

  /** `--auto` first, then a non-empty `--juridiction`, upper-cased, then the menu. */
  function ModeOf(args: CliArgs): (m: Mode)
    ensures m.Auto? <==> args.auto
    ensures m.Single? <==> !args.auto && Truthy(args.juridiction)
    ensures m.Single? ==> m.code == Upper(args.juridiction.value)
  {
    if args.auto then Auto
    else if Truthy(args.juridiction) then Single(Upper(args.juridiction.value))
    else Interactive
  }

  datatype Launch = Aborted | Start(mode: Mode)

  /** `config.x = args.x or os.environ.get(...)`, then the stripped prompt if that is
      absent or empty. */
  method ResolveCredential(cli: Option<string>, env: Option<string>, typed: string) returns (value: Option<string>)
    ensures value == Some(CredentialFrom(cli, env, typed))
  {
    value := if Truthy(cli) then cli else env;
    if !Truthy(value) {
      value := Some(Strip(typed));
    }
  }

  /** `args.max_messages`, or the prompt when it is `None`. */
  method ResolveMaxMessages(cli: Option<int>, typed: string) returns (maxMessages: int)
    ensures maxMessages == MaxMessagesFrom(cli, typed)
  {
    if cli.Some? {
      return cli.value;
    }
    var nb := Strip(typed);
    var parsed := ParseInt(nb);
    if nb == "" || parsed.None? {
      return PromptedDefaultMax;
    }
    return parsed.value;
  }

  /** `main` up to the choice of mode: the configuration from the command line, then the
      identifier, the password and the message limit. An empty identifier aborts before the
      password is asked, an empty password before the limit is. */
  method Configure(args: CliArgs, envUser: Option<string>, envPass: Option<string>, typed: Typed)
    returns (cfg: TelecoursConfig, launch: Launch)
    ensures fresh(cfg)
    ensures cfg.headless == !args.noHeadless && cfg.readMessages == args.messagesLus && cfg.webhookUrl == args.webhook
    ensures cfg.username == Some(CredentialFrom(args.username, envUser, typed.username))
    ensures launch.Aborted? <==>
      CredentialFrom(args.username, envUser, typed.username) == "" || CredentialFrom(args.password, envPass, typed.password) == ""
    ensures CredentialFrom(args.username, envUser, typed.username) == "" ==> cfg.password.None?
    ensures CredentialFrom(args.username, envUser, typed.username) != "" ==>
      cfg.password == Some(CredentialFrom(args.password, envPass, typed.password))
    ensures launch.Aborted? ==> cfg.maxMessages == args.maxMessages
    ensures launch.Start? ==>
      cfg.maxMessages == Some(MaxMessagesFrom(args.maxMessages, typed.maxMessages)) && launch.mode == ModeOf(args)
  {
    cfg := new TelecoursConfig(!args.noHeadless, args.maxMessages, args.messagesLus, args.webhook);
    var username := ResolveCredential(args.username, envUser, typed.username);
    cfg.username := username;
    if !Truthy(username) {
      return cfg, Aborted;
    }
    var password := ResolveCredential(args.password, envPass, typed.password);
    cfg.password := password;
    if !Truthy(password) {
      return cfg, Aborted;
    }
    var maxMessages := ResolveMaxMessages(args.maxMessages, typed.maxMessages);
    cfg.maxMessages := Some(maxMessages);
    launch := Start(ModeOf(args));
  }

  // ---------------------------------------------------------------------------------------
  // Looking a jurisdiction up by code

  /** `next((j for j in juridictions if j.code == code), None)` */
  function FindByCode(js: seq<Juridiction>, code: string): (r: Option<Juridiction>)
    ensures r.None? <==> forall k :: 0 <= k < |js| ==> js[k].code != code
    ensures r.Some? ==> exists k :: (0 <= k < |js| && js[k] == r.value && r.value.code == code &&
      forall l :: 0 <= l < k ==> js[l].code != code)
  {
    if js == [] then None
    else if js[0].code == code then Some(js[0])
    else
      var r := FindByCode(js[1..], code);
      assert forall k :: 1 <= k < |js| ==> js[k] == js[1..][k - 1];
      r
  }

  // ---------------------------------------------------------------------------------------
  // The per-jurisdiction loop of `main_auto` and of choice "1" of `main_interactif`

  /** The positions below `n` whose selection succeeded: those that are scraped. */
  function Visited(n: nat, selected: nat -> bool): seq<nat> {
    if n == 0 then [] else Visited(n - 1, selected) + (if selected(n - 1) then [n - 1] else [])
  }

  /** `juridictions_traitees`: the scraped positions with a non-empty result. */
  function Processed(n: nat, selected: nat -> bool, scraped: nat -> seq<Message>): nat {
    if n == 0 then 0
    else Processed(n - 1, selected, scraped) + (if selected(n - 1) && |scraped(n - 1)| > 0 then 1 else 0)
  }

  /** `total_messages`: the number of messages over the scraped positions. */
  function MessagesTotal(n: nat, selected: nat -> bool, scraped: nat -> seq<Message>): nat {
    if n == 0 then 0
    else MessagesTotal(n - 1, selected, scraped) + (if selected(n - 1) then |scraped(n - 1)| else 0)
  }

  /** Only the jurisdictions whose selection succeeded are scraped, each once, in order. */
  lemma {:induction false} VisitedExact(n: nat, selected: nat -> bool)
    ensures forall k: nat :: k in Visited(n, selected) <==> k < n && selected(k)
    ensures forall a, b :: 0 <= a < b < |Visited(n, selected)| ==> Visited(n, selected)[a] < Visited(n, selected)[b]
  {
    if n > 0 {
      VisitedExact(n - 1, selected);
      var prev := Visited(n - 1, selected);
      assert forall a :: 0 <= a < |prev| ==> prev[a] in prev;
    }
  }

  /** At most one jurisdiction counted per scraped position, and at least one message per
      counted jurisdiction; nothing is counted exactly when no message was found. */
  lemma {:induction false} AggregateBounds(n: nat, selected: nat -> bool, scraped: nat -> seq<Message>)
    ensures Processed(n, selected, scraped) <= |Visited(n, selected)| <= n
    ensures Processed(n, selected, scraped) <= MessagesTotal(n, selected, scraped)
    ensures Processed(n, selected, scraped) == 0 <==> MessagesTotal(n, selected, scraped) == 0
  {
    if n > 0 {
      AggregateBounds(n - 1, selected, scraped);
    }
  }

  /** The loop body: select, skip on failure, scrape, count a non-empty result. */
  method ScrapeSelected(js: seq<Juridiction>, selectOk: nat -> bool, scraped: nat -> seq<Message>)
    returns (visited: seq<nat>, processed: nat, totalMessages: nat)
    ensures visited == Visited(|js|, selectOk)
    ensures processed == Processed(|js|, selectOk, scraped)
    ensures totalMessages == MessagesTotal(|js|, selectOk, scraped)
  {
    visited, processed, totalMessages := [], 0, 0;
    for i := 0 to |js|
      invariant visited == Visited(i, selectOk)
      invariant processed == Processed(i, selectOk, scraped)
      invariant totalMessages == MessagesTotal(i, selectOk, scraped)
    {
      var ok, _ := SelectJuridiction(js[i], selectOk(i));
      if !ok {
        continue;
      }
      visited := visited + [i];
      var messages := scraped(i);
      if |messages| > 0 {
        totalMessages := totalMessages + |messages|;
        processed := processed + 1;
      }
    }
  }

  // ---------------------------------------------------------------------------------------
  // The webhook payload (`envoyer_resultats_webhook`)

  /** A stored message with `code_juridiction` and `nom_juridiction` added. */
  datatype AnnotatedMessage = AnnotatedMessage(message: Message, codeJuridiction: string, nomJuridiction: string)

  /** The payload, without its timestamp. */
  datatype Payload = Payload(nbJuridictions: nat, nbMessagesTotal: nat, messages: seq<AnnotatedMessage>)

  /** The messages of one file, each annotated with the jurisdiction it was stored for. */
  function Annotate(ms: seq<Message>, j: Juridiction): (r: seq<AnnotatedMessage>)
    ensures |r| == |ms|
    ensures forall k :: 0 <= k < |r| ==> r[k].message == ms[k] && r[k].codeJuridiction == j.code && r[k].nomJuridiction == j.nom
  {
    if ms == [] then []
    else
      var n := |ms| - 1;
      Annotate(ms[..n], j) + [AnnotatedMessage(ms[n], j.code, j.nom)]
  }

  /** `tous_les_messages`: the annotated messages of every jurisdiction whose file exists
      (`stored` maps a code to the messages of its file), in the order of `js`. */
  function Collected(js: seq<Juridiction>, stored: map<string, seq<Message>>): seq<AnnotatedMessage> {
    if js == [] then []
    else
      var n := |js| - 1;
      var j := js[n];
      Collected(js[..n], stored) + (if j.code in stored then Annotate(stored[j.code], j) else [])
  }

  /** The annotation loop over the messages of one file (`msg['code_juridiction'] = ...`). */
  method AnnotateMessages(ms: seq<Message>, j: Juridiction) returns (r: seq<AnnotatedMessage>)
    ensures r == Annotate(ms, j)
  {
    r := [];
    for k := 0 to |ms|
      invariant r == Annotate(ms[..k], j)
    {
      assert ms[..k + 1][..k] == ms[..k];
      r := r + [AnnotatedMessage(ms[k], j.code, j.nom)];
    }
    assert ms[..|ms|] == ms;
  }

  /** `envoyer_resultats_webhook`: the payload to send, or nothing when no message was found. */
  method WebhookPayload(js: seq<Juridiction>, stored: map<string, seq<Message>>) returns (p: Option<Payload>)
    ensures p.None? <==> Collected(js, stored) == []
    ensures p.Some? ==> p.value == Payload(|js|, |Collected(js, stored)|, Collected(js, stored))
  {
    var all: seq<AnnotatedMessage> := [];
    for i := 0 to |js|
      invariant all == Collected(js[..i], stored)
    {
      assert js[..i + 1][..i] == js[..i];
      var j := js[i];
      if j.code in stored {
        var annotated := AnnotateMessages(stored[j.code], j);
        all := all + annotated;
      }
    }
    assert js[..|js|] == js;
    if all == [] {
      return None;
    }
    return Some(Payload(|js|, |all|, all));
  }

  /** Every message sent carries the code and name of the jurisdiction whose file it was
      read from. */
  lemma {:induction false} CollectedAnnotated(js: seq<Juridiction>, stored: map<string, seq<Message>>)
    ensures forall m :: m in Collected(js, stored) ==> exists k :: (0 <= k < |js| && js[k].code in stored &&
      m.message in stored[js[k].code] && m.codeJuridiction == js[k].code && m.nomJuridiction == js[k].nom)
  {
    if js != [] {
      var n := |js| - 1;
      CollectedAnnotated(js[..n], stored);
      forall m | m in Collected(js, stored)
        ensures exists k :: (0 <= k < |js| && js[k].code in stored &&
          m.message in stored[js[k].code] && m.codeJuridiction == js[k].code && m.nomJuridiction == js[k].nom)
      {
        if m in Collected(js[..n], stored) {
          var k :| 0 <= k < n && js[..n][k].code in stored &&
            m.message in stored[js[..n][k].code] && m.codeJuridiction == js[..n][k].code && m.nomJuridiction == js[..n][k].nom;
          assert js[k] == js[..n][k];
        } else {
          var a := Annotate(stored[js[n].code], js[n]);
          var i :| 0 <= i < |a| && a[i] == m;
          assert m.message == stored[js[n].code][i];
        }
      }
    }
  }

  /** Nothing is sent exactly when the file of every jurisdiction is missing or empty. */
  lemma {:induction false} CollectedEmpty(js: seq<Juridiction>, stored: map<string, seq<Message>>)
    ensures Collected(js, stored) == [] <==> forall k :: 0 <= k < |js| && js[k].code in stored ==> stored[js[k].code] == []
  {
    if js != [] {
      var n := |js| - 1;
      CollectedEmpty(js[..n], stored);
      assert forall k :: 0 <= k < n ==> js[..n][k] == js[k];
    }
  }

  // ---------------------------------------------------------------------------------------
  // The run modes

  /** How a run ends. `Finished` carries what the summary reports (the number of
      jurisdictions and of messages) and the webhook payload, if one is sent. */
  datatype RunEnd =
    | LoginFailed
    | Crashed(error: string)
    | NoJurisdiction
    | Cancelled
    | Quit
    | NotFound(code: string)
    | SelectionFailed
    | UnknownChoice
    | Finished(jurisdictions: nat, totalMessages: nat, payload: Option<Payload>)

  /** Both credentials present and both login navigations successful. */
  predicate LoggedIn(cfg: TelecoursConfig, loginPageOk: bool, submitOk: bool)
    reads cfg
  {
    cfg.HasCredentials() && loginPageOk && submitOk
  }

  /** What `get_juridictions_avec_notifs` returns when it has to fetch the selection page. */
  function Detected(fetchOk: bool, page: Node): Result<seq<Juridiction>, string> {
    if fetchOk then ParsedJuridictions(Candidates(page)) else Ok([])
  }

  /** Log in and detect the jurisdictions with notifications, as each mode starts. */
  method StartSession(cfg: TelecoursConfig, loginPageOk: bool, submitOk: bool, fetchOk: bool, page: Node)
    returns (ok: bool, detected: Result<seq<Juridiction>, string>)
    ensures ok == LoggedIn(cfg, loginPageOk, submitOk)
    ensures ok ==> detected == Detected(fetchOk, page)
  {
    var auth := new TelecoursAuth(cfg);
    var navigations;
    ok, navigations := auth.Login(loginPageOk, submitOk);
    if !ok {
      return false, Ok([]);
    }
    detected := DetectJuridictions(None, fetchOk, page);
  }

  /** `main_auto`: after the login and the detection, nothing is scraped unless the answer
      lower-cases to `o`; then every jurisdiction whose selection succeeds is scraped, and the
      session is closed only when the loop has run. */
  method RunAuto(cfg: TelecoursConfig, loginPageOk: bool, submitOk: bool, fetchOk: bool, page: Node,
                 answer: string, selectOk: nat -> bool, scraped: nat -> seq<Message>)
    returns (end: RunEnd, visited: seq<nat>, killed: bool)
    ensures !LoggedIn(cfg, loginPageOk, submitOk) ==> end == LoginFailed
    ensures LoggedIn(cfg, loginPageOk, submitOk) && Detected(fetchOk, page).Err? ==>
      end == Crashed(Detected(fetchOk, page).error)
    ensures LoggedIn(cfg, loginPageOk, submitOk) && Detected(fetchOk, page).Ok? ==>
      var js := Detected(fetchOk, page).value;
      if js == [] then end == NoJurisdiction
      else if Lower(answer) != "o" then end == Cancelled
      else (end == Finished(Processed(|js|, selectOk, scraped), MessagesTotal(|js|, selectOk, scraped), None)
        && visited == Visited(|js|, selectOk))
    ensures !end.Finished? ==> visited == []
    ensures killed <==> end.Finished?
  {
    var ok, detected := StartSession(cfg, loginPageOk, submitOk, fetchOk, page);
    if !ok {
      return LoginFailed, [], false;
    }
    if detected.Err? {
      return Crashed(detected.error), [], false;
    }
    var js := detected.value;
    if js == [] {
      return NoJurisdiction, [], false;
    }
    if Lower(answer) != "o" {
      return Cancelled, [], false;
    }
    var processed, totalMessages;
    visited, processed, totalMessages := ScrapeSelected(js, selectOk, scraped);
    end := Finished(processed, totalMessages, None);
    killed := true;
  }

  /** `main_juridiction`: the requested code is looked up among the detected jurisdictions;
      a missing code or a failed selection ends the run before anything is scraped. */
  method RunSingle(cfg: TelecoursConfig, code: string, loginPageOk: bool, submitOk: bool, fetchOk: bool, page: Node,
                   selectOk: bool, scraped: seq<Message>)
    returns (end: RunEnd, killed: bool)
    ensures !LoggedIn(cfg, loginPageOk, submitOk) ==> end == LoginFailed
    ensures LoggedIn(cfg, loginPageOk, submitOk) && Detected(fetchOk, page).Err? ==>
      end == Crashed(Detected(fetchOk, page).error)
    ensures LoggedIn(cfg, loginPageOk, submitOk) && Detected(fetchOk, page).Ok? ==>
      var js := Detected(fetchOk, page).value;
      if FindByCode(js, code).None? then end == NotFound(code)
      else if !selectOk then end == SelectionFailed
      else end == Finished(1, |scraped|, None)
    ensures killed <==> end.Finished?
  {
    var ok, detected := StartSession(cfg, loginPageOk, submitOk, fetchOk, page);
    if !ok {
      return LoginFailed, false;
    }
    if detected.Err? {
      return Crashed(detected.error), false;
    }
    var target := FindByCode(detected.value, code);
    if target.None? {
      return NotFound(code), false;
    }
    var selected, _ := SelectJuridiction(target.value, selectOk);
    if !selected {
      return SelectionFailed, false;
    }
    return Finished(1, |scraped|, None), true;
  }

  /** Choice "2" of `main_interactif`: the typed code, stripped and upper-cased, is looked up;
      after the scrape the webhook payload is built for that jurisdiction alone when a
      webhook is configured. */
  method ChooseOne(cfg: TelecoursConfig, js: seq<Juridiction>, typedCode: string, selectOk: bool,
                   scraped: seq<Message>, stored: map<string, seq<Message>>)
    returns (end: RunEnd)
    ensures var code := Upper(Strip(typedCode));
      if FindByCode(js, code).None? then end == NotFound(code)
      else if !selectOk then end == SelectionFailed
      else if !Truthy(cfg.webhookUrl) then end == Finished(1, |scraped|, None)
      else
        var c := Collected([FindByCode(js, code).value], stored);
        end == Finished(1, |scraped|, if c == [] then None else Some(Payload(1, |c|, c)))
  {
    var code := Upper(Strip(typedCode));
    var target := FindByCode(js, code);
    if target.None? {
      return NotFound(code);
    }
    var selected, _ := SelectJuridiction(target.value, selectOk);
    if !selected {
      return SelectionFailed;
    }
    var payload: Option<Payload> := None;
    if Truthy(cfg.webhookUrl) {
      payload := WebhookPayload([target.value], stored);
    }
    return Finished(1, |scraped|, payload);
  }

  /** `main_interactif`: "0" leaves without closing the session, "1" scrapes every
      jurisdiction whose selection succeeds, "2" one of them; any other answer closes the
      session without scraping. */
  method RunInteractive(cfg: TelecoursConfig, loginPageOk: bool, submitOk: bool, fetchOk: bool, page: Node,
                        choice: string, typedCode: string, selectOk: nat -> bool, scraped: nat -> seq<Message>,
                        targetSelectOk: bool, targetScraped: seq<Message>, stored: map<string, seq<Message>>)
    returns (end: RunEnd, visited: seq<nat>, killed: bool)
    ensures !LoggedIn(cfg, loginPageOk, submitOk) ==> end == LoginFailed
    ensures LoggedIn(cfg, loginPageOk, submitOk) && Detected(fetchOk, page).Err? ==>
      end == Crashed(Detected(fetchOk, page).error)
    ensures LoggedIn(cfg, loginPageOk, submitOk) && Detected(fetchOk, page).Ok? ==>
      var js := Detected(fetchOk, page).value;
      if js == [] then end == NoJurisdiction
      else if Strip(choice) == "0" then end == Quit
      else if Strip(choice) == "1" then
        end == Finished(|js|, MessagesTotal(|js|, selectOk, scraped), None) && visited == Visited(|js|, selectOk)
      else if Strip(choice) == "2" then
        var code := Upper(Strip(typedCode));
        if FindByCode(js, code).None? then end == NotFound(code)
        else if !targetSelectOk then end == SelectionFailed
        else if !Truthy(cfg.webhookUrl) then end == Finished(1, |targetScraped|, None)
        else
          var c := Collected([FindByCode(js, code).value], stored);
          end == Finished(1, |targetScraped|, if c == [] then None else Some(Payload(1, |c|, c)))
      else end == UnknownChoice
    ensures Strip(choice) != "1" ==> visited == []
    ensures killed <==> end.Finished? || end.UnknownChoice?
  {
    var ok, detected := StartSession(cfg, loginPageOk, submitOk, fetchOk, page);
    if !ok {
      return LoginFailed, [], false;
    }
    if detected.Err? {
      return Crashed(detected.error), [], false;
    }
    var js := detected.value;
    if js == [] {
      return NoJurisdiction, [], false;
    }
    var choix := Strip(choice);
    visited := [];
    if choix == "0" {
      return Quit, [], false;
    } else if choix == "1" {
      var processed, totalMessages;
      visited, processed, totalMessages := ScrapeSelected(js, selectOk, scraped);
      end := Finished(|js|, totalMessages, None);
    } else if choix == "2" {
      end := ChooseOne(cfg, js, typedCode, targetSelectOk, targetScraped, stored);
      if !end.Finished? {
        return end, [], false;
      }
    } else {
      end := UnknownChoice;
    }
    killed := true;
  }
}
