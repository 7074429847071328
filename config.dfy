/**
 * The run configuration (`TelecoursConfig`): the fields the entry point assigns and the
 * other modules read. Paths, URLs, timeouts and the session id are constants of the
 * browser layer and are not part of this model.
 */
module Configuration {
  import opened Wrappers

  /** Python truthiness of an optional string: present and non-empty. */
  predicate Truthy(o: Option<string>) {
    o.Some? && o.value != ""
  }

  /** The dataclass default of `max_messages_par_juridiction`. */
  const DefaultMaxMessages := 100

  class TelecoursConfig {
    var username: Option<string>
    var password: Option<string>
    var maxMessages: Option<int>
    var readMessages: bool
    var headless: bool
    var webhookUrl: Option<string>

    /** `TelecoursConfig(headless=..., max_messages_par_juridiction=..., scraper_messages_lus=...,
        webhook_url=...)`: no credentials yet. */
    constructor(headless: bool, maxMessages: Option<int>, readMessages: bool, webhookUrl: Option<string>)
      ensures this.username.None? && this.password.None?
      ensures this.headless == headless && this.maxMessages == maxMessages
      ensures this.readMessages == readMessages && this.webhookUrl == webhookUrl
    {
      this.username := None;
      this.password := None;
      this.headless := headless;
      this.maxMessages := maxMessages;
      this.readMessages := readMessages;
      this.webhookUrl := webhookUrl;
    }

    /** `TelecoursConfig()`, the module-level default. */
    constructor Default()
      ensures username.None? && password.None? && webhookUrl.None?
      ensures headless && !readMessages && maxMessages == Some(DefaultMaxMessages)
    {
      username := None;
      password := None;
      headless := true;
      maxMessages := Some(DefaultMaxMessages);
      readMessages := false;
      webhookUrl := None;
    }

    /** `login` refuses to start without both credentials. */
    predicate HasCredentials()
      reads this
    {
      Truthy(username) && Truthy(password)
    }
  }
}
