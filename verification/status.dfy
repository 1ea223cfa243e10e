/** The key check of the status route in app/api/status/route.ts: each
    service is reported connected when its environment variable is set,
    non-empty and not the placeholder. */
module Status {
  import opened Wrappers

  datatype ServiceState = Connected | Error

  /** The three environment variables the route reads. */
  datatype Environment = Environment(
    anthropicApiKey: Option<string>,
    morphApiKey: Option<string>,
    freestyleToken: Option<string>)

  datatype StatusReport = StatusReport(claude: ServiceState, morph: ServiceState, freestyle: ServiceState)

  const KeyPlaceholder: string := "YOUR_KEY"
  const TokenPlaceholder: string := "YOUR_TOKEN"

  /** A setting counts as configured when it is present, non-empty (a
      truthy string) and not the given placeholder. */
  predicate Configured(setting: Option<string>, placeholder: string) {
    setting.Some? && setting.value != "" && setting.value != placeholder
  }

  /** `value && value !== placeholder ? 'connected' : 'error'`. */
  function KeyState(setting: Option<string>, placeholder: string): (state: ServiceState)
    ensures state == Connected <==> Configured(setting, placeholder)
    ensures state == Error <==> !Configured(setting, placeholder)
  {
    match setting
    case None => Error
    case Some(value) => if |value| > 0 && value != placeholder then Connected else Error
  }

  /** The body of a successful `GET`. */
  function CheckStatus(env: Environment): (report: StatusReport)
    ensures report.claude == Connected <==> Configured(env.anthropicApiKey, KeyPlaceholder)
    ensures report.morph == Connected <==> Configured(env.morphApiKey, KeyPlaceholder)
    ensures report.freestyle == Connected <==> Configured(env.freestyleToken, TokenPlaceholder)
  {
    StatusReport(
      KeyState(env.anthropicApiKey, KeyPlaceholder),
      KeyState(env.morphApiKey, KeyPlaceholder),
      KeyState(env.freestyleToken, TokenPlaceholder))
  }

  /** Each service's state depends only on its own variable. */
  lemma StatesAreIndependent(a: Environment, b: Environment)
    ensures a.anthropicApiKey == b.anthropicApiKey ==> CheckStatus(a).claude == CheckStatus(b).claude
    ensures a.morphApiKey == b.morphApiKey ==> CheckStatus(a).morph == CheckStatus(b).morph
    ensures a.freestyleToken == b.freestyleToken ==> CheckStatus(a).freestyle == CheckStatus(b).freestyle
  {
  }

  /** The freestyle check compares against its own placeholder, so a token
      equal to the key placeholder counts as connected, and the reverse for
      the two keys. */
  lemma PlaceholdersDiffer(env: Environment)
    ensures env.freestyleToken == Some(KeyPlaceholder) ==> CheckStatus(env).freestyle == Connected
    ensures env.anthropicApiKey == Some(TokenPlaceholder) ==> CheckStatus(env).claude == Connected
    ensures env.freestyleToken == Some(TokenPlaceholder) ==> CheckStatus(env).freestyle == Error
  {
  }
}
