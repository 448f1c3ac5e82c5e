/**
 * The provider choice in the saved configuration (config/config.go): which provider is active,
 * and which of the two stored API keys goes with it. Loading and saving the file are not part
 * of this model.
 */
module Config {

  /** The name used when no provider is configured. */
  const DefaultProvider: string := "openai"

  /** The fields of `config.Config`. */
  datatype Config = Config(openAIKey: string, geminiKey: string, provider: string)

  /** `ResolveProvider`: the configured provider, or "openai" when none is configured. */
  function ResolveProvider(c: Config): (name: string)
    ensures name != ""
    ensures c.provider != "" ==> name == c.provider
    ensures c.provider == "" ==> name == DefaultProvider
  {
    if c.provider != "" then c.provider else DefaultProvider
  }

  /** `APIKey`: the Gemini key when the resolved provider is "gemini", the OpenAI key for any other. */
  function APIKey(c: Config): (key: string)
    ensures c.provider == "gemini" ==> key == c.geminiKey
    ensures c.provider != "gemini" ==> key == c.openAIKey
  {
    match ResolveProvider(c)
    case "gemini" => c.geminiKey
    case _ => c.openAIKey
  }

  /** The Gemini key is chosen exactly when the configured provider is "gemini". */
  lemma GeminiKeyChosen(c: Config)
    requires c.openAIKey != c.geminiKey
    ensures APIKey(c) == c.geminiKey <==> c.provider == "gemini"
  {
  }

  /**
   * Every other configuration, an empty provider and names the code does not know included,
   * gets the OpenAI key.
   */
  lemma OpenAIKeyOtherwise(c: Config)
    requires c.provider != "gemini"
    ensures APIKey(c) == c.openAIKey
  {
    assert c.provider == "" ==> ResolveProvider(c) == DefaultProvider && DefaultProvider[0] != 'g';
  }

  /** The key depends on nothing but the resolved provider and the two stored keys. */
  lemma APIKeyDependsOnResolved(c: Config, d: Config)
    requires ResolveProvider(c) == ResolveProvider(d)
    requires c.openAIKey == d.openAIKey && c.geminiKey == d.geminiKey
    ensures APIKey(c) == APIKey(d)
  {
  }

  /** An empty provider and an explicit "openai" behave the same. */
  lemma DefaultIsOpenAI(c: Config)
    requires c.provider == ""
    ensures ResolveProvider(c) == ResolveProvider(c.(provider := "openai"))
    ensures APIKey(c) == APIKey(c.(provider := "openai")) == c.openAIKey
  {
  }
}
