/**
 * `provider.New` (provider/registry.go): the provider name picks one of the two backends, which
 * is built around the API key it is given; any other name is an error. The backends' HTTP
 * clients are not part of this model: a provider is its kind and its key.
 */
module Registry {
  import opened Results
  import Config

  const ProviderOpenAI: string := "openai"
  const ProviderGemini: string := "gemini"

  /** The two backends, as `NewOpenAI(apiKey)` and `NewGemini(apiKey)` build them. */
  datatype Provider = OpenAI(apiKey: string) | Gemini(apiKey: string)

  /** `unknown provider %q (supported: openai, gemini)`. */
  datatype RegistryError = UnknownProvider(name: string)

  /** `New`: an exact, case-sensitive match on the name. */
  function New(name: string, apiKey: string): (r: Result<Provider, RegistryError>)
    ensures r.Ok? <==> name == ProviderOpenAI || name == ProviderGemini
    ensures r.Ok? ==> r.value.apiKey == apiKey
    ensures r.Ok? ==> (r.value.OpenAI? <==> name == ProviderOpenAI)
    ensures r.Err? ==> r.error == UnknownProvider(name)
  {
    match name
    case "openai" => Ok(OpenAI(apiKey))
    case "gemini" => Ok(Gemini(apiKey))
    case _ => Err(UnknownProvider(name))
  }

  /** The empty name and names that differ only in case are unknown. */
  lemma UnknownNames()
    ensures New("", "k").Err?
    ensures New("OpenAI", "k").Err? && New("Gemini", "k").Err?
  {
    assert "OpenAI"[0] != "openai"[0] && "Gemini"[0] != "gemini"[0];
  }

  /**
   * A configuration's resolved provider and key, given to `New`, build a provider exactly when
   * the configured name is empty, "openai" or "gemini", and the provider holds the key stored
   * for its own kind.
   */
  lemma ConfiguredProvider(c: Config.Config)
    ensures var r := New(Config.ResolveProvider(c), Config.APIKey(c));
      (r.Ok? <==> c.provider in {"", ProviderOpenAI, ProviderGemini}) &&
      (r.Ok? && r.value.Gemini? ==> r.value.apiKey == c.geminiKey) &&
      (r.Ok? && r.value.OpenAI? ==> r.value.apiKey == c.openAIKey)
  {
    if c.provider == "" {
      Config.DefaultIsOpenAI(c);
    }
  }
}
