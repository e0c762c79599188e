/**
 * The module-level Gemini client cell of the service: `updateGeminiApiKey`
 * replaces or clears it, `getGeminiClient` reads it, and `ensureClient`
 * refuses to go on without one.
 */
module ApiClient {
  import opened Wrappers
  import opened Text

  const Placeholder := "YOUR_API_KEY_PLACEHOLDER_IGNORE"
  const MissingKeyMessage := "Gemini API Key가 설정되지 않았거나 유효하지 않습니다. 헤더 메뉴에서 API 키를 입력하고 저장해주세요."

  /** A client constructed with an API key */
  datatype Client = Client(apiKey: string)

  /** `apiKey && apiKey.trim() !== "" && apiKey !== "YOUR_API_KEY_PLACEHOLDER_IGNORE"` */
  predicate AcceptableKey(apiKey: Option<string>) {
    apiKey.Some? && apiKey.value != [] && Trim(apiKey.value) != [] && apiKey.value != Placeholder
  }

  /**
   * The client cell after `updateGeminiApiKey(apiKey)`, where
   * `constructionFails` says whether `new GoogleGenAI({ apiKey })` throws.
   */
  function ClientAfterUpdate(apiKey: Option<string>, constructionFails: bool): (r: Option<Client>)
    ensures r.Some? <==> AcceptableKey(apiKey) && !constructionFails
    ensures r.Some? ==> r.value.apiKey == apiKey.value
  {
    if AcceptableKey(apiKey) && !constructionFails then Some(Client(apiKey.value)) else None
  }

  /** What `ensureClient` returns or throws for a given cell */
  function EnsureResult(client: Option<Client>): (r: Result<Client, string>)
    ensures r.Success? <==> client.Some?
    ensures r.Success? ==> r.value == client.value
    ensures r.Failure? ==> r.error == MissingKeyMessage
  {
    if client.Some? then Success(client.value) else Failure(MissingKeyMessage)
  }

  class GeminiService {
    /** `geminiAI`: the client, or `null` */
    var client: Option<Client>

    constructor()
      ensures client == None
    {
      client := None;
    }

    /** `updateGeminiApiKey(apiKey)`: true exactly when a client is now in place */
    method UpdateApiKey(apiKey: Option<string>, constructionFails: bool) returns (ok: bool)
      modifies this
      ensures client == ClientAfterUpdate(apiKey, constructionFails)
      ensures ok <==> client.Some?
    {
      if apiKey.Some? && apiKey.value != [] && Trim(apiKey.value) != [] && apiKey.value != Placeholder {
        if constructionFails {
          client := None;
          ok := false;
        } else {
          client := Some(Client(apiKey.value));
          ok := true;
        }
      } else {
        client := None;
        ok := false;
      }
    }

    /** `getGeminiClient()` */
    method GetClient() returns (c: Option<Client>)
      ensures c == client
    {
      c := client;
    }

    /** `ensureClient()`: the client, or the error every fetcher raises first */
    method EnsureClient() returns (r: Result<Client, string>)
      ensures r == EnsureResult(client)
    {
      var c := GetClient();
      if c.None? {
        r := Failure(MissingKeyMessage);
      } else {
        r := Success(c.value);
      }
    }
  }

  // ---------------------------------------------------------------------------
  // Properties

  /** After an update that constructs without error, the fetchers may proceed exactly when the key was acceptable, and use that key. */
  lemma UpdateThenEnsure(apiKey: Option<string>)
    ensures EnsureResult(ClientAfterUpdate(apiKey, false)).Success? <==> AcceptableKey(apiKey)
    ensures AcceptableKey(apiKey) ==> EnsureResult(ClientAfterUpdate(apiKey, false)).value.apiKey == apiKey.value
  {
  }

  /** The placeholder, a missing key and a key of white space only all clear the client. */
  lemma RejectedKeys(w: string)
    requires AllSpace(w)
    ensures ClientAfterUpdate(Some(Placeholder), false) == None
    ensures ClientAfterUpdate(None, false) == None
    ensures ClientAfterUpdate(Some(w), false) == None
  {
    if w != [] {
      assert Trim(w) == [];
    }
  }

  /** A failed construction clears the client even for an acceptable key. */
  lemma ConstructionFailureClears(apiKey: Option<string>)
    ensures ClientAfterUpdate(apiKey, true) == None
  {
  }
}
