/** The front end's plant-information service: a per-plant cache in front of
    the model. A cached answer is returned as is; without an API key an error
    object is returned; otherwise the model's answer is cleaned of markdown
    fences, parsed, checked for its three descriptive fields and cached. Every
    failure becomes an error object whose message is chosen by what went
    wrong. The model and `JSON.parse` are parameters. */
module PlantInfo {
  import opened Text
  import opened Js

  /** The in-memory cache: plant name to the parsed answer. */
  type Cache = map<string, Value>

  const NoKeyMessage := "Gemini API key not configured. Add VITE_GEMINI_API_KEY to your .env file."
  const IncompleteMessage := "Incomplete response from AI"
  const NetworkMessage := "Network error. Please check your internet connection."
  const ParseFailureMessage := "Failed to parse AI response. Please try again."
  const UnexpectedMessage := "An unexpected error occurred. Please try again."

  /** `{ error: true, message }`. */
  function ErrorObject(message: string): Value {
    Obj(map["error" := Bool(true), "message" := Str(message)])
  }

  predicate IsErrorObject(v: Value) {
    v.Obj? && "error" in v.fields && v.fields["error"] == Bool(true)
  }

  /** An answer the service accepts: description, cultivation method and
      medical uses are all present and truthy. */
  predicate Complete(parsed: Value) {
    && parsed.Obj?
    && "description" in parsed.fields && Truthy(parsed.fields["description"])
    && "cultivation_method" in parsed.fields && Truthy(parsed.fields["cultivation_method"])
    && "medical_uses" in parsed.fields && Truthy(parsed.fields["medical_uses"])
  }

  /** The message shown for a caught error: a message mentioning "fetch" or
      "network" is a network error; otherwise a `SyntaxError` is a parse
      failure; otherwise the error's own message, or a generic one when that
      is empty. */
  function CaughtMessage(e: Error): (m: string)
    ensures Contains(e.message, "fetch") || Contains(e.message, "network") ==> m == NetworkMessage
    ensures !(Contains(e.message, "fetch") || Contains(e.message, "network")) && e.kind == SyntaxError ==>
              m == ParseFailureMessage
    ensures !(Contains(e.message, "fetch") || Contains(e.message, "network")) && e.kind != SyntaxError ==>
              m == (if e.message != "" then e.message else UnexpectedMessage)
    ensures m != ""
  {
    if Contains(e.message, "fetch") || Contains(e.message, "network") then NetworkMessage
    else if e.kind == SyntaxError then ParseFailureMessage
    else if e.message != "" then e.message
    else UnexpectedMessage
  }

  /** The prompt: the instructions, then the request naming the plant. */
  function InfoPrompt(systemPrompt: string, plantName: string): (p: string)
    ensures systemPrompt <= p
  {
    systemPrompt + "\n\nProvide educational information about the herbal plant: \"" + plantName
    + "\". Return ONLY the JSON object."
  }

  /** The model's answer text, checked: the parsed value when it is complete,
      the thrown error otherwise. */
  function CheckAnswer(text: string, parse: string -> Result<Value>): (r: Result<Value>)
    ensures r.Ok? ==> Complete(r.value) && parse(CleanModelText(text)) == Ok(r.value)
    ensures parse(CleanModelText(text)).Err? ==> r == parse(CleanModelText(text))
    ensures parse(CleanModelText(text)).Ok? && !Complete(parse(CleanModelText(text)).value) ==> r.Err?
    ensures parse(CleanModelText(text)).Ok? && Complete(parse(CleanModelText(text)).value) ==>
              r == parse(CleanModelText(text))
    ensures var v := parse(CleanModelText(text));
      v.Ok? && !(v.value.Null? || v.value.Undefined?) && !Complete(v.value) ==>
        r == Err(Error(OtherError, IncompleteMessage))
    ensures var v := parse(CleanModelText(text));
      v.Ok? && (v.value.Null? || v.value.Undefined?) ==> r.Err? && r.error.kind == TypeError
  {
    match parse(CleanModelText(text))
    case Err(e) => Err(e)
    case Ok(parsed) =>
      if parsed.Null? || parsed.Undefined? then Err(Error(TypeError, NullReadMessage(parsed, "description")))
      else if !Complete(parsed) then Err(Error(OtherError, IncompleteMessage))
      else Ok(parsed)
  }

  /** `getPlantInfo(plantName)` with the cache before and after the call.
      `apiKey` is empty when none is configured. */
  function GetPlantInfo(cache: Cache, plantName: string, apiKey: string, systemPrompt: string,
                        generate: string -> Result<string>, parse: string -> Result<Value>): (r: (Value, Cache))
    ensures plantName in cache ==> r == (cache[plantName], cache)
    ensures plantName !in cache && apiKey == "" ==> r == (ErrorObject(NoKeyMessage), cache)
    ensures r.1 == cache || (plantName !in cache && Complete(r.0) && r.1 == cache[plantName := r.0])
    ensures plantName !in cache ==> (r.1 == cache <==> !Complete(r.0))
    ensures plantName !in cache && !Complete(r.0) ==> IsErrorObject(r.0)
    ensures var p := InfoPrompt(systemPrompt, plantName);
      plantName !in cache && Complete(r.0) ==>
        apiKey != "" && generate(p).Ok? && CheckAnswer(generate(p).value, parse) == Ok(r.0)
    ensures var p := InfoPrompt(systemPrompt, plantName);
      plantName !in cache && apiKey != "" && generate(p).Ok? && CheckAnswer(generate(p).value, parse).Ok? ==>
        var answer := CheckAnswer(generate(p).value, parse).value;
        r == (answer, cache[plantName := answer])
    ensures var p := InfoPrompt(systemPrompt, plantName);
      plantName !in cache && apiKey != "" && generate(p).Err? ==>
        r == (ErrorObject(CaughtMessage(generate(p).error)), cache)
    ensures var p := InfoPrompt(systemPrompt, plantName);
      plantName !in cache && apiKey != "" && generate(p).Ok? && CheckAnswer(generate(p).value, parse).Err? ==>
        r == (ErrorObject(CaughtMessage(CheckAnswer(generate(p).value, parse).error)), cache)
  {
    if plantName in cache then (cache[plantName], cache)
    else if apiKey == "" then (ErrorObject(NoKeyMessage), cache)
    else
      var answer := match generate(InfoPrompt(systemPrompt, plantName))
        case Err(e) => Err(e)
        case Ok(text) => CheckAnswer(text, parse);
      match answer
      case Err(e) => (ErrorObject(CaughtMessage(e)), cache)
      case Ok(parsed) => (parsed, cache[plantName := parsed])
  }

  /** Every cached answer is complete. */
  predicate CacheComplete(cache: Cache) {
    forall name :: name in cache ==> Complete(cache[name])
  }

  /** Only complete answers enter the cache, so every answer the service
      returns is complete or an error object. */
  lemma GetPlantInfoKeepsCache(cache: Cache, plantName: string, apiKey: string, systemPrompt: string,
                               generate: string -> Result<string>, parse: string -> Result<Value>)
    requires CacheComplete(cache)
    ensures var r := GetPlantInfo(cache, plantName, apiKey, systemPrompt, generate, parse);
      CacheComplete(r.1) && (Complete(r.0) || IsErrorObject(r.0))
  {
  }

  /** Once a plant's answer is complete, asking again returns the same answer
      without consulting the key or the model. */
  lemma GetPlantInfoTwice(cache: Cache, plantName: string, apiKey: string, systemPrompt: string,
                          generate: string -> Result<string>, parse: string -> Result<Value>,
                          apiKey2: string, generate2: string -> Result<string>, parse2: string -> Result<Value>)
    ensures var r := GetPlantInfo(cache, plantName, apiKey, systemPrompt, generate, parse);
      Complete(r.0) ==> GetPlantInfo(r.1, plantName, apiKey2, systemPrompt, generate2, parse2) == r
  {
  }

  /** A complete answer wrapped in a "```json" fence is parsed without the
      fence and cached. */
  lemma GetPlantInfoFenced(cache: Cache, plantName: string, apiKey: string, systemPrompt: string,
                           generate: string -> Result<string>, parse: string -> Result<Value>, body: string)
    requires plantName !in cache && apiKey != ""
    requires generate(InfoPrompt(systemPrompt, plantName)) == Ok("```json\n" + body + "\n```")
    requires '`' !in body
    requires parse(Trim(body)).Ok? && Complete(parse(Trim(body)).value)
    ensures GetPlantInfo(cache, plantName, apiKey, systemPrompt, generate, parse)
         == (parse(Trim(body)).value, cache[plantName := parse(Trim(body)).value])
  {
    CleanFencedJson(body);
  }
}
