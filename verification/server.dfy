/** The chat backend's request handlers: `POST /chat` validates the query,
    retrieves remedy records, builds a numbered context block per record, asks
    the model for a JSON answer, strips markdown fences and returns the four
    answer fields; `POST /identify-plant` sends an uploaded image to the model
    and returns two fields with defaults. Retrieval, the model and `JSON.parse`
    are parameters; a thrown error becomes status 502 when it is a
    `SyntaxError` and 500 otherwise. */
module ChatServer {
  import opened Text
  import opened Js

  // ------------------------------------------------------------ score text

  /** The three decimals of `m`, with leading zeros. */
  function Pad3(m: nat): (r: string)
    requires m < 1000
    ensures |r| == 3 && IsDigits(r)
  {
    [DigitChar(m / 100), DigitChar(m / 10 % 10), DigitChar(m % 10)]
  }

  /** The nearest whole number of thousandths, the larger one on a tie. */
  function Thousandths(x: real): nat
    requires x >= 0.0
  {
    (x * 1000.0 + 0.5).Floor
  }

  function FixedNonNegative(x: real): string
    requires x >= 0.0
  {
    var n := Thousandths(x);
    Dec(n / 1000) + "." + Pad3(n % 1000)
  }

  /** `Number.prototype.toFixed(3)` on an exact value: a minus sign for a
      negative value, then the magnitude rounded to thousandths. */
  function ToFixed3(x: real): (r: string)
    ensures |r| >= 5 && r[|r| - 4] == '.'
    ensures IsDigits(r[|r| - 3..])
    ensures x >= 0.0 ==> IsDigits(r[..|r| - 4])
    ensures x < 0.0 ==> r[0] == '-' && IsDigits(r[1..|r| - 4])
  {
    if x < 0.0 then "-" + FixedNonNegative(-x) else FixedNonNegative(x)
  }

  lemma ParsePad3(m: nat)
    requires m < 1000
    ensures ParseDec(Pad3(m)) == m
  {
    var p := Pad3(m);
    assert p[..2][..1] == p[..1];
    assert p[..1][..0] == [];
    assert ParseDec(p[..1]) == m / 100;
    assert ParseDec(p[..2]) == (m / 100) * 10 + m / 10 % 10;
    assert ParseDec(p) == ParseDec(p[..2]) * 10 + m % 10;
  }

  /** `r` is a plain decimal with three decimals whose value lies within half
      a thousandth of `y`. */
  predicate ReadsBack(r: string, y: real) {
    && |r| >= 5 && r[|r| - 4] == '.'
    && IsDigits(r[..|r| - 4]) && IsDigits(r[|r| - 3..])
    && var v := ParseDec(r[..|r| - 4]) * 1000 + ParseDec(r[|r| - 3..]);
       y - 0.0005 < v as real / 1000.0 <= y + 0.0005
  }

  /** The text of a non-negative score reads back as a value within half a
      thousandth of the score. */
  lemma ToFixed3Close(x: real)
    requires x >= 0.0
    ensures ReadsBack(ToFixed3(x), x)
  {
    var n := Thousandths(x);
    var r := ToFixed3(x);
    assert r[..|r| - 4] == Dec(n / 1000);
    assert r[|r| - 3..] == Pad3(n % 1000);
    ParseDecOfDec(n / 1000);
    ParsePad3(n % 1000);
    assert (n / 1000) * 1000 + n % 1000 == n;
  }

  /** A negative score is shown as a minus sign followed by the text of its
      magnitude, so with ToFixed3Close every score reads back within half a
      thousandth of its magnitude. */
  lemma ToFixed3Negative(x: real)
    requires x < 0.0
    ensures ToFixed3(x) == "-" + ToFixed3(-x)
    ensures ToFixed3(x)[0] == '-' && ReadsBack(ToFixed3(x)[1..], -x)
  {
    var m := FixedNonNegative(-x);
    assert ToFixed3(-x) == m;
    assert ToFixed3(x) == "-" + m;
    assert ToFixed3(x)[1..] == m;
    ToFixed3Close(-x);
  }

  // ------------------------------------------------------------ context

  /** A retrieved record: its relevance score and its stored fields; either
      may be missing. */
  datatype Hit = Hit(score: Option<real>, fields: Option<map<string, string>>)

  /** `hit.fields?.key || fallback`. */
  function FieldOr(hit: Hit, key: string, fallback: string): (r: string)
    ensures hit.fields.Some? && key in hit.fields.value && hit.fields.value[key] != "" ==> r == hit.fields.value[key]
    ensures !(hit.fields.Some? && key in hit.fields.value && hit.fields.value[key] != "") ==> r == fallback
  {
    if hit.fields.Some? && key in hit.fields.value && hit.fields.value[key] != "" then hit.fields.value[key]
    else fallback
  }

  /** `hit._score?.toFixed(3) || "N/A"`: the rendering is never empty, so only
      a missing score falls back. */
  function ScoreText(hit: Hit): string {
    if hit.score.Some? then ToFixed3(hit.score.value) else "N/A"
  }

  const RemedyHeader := "[Remedy "
  const ScoreLabel := " \U{2014} Score: "

  /** The start of the `n`-th block, up to the score. */
  function BlockHead(n: nat): string {
    RemedyHeader + Dec(n) + ScoreLabel
  }

  /** The block describing the `n`-th hit. */
  function HitBlock(hit: Hit, n: nat): (b: string)
    ensures BlockHead(n) <= b
  {
    BlockHead(n) + HitDetails(hit)
  }

  /** The score and the stored fields, each missing one replaced by its
      placeholder. */
  function HitDetails(hit: Hit): string {
    ScoreText(hit) + "]\n"
    + "Health Condition: " + FieldOr(hit, "condition", "Unknown") + "\n"
    + "Herb: " + FieldOr(hit, "plantName", "Unknown") + " (" + FieldOr(hit, "scientificName", "Unknown") + ")\n"
    + "Preparation: " + FieldOr(hit, "preparation", "N/A") + "\n"
    + "Source: " + FieldOr(hit, "source", "N/A") + "\n"
    + "Details: " + FieldOr(hit, "chunk_text", "N/A")
  }

  function HitBlocks(hits: seq<Hit>): (bs: seq<string>)
    ensures |bs| == |hits|
    ensures forall i :: 0 <= i < |hits| ==> bs[i] == HitBlock(hits[i], i + 1)
  {
    seq(|hits|, i requires 0 <= i < |hits| => HitBlock(hits[i], i + 1))
  }

  const BlockSeparator := "\n\n"

  /** `buildContext(hits)`: the blocks of the hits, numbered from 1, separated
      by a blank line. */
  function BuildContext(hits: seq<Hit>): (ctx: string)
    ensures hits == [] ==> ctx == ""
    ensures hits != [] ==> HitBlock(hits[0], 1) <= ctx
  {
    Join(HitBlocks(hits), BlockSeparator)
  }

  /** One more hit adds its block, numbered after the others, at the end. */
  lemma BuildContextAppend(hits: seq<Hit>, hit: Hit)
    requires hits != []
    ensures BuildContext(hits + [hit]) == BuildContext(hits) + BlockSeparator + HitBlock(hit, |hits| + 1)
  {
    assert HitBlocks(hits + [hit]) == HitBlocks(hits) + [HitBlock(hit, |hits| + 1)];
    JoinAppend(HitBlocks(hits), HitBlock(hit, |hits| + 1), BlockSeparator);
  }

  /** The number can be read back from a block: equal blocks have equal
      numbers. */
  lemma BlockHeadNumber(m: nat, n: nat, x: string, y: string)
    requires BlockHead(m) + x == BlockHead(n) + y
    ensures m == n
  {
    var b := BlockHead(m) + x;
    var dm := Dec(m);
    var dn := Dec(n);
    var k := |RemedyHeader|;
    assert b[k..k + |dm|] == dm && b[k + |dm|] == ' ';
    assert b[k..k + |dn|] == dn && b[k + |dn|] == ' ';
    assert forall i :: 0 <= i < |dm| ==> b[k + i] == dm[i];
    assert forall i :: 0 <= i < |dn| ==> b[k + i] == dn[i];
    assert |dm| == |dn|;
    DecInjective(m, n);
  }

  /** The numbers in the headers tell the blocks apart. */
  lemma HitBlocksDistinct(hits: seq<Hit>, i: nat, j: nat)
    requires i < j < |hits|
    ensures HitBlocks(hits)[i] != HitBlocks(hits)[j]
  {
    if HitBlocks(hits)[i] == HitBlocks(hits)[j] {
      BlockHeadNumber(i + 1, j + 1, HitDetails(hits[i]), HitDetails(hits[j]));
    }
  }

  // ------------------------------------------------------------ replies

  /** The status and JSON body of a reply. */
  datatype Response = Response(status: nat, body: Value)

  function ErrorBody(message: string): Value {
    Obj(map["error" := Str(message)])
  }

  /** A thrown `SyntaxError` (the model's answer was not JSON) is a bad
      gateway; anything else is an internal error. */
  function ErrorStatus(e: Error): (status: nat)
    ensures status == 502 <==> e.kind == SyntaxError
    ensures status == 500 <==> e.kind != SyntaxError
  {
    if e.kind == SyntaxError then 502 else 500
  }

  const QueryRequired := "A non-empty 'query' string is required."
  const ChatParseFailure := "Failed to parse AI response. Please try again."
  const ChatInternalFailure := "Internal server error. Please try again later."

  function ChatFailure(e: Error): (r: Response)
    ensures r.status == ErrorStatus(e)
  {
    Response(ErrorStatus(e), ErrorBody(if e.kind == SyntaxError then ChatParseFailure else ChatInternalFailure))
  }

  /** A query the handler accepts: a string with something besides white
      space. */
  predicate NonBlank(q: Value) {
    q.Str? && Trim(q.s) != ""
  }

  /** The reply when retrieval finds nothing; the model is not asked. */
  const NoResults := Obj(map[
    "summary" := Str("No relevant Ayurvedic information was found for your query."),
    "recommended_herbs" := Arr([]),
    "preparation" := Str("N/A"),
    "disclaimer" := Str("This information is for educational purposes only. Consult a qualified healthcare provider for medical advice.")
  ])

  const ContextHeader := "\n\n--- CONTEXT ---\n"
  const QueryHeader := "\n\n--- USER QUERY ---\n"

  /** The prompt: the system prompt, then the context, then the query. */
  function ChatPrompt(systemPrompt: string, context: string, query: string): (p: string)
    ensures systemPrompt <= p
    ensures |query| <= |p| && p[|p| - |query|..] == query
  {
    systemPrompt + ContextHeader + context + QueryHeader + query
  }

  predicate AnswerKey(k: string) {
    k == "summary" || k == "recommended_herbs" || k == "preparation" || k == "disclaimer"
  }

  /** The four answer fields of the parsed answer, as sent. */
  function AnswerBody(parsed: Value): (v: Value)
    requires !(parsed.Null? || parsed.Undefined?)
  {
    Serialized(map[
      "summary" := Member(parsed, "summary"),
      "recommended_herbs" := Member(parsed, "recommended_herbs"),
      "preparation" := Member(parsed, "preparation"),
      "disclaimer" := Member(parsed, "disclaimer")])
  }

  /** The reply carries exactly the answer fields the model filled in, with
      their values; any other field of the answer is dropped, and an answer
      that is not an object gives an empty reply object. */
  lemma AnswerBodyFields(parsed: Value)
    requires !(parsed.Null? || parsed.Undefined?)
    ensures var v := AnswerBody(parsed);
      && v.Obj?
      && (forall k :: k in v.fields <==>
            AnswerKey(k) && parsed.Obj? && k in parsed.fields && !parsed.fields[k].Undefined?)
      && (forall k :: k in v.fields ==> v.fields[k] == parsed.fields[k])
  {
  }

  /** The handling of the model's answer text: clean, parse, reply. */
  function ModelReply(text: string, parse: string -> Result<Value>): (r: Response)
    ensures r.status == 200 || r.status == 500 || r.status == 502
    ensures r.status == 502 <==> parse(CleanModelText(text)).Err? && parse(CleanModelText(text)).error.kind == SyntaxError
    ensures r.status == 200 <==> parse(CleanModelText(text)).Ok? && !(parse(CleanModelText(text)).value.Null? || parse(CleanModelText(text)).value.Undefined?)
    ensures r.status == 200 ==> r.body == AnswerBody(parse(CleanModelText(text)).value)
  {
    match parse(CleanModelText(text))
    case Err(e) => ChatFailure(e)
    case Ok(parsed) =>
      if parsed.Null? || parsed.Undefined? then
        ChatFailure(Error(TypeError, NullReadMessage(parsed, "summary")))
      else Response(200, AnswerBody(parsed))
  }

  /** The handling of an accepted query, already trimmed. */
  function Answer(query: string, systemPrompt: string, search: string -> Result<seq<Hit>>,
                  generate: string -> Result<string>, parse: string -> Result<Value>): (r: Response)
    ensures r.status == 200 || r.status == 500 || r.status == 502
    ensures search(query) == Ok([]) ==> r == Response(200, NoResults)
    ensures search(query).Ok? && search(query).value != [] &&
            generate(ChatPrompt(systemPrompt, BuildContext(search(query).value), query)).Ok? ==>
              r == ModelReply(generate(ChatPrompt(systemPrompt, BuildContext(search(query).value), query)).value, parse)
    ensures search(query).Err? ==> r == ChatFailure(search(query).error)
    ensures search(query).Ok? && search(query).value != [] &&
            generate(ChatPrompt(systemPrompt, BuildContext(search(query).value), query)).Err? ==>
              r == ChatFailure(generate(ChatPrompt(systemPrompt, BuildContext(search(query).value), query)).error)
  {
    match search(query)
    case Err(e) => ChatFailure(e)
    case Ok(hits) =>
      if hits == [] then Response(200, NoResults)
      else
        match generate(ChatPrompt(systemPrompt, BuildContext(hits), query))
        case Err(e) => ChatFailure(e)
        case Ok(text) => ModelReply(text, parse)
  }

  /** `POST /chat`. `search` is the retrieval of the top five records for the
      trimmed query, `generate` the model call and `parse` `JSON.parse`;
      each may throw. */
  function Chat(body: Value, systemPrompt: string, search: string -> Result<seq<Hit>>,
                generate: string -> Result<string>, parse: string -> Result<Value>): (r: Response)
    ensures r.status == 200 || r.status == 400 || r.status == 500 || r.status == 502
    ensures r.status == 400 <==> Get(body, "query").Ok? && !NonBlank(Get(body, "query").value)
    ensures r.status == 400 ==> r.body == ErrorBody(QueryRequired)
    ensures r.status == 502 ==> r.body == ErrorBody(ChatParseFailure)
    ensures r.status == 500 ==> r.body == ErrorBody(ChatInternalFailure)
    ensures Get(body, "query").Ok? && NonBlank(Get(body, "query").value) ==>
              r == Answer(Trim(Get(body, "query").value.s), systemPrompt, search, generate, parse)
    ensures Get(body, "query").Err? ==> r == ChatFailure(Get(body, "query").error) && r.status == 500
  {
    match Get(body, "query")
    case Err(e) => ChatFailure(e)
    case Ok(q) =>
      if !NonBlank(q) then Response(400, ErrorBody(QueryRequired))
      else Answer(Trim(q.s), systemPrompt, search, generate, parse)
  }

  /** White space around the query changes nothing. */
  lemma ChatTrimsQuery(s: string, systemPrompt: string, search: string -> Result<seq<Hit>>,
                       generate: string -> Result<string>, parse: string -> Result<Value>)
    ensures Chat(Obj(map["query" := Str(s)]), systemPrompt, search, generate, parse)
         == Chat(Obj(map["query" := Str(Trim(s))]), systemPrompt, search, generate, parse)
  {
    TrimIdempotent(s);
    assert Get(Obj(map["query" := Str(s)]), "query") == Ok(Str(s));
    assert Get(Obj(map["query" := Str(Trim(s))]), "query") == Ok(Str(Trim(s)));
  }

  /** Without hits the canned reply is sent, whatever the model would say. */
  lemma ChatNoHits(s: string, systemPrompt: string, search: string -> Result<seq<Hit>>,
                   generate: string -> Result<string>, parse: string -> Result<Value>)
    requires Trim(s) != "" && search(Trim(s)) == Ok([])
    ensures Chat(Obj(map["query" := Str(s)]), systemPrompt, search, generate, parse) == Response(200, NoResults)
  {
  }

  /** An answer wrapped in a "```json" fence is parsed without the fence, and
      the reply carries exactly the answer fields the model filled in. */
  lemma ChatFencedAnswer(s: string, systemPrompt: string, search: string -> Result<seq<Hit>>,
                         generate: string -> Result<string>, parse: string -> Result<Value>,
                         answer: string, fields: map<string, Value>)
    requires Trim(s) != "" && search(Trim(s)).Ok? && search(Trim(s)).value != []
    requires generate(ChatPrompt(systemPrompt, BuildContext(search(Trim(s)).value), Trim(s)))
          == Ok("```json\n" + answer + "\n```")
    requires '`' !in answer
    requires parse(Trim(answer)) == Ok(Obj(fields))
    ensures Chat(Obj(map["query" := Str(s)]), systemPrompt, search, generate, parse)
         == Response(200, AnswerBody(Obj(fields)))
  {
    var body := Obj(map["query" := Str(s)]);
    var text := "```json\n" + answer + "\n```";
    assert Get(body, "query") == Ok(Str(s));
    var r := Chat(body, systemPrompt, search, generate, parse);
    assert r == ModelReply(text, parse);
    CleanFencedJson(answer);
  }

  // ------------------------------------------------------------ identify

  /** An uploaded image: its declared MIME type and its bytes. */
  datatype Upload = Upload(mimeType: string, data: seq<bv8>)

  const DefaultMimeType := "image/jpeg"
  const NoImage := "No image file provided"
  const IdentifyParseFailure := "Failed to parse AI response"
  const IdentifyFailure := "Failed to identify plant"
  const UnknownPlant := "Unknown"
  const NoMedicalValue := "No medicinal information available"

  /** `req.file.mimetype || "image/jpeg"`. */
  function MimeTypeOf(file: Upload): (m: string)
    ensures m != ""
    ensures file.mimeType != "" ==> m == file.mimeType
    ensures file.mimeType == "" ==> m == DefaultMimeType
  {
    if file.mimeType != "" then file.mimeType else DefaultMimeType
  }

  function IdentifyError(e: Error): (r: Response)
    ensures r.status == ErrorStatus(e)
  {
    Response(ErrorStatus(e), ErrorBody(if e.kind == SyntaxError then IdentifyParseFailure else IdentifyFailure))
  }

  /** `POST /identify-plant`. `generate` is the model call on the image with its
      MIME type. */
  function IdentifyPlant(file: Option<Upload>, generate: (string, seq<bv8>) -> Result<string>,
                         parse: string -> Result<Value>): (r: Response)
    ensures r.status == 200 || r.status == 400 || r.status == 500 || r.status == 502
    ensures r.status == 400 <==> file.None?
    ensures r.status == 200 ==> r.body.Obj? && r.body.fields.Keys == {"identified_plant", "medical_value"}
    ensures r.status == 200 ==> Truthy(r.body.fields["identified_plant"]) && Truthy(r.body.fields["medical_value"])
    ensures file.Some? ==> var g := generate(MimeTypeOf(file.value), file.value.data);
      && (r.status == 502 <==>
            || (g.Err? && g.error.kind == SyntaxError)
            || (g.Ok? && parse(CleanModelText(g.value)).Err? && parse(CleanModelText(g.value)).error.kind == SyntaxError))
      && (r.status == 200 <==>
            g.Ok? && parse(CleanModelText(g.value)).Ok?
            && !(parse(CleanModelText(g.value)).value.Null? || parse(CleanModelText(g.value)).value.Undefined?))
    ensures r.status == 502 ==> r.body == ErrorBody(IdentifyParseFailure)
    ensures r.status == 500 ==> r.body == ErrorBody(IdentifyFailure)
  {
    match file
    case None => Response(400, ErrorBody(NoImage))
    case Some(f) =>
      match generate(MimeTypeOf(f), f.data)
      case Err(e) => IdentifyError(e)
      case Ok(text) =>
        match parse(CleanModelText(text))
        case Err(e) => IdentifyError(e)
        case Ok(parsed) =>
          if parsed.Null? || parsed.Undefined? then
            IdentifyError(Error(TypeError, NullReadMessage(parsed, "identified_plant")))
          else
            Response(200, Obj(map[
              "identified_plant" := OrElse(Member(parsed, "identified_plant"), Str(UnknownPlant)),
              "medical_value" := OrElse(Member(parsed, "medical_value"), Str(NoMedicalValue))]))
  }

  predicate Filled(fields: map<string, Value>, key: string) {
    key in fields && Truthy(fields[key])
  }

  /** A filled-in answer is passed through; an empty or missing field gets its
      default. */
  lemma IdentifyDefaults(file: Upload, generate: (string, seq<bv8>) -> Result<string>,
                         parse: string -> Result<Value>, fields: map<string, Value>)
    requires generate(MimeTypeOf(file), file.data).Ok?
    requires parse(CleanModelText(generate(MimeTypeOf(file), file.data).value)) == Ok(Obj(fields))
    ensures var r := IdentifyPlant(Some(file), generate, parse);
      && r.status == 200
      && (Filled(fields, "identified_plant") ==> r.body.fields["identified_plant"] == fields["identified_plant"])
      && (!Filled(fields, "identified_plant") ==> r.body.fields["identified_plant"] == Str(UnknownPlant))
      && (Filled(fields, "medical_value") ==> r.body.fields["medical_value"] == fields["medical_value"])
      && (!Filled(fields, "medical_value") ==> r.body.fields["medical_value"] == Str(NoMedicalValue))
  {
  }
}
