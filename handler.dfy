/** `Handler.main`: validate the query, fetch the image, detect its labels,
    translate their names, format the lines, and answer 200 with the text or
    500 with the message of whatever was thrown on the way. */
module Handler {
  import opened Wrappers
  import opened Labels
  import opened Translation
  import opened Format
  import JsStrings

  /** `event.queryStringParameters`; a parameter absent from the URL is None. */
  datatype Query = Query(imageUrl: Option<string>, lang: Option<string>)

  /** What `event.queryStringParameters` holds: the gateway passes null when
      the URL has no query string, and an event without the property gives
      undefined. */
  datatype QueryField = Null | Undefined | Given(query: Query)

  /** The invocation event. */
  datatype Event = Event(queryStringParameters: QueryField)

  datatype Response = Response(statusCode: int, body: string)

  /** The collaborators: `fetch` is `getImageBuffer` (the HTTP GET and the
      copy of its bytes into a Buffer; `Buffer.from` ignores the "base64"
      argument for binary data), `detect` the vision service's label
      detection, `translate` the translation service.  Each answers a value
      or throws. */
  datatype Providers = Providers(
    fetch: Option<string> -> Result<Bytes>,
    detect: Bytes -> Result<seq<Label>>,
    translate: TranslateRequest -> Result<string>)

  /** A request made to a collaborator. */
  datatype Call = Fetch(url: Option<string>) | Detect(image: Bytes) | Translate(request: TranslateRequest)

  /** What was handed to the `Error` constructor: a string, or a plain object
      literal with a `message` property. */
  datatype ErrorArgument = Text(text: string) | PlainObject(message: string)

  /** The `message` of `new Error(arg)`: the argument converted to a string,
      which for a plain object is "[object Object]" whatever it holds. */
  function ErrorMessage(arg: ErrorArgument): (message: string)
  {
    match arg
    case Text(t) => t
    case PlainObject(_) => "[object Object]"
  }

  /** What `main` throws when `lang` is missing:
      `new Error({ message: "lang parameter is missing" })`. */
  const LangMissing: ErrorArgument := PlainObject("lang parameter is missing")

  /** The TypeErrors V8 (Node.js 16 and later) throws when destructuring
      null or undefined query parameters. */
  const NullQueryMessage: string :=
    "Cannot destructure property 'imageUrl' of 'event.queryStringParameters' as it is null."

  const UndefinedQueryMessage: string :=
    "Cannot destructure property 'imageUrl' of 'event.queryStringParameters' as it is undefined."

  const ErrorPrefix: string := "A error has occurred: "

  const SuccessPrefix: string := "A imagem tem \n "

  /** JavaScript falsiness of a query parameter: absent or empty. */
  predicate Falsy(v: Option<string>)
  {
    v.None? || v.value == ""
  }

  /** The event is turned away before any collaborator is asked anything. */
  predicate Rejected(event: Event)
  {
    !event.queryStringParameters.Given? || Falsy(event.queryStringParameters.query.lang)
  }

  /** The answer of the `catch` branch. */
  function Failure(message: string): (resp: Response)
    ensures resp.statusCode == 500
    ensures |resp.body| == |ErrorPrefix| + |message|
    ensures resp.body[..|ErrorPrefix|] == ErrorPrefix && resp.body[|ErrorPrefix|..] == message
  {
    Response(500, ErrorPrefix + message)
  }

  /** The message thrown by a call, or None when the call answers a value. */
  function CallError(p: Providers, c: Call): (error: Option<string>)
  {
    match c
    case Fetch(u) => if p.fetch(u).Err? then Some(p.fetch(u).message) else None
    case Detect(b) => if p.detect(b).Err? then Some(p.detect(b).message) else None
    case Translate(req) => if p.translate(req).Err? then Some(p.translate(req).message) else None
  }

  /** The body of a success: the prefix concatenated with the lines array,
      which `String.prototype.concat` turns into the lines joined with ",". */
  function SuccessBody(lines: seq<string>): (body: string)
    ensures lines == [] ==> body == SuccessPrefix
    ensures |lines| == 1 ==> body == SuccessPrefix + lines[0]
  {
    SuccessPrefix + JsStrings.ArrayToString(lines)
  }

  /** Each formatted line after the first is preceded by a comma. */
  lemma SuccessBodySnoc(lines: seq<string>, line: string)
    requires lines != []
    ensures SuccessBody(lines + [line]) == SuccessBody(lines) + "," + line
  {
    JsStrings.JoinSnoc(lines, line, ",");
  }

  /** The `lang` check answers "[object Object]", not the text it was given,
      which handing `Error` the string itself would have kept. */
  lemma LangMissingBody()
    ensures Failure(ErrorMessage(LangMissing)).body == "A error has occurred: [object Object]"
    ensures ErrorMessage(Text(LangMissing.message)) == "lang parameter is missing"
  {
  }

  /** The calls made by `translateText`, one per request, in order. */
  function TranslateCalls(requests: seq<TranslateRequest>): (calls: seq<Call>)
    ensures |calls| == |requests|
    ensures forall k :: 0 <= k < |requests| ==> calls[k] == Translate(requests[k])
  {
    seq(|requests|, k requires 0 <= k < |requests| => Translate(requests[k]))
  }

  /** `main(event)`, with `fmt` for `toFixed(2)`.  `calls` lists, in order,
      the requests made to the collaborators. */
  method HandleEvent(event: Event, p: Providers, fmt: real -> string) returns (resp: Response, calls: seq<Call>)
    // the two early rejections, before any collaborator is called
    ensures event.queryStringParameters.Null? ==> resp == Failure(NullQueryMessage) && calls == []
    ensures event.queryStringParameters.Undefined? ==> resp == Failure(UndefinedQueryMessage) && calls == []
    ensures event.queryStringParameters.Given? && Falsy(event.queryStringParameters.query.lang) ==>
              resp == Failure("[object Object]") && calls == []
    // the steps, in order: fetch, detect, translate the names, translate "and"
    ensures !Rejected(event) ==>
              1 <= |calls| <= 4 && calls[0] == Fetch(event.queryStringParameters.query.imageUrl)
    ensures |calls| >= 2 ==>
              !Rejected(event) &&
              var image := p.fetch(event.queryStringParameters.query.imageUrl);
              (image.Ok? && calls[1] == Detect(image.value))
    ensures |calls| >= 3 ==>
              !Rejected(event) &&
              var q := event.queryStringParameters.query;
              var image := p.fetch(q.imageUrl);
              var labels := if image.Ok? then p.detect(image.value) else Err("");
              (labels.Ok? && calls[2] == Translate(Request(q.lang.value, Names(Confident(labels.value)))))
    ensures |calls| == 4 ==>
              !Rejected(event) &&
              calls[3] == Translate(Request(event.queryStringParameters.query.lang.value, DelimiterWord))
    // a step runs only when every earlier one answered a value
    ensures forall k :: 0 <= k < |calls| - 1 ==> CallError(p, calls[k]).None?
    ensures resp.statusCode == 200 || resp.statusCode == 500
    ensures resp.statusCode == 200 <==>
              !Rejected(event) && |calls| == 4 && CallError(p, calls[3]).None?
    // a failing step is the last one, and its message is the body
    ensures !Rejected(event) && resp.statusCode == 500 ==>
              CallError(p, calls[|calls| - 1]).Some? &&
              resp == Failure(CallError(p, calls[|calls| - 1]).value)
    // a success answers the formatted lines of the split translation
    ensures resp.statusCode == 200 ==>
              !Rejected(event) &&
              var q := event.queryStringParameters.query;
              var lang := q.lang.value;
              var image := p.fetch(q.imageUrl);
              var labels := if image.Ok? then p.detect(image.value) else Err("");
              var items := if labels.Ok? then Confident(labels.value) else [];
              var translated := p.translate(Request(lang, Names(items)));
              var delimiter := p.translate(Request(lang, DelimiterWord));
              (&& image.Ok? && labels.Ok? && translated.Ok? && delimiter.Ok?
               && resp.body == SuccessBody(FormattedLines(
                    JsStrings.Split(translated.value, DelimiterPattern(delimiter.value)), items, fmt)))
  {
    calls := [];
    if event.queryStringParameters.Null? {
      return Failure(NullQueryMessage), calls;
    }
    if event.queryStringParameters.Undefined? {
      return Failure(UndefinedQueryMessage), calls;
    }
    var q := event.queryStringParameters.query;
    if Falsy(q.lang) {
      return Failure(ErrorMessage(LangMissing)), calls;
    }
    var lang := q.lang.value;

    calls := [Fetch(q.imageUrl)];
    var buffer := p.fetch(q.imageUrl);
    if buffer.Err? {
      return Failure(buffer.message), calls;
    }

    calls := [Fetch(q.imageUrl), Detect(buffer.value)];
    var response := DetectImageLabels(p.detect, buffer.value);
    if response.Err? {
      return Failure(response.message), calls;
    }

    var texts, requests := TranslateText(p.translate, response.value.names, lang);
    calls := calls + TranslateCalls(requests);
    if texts.Err? {
      return Failure(texts.message), calls;
    }

    var finalText := FormatTextResults(texts.value, response.value.items, fmt);
    resp := Response(200, SuccessBody(finalText));
  }

  /** What `HandleEvent` answers for stand-in collaborators: "Cat" at 95.2 is
      kept and "Dog" at 60 is not; French answers "Chat" for the names and
      "et" for "and". */
  method CatExample() returns (resp: Response, calls: seq<Call>)
    ensures resp == Response(200, SuccessPrefix + CatText)
  {
    var cat := Label("Cat", 95.2);
    var labels := [cat, Label("Dog", 60.0)];
    var p := Providers(
      (_: Option<string>) => Ok([1]),
      (_: Bytes) => Ok(labels),
      (req: TranslateRequest) => if req.text == DelimiterWord then Ok("et") else Ok("Chat"));
    var fmt := (c: real) => "95.20";
    var event := Event(Given(Query(Some("https://x/img.png"), Some("fr"))));
    CatSteps();
    ChatIsOnePiece();
    CatLine(fmt);
    assert p.translate(Request("fr", "Cat")) == Ok("Chat");
    assert p.translate(Request("fr", DelimiterWord)) == Ok("et");
    resp, calls := HandleEvent(event, p, fmt);
    assert CallError(p, calls[|calls| - 1]).None? by {
      match calls[|calls| - 1]
      case Fetch(_) =>
      case Detect(_) =>
      case Translate(_) =>
    }
  }

  /** The detection steps of `CatExample`: the filter and the join. */
  lemma CatSteps()
    ensures Confident([Label("Cat", 95.2), Label("Dog", 60.0)]) == [Label("Cat", 95.2)]
    ensures Names([Label("Cat", 95.2)]) == "Cat"
  {
    assert NameList([Label("Cat", 95.2)]) == ["Cat"];
    var dog := Label("Dog", 60.0);
    assert [Label("Cat", 95.2), dog][1..] == [dog];
    assert Confident([dog]) == [];
  }

  /** The body of `CatExample`: the prefix and its one line. */
  lemma CatLine(fmt: real -> string)
    requires fmt(95.2) == "95.20"
    ensures SuccessBody(FormattedLines(["Chat"], [Label("Cat", 95.2)], fmt)) == SuccessPrefix + CatText
  {
    var cat := Label("Cat", 95.2);
    assert [cat][..0] == [];
    assert NameAt(["Chat"], 0) == "Chat";
    assert fmt(cat.confidence) == "95.20";
    assert Line("95.20", "Chat") == CatText;
    assert FormattedLines(["Chat"], [cat], fmt) == [CatText];
  }

  /** The line of `CatExample`. */
  const CatText: string := "95.20% de chances de ser Chat\n"

  /** The translated names of `CatExample` hold no " et ", so one piece. */
  lemma ChatIsOnePiece()
    ensures JsStrings.Split("Chat", DelimiterPattern("et")) == ["Chat"]
  {
    var sep := DelimiterPattern("et");
    assert |sep| == 4;
    assert JsStrings.IndexOf("Chat", sep, 1).None?;
    assert !JsStrings.MatchAt("Chat", sep, 0) by {
      assert "Chat"[0..4][0] == 'C';
    }
    assert JsStrings.IndexOf("Chat", sep, 0).None?;
  }
}
