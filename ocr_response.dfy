/**
 * The recognition service's reply and how the view model reads it
 * (SimpleTexResponse, SimpleTexRes, InfoData and the response handler of
 * callSimpleTex). JSON arrives already parsed into a `Json` value; the
 * Decodable rules the Swift types rely on are written out: a required key
 * must be present, non-null and of its type; an optional key may be
 * absent or null but not of another type.
 */
module OcrResponse {
  import opened Wrappers

  datatype Json =
    | JNull
    | JBool(b: bool)
    | JNumber(n: real)
    | JString(s: string)
    | JArray(items: seq<Json>)
    | JObject(fields: map<string, Json>)

  datatype DecodeError =
    | DataCorrupted            // the bytes are not JSON at all
    | NotAnObject(key: string) // a keyed container was expected; "" is the top level
    | KeyNotFound(key: string)
    | ValueNotFound(key: string)
    | TypeMismatch(key: string)

  /** The `info` field: plain text, or an object with an optional markdown rendering. */
  datatype Info = Text(s: string) | Structured(markdown: Option<string>)

  datatype Res = Res(kind: string, info: Info, conf: Option<real>)

  datatype Response = Response(status: bool, res: Option<Res>, requestId: Option<string>)

  /** The body the transport delivered: unparsable bytes, or a JSON value. */
  datatype Payload = Unparsable | Parsed(json: Json)

  datatype OcrError = Transport(description: string) | StatusFalse | Malformed(cause: DecodeError)

  datatype OcrResult = Success(text: string, confidence: real, requestId: string) | Failure(error: OcrError)

  const FormulaKind := "formula"
  const FormulaOpen := "$$\n"
  const FormulaClose := "\n$$"
  /** Shown when `info` is an object without markdown. */
  const UnknownStructure := "解析结果结构未知"
  const StatusFalseDescription := "API status false"
  const UnknownRequestId := "unknown"
  const DefaultConfidence: real := 0.0
  /** Stands for Foundation's message for a reply that does not decode. */
  const DecodingFailureDescription := "The data couldn't be read because it isn't in the correct format."

  // ---------------------------------------------------------------------
  // Decodable rules

  function DecodeBool(fields: map<string, Json>, key: string): Result<bool, DecodeError> {
    if key !in fields then Err(KeyNotFound(key))
    else match fields[key]
      case JBool(b) => Ok(b)
      case JNull => Err(ValueNotFound(key))
      case _ => Err(TypeMismatch(key))
  }

  function DecodeString(fields: map<string, Json>, key: string): Result<string, DecodeError> {
    if key !in fields then Err(KeyNotFound(key))
    else match fields[key]
      case JString(s) => Ok(s)
      case JNull => Err(ValueNotFound(key))
      case _ => Err(TypeMismatch(key))
  }

  function DecodeStringIfPresent(fields: map<string, Json>, key: string): Result<Option<string>, DecodeError> {
    if key !in fields then Ok(None)
    else match fields[key]
      case JNull => Ok(None)
      case JString(s) => Ok(Some(s))
      case _ => Err(TypeMismatch(key))
  }

  function DecodeNumberIfPresent(fields: map<string, Json>, key: string): Result<Option<real>, DecodeError> {
    if key !in fields then Ok(None)
    else match fields[key]
      case JNull => Ok(None)
      case JNumber(n) => Ok(Some(n))
      case _ => Err(TypeMismatch(key))
  }

  /** InfoDataWrapper: a keyed object whose `markdown` is an optional string. */
  function DecodeInfoObject(v: Json): (r: Result<Option<string>, DecodeError>)
    ensures r.Ok? <==> v.JObject? && ("markdown" in v.fields ==> v.fields["markdown"].JNull? || v.fields["markdown"].JString?)
    ensures r.Ok? ==>
      r.value == if "markdown" in v.fields && v.fields["markdown"].JString? then Some(v.fields["markdown"].s) else None
  {
    match v
    case JObject(fields) => DecodeStringIfPresent(fields, "markdown")
    case JNull => Err(ValueNotFound("info"))
    case _ => Err(TypeMismatch("info"))
  }

  /**
   * The probe for `info` (absent when v is None): first as an object with
   * optional markdown, then as a string, and failing both, empty text. It
   * never fails.
   */
  function DecodeInfo(v: Option<Json>): (info: Info)
    ensures info.Structured? <==> v.Some? && DecodeInfoObject(v.value).Ok?
    ensures info.Structured? ==> v.value.JObject? && info.markdown == DecodeInfoObject(v.value).value
    ensures info.Text? && info.s != "" ==> v == Some(JString(info.s))
    ensures v.Some? && v.value.JString? ==> info == Text(v.value.s)
  {
    if v.Some? && DecodeInfoObject(v.value).Ok? then Structured(DecodeInfoObject(v.value).value)
    else if v.Some? && v.value.JString? then Text(v.value.s)
    else Text("")
  }

  /** Whatever `info` holds that is neither a usable object nor a string (missing, null, a number, an array, an object with non-string markdown) reads as empty text. */
  lemma InfoFallback(v: Option<Json>)
    requires v.None? || (!v.value.JString? && DecodeInfoObject(v.value).Err?)
    ensures DecodeInfo(v) == Text("")
  {
  }

  /**
   * SimpleTexRes: `type` is a required string, `conf` an optional number,
   * and `info` goes through the probe above.
   */
  function DecodeRes(v: Json): (r: Result<Res, DecodeError>)
    ensures r.Ok? <==>
      && v.JObject? && "type" in v.fields && v.fields["type"].JString?
      && ("conf" in v.fields ==> v.fields["conf"].JNull? || v.fields["conf"].JNumber?)
    ensures r.Ok? ==>
      && r.value.kind == v.fields["type"].s
      && r.value.conf == (if "conf" in v.fields && v.fields["conf"].JNumber? then Some(v.fields["conf"].n) else None)
      && r.value.info == DecodeInfo(if "info" in v.fields then Some(v.fields["info"]) else None)
    ensures v.JNull? ==> r == Err(ValueNotFound("res"))
    ensures v.JObject? && "type" !in v.fields ==> r == Err(KeyNotFound("type"))
  {
    match v
    case JObject(fields) =>
      var kind := DecodeString(fields, "type");
      var conf := DecodeNumberIfPresent(fields, "conf");
      if kind.Err? then Err(kind.error)
      else if conf.Err? then Err(conf.error)
      else Ok(Res(kind.value, DecodeInfo(if "info" in fields then Some(fields["info"]) else None), conf.value))
    case JNull => Err(ValueNotFound("res"))
    case _ => Err(NotAnObject("res"))
  }

  /** The whole envelope, keys decoded in declaration order: status, res, request_id. */
  function DecodeResponse(v: Json): (r: Result<Response, DecodeError>)
    ensures r.Ok? <==>
      && v.JObject? && "status" in v.fields && v.fields["status"].JBool?
      && ("res" in v.fields && v.fields["res"] != JNull ==> DecodeRes(v.fields["res"]).Ok?)
      && ("request_id" in v.fields ==> v.fields["request_id"].JNull? || v.fields["request_id"].JString?)
    ensures r.Ok? ==>
      && r.value.status == v.fields["status"].b
      && (r.value.res.Some? <==> "res" in v.fields && v.fields["res"] != JNull)
      && (r.value.res.Some? ==> r.value.res.value == DecodeRes(v.fields["res"]).value)
      && r.value.requestId ==
           if "request_id" in v.fields && v.fields["request_id"].JString? then Some(v.fields["request_id"].s) else None
    ensures !v.JObject? ==> r == Err(NotAnObject(""))
    ensures v.JObject? && "status" !in v.fields ==> r == Err(KeyNotFound("status"))
  {
    match v
    case JObject(fields) =>
      var status := DecodeBool(fields, "status");
      var res: Result<Option<Res>, DecodeError> :=
        if "res" !in fields || fields["res"] == JNull then Ok(None)
        else var r := DecodeRes(fields["res"]); if r.Err? then Err(r.error) else Ok(Some(r.value));
      var requestId := DecodeStringIfPresent(fields, "request_id");
      if status.Err? then Err(status.error)
      else if res.Err? then Err(res.error)
      else if requestId.Err? then Err(requestId.error)
      else Ok(Response(status.value, res.value, requestId.value))
    case _ => Err(NotAnObject(""))
  }

  // ---------------------------------------------------------------------
  // Encoding: the shape the service sends, used as the decoder's partner

  function EncodeInfo(info: Info): Json {
    match info
    case Text(s) => JString(s)
    case Structured(None) => JObject(map[])
    case Structured(Some(md)) => JObject(map["markdown" := JString(md)])
  }

  function EncodeRes(res: Res): Json {
    var base := map["type" := JString(res.kind), "info" := EncodeInfo(res.info)];
    JObject(if res.conf.Some? then base["conf" := JNumber(res.conf.value)] else base)
  }

  function Encode(r: Response): Json {
    var base := map["status" := JBool(r.status)];
    var withRes := if r.res.Some? then base["res" := EncodeRes(r.res.value)] else base;
    JObject(if r.requestId.Some? then withRes["request_id" := JString(r.requestId.value)] else withRes)
  }

  lemma {:induction false} InfoRoundTrip(info: Info)
    ensures DecodeInfo(Some(EncodeInfo(info))) == info
  {
    match info
    case Text(s) =>
      assert DecodeInfoObject(JString(s)).Err?;
    case Structured(md) =>
  }

  lemma {:induction false} ResRoundTrip(res: Res)
    ensures DecodeRes(EncodeRes(res)) == Ok(res)
  {
    InfoRoundTrip(res.info);
  }

  /** Every reply the service can send decodes to exactly what it encodes. */
  lemma {:induction false} ResponseRoundTrip(r: Response)
    ensures DecodeResponse(Encode(r)) == Ok(r)
  {
    if r.res.Some? {
      ResRoundTrip(r.res.value);
    }
  }

  // ---------------------------------------------------------------------
  // From reply to outcome

  /** The text shown for a decoded result. */
  function FinalText(res: Res): (text: string)
    ensures res.info.Text? && res.kind == FormulaKind ==> text == FormulaOpen + res.info.s + FormulaClose
    ensures res.info.Text? && res.kind != FormulaKind ==> text == res.info.s
    ensures res.info.Structured? ==> text == res.info.markdown.GetOr(UnknownStructure)
  {
    match res.info
    case Text(s) => if res.kind == FormulaKind then FormulaOpen + s + FormulaClose else s
    case Structured(md) => if md.Some? then md.value else UnknownStructure
  }

  /** Strip the display-math fence that FinalText puts around a formula; other text is left as it is. */
  function Unfence(text: string): (s: string)
    ensures s == text || text == FormulaOpen + s + FormulaClose
  {
    if |text| >= |FormulaOpen| + |FormulaClose|
       && text[..|FormulaOpen|] == FormulaOpen && text[|text| - |FormulaClose|..] == FormulaClose
    then text[|FormulaOpen|..|text| - |FormulaClose|]
    else text
  }

  /** A formula is fenced on its own lines, and removing the fence gives the recognised source back. */
  lemma {:induction false} FormulaFenceRoundTrip(s: string, conf: Option<real>)
    ensures FinalText(Res(FormulaKind, Text(s), conf)) == FormulaOpen + s + FormulaClose
    ensures FinalText(Res(FormulaKind, Text(s), conf))[..3] == FormulaOpen
    ensures Unfence(FinalText(Res(FormulaKind, Text(s), conf))) == s
  {
    var t := FinalText(Res(FormulaKind, Text(s), conf));
    assert t == FormulaOpen + s + FormulaClose;
    assert t[..3] == FormulaOpen;
    assert t[|t| - 3..] == FormulaClose;
    assert t[3..|t| - 3] == s;
  }

  /** The message stored in lastError for each failure. */
  function Describe(e: OcrError): (d: string)
    ensures e.Transport? ==> d == e.description
    ensures e.StatusFalse? ==> d == StatusFalseDescription
    ensures e.Malformed? ==> d == DecodingFailureDescription
  {
    match e
    case Transport(d) => d
    case StatusFalse => StatusFalseDescription
    case Malformed(_) => DecodingFailureDescription
  }

  /**
   * A decoded reply becomes a success only when status is true and `res`
   * is present; confidence and request id fall back to their defaults.
   */
  function Interpret(decoded: Result<Response, DecodeError>): (r: OcrResult)
    ensures r.Success? <==> decoded.Ok? && decoded.value.status && decoded.value.res.Some?
    ensures decoded.Err? ==> r == Failure(Malformed(decoded.error))
    ensures decoded.Ok? && !(decoded.value.status && decoded.value.res.Some?) ==> r == Failure(StatusFalse)
    ensures r.Success? ==>
      && r.text == FinalText(decoded.value.res.value)
      && r.confidence == decoded.value.res.value.conf.GetOr(DefaultConfidence)
      && r.requestId == decoded.value.requestId.GetOr(UnknownRequestId)
  {
    match decoded
    case Err(e) => Failure(Malformed(e))
    case Ok(resp) =>
      var reqId := resp.requestId.GetOr(UnknownRequestId);
      if !resp.status || resp.res.None? then Failure(StatusFalse)
      else
        var res := resp.res.value;
        Success(FinalText(res), res.conf.GetOr(DefaultConfidence), reqId)
  }

  /**
   * The data task's completion: a transport error fails at once; no error
   * and no data calls nothing at all (None); otherwise the body is decoded
   * and interpreted.
   */
  function TaskCompletion(error: Option<string>, data: Option<Payload>): (r: Option<OcrResult>)
    ensures r.None? <==> error.None? && data.None?
    ensures error.Some? ==> r == Some(Failure(Transport(error.value)))
    ensures error.None? && data == Some(Unparsable) ==> r == Some(Failure(Malformed(DataCorrupted)))
    ensures error.None? && data.Some? && data.value.Parsed? ==> r == Some(Interpret(DecodeResponse(data.value.json)))
  {
    if error.Some? then Some(Failure(Transport(error.value)))
    else if data.None? then None
    else match data.value
      case Unparsable => Some(Interpret(Err(DataCorrupted)))
      case Parsed(j) => Some(Interpret(DecodeResponse(j)))
  }

  /** A reply with status false never succeeds, whatever else it carries. */
  lemma StatusFalseFails(fields: map<string, Json>)
    requires "status" in fields && fields["status"] == JBool(false)
    ensures TaskCompletion(None, Some(Parsed(JObject(fields)))).value.Failure?
  {
  }

  /** A formula string is fenced as display math; confidence and request id take their defaults. */
  lemma FormulaExample()
    ensures TaskCompletion(None, Some(Parsed(Encode(Response(true, Some(Res("formula", Text("x^2"), None)), None)))))
      == Some(Success("$$\nx^2\n$$", 0.0, "unknown"))
  {
    ResponseRoundTrip(Response(true, Some(Res("formula", Text("x^2"), None)), None));
    assert FormulaOpen + "x^2" + FormulaClose == "$$\nx^2\n$$";
  }

  /** A markdown object yields its markdown verbatim. */
  lemma MarkdownExample()
    ensures TaskCompletion(None, Some(Parsed(Encode(Response(true, Some(Res("document", Structured(Some("x^2")), Some(0.98))), Some("r1"))))))
      == Some(Success("x^2", 0.98, "r1"))
  {
    ResponseRoundTrip(Response(true, Some(Res("document", Structured(Some("x^2")), Some(0.98))), Some("r1")));
  }

  /** An object without markdown yields the placeholder. */
  lemma EmptyObjectExample()
    ensures TaskCompletion(None, Some(Parsed(Encode(Response(true, Some(Res("document", Structured(None), None)), None)))))
      == Some(Success(UnknownStructure, 0.0, "unknown"))
  {
    ResponseRoundTrip(Response(true, Some(Res("document", Structured(None), None)), None));
  }
}
