/**
 * The recognition request (callSimpleTex): a POST whose body is
 * multipart/form-data in the framing of section 4 of RFC 7578, with the
 * boundary delimiter lines of section 5.1.1 of RFC 2046. The body is built
 * by appending the UTF-8 bytes of each header piece, and the PNG bytes, to
 * a growing buffer. The boundary's random UUID is a parameter.
 */
module Multipart {

  newtype byte = b: int | 0 <= b < 256

  type Bytes = seq<byte>

  // ---------------------------------------------------------------------
  // UTF-8, as String.data(using: .utf8) produces it

  /** The UTF-8 encoding of one Unicode scalar value. */
  function Utf8Char(c: char): (bs: Bytes)
    ensures 1 <= |bs| <= 4
    ensures |bs| == 1 <==> c as int < 0x80
    ensures c as int < 0x80 ==> bs[0] as int == c as int
  {
    var cp := c as int;
    if cp < 0x80 then [cp as byte]
    else if cp < 0x800 then [(0xC0 + cp / 64) as byte, (0x80 + cp % 64) as byte]
    else if cp < 0x10000 then [(0xE0 + cp / 4096) as byte, (0x80 + (cp / 64) % 64) as byte, (0x80 + cp % 64) as byte]
    else [(0xF0 + cp / 262144) as byte, (0x80 + (cp / 4096) % 64) as byte, (0x80 + (cp / 64) % 64) as byte, (0x80 + cp % 64) as byte]
  }

  /** The text's characters encoded one after another. */
  function Utf8(s: string): (bs: Bytes)
    ensures |bs| >= |s|
  {
    if s == [] then [] else Utf8(s[..|s| - 1]) + Utf8Char(s[|s| - 1])
  }

  /** The encoding takes exactly one byte per character just when the text is ASCII. */
  lemma {:induction false} Utf8OneBytePerCharIffAscii(s: string)
    ensures |Utf8(s)| == |s| <==> IsAscii(s)
  {
    if s != [] {
      Utf8OneBytePerCharIffAscii(s[..|s| - 1]);
      assert IsAscii(s) <==> IsAscii(s[..|s| - 1]) && s[|s| - 1] as int < 0x80;
    }
  }

  /** Encoding distributes over concatenation, so appending encoded pieces encodes the joined text. */
  lemma {:induction false} Utf8Append(a: string, b: string)
    ensures Utf8(a + b) == Utf8(a) + Utf8(b)
  {
    if b == [] {
      assert a + b == a;
    } else {
      assert (a + b)[..|a + b| - 1] == a + b[..|b| - 1];
      Utf8Append(a, b[..|b| - 1]);
    }
  }

  predicate IsAscii(s: string) {
    forall k :: 0 <= k < |s| ==> s[k] as int < 0x80
  }

  /** ASCII text, such as every header line of the body, encodes one byte per character. */
  lemma {:induction false} Utf8OfAscii(s: string)
    requires IsAscii(s)
    ensures |Utf8(s)| == |s|
    ensures forall k :: 0 <= k < |s| ==> Utf8(s)[k] as int == s[k] as int
  {
    if s != [] {
      Utf8OfAscii(s[..|s| - 1]);
    }
  }

  // ---------------------------------------------------------------------
  // The body

  const Crlf := "\r\n"
  const FileFieldHeader := "Content-Disposition: form-data; name=\"file\"; filename=\"capture.png\"\r\n"
  const PngContentType := "Content-Type: image/png\r\n\r\n"
  /** The one text field the request carries. */
  const RecognitionParams: seq<(string, string)> := [("rec_mode", "document")]

  /** The dash-boundary line that opens every part. */
  function Delimiter(boundary: string): string { "--" + boundary + Crlf }

  /** The close-delimiter line that ends the body. */
  function CloseDelimiter(boundary: string): string { "--" + boundary + "--" + Crlf }

  function DispositionLine(key: string): string {
    "Content-Disposition: form-data; name=\"" + key + "\"" + Crlf + Crlf
  }

  /** The text of one text field part: delimiter, disposition header, blank line, value. */
  function FieldPart(boundary: string, key: string, value: string): string {
    Delimiter(boundary) + DispositionLine(key) + value + Crlf
  }

  /** The bytes the loop appends for the first |params| fields, three appends per field. */
  function FieldBytes(boundary: string, params: seq<(string, string)>): Bytes {
    if params == [] then []
    else
      var (key, value) := params[|params| - 1];
      FieldBytes(boundary, params[..|params| - 1]) + Utf8(Delimiter(boundary)) + Utf8(DispositionLine(key)) + Utf8(value + Crlf)
  }

  /**
   * The body as the appends build it: the encoded text of every field part
   * and of the file part's headers, then the PNG bytes untouched, then the
   * encoded line break and close delimiter.
   */
  function Body(boundary: string, params: seq<(string, string)>, png: Bytes): (b: Bytes)
    ensures b == Utf8(PrefixText(boundary, params)) + png + Utf8(Crlf + CloseDelimiter(boundary))
  {
    var f := FieldsText(boundary, params);
    FieldBytesAreFieldsText(boundary, params);
    Utf8Append(f + Delimiter(boundary) + FileFieldHeader, PngContentType);
    Utf8Append(f + Delimiter(boundary), FileFieldHeader);
    Utf8Append(f, Delimiter(boundary));
    Utf8Append(Crlf, CloseDelimiter(boundary));
    FieldBytes(boundary, params)
      + Utf8(Delimiter(boundary)) + Utf8(FileFieldHeader) + Utf8(PngContentType)
      + png + Utf8(Crlf) + Utf8(CloseDelimiter(boundary))
  }

  /** All the text before the image: every field part, then the file part's headers. */
  function PrefixText(boundary: string, params: seq<(string, string)>): string {
    FieldsText(boundary, params) + Delimiter(boundary) + FileFieldHeader + PngContentType
  }

  function FieldsText(boundary: string, params: seq<(string, string)>): string {
    if params == [] then ""
    else
      var (key, value) := params[|params| - 1];
      FieldsText(boundary, params[..|params| - 1]) + FieldPart(boundary, key, value)
  }

  lemma Utf8Append3(a: string, b: string, c: string)
    ensures Utf8(a + b + c) == Utf8(a) + Utf8(b) + Utf8(c)
  {
    Utf8Append(a + b, c);
    Utf8Append(a, b);
  }

  /** The three appends for one field encode its part text. */
  lemma FieldPartBytes(boundary: string, key: string, value: string)
    ensures Utf8(Delimiter(boundary)) + Utf8(DispositionLine(key)) + Utf8(value + Crlf) == Utf8(FieldPart(boundary, key, value))
  {
    var d, h, v := Delimiter(boundary), DispositionLine(key), value + Crlf;
    assert FieldPart(boundary, key, value) == d + h + v;
    Utf8Append3(d, h, v);
  }

  lemma {:induction false} FieldBytesAreFieldsText(boundary: string, params: seq<(string, string)>)
    ensures FieldBytes(boundary, params) == Utf8(FieldsText(boundary, params))
  {
    if params != [] {
      var init := params[..|params| - 1];
      var key, value := params[|params| - 1].0, params[|params| - 1].1;
      var t := FieldsText(boundary, init);
      var part := FieldPart(boundary, key, value);
      calc {
        FieldBytes(boundary, params);
        FieldBytes(boundary, init) + Utf8(Delimiter(boundary)) + Utf8(DispositionLine(key)) + Utf8(value + Crlf);
        { FieldPartBytes(boundary, key, value); }
        FieldBytes(boundary, init) + Utf8(part);
        { FieldBytesAreFieldsText(boundary, init); }
        Utf8(t) + Utf8(part);
        { Utf8Append(t, part); }
        Utf8(t + part);
      }
    }
  }

  /** The PNG bytes sit in the body verbatim, right after the file part's headers. */
  lemma ImageIsEmbedded(boundary: string, params: seq<(string, string)>, png: Bytes)
    ensures var n := |Utf8(PrefixText(boundary, params))|;
      n + |png| <= |Body(boundary, params, png)| && Body(boundary, params, png)[n..n + |png|] == png
  {
  }

  /** The body ends with the close delimiter line. */
  lemma BodyEndsWithCloseDelimiter(boundary: string, params: seq<(string, string)>, png: Bytes)
    ensures var body, close := Body(boundary, params, png), Utf8(CloseDelimiter(boundary));
      |close| <= |body| && body[|body| - |close|..] == close
  {
    var body := Body(boundary, params, png);
    var close := Utf8(CloseDelimiter(boundary));
    assert body == (FieldBytes(boundary, params) + Utf8(Delimiter(boundary)) + Utf8(FileFieldHeader) + Utf8(PngContentType)
      + png + Utf8(Crlf)) + close;
  }

  lemma {:induction false} FieldsTextStartsWithDelimiter(boundary: string, params: seq<(string, string)>)
    requires params != []
    ensures |Delimiter(boundary)| <= |FieldsText(boundary, params)|
    ensures FieldsText(boundary, params)[..|Delimiter(boundary)|] == Delimiter(boundary)
  {
    var init := params[..|params| - 1];
    var (key, value) := params[|params| - 1];
    var d := Delimiter(boundary);
    if init != [] {
      FieldsTextStartsWithDelimiter(boundary, init);
      var t := FieldsText(boundary, init);
      assert FieldsText(boundary, params) == t + FieldPart(boundary, key, value);
      assert (t + FieldPart(boundary, key, value))[..|d|] == t[..|d|];
    } else {
      assert FieldsText(boundary, init) == "";
      assert FieldsText(boundary, params) == FieldPart(boundary, key, value);
      assert FieldPart(boundary, key, value) == d + (DispositionLine(key) + value + Crlf);
    }
  }

  lemma PrefixStartsWithDelimiter(boundary: string, params: seq<(string, string)>)
    ensures |Delimiter(boundary)| <= |PrefixText(boundary, params)|
    ensures PrefixText(boundary, params)[..|Delimiter(boundary)|] == Delimiter(boundary)
  {
    var d := Delimiter(boundary);
    var f := FieldsText(boundary, params);
    var prefix := PrefixText(boundary, params);
    assert prefix == f + (d + FileFieldHeader + PngContentType);
    if params != [] {
      FieldsTextStartsWithDelimiter(boundary, params);
      assert prefix[..|d|] == f[..|d|];
    } else {
      assert f == "";
      assert prefix == d + (FileFieldHeader + PngContentType);
    }
  }

  /**
   * Whatever the fields, the encoded text before the image, and so the
   * body, starts with the dash-boundary delimiter line.
   */
  lemma EncodedPrefixStartsWithDelimiter(boundary: string, params: seq<(string, string)>)
    ensures Utf8(Delimiter(boundary)) <= Utf8(PrefixText(boundary, params))
  {
    var d := Delimiter(boundary);
    var prefix := PrefixText(boundary, params);
    PrefixStartsWithDelimiter(boundary, params);
    var rest := prefix[|d|..];
    assert prefix == d + rest;
    Utf8Append(d, rest);
  }

  /** Append the parts one piece at a time, as the request builder does. */
  method BuildBody(boundary: string, params: seq<(string, string)>, png: Bytes) returns (body: Bytes)
    ensures body == Body(boundary, params, png)
  {
    body := [];
    for i := 0 to |params|
      invariant body == FieldBytes(boundary, params[..i])
    {
      var key, value := params[i].0, params[i].1;
      body := body + Utf8(Delimiter(boundary));
      body := body + Utf8(DispositionLine(key));
      body := body + Utf8(value + Crlf);
      assert params[..i + 1][..i] == params[..i];
    }
    assert params[..|params|] == params;
    body := body + Utf8(Delimiter(boundary));
    body := body + Utf8(FileFieldHeader);
    body := body + Utf8(PngContentType);
    body := body + png;
    body := body + Utf8(Crlf);
    body := body + Utf8(CloseDelimiter(boundary));
  }

  // ---------------------------------------------------------------------
  // The request

  const Endpoint := "https://server.simpletex.net/api/simpletex_ocr"

  datatype Request = Request(url: string, httpMethod: string, headers: map<string, string>, body: Bytes)

  /** The boundary: a fixed prefix followed by the UUID, so each UUID gives its own boundary. */
  function BoundaryFor(uuid: string): (b: string)
    ensures |b| == 9 + |uuid| && b[..9] == "Boundary-" && b[9..] == uuid
  {
    "Boundary-" + uuid
  }

  /**
   * The POST for one image: multipart content type naming the boundary,
   * the token in its own header, and a body laid out as Body states.
   */
  predicate IsRequestFor(req: Request, token: string, uuid: string, png: Bytes) {
    var boundary := BoundaryFor(uuid);
    && req.url == Endpoint && req.httpMethod == "POST"
    && req.headers == map["Content-Type" := "multipart/form-data; boundary=" + boundary, "token" := token]
    && req.body == Utf8(PrefixText(boundary, RecognitionParams)) + png + Utf8(Crlf + CloseDelimiter(boundary))
  }

  method BuildRequest(token: string, uuid: string, png: Bytes) returns (req: Request)
    ensures IsRequestFor(req, token, uuid, png)
  {
    var boundary := BoundaryFor(uuid);
    var headers := map["Content-Type" := "multipart/form-data; boundary=" + boundary];
    headers := headers["token" := token];
    var body := BuildBody(boundary, RecognitionParams, png);
    req := Request(Endpoint, "POST", headers, body);
  }
}
