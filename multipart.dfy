/** The `multipart/form-data` body the handler posts to the login endpoint
    (api/login-engie.js:14-33, 38): the literal the handler writes, the general
    RFC 7578 encoding of a list of fields that it is an instance of, and a decoder
    that reads such a body back through the boundary named in the Content-Type
    header. Delimiter lines follow section 5.1.1 of RFC 2046. */
module Multipart {
  import opened Wrappers
  import opened Strings

  /** Fixed head of the boundary; the handler appends a random base-36 suffix. */
  const BoundaryPrefix: string := "----WebKitFormBoundary"

  function Boundary(suffix: string): string {
    BoundaryPrefix + suffix
  }

  /** The dash-boundary line that opens every part. */
  function Delimiter(boundary: string): string {
    "--" + boundary
  }

  /** The line that closes the body. */
  function CloseDelimiter(boundary: string): string {
    "--" + boundary + "--"
  }

  const ContentTypePrefix: string := "multipart/form-data; boundary="

  /** The Content-Type header sent with the body. */
  function ContentType(boundary: string): string {
    ContentTypePrefix + boundary
  }

  /** The boundary parameter of a Content-Type header of the form above. */
  function BoundaryOf(contentType: string): (r: Option<string>)
    ensures r.Some? ==> ContentType(r.value) == contentType
  {
    var n := |ContentTypePrefix|;
    if |contentType| >= n && contentType[..n] == ContentTypePrefix then
      assert contentType == contentType[..n] + contentType[n..];
      Some(contentType[n..])
    else None
  }

  lemma BoundaryOfContentType(boundary: string)
    ensures BoundaryOf(ContentType(boundary)) == Some(boundary)
  {
    assert ContentType(boundary)[..|ContentTypePrefix|] == ContentTypePrefix;
    assert ContentType(boundary)[|ContentTypePrefix|..] == boundary;
  }

  const DispositionPrefix: string := "Content-Disposition: form-data; name=\""

  /** The header line of the part named `name`. */
  function Disposition(name: string): string {
    DispositionPrefix + name + "\""
  }

  /** The field name a header line of that form carries. */
  function NameOf(line: string): (r: Option<string>)
    ensures r.Some? ==> Disposition(r.value) == line
  {
    var n := |DispositionPrefix|;
    if |line| > n && line[..n] == DispositionPrefix && line[|line| - 1] == '"' then
      assert line == line[..n] + line[n..|line| - 1] + [line[|line| - 1]];
      Some(line[n..|line| - 1])
    else None
  }

  lemma NameOfDisposition(name: string)
    ensures NameOf(Disposition(name)) == Some(name)
  {
    var line := Disposition(name);
    var n := |DispositionPrefix|;
    assert line[..n] == DispositionPrefix;
    assert line[n..|line| - 1] == name;
  }

  /** The body lines exactly as the handler lists them, before `join('\r\n')`. */
  function LoginLines(boundary: string, username: string, password: string, captcha: string): seq<string> {
    [
      Delimiter(boundary),
      "Content-Disposition: form-data; name=\"username\"",
      "",
      username,
      Delimiter(boundary),
      "Content-Disposition: form-data; name=\"password\"",
      "",
      password,
      Delimiter(boundary),
      "Content-Disposition: form-data; name=\"g-recaptcha-response\"",
      "",
      captcha,
      CloseDelimiter(boundary),
      ""
    ]
  }

  /** The login request body. */
  function LoginBody(boundary: string, username: string, password: string, captcha: string): string {
    Join(LoginLines(boundary, username, password, captcha), CRLF)
  }

  /** One form field. */
  datatype Field = Field(name: string, value: string)

  /** The three fields of the login form, in the order the body lists them. */
  function LoginFields(username: string, password: string, captcha: string): seq<Field> {
    [Field("username", username), Field("password", password), Field("g-recaptcha-response", captcha)]
  }

  /** Lines of the general encoding: per field a delimiter, its header, an empty
      line and the value; then the close delimiter and an empty last line, so the
      body ends with CRLF. */
  function FormLines(boundary: string, fields: seq<Field>): seq<string> {
    if fields == [] then [CloseDelimiter(boundary), ""]
    else [Delimiter(boundary), Disposition(fields[0].name), "", fields[0].value] + FormLines(boundary, fields[1..])
  }

  function Encode(boundary: string, fields: seq<Field>): string {
    Join(FormLines(boundary, fields), CRLF)
  }

  /** The literal of the handler is the general encoding of its three fields. */
  lemma LoginBodyIsForm(boundary: string, username: string, password: string, captcha: string)
    ensures LoginBody(boundary, username, password, captcha)
         == Encode(boundary, LoginFields(username, password, captcha))
  {
    var fs := LoginFields(username, password, captcha);
    var d := Delimiter(boundary);
    assert FormLines(boundary, fs[1..][1..][1..]) == [CloseDelimiter(boundary), ""] by {
      assert fs[1..][1..][1..] == [];
    }
    assert FormLines(boundary, fs[1..][1..])
        == [d, Disposition("g-recaptcha-response"), "", captcha] + [CloseDelimiter(boundary), ""];
    assert FormLines(boundary, fs[1..])
        == [d, Disposition("password"), "", password] + FormLines(boundary, fs[1..][1..]);
    assert FormLines(boundary, fs)
        == [d, Disposition("username"), "", username] + FormLines(boundary, fs[1..]);
    LoginHeaders();
    assert FormLines(boundary, fs) == LoginLines(boundary, username, password, captcha);
  }

  lemma LoginHeaders()
    ensures Disposition("username") == "Content-Disposition: form-data; name=\"username\""
    ensures Disposition("password") == "Content-Disposition: form-data; name=\"password\""
    ensures Disposition("g-recaptcha-response") == "Content-Disposition: form-data; name=\"g-recaptcha-response\""
  {
  }

  /** The encoding ends with the close delimiter and a CRLF, and, when there is
      a field, starts with a delimiter line. */
  lemma EncodeFrame(boundary: string, fields: seq<Field>)
    ensures var body := Encode(boundary, fields);
      var tail := CloseDelimiter(boundary) + CRLF;
      && |body| >= |tail| && body[|body| - |tail|..] == tail
      && (fields != [] ==> |body| >= |Delimiter(boundary)| + 2
                           && body[..|Delimiter(boundary)| + 2] == Delimiter(boundary) + CRLF)
  {
    var lines := FormLines(boundary, fields);
    var close := [CloseDelimiter(boundary), ""];
    var tail := CloseDelimiter(boundary) + CRLF;
    assert Join(close, CRLF) == tail by {
      JoinCons(CloseDelimiter(boundary), [""], CRLF);
    }
    FormLinesEnd(boundary, fields);
    if fields == [] {
      assert lines == close;
    } else {
      var front := lines[..|lines| - 2];
      assert lines == front + close;
      JoinAppend(front, close, CRLF);
      var d := Delimiter(boundary);
      var rest := [Disposition(fields[0].name), "", fields[0].value] + FormLines(boundary, fields[1..]);
      assert lines == [d] + rest;
      JoinCons(d, rest, CRLF);
    }
  }

  lemma {:induction false} FormLinesEnd(boundary: string, fields: seq<Field>)
    ensures var lines := FormLines(boundary, fields);
      |lines| >= 2 && lines[|lines| - 2..] == [CloseDelimiter(boundary), ""]
      && (fields != [] ==> |lines| >= 6)
  {
    if fields != [] {
      FormLinesEnd(boundary, fields[1..]);
    }
  }

  // ---------------------------------------------------------------------------
  // Decoding

  /** A line that ends a value: a delimiter or the close delimiter. */
  predicate IsBoundaryLine(boundary: string, line: string) {
    line == Delimiter(boundary) || line == CloseDelimiter(boundary)
  }

  /** Index of the first boundary line. */
  function ValueEnd(boundary: string, lines: seq<string>): (r: Option<nat>)
    ensures r.Some? ==> r.value < |lines| && IsBoundaryLine(boundary, lines[r.value])
    ensures r.Some? ==> forall i :: 0 <= i < r.value ==> !IsBoundaryLine(boundary, lines[i])
    ensures r.None? ==> forall i :: 0 <= i < |lines| ==> !IsBoundaryLine(boundary, lines[i])
  {
    if lines == [] then None
    else if IsBoundaryLine(boundary, lines[0]) then Some(0)
    else match ValueEnd(boundary, lines[1..])
      case None => None
      case Some(k) => Some(k + 1)
  }

  /** Parts after a delimiter line: a header line, an empty line, the value's
      lines up to the next boundary line; the close delimiter ends the parts and
      whatever follows it (the epilogue) is ignored. */
  function ParseParts(boundary: string, lines: seq<string>): Option<seq<Field>>
    decreases |lines|
  {
    if |lines| < 2 || lines[1] != "" then None
    else match NameOf(lines[0])
      case None => None
      case Some(name) =>
        match ValueEnd(boundary, lines[2..])
        case None => None
        case Some(k) =>
          var field := Field(name, Join(lines[2..2 + k], CRLF));
          if lines[2 + k] == CloseDelimiter(boundary) then Some([field])
          else match ParseParts(boundary, lines[3 + k..])
            case None => None
            case Some(more) => Some([field] + more)
  }

  /** Reads a body back, using the boundary named by the Content-Type header. */
  function Decode(contentType: string, body: string): Option<seq<Field>> {
    match BoundaryOf(contentType)
    case None => None
    case Some(boundary) =>
      var lines := Split(body, CRLF);
      if lines[0] == Delimiter(boundary) then ParseParts(boundary, lines[1..]) else None
  }

  /** `line` begins with `prefix`. */
  predicate StartsWith(line: string, prefix: string) {
    |prefix| <= |line| && line[..|prefix|] == prefix
  }

  /** A value that stays one part: none of its lines begins with the delimiter.
      Section 5.1.1 of RFC 2046 lets transport padding follow a delimiter, so a
      receiver ends the part at any line that begins with it; the decoder here,
      which knows only exact boundary lines, reads such a value back as well. */
  predicate SafeValue(boundary: string, value: string) {
    forall line :: line in Split(value, CRLF) ==> !StartsWith(line, Delimiter(boundary))
  }

  /** Both boundary lines begin with the delimiter. */
  lemma BoundaryLineStartsWithDelimiter(boundary: string, line: string)
    requires IsBoundaryLine(boundary, line)
    ensures StartsWith(line, Delimiter(boundary))
  {
    var d := Delimiter(boundary);
    if line == CloseDelimiter(boundary) {
      assert line == d + "--";
      assert line[..|d|] == d;
    }
  }

  /** A field name the decoder reads back. */
  predicate SafeName(name: string) {
    !Contains(name, CRLF)
  }

  /** The lines of an encoding as they are on the wire: a value that contains
      CRLF spans several lines. */
  function WireLines(boundary: string, fields: seq<Field>): seq<string> {
    if fields == [] then [CloseDelimiter(boundary), ""]
    else [Delimiter(boundary), Disposition(fields[0].name), ""] + Split(fields[0].value, CRLF)
         + WireLines(boundary, fields[1..])
  }

  lemma {:induction false} EncodeIsWire(boundary: string, fields: seq<Field>)
    ensures Encode(boundary, fields) == Join(WireLines(boundary, fields), CRLF)
  {
    if fields != [] {
      var f := fields[0];
      var head := [Delimiter(boundary), Disposition(f.name), ""];
      var rest := FormLines(boundary, fields[1..]);
      var values := Split(f.value, CRLF);
      EncodeIsWire(boundary, fields[1..]);
      JoinAppend(head + [f.value], rest, CRLF);
      JoinAppend(head, [f.value], CRLF);
      JoinSplit(f.value, CRLF);
      JoinAppend(head, values, CRLF);
      JoinAppend(head + values, WireLines(boundary, fields[1..]), CRLF);
      assert FormLines(boundary, fields) == (head + [f.value]) + rest;
      assert WireLines(boundary, fields) == (head + values) + WireLines(boundary, fields[1..]);
    }
  }

  lemma DelimitersClean(boundary: string)
    requires !Contains(boundary, CRLF)
    ensures !Contains(Delimiter(boundary), CRLF) && !Contains(CloseDelimiter(boundary), CRLF)
  {
    NoCarriageReturn("--");
    ConcatNoCrlf("--", boundary);
    ConcatNoCrlf(Delimiter(boundary), "--");
    assert CloseDelimiter(boundary) == Delimiter(boundary) + "--";
  }

  lemma DispositionClean(name: string)
    requires SafeName(name)
    ensures !Contains(Disposition(name), CRLF)
  {
    NoCarriageReturn(DispositionPrefix);
    NoCarriageReturn("\"");
    ConcatNoCrlf(DispositionPrefix, name);
    ConcatNoCrlf(DispositionPrefix + name, "\"");
  }

  lemma {:induction false} WireLinesClean(boundary: string, fields: seq<Field>)
    requires !Contains(boundary, CRLF)
    requires forall f :: f in fields ==> SafeName(f.name)
    ensures forall k :: 0 <= k < |WireLines(boundary, fields)| ==> !Contains(WireLines(boundary, fields)[k], CRLF)
  {
    DelimitersClean(boundary);
    assert !Contains("", CRLF);
    if fields != [] {
      var f := fields[0];
      DispositionClean(f.name);
      SplitPiecesClean(f.value, CRLF);
      WireLinesClean(boundary, fields[1..]);
    }
  }

  lemma DelimitersDiffer(boundary: string)
    ensures Delimiter(boundary) != CloseDelimiter(boundary)
  {
    assert |Delimiter(boundary)| < |CloseDelimiter(boundary)|;
  }

  /** The first boundary line after value lines that are not boundary lines is
      the one right after them. */
  lemma ValueEndAfter(boundary: string, values: seq<string>, rest: seq<string>)
    requires forall i :: 0 <= i < |values| ==> !IsBoundaryLine(boundary, values[i])
    requires |rest| > 0 && IsBoundaryLine(boundary, rest[0])
    ensures ValueEnd(boundary, values + rest) == Some(|values|)
  {
    var lines := values + rest;
    forall i | 0 <= i < |values| ensures !IsBoundaryLine(boundary, lines[i]) {
      assert lines[i] == values[i];
    }
    assert lines[|values|] == rest[0];
  }

  /** One step of the decoder on lines that open with a header line, an empty
      line and `k` value lines before a boundary line. */
  lemma ParseOne(boundary: string, lines: seq<string>, name: string, k: nat)
    requires |lines| > 2 + k && lines[1] == "" && NameOf(lines[0]) == Some(name)
    requires ValueEnd(boundary, lines[2..]) == Some(k)
    ensures var field := Field(name, Join(lines[2..2 + k], CRLF));
      ParseParts(boundary, lines)
      == if lines[2 + k] == CloseDelimiter(boundary) then Some([field])
         else match ParseParts(boundary, lines[3 + k..])
           case None => None
           case Some(more) => Some([field] + more)
  {
  }

  /** The lines of one part, seen by index: header, empty line, the value
      lines, then a boundary line. */
  lemma PartLines(boundary: string, name: string, values: seq<string>, rest: seq<string>)
    requires forall i :: 0 <= i < |values| ==> !IsBoundaryLine(boundary, values[i])
    requires |rest| > 0 && IsBoundaryLine(boundary, rest[0])
    ensures var lines := [Disposition(name), ""] + values + rest;
      var k := |values|;
      && |lines| > 2 + k && lines[1] == "" && NameOf(lines[0]) == Some(name)
      && ValueEnd(boundary, lines[2..]) == Some(k)
      && lines[2..2 + k] == values && lines[2 + k] == rest[0] && lines[3 + k..] == rest[1..]
  {
    var lines := [Disposition(name), ""] + values + rest;
    NameOfDisposition(name);
    assert lines[0] == Disposition(name);
    assert lines[2..] == values + rest;
    ValueEndAfter(boundary, values, rest);
  }

  /** The decoder reads the last part: its value lines run up to the close
      delimiter. */
  lemma ParseLast(boundary: string, f: Field, values: seq<string>, rest: seq<string>)
    requires Join(values, CRLF) == f.value
    requires forall i :: 0 <= i < |values| ==> !IsBoundaryLine(boundary, values[i])
    requires |rest| > 0 && rest[0] == CloseDelimiter(boundary)
    ensures ParseParts(boundary, [Disposition(f.name), ""] + values + rest) == Some([f])
  {
    var lines := [Disposition(f.name), ""] + values + rest;
    PartLines(boundary, f.name, values, rest);
    ParseOne(boundary, lines, f.name, |values|);
  }

  /** The decoder reads a part followed by a delimiter, then goes on after it. */
  lemma ParseMore(boundary: string, f: Field, values: seq<string>, rest: seq<string>, more: seq<Field>)
    requires Join(values, CRLF) == f.value
    requires forall i :: 0 <= i < |values| ==> !IsBoundaryLine(boundary, values[i])
    requires |rest| > 0 && rest[0] == Delimiter(boundary)
    requires ParseParts(boundary, rest[1..]) == Some(more)
    ensures ParseParts(boundary, [Disposition(f.name), ""] + values + rest) == Some([f] + more)
  {
    var lines := [Disposition(f.name), ""] + values + rest;
    PartLines(boundary, f.name, values, rest);
    DelimitersDiffer(boundary);
    ParseOne(boundary, lines, f.name, |values|);
  }

  lemma SafeValueLines(boundary: string, value: string)
    requires SafeValue(boundary, value)
    ensures var values := Split(value, CRLF);
      forall i :: 0 <= i < |values| ==> !IsBoundaryLine(boundary, values[i])
  {
    var values := Split(value, CRLF);
    forall i | 0 <= i < |values| ensures !IsBoundaryLine(boundary, values[i]) {
      assert values[i] in values;
      if IsBoundaryLine(boundary, values[i]) {
        BoundaryLineStartsWithDelimiter(boundary, values[i]);
        assert false;
      }
    }
  }

  lemma {:induction false} ParseWire(boundary: string, fields: seq<Field>)
    requires fields != []
    requires forall k :: 0 <= k < |fields| ==> SafeValue(boundary, fields[k].value)
    ensures ParseParts(boundary, WireLines(boundary, fields)[1..]) == Some(fields)
  {
    var f := fields[0];
    var values := Split(f.value, CRLF);
    var rest := WireLines(boundary, fields[1..]);
    WireLinesCons(boundary, fields);
    SafeValueLines(boundary, f.value);
    JoinSplit(f.value, CRLF);
    if fields[1..] != [] {
      ParseWire(boundary, fields[1..]);
      ParseMore(boundary, f, values, rest, fields[1..]);
      assert fields == [f] + fields[1..];
    } else {
      ParseLast(boundary, f, values, rest);
      assert fields == [f];
    }
  }

  /** The wire lines after the first delimiter: the first part, then the wire
      lines of the other fields, which open with a delimiter or, when there are
      none, with the close delimiter. */
  lemma WireLinesCons(boundary: string, fields: seq<Field>)
    requires fields != []
    ensures var rest := WireLines(boundary, fields[1..]);
      && WireLines(boundary, fields)[1..]
         == [Disposition(fields[0].name), ""] + Split(fields[0].value, CRLF) + rest
      && |rest| > 0
      && rest[0] == if fields[1..] == [] then CloseDelimiter(boundary) else Delimiter(boundary)
  {
  }

  /** Round trip: decoding an encoding with the boundary named by its
      Content-Type header gives back the fields, in order, provided the boundary
      and the names hold no CRLF and no line of a value is a boundary line. */
  lemma RoundTrip(boundary: string, fields: seq<Field>)
    requires !Contains(boundary, CRLF)
    requires fields != []
    requires forall f :: f in fields ==> SafeName(f.name) && SafeValue(boundary, f.value)
    ensures Decode(ContentType(boundary), Encode(boundary, fields)) == Some(fields)
  {
    BoundaryOfContentType(boundary);
    EncodeIsWire(boundary, fields);
    WireLinesClean(boundary, fields);
    CrlfFirstCharUnique();
    SplitJoin(WireLines(boundary, fields), CRLF);
    assert forall k :: 0 <= k < |fields| ==> fields[k] in fields;
    ParseWire(boundary, fields);
  }

  /** A value without CRLF and without the delimiter is safe. */
  lemma PlainValueIsSafe(boundary: string, value: string)
    requires !Contains(value, CRLF) && !Contains(value, Delimiter(boundary))
    ensures SafeValue(boundary, value)
  {
    SplitClean(value, CRLF);
    if StartsWith(value, Delimiter(boundary)) {
      assert OccursAt(value, Delimiter(boundary), 0);
      assert false;
    }
  }

  /** The login body decodes, through the Content-Type header the handler sends
      with it, to username, password and CAPTCHA token in that order. */
  lemma LoginRoundTrip(boundary: string, username: string, password: string, captcha: string)
    requires !Contains(boundary, CRLF)
    requires SafeValue(boundary, username) && SafeValue(boundary, password) && SafeValue(boundary, captcha)
    ensures Decode(ContentType(boundary), LoginBody(boundary, username, password, captcha))
         == Some(LoginFields(username, password, captcha))
  {
    LoginBodyIsForm(boundary, username, password, captcha);
    NoCarriageReturn("username");
    NoCarriageReturn("password");
    NoCarriageReturn("g-recaptcha-response");
    RoundTrip(boundary, LoginFields(username, password, captcha));
  }

  /** A character allowed in the random part of the boundary: what
      `Math.random().toString(36)` writes after "0.". */
  predicate Base36Digit(c: char) {
    '0' <= c <= '9' || 'a' <= c <= 'z'
  }

  /** A character of the `bchars` class of the boundary grammar of RFC 2046,
      section 5.1.1. */
  predicate BChar(c: char) {
    '0' <= c <= '9' || 'a' <= c <= 'z' || 'A' <= c <= 'Z'
    || c in "'()+_,-./:=? "
  }

  /** A boundary in the grammar of RFC 2046, section 5.1.1: 1 to 70 `bchars`,
      the last not a space. */
  predicate RfcBoundary(b: string) {
    0 < |b| <= 70 && (forall i :: 0 <= i < |b| ==> BChar(b[i])) && b[|b| - 1] != ' '
  }

  /** The handler's boundaries are valid RFC 2046 boundaries without CRLF, as
      long as the random part is at most 48 base-36 digits. */
  lemma BoundaryIsValid(suffix: string)
    requires |suffix| <= 48 && forall i :: 0 <= i < |suffix| ==> Base36Digit(suffix[i])
    ensures RfcBoundary(Boundary(suffix)) && !Contains(Boundary(suffix), CRLF)
  {
    var b := Boundary(suffix);
    forall i | 0 <= i < |b| ensures BChar(b[i]) && b[i] != '\r' {
      if i < |BoundaryPrefix| {
        assert b[i] == BoundaryPrefix[i];
        assert BoundaryPrefix[i] in BoundaryPrefix;
      } else {
        assert b[i] == suffix[i - |BoundaryPrefix|];
      }
    }
    NoCarriageReturn(b);
  }
}
