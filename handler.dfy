/** The login handler of api/login-engie.js as a pure function from the request
    and what the upstream service answers to the calls it makes and the response
    it writes. The two network calls, the random part of the boundary and the
    two dates are inputs; the outcome lists the calls made, in order. */
module Handler {
  import opened Wrappers
  import opened Strings
  import opened Json
  import Multipart
  import Cookies

  const LoginUrl: string := "https://gwss.engie.ro/myservices/v1/login"
  const InvoiceBase: string := "https://gwss.engie.ro/myservices/v1/invoices/history-only/"

  const MethodNotAllowed: string := "Method not allowed"
  const MissingCredentials: string := "Missing username, password or CAPTCHA token"
  const InvalidLoginJson: string := "Login failed. Invalid JSON returned from Engie."
  const LoginFailed: string := "Login failed."
  const MissingAccount: string := "Missing POC or PA from login data."
  const UnknownError: string := "Unknown error"
  /** What V8 raises for `loginData.data` when the login body is JSON `null`, in
      the wording of Node.js 16 and later (older releases say "Cannot read
      property 'data' of null"). */
  const NullDataError: string := "Cannot read properties of null (reading 'data')"

  /** The incoming request: its method (`req.method`) and its parsed body (None: `undefined`). */
  datatype Request = Request(verb: string, body: Option<JsonValue>)

  /** An awaited step: its value, or the message of the error it threw. */
  datatype Settled<T> = Threw(message: string) | Resolved(value: T)

  /** The login response as the handler reads it: `loginRes.ok`, the raw
      Set-Cookie headers (None when there are none), the body text, and
      `JSON.parse` of that text (None when it throws). */
  datatype LoginResponse = LoginResponse(ok: bool, setCookie: Option<seq<string>>, text: string, parsed: Option<JsonValue>)

  /** Everything the handler takes from outside itself. */
  datatype Upstream = Upstream(
    boundarySuffix: string,            // Math.random().toString(36).substring(2)
    startDate: string,                 // a year before today, YYYY-MM-DD
    endDate: string,                   // today, YYYY-MM-DD
    login: Settled<LoginResponse>,     // the login fetch and its text()
    invoices: Settled<JsonValue>)      // the invoice fetch and its json()

  /** An outbound request. */
  datatype Call =
    | LoginPost(url: string, contentType: string, body: string)
    | InvoiceGet(url: string, cookie: Option<string>)

  /** The JSON body written with the status. */
  datatype Body =
    | ErrorBody(error: string)                        // { error }
    | InvalidJsonBody(error: string, raw: string)     // { error, raw }
    | RejectedBody(error: string, details: JsonValue) // { error, details }
    | SuccessBody(user: JsonValue, invoices: JsonValue) // { success: true, user, invoices }

  /** A response, or a rejection outside the handler's try block, which the
      hosting framework deals with. */
  datatype Reply = Respond(status: int, body: Body) | Uncaught

  datatype Outcome = Outcome(calls: seq<Call>, reply: Reply)

  /** The catch block: status 500 with the error's message, or "Unknown error"
      when the message is empty. */
  function Caught(message: string): (r: Reply)
    ensures r.Respond? && r.status == 500 && r.body.ErrorBody?
    ensures r.body.error != ""
    ensures message != "" ==> r.body.error == message
    ensures message == "" ==> r.body.error == UnknownError
  {
    Respond(500, ErrorBody(if message == "" then UnknownError else message))
  }

  /** `const { username, password, captchaToken } = req.body` throws for an
      `undefined` or `null` body; on any other value it reads the properties. */
  predicate Destructurable(body: Option<JsonValue>) {
    body.Some? && body.value != JNull
  }

  function Credential(req: Request, key: string): Option<JsonValue> {
    Member(req.body, key)
  }

  /** The three credentials are present and truthy. */
  predicate HasCredentials(req: Request) {
    Truthy(Credential(req, "username")) && Truthy(Credential(req, "password"))
    && Truthy(Credential(req, "captchaToken"))
  }

  /** The string form of a credential as the `join` of the body produces it,
      defined when the credential is present (a falsy credential never gets here). */
  function Text(v: Option<JsonValue>): Option<string> {
    if v.None? then None else ToJsString(v.value)
  }

  /** The request gets past validation and its credentials become strings. */
  predicate Admitted(req: Request) {
    && req.verb == "POST" && Destructurable(req.body) && HasCredentials(req)
    && Text(Credential(req, "username")).Some?
    && Text(Credential(req, "password")).Some?
    && Text(Credential(req, "captchaToken")).Some?
  }

  /** `loginData.data?.[0]`, the first contract. */
  function Contract(data: JsonValue): Option<JsonValue> {
    First(Member(Some(data), "data"))
  }

  /** `contract?.places_of_consumption?.[0]?.poc_number`. */
  function PocOf(data: JsonValue): Option<JsonValue> {
    Member(First(Member(Contract(data), "places_of_consumption")), "poc_number")
  }

  /** `contract?.pa`. */
  function PaOf(data: JsonValue): Option<JsonValue> {
    Member(Contract(data), "pa")
  }

  /** `invoiceData?.data?.[0]?.invoices || []`. */
  function InvoicesOf(invoiceData: JsonValue): (r: JsonValue)
    ensures Truthy(Some(r))
  {
    var found := Member(First(Member(Some(invoiceData), "data")), "invoices");
    if Truthy(found) then found.value else JArray([])
  }

  /** The invoice-history URL: parameters interpolated as they are, unencoded. */
  function InvoiceUrl(poc: string, startDate: string, endDate: string, pa: string): string {
    InvoiceBase + poc + "?startDate=" + startDate + "&endDate=" + endDate + "&pa=" + pa
  }

  /** The handler. At most two calls are made: the login POST first, then the
      invoice GET. */
  function Handle(req: Request, up: Upstream): (r: Outcome)
    ensures |r.calls| <= 2
    ensures |r.calls| > 0 ==> r.calls[0].LoginPost?
    ensures |r.calls| == 2 ==> r.calls[1].InvoiceGet?
  {
    if req.verb != "POST" then Outcome([], Respond(405, ErrorBody(MethodNotAllowed)))
    else if !Destructurable(req.body) then Outcome([], Uncaught)
    else if !HasCredentials(req) then Outcome([], Respond(400, ErrorBody(MissingCredentials)))
    else Relay(req, up)
  }

  /** The try block: post the form, then go on with the login response. */
  function Relay(req: Request, up: Upstream): Outcome
    requires HasCredentials(req)
  {
    var username := Text(Credential(req, "username"));
    var password := Text(Credential(req, "password"));
    var captcha := Text(Credential(req, "captchaToken"));
    if username.None? || password.None? || captcha.None? then Outcome([], Caught(ToPrimitiveError))
    else
      var boundary := Multipart.Boundary(up.boundarySuffix);
      var login := LoginPost(LoginUrl, Multipart.ContentType(boundary),
                             Multipart.LoginBody(boundary, username.value, password.value, captcha.value));
      match up.login
      case Threw(m) => Outcome([login], Caught(m))
      case Resolved(res) =>
        var rest := AfterLogin(Credential(req, "username").value, res, up);
        Outcome([login] + rest.calls, rest.reply)
  }

  /** From the login response on: checks in the order the handler makes them,
      then the invoice call and the success response. */
  function AfterLogin(user: JsonValue, res: LoginResponse, up: Upstream): (r: Outcome)
    ensures |r.calls| <= 1 && (|r.calls| == 1 ==> r.calls[0].InvoiceGet?)
    ensures r.reply.Respond? && r.reply.status == 200 ==> |r.calls| == 1
  {
    match res.parsed
    case None => Outcome([], Respond(500, InvalidJsonBody(InvalidLoginJson, res.text)))
    case Some(data) =>
      if !res.ok || Truthy(Member(Some(data), "error")) then
        Outcome([], Respond(401, RejectedBody(LoginFailed, data)))
      else if data == JNull then Outcome([], Caught(NullDataError))
      else if !Truthy(PocOf(data)) || !Truthy(PaOf(data)) then
        Outcome([], Respond(400, ErrorBody(MissingAccount)))
      else
        var poc := ToJsString(PocOf(data).value);
        var pa := ToJsString(PaOf(data).value);
        if poc.None? || pa.None? then Outcome([], Caught(ToPrimitiveError))
        else
          var cookie := Cookies.SessionCookie(res.setCookie);
          var invoice := InvoiceGet(InvoiceUrl(poc.value, up.startDate, up.endDate, pa.value), cookie);
          match up.invoices
          case Threw(m) => Outcome([invoice], Caught(m))
          case Resolved(invoiceData) => Outcome([invoice], Respond(200, SuccessBody(user, InvoicesOf(invoiceData))))
  }

  // ---------------------------------------------------------------------------
  // Reading an invoice-history URL back

  function StripPrefix(s: string, prefix: string): (r: Option<string>)
    ensures r.Some? ==> prefix + r.value == s
  {
    if |s| >= |prefix| && s[..|prefix|] == prefix then
      assert s == s[..|prefix|] + s[|prefix|..];
      Some(s[|prefix|..])
    else None
  }

  /** The text before and after the first `c`. */
  function SplitAt(s: string, c: char): (r: Option<(string, string)>)
    ensures r.Some? ==> r.value.0 + [c] + r.value.1 == s && c !in r.value.0
  {
    match IndexOf(s, [c])
    case None => None
    case Some(i) =>
      assert s == s[..i] + s[i..i + 1] + s[i + 1..];
      assert c !in s[..i] by {
        if c in s[..i] {
          var j :| 0 <= j < i && s[..i][j] == c;
          assert s[j..j + 1] == [c];
          assert OccursAt(s, [c], j);
        }
      }
      Some((s[..i], s[i + 1..]))
  }

  lemma StripPrefixOf(prefix: string, s: string)
    ensures StripPrefix(prefix + s, prefix) == Some(s)
  {
    assert (prefix + s)[..|prefix|] == prefix;
  }

  lemma SplitAtFirst(a: string, c: char, b: string)
    requires c !in a
    ensures SplitAt(a + [c] + b, c) == Some((a, b))
  {
    ContainsChar(a, c);
    FirstSeparator(a, [c], b);
    var s := a + [c] + b;
    assert s[..|a|] == a;
    assert s[|a| + 1..] == b;
  }

  /** poc, startDate, endDate and pa, read back from an invoice-history URL by
      the first `?` and the next two `&`. */
  function ParseInvoiceUrl(url: string): Option<(string, string, string, string)> {
    match StripPrefix(url, InvoiceBase)
    case None => None
    case Some(path) =>
      match SplitAt(path, '?')
      case None => None
      case Some((poc, query)) =>
        match StripPrefix(query, "startDate=")
        case None => None
        case Some(q1) =>
          match SplitAt(q1, '&')
          case None => None
          case Some((startDate, q2)) =>
            match StripPrefix(q2, "endDate=")
            case None => None
            case Some(q3) =>
              match SplitAt(q3, '&')
              case None => None
              case Some((endDate, q4)) =>
                match StripPrefix(q4, "pa=")
                case None => None
                case Some(pa) => Some((poc, startDate, endDate, pa))
  }

  /** The URL carries poc, startDate, endDate and pa verbatim and in that order:
      they are read back as long as poc has no `?` and the dates have no `&`
      (nothing is encoded, so those characters would move the split). */
  lemma InvoiceUrlRoundTrip(poc: string, startDate: string, endDate: string, pa: string)
    requires '?' !in poc && '&' !in startDate && '&' !in endDate
    ensures ParseInvoiceUrl(InvoiceUrl(poc, startDate, endDate, pa)) == Some((poc, startDate, endDate, pa))
  {
    var q4 := "pa=" + pa;
    var q3 := endDate + ['&'] + q4;
    var q2 := "endDate=" + q3;
    var q1 := startDate + ['&'] + q2;
    var query := "startDate=" + q1;
    var path := poc + ['?'] + query;
    assert InvoiceUrl(poc, startDate, endDate, pa) == InvoiceBase + path;
    StripPrefixOf(InvoiceBase, path);
    SplitAtFirst(poc, '?', query);
    StripPrefixOf("startDate=", q1);
    SplitAtFirst(startDate, '&', q2);
    StripPrefixOf("endDate=", q3);
    SplitAtFirst(endDate, '&', q4);
    StripPrefixOf("pa=", pa);
  }

  // ---------------------------------------------------------------------------
  // Properties of the handler

  /** Any method but POST gets 405, whatever the body, and nothing is called. */
  lemma NonPostIs405(req: Request, up: Upstream)
    requires req.verb != "POST"
    ensures Handle(req, up) == Outcome([], Respond(405, ErrorBody(MethodNotAllowed)))
  {
  }

  /** A POST whose body has a falsy username, password or captchaToken gets 400
      before any call, and that answer with no call comes from nothing else. */
  lemma MissingCredentialsIs400(req: Request, up: Upstream)
    ensures Handle(req, up) == Outcome([], Respond(400, ErrorBody(MissingCredentials)))
        <==> req.verb == "POST" && Destructurable(req.body) && !HasCredentials(req)
  {
  }

  /** The upstream is called at all exactly when the request is admitted, and
      the first call is then the login POST carrying the form built from the
      credentials with a boundary made from the random suffix. */
  lemma LoginCallCarriesForm(req: Request, up: Upstream)
    ensures |Handle(req, up).calls| > 0 <==> Admitted(req)
    ensures Admitted(req) ==>
      var boundary := Multipart.Boundary(up.boundarySuffix);
      Handle(req, up).calls[0]
        == LoginPost(LoginUrl, Multipart.ContentType(boundary),
                     Multipart.LoginBody(boundary, Text(Credential(req, "username")).value,
                                         Text(Credential(req, "password")).value,
                                         Text(Credential(req, "captchaToken")).value))
  {
  }

  /** The server decodes the posted form, through the boundary named in the
      Content-Type header of the same call, to exactly the string forms of the
      request's username, password and CAPTCHA token, in that order, as long as no
      line of them begins with the delimiter, the condition under which an RFC 2046
      receiver also keeps each part whole (`PlainText` shows it for every `null`,
      boolean and number). */
  lemma LoginFormDecodes(req: Request, up: Upstream)
    requires Admitted(req)
    requires !Contains(up.boundarySuffix, CRLF)
    requires var b := Multipart.Boundary(up.boundarySuffix);
      && Multipart.SafeValue(b, Text(Credential(req, "username")).value)
      && Multipart.SafeValue(b, Text(Credential(req, "password")).value)
      && Multipart.SafeValue(b, Text(Credential(req, "captchaToken")).value)
    ensures var calls := Handle(req, up).calls;
      |calls| > 0 && calls[0].LoginPost?
      && Multipart.Decode(calls[0].contentType, calls[0].body)
         == Some(Multipart.LoginFields(Text(Credential(req, "username")).value,
                                       Text(Credential(req, "password")).value,
                                       Text(Credential(req, "captchaToken")).value))
  {
    var b := Multipart.Boundary(up.boundarySuffix);
    NoCarriageReturn(Multipart.BoundaryPrefix);
    ConcatNoCrlf(Multipart.BoundaryPrefix, up.boundarySuffix);
    LoginCallCarriesForm(req, up);
    Multipart.LoginRoundTrip(b, Text(Credential(req, "username")).value,
                             Text(Credential(req, "password")).value,
                             Text(Credential(req, "captchaToken")).value);
  }

  /** The string form of `null`, a boolean or a number is a single form line
      that does not begin with the delimiter, and it holds neither `?` nor `&`, so it moves
      neither the form nor the invoice URL apart. */
  lemma PlainText(boundary: string, v: JsonValue)
    requires v.JNull? || v.JBool? || v.JNumber?
    ensures ToJsString(v).Some?
    ensures var w := ToJsString(v).value;
      Multipart.SafeValue(boundary, w) && '?' !in w && '&' !in w
  {
    var w := ToJsString(v).value;
    assert Word(w);
    forall i | 0 <= i < |w| ensures w[i] != '\r' && w[i] != '?' && w[i] != '&' {
    }
    NoCarriageReturn(w);
    SplitClean(w, CRLF);
    assert Split(w, CRLF) == [w];
    var d := Multipart.Delimiter(boundary);
    assert !Multipart.StartsWith(w, d) by {
      if |d| <= |w| {
        assert w[..|d|][1] == w[1] != '-';
        assert d[1] == '-';
      }
    }
  }

  /** The login response is checked in a fixed order: an unparsable body gives
      500 echoing the raw text; then a non-ok status or a truthy `error` gives
      401 with the parsed payload; then a falsy POC or PA gives 400. None of
      them reaches the invoice call. */
  lemma LoginChecksInOrder(req: Request, up: Upstream, res: LoginResponse)
    requires Admitted(req) && up.login == Resolved(res)
    ensures var o := Handle(req, up);
      && (res.parsed.None? ==>
            |o.calls| == 1 && o.reply == Respond(500, InvalidJsonBody(InvalidLoginJson, res.text)))
      && (res.parsed.Some? && (!res.ok || Truthy(Member(res.parsed, "error"))) ==>
            |o.calls| == 1 && o.reply == Respond(401, RejectedBody(LoginFailed, res.parsed.value)))
      && (res.parsed.Some? && res.ok && !Truthy(Member(res.parsed, "error")) && res.parsed.value != JNull
          && (!Truthy(PocOf(res.parsed.value)) || !Truthy(PaOf(res.parsed.value))) ==>
            |o.calls| == 1 && o.reply == Respond(400, ErrorBody(MissingAccount)))
  {
  }

  /** A login body that is JSON `null` passes the `error` check (`null?.error`
      is `undefined`) and then fails on `loginData.data`: 500 with V8's message. */
  lemma NullLoginBodyIs500(req: Request, up: Upstream, res: LoginResponse)
    requires Admitted(req) && up.login == Resolved(res) && res.ok && res.parsed == Some(JNull)
    ensures Handle(req, up).reply == Respond(500, ErrorBody(NullDataError))
    ensures |Handle(req, up).calls| == 1
  {
  }

  /** For every login payload whose `data` is an array: with no contract there is
      neither POC nor PA; otherwise both come from the first contract alone, the PA
      as its `pa` and the POC as `poc_number` of its first place of consumption,
      which `?.[0]` reads by key "0" when the places are an object and which is
      absent when they are neither an array nor an object. */
  lemma AccountOfFirstContract(data: JsonValue, contracts: seq<JsonValue>)
    requires data.JObject? && "data" in data.fields && data.fields["data"] == JArray(contracts)
    ensures |contracts| == 0 ==> PocOf(data).None? && PaOf(data).None?
    ensures |contracts| > 0 && !contracts[0].JObject? ==> PocOf(data).None? && PaOf(data).None?
    ensures |contracts| > 0 && contracts[0].JObject? ==>
      var c := contracts[0].fields;
      && PaOf(data) == (if "pa" in c then Some(c["pa"]) else None)
      && ("places_of_consumption" !in c ==> PocOf(data).None?)
      && ("places_of_consumption" in c && c["places_of_consumption"].JArray? ==>
            var places := c["places_of_consumption"].items;
            PocOf(data) == if |places| > 0 && places[0].JObject? && "poc_number" in places[0].fields
                           then Some(places[0].fields["poc_number"]) else None)
      && ("places_of_consumption" in c && c["places_of_consumption"].JObject? ==>
            var m := c["places_of_consumption"].fields;
            PocOf(data) == if "0" in m && m["0"].JObject? && "poc_number" in m["0"].fields
                           then Some(m["0"].fields["poc_number"]) else None)
      && (("places_of_consumption" in c && !c["places_of_consumption"].JArray?
           && !c["places_of_consumption"].JObject?) ==> PocOf(data).None?)
  {
  }

  /** A payload whose `data` is `null`, a boolean, a number or a string has
      neither POC nor PA: `?.[0]` of a string is a one-character string, which
      has none of the members read next. */
  lemma ScalarDataNoAccount(data: JsonValue)
    requires data.JObject? && "data" in data.fields
    requires !data.fields["data"].JArray? && !data.fields["data"].JObject?
    ensures PocOf(data).None? && PaOf(data).None?
  {
  }

  /** A payload without a `data` member has neither POC nor PA. */
  lemma NoDataNoAccount(data: JsonValue)
    requires !(data.JObject? && "data" in data.fields)
    ensures PocOf(data).None? && PaOf(data).None?
  {
  }

  /** After a login that passes every check, the second call is the
      invoice-history GET for the string forms `poc` and `pa` of POC and PA and the
      given dates, carrying the session cookie derived from the login response; the
      four values can be read back from its URL. */
  lemma InvoiceCallTargetsAccount(req: Request, up: Upstream, res: LoginResponse, data: JsonValue,
                                  poc: string, pa: string)
    requires Admitted(req) && up.login == Resolved(res) && res.ok && res.parsed == Some(data)
    requires !Truthy(Member(Some(data), "error"))
    requires Truthy(PocOf(data)) && Truthy(PaOf(data))
    requires ToJsString(PocOf(data).value) == Some(poc) && ToJsString(PaOf(data).value) == Some(pa)
    ensures var calls := Handle(req, up).calls;
      |calls| == 2
      && calls[1] == InvoiceGet(InvoiceUrl(poc, up.startDate, up.endDate, pa), Cookies.SessionCookie(res.setCookie))
    ensures '?' !in poc && '&' !in up.startDate && '&' !in up.endDate ==>
      ParseInvoiceUrl(Handle(req, up).calls[1].url) == Some((poc, up.startDate, up.endDate, pa))
  {
    assert data != JNull;
    var url := InvoiceUrl(poc, up.startDate, up.endDate, pa);
    var o := AfterLogin(Credential(req, "username").value, res, up);
    assert o.calls == [InvoiceGet(url, Cookies.SessionCookie(res.setCookie))];
    assert Handle(req, up) == Relay(req, up);
    assert Handle(req, up).calls[1..] == o.calls;
    if '?' !in poc && '&' !in up.startDate && '&' !in up.endDate {
      InvoiceUrlRoundTrip(poc, up.startDate, up.endDate, pa);
    }
  }

  /** A login that passes every check followed by an invoice payload of any
      shape answers 200 with the request's username and the invoices read from
      the payload: a missing invoice path is not an error. */
  lemma SuccessAfterLogin(req: Request, up: Upstream, res: LoginResponse, data: JsonValue, invoiceData: JsonValue)
    requires Admitted(req) && up.login == Resolved(res) && res.ok && res.parsed == Some(data)
    requires !Truthy(Member(Some(data), "error"))
    requires Truthy(PocOf(data)) && Truthy(PaOf(data))
    requires ToJsString(PocOf(data).value).Some? && ToJsString(PaOf(data).value).Some?
    requires up.invoices == Resolved(invoiceData)
    ensures |Handle(req, up).calls| == 2
    ensures Handle(req, up).reply
         == Respond(200, SuccessBody(Credential(req, "username").value, InvoicesOf(invoiceData)))
  {
    assert data != JNull;
  }

  /** Success is 200 after both calls, with `user` the request's username as
      given and `invoices` taken from the invoice payload. */
  lemma SuccessEchoesUser(req: Request, up: Upstream)
    requires Handle(req, up).reply.Respond? && Handle(req, up).reply.status == 200
    ensures Admitted(req) && up.login.Resolved? && up.invoices.Resolved?
    ensures |Handle(req, up).calls| == 2
    ensures Handle(req, up).reply.body
         == SuccessBody(Credential(req, "username").value, InvoicesOf(up.invoices.value))
  {
  }

  /** For every invoice payload: without a `data` member `invoices` is [];
      when `data` is an array, `invoices` is `data[0].invoices` if the first entry
      is an object holding a truthy `invoices`, and [] otherwise. */
  lemma InvoicesPath(invoiceData: JsonValue)
    ensures !(invoiceData.JObject? && "data" in invoiceData.fields) ==> InvoicesOf(invoiceData) == JArray([])
    ensures invoiceData.JObject? && "data" in invoiceData.fields && invoiceData.fields["data"].JArray? ==>
      var entries := invoiceData.fields["data"].items;
      InvoicesOf(invoiceData)
      == if |entries| > 0 && entries[0].JObject? && "invoices" in entries[0].fields
            && Truthy(Some(entries[0].fields["invoices"]))
         then entries[0].fields["invoices"] else JArray([])
  {
  }

  /** An upstream failure after validation (the login call or its body, or the
      invoice call or its JSON) gives 500 with the error's message; there is no
      partial success. */
  lemma UpstreamFailureIs500(req: Request, up: Upstream)
    requires Admitted(req)
    ensures up.login.Threw? ==> Handle(req, up).reply == Caught(up.login.message) && |Handle(req, up).calls| == 1
    ensures up.invoices.Threw? && |Handle(req, up).calls| == 2 ==>
      Handle(req, up).reply == Caught(up.invoices.message)
  {
  }

  /** A redirect or any other non-ok login answer whose body is not JSON gives
      500 with the raw text: the body is parsed before `ok` is looked at. */
  lemma RedirectWithoutJsonIs500(req: Request, up: Upstream, res: LoginResponse)
    requires Admitted(req) && up.login == Resolved(res) && !res.ok && res.parsed.None?
    ensures Handle(req, up).reply == Respond(500, InvalidJsonBody(InvalidLoginJson, res.text))
    ensures |Handle(req, up).calls| == 1
  {
  }

  /** Every response has one of the statuses the handler writes. */
  lemma StatusCodes(req: Request, up: Upstream)
    ensures var r := Handle(req, up).reply;
      r.Respond? ==> r.status in {200, 400, 401, 405, 500}
    ensures Handle(req, up).reply.Uncaught? <==> req.verb == "POST" && !Destructurable(req.body)
  {
  }
}
