# ENGIE login relay — Dafny model

This project models the login handler `api/login-engie.js`. The handler takes a POST carrying
`username`, `password` and `captchaToken`. It posts them as a `multipart/form-data` form to the
provider's login endpoint. It turns the response's `Set-Cookie` headers into one session
`Cookie` value, checks the login answer, and reads the POC (point of consumption) and the
PA (provider account) of the first contract. With those it fetches the invoice history of
the last year and answers with `{ success, user, invoices }`.

The model is a set of pure functions. The outside world becomes inputs:

- the request's method and parsed body;
- the random part of the form boundary;
- the two dates;
- what the two upstream calls produce.

`Handler.Handle` returns the list of calls the handler makes, in order, together with the
status and body it writes.

Modules, one per concern of the handler:

- `Wrappers`: `Option`, also used for JavaScript's `undefined`.
- `Strings`: `String.prototype.split` and `Array.prototype.join`, with `Split(Join(..))` and
  `Join(Split(..))` proved.
- `Json`: parsed JSON values, with JavaScript truthiness, optional chaining (`?.key`, `?.[0]`)
  and string conversion (template literals, `join`). String conversion throws a TypeError
  for an object that has its own `toString` key.
- `Multipart`: the literal body of the handler; the general RFC 7578 encoding of a field
  list (delimiter grammar from section 5.1.1 of RFC 2046); a decoder that reads a body back
  through the boundary in the Content-Type header.
- `Cookies`: `cookies?.map(c => c.split(';')[0]).join('; ')`.
- `Handler`: the decision ladder, the invoice URL and its reader, and the properties of the
  whole handler.

Behaviour of the code worth knowing, which the model follows:

- The start date is one calendar year back in the host's local time (`setFullYear`), and both
  dates are then written as UTC dates (`toISOString`). On a UTC host they are 365 or 366 days
  apart; across a daylight-saving change in another time zone they can be a day closer. The
  dates are inputs here in any case.
- POC, PA and `invoices` are tested for truthiness, not presence. A POC of `0` or `""` is
  rejected with 400. A falsy `invoices` value (`""`, `0`, `false`, `null`) becomes `[]`.
- A redirect (3xx) answer from the login endpoint has `ok == false`. The body is parsed
  first, so a redirect whose body is not JSON gives 500 with the raw text
  (`Handler.RedirectWithoutJsonIs500`), and one with a JSON body gives 401. Its cookies are
  never used.
- A login body that is JSON `null` passes the `error` check. `loginData.data` then throws,
  and the catch block answers 500 (`Handler.NullLoginBodyIs500`).
- A body that is `undefined` or `null` makes the destructuring throw outside the `try`. The
  model reports this as `Uncaught` and leaves the answer to the hosting framework.

## Model

| member | source | states |
|---|---|---|
| Strings.IndexOf | api/login-engie.js:49 | the result is the leftmost occurrence of the separator, and "none" happens exactly when the string does not contain it |
| Strings.Split | api/login-engie.js:49 | `s.split(sep)`; it always yields at least one piece, loses nothing (Strings.JoinSplit), yields pieces free of the separator (Strings.SplitPiecesClean) and its first piece is the prefix before the first separator (Strings.SplitFirstPiece) |
| Strings.Join | api/login-engie.js:33 | `parts.join(sep)`; Strings.Split undoes it for separator-free parts (Strings.SplitJoin) and it distributes over concatenation (Strings.JoinAppend) |
| Strings.JoinSplit | api/login-engie.js:49 | joining the pieces of a split with the separator gives back the original string |
| Strings.SplitJoin | api/login-engie.js:33 | splitting a join recovers the parts when no part contains the separator and the separator cannot overlap itself |
| Strings.SplitPiecesClean | api/login-engie.js:49 | no piece of a split contains the separator |
| Strings.SplitFirstPiece | api/login-engie.js:49 | `split(sep)[0]` is the prefix before the first separator (the whole string when there is none), contains no separator, and a separator follows it when it is shorter |
| Strings.JoinAppend | api/login-engie.js:33 | joining a concatenation of two non-empty lists is the two joins with one separator between them |
| Json.Truthy | api/login-engie.js:9 | a value is falsy exactly when it is `undefined`, `null`, `false`, `0` or the empty string; the same test serves lines 59, 67 and 89 |
| Json.ToJsString | api/login-engie.js:18-33 | converting a value to a string (the `join` of the body here, the template of line 78 too) fails exactly for an object with its own "toString" key or an array holding one; `null`, booleans and numbers give a non-empty word of letters and digits with at most a leading minus |
| Json.JoinItems | api/login-engie.js:18-33 | the `join` of an array's elements fails exactly when one of them cannot be converted |
| Json.IntToDecimal | api/login-engie.js:78 | the decimal form of an integer is non-empty, made of digits only, with a leading minus exactly when the integer is negative |
| Json.NatToDecimalValue | api/login-engie.js:78 | the digits written for a natural number denote that number |
| Json.IntToDecimalValue | api/login-engie.js:78 | the decimal form of an integer denotes it: its digits are `n`, or `-n` after the minus sign |
| Json.Member | api/login-engie.js:59-65 | one `?.key` step; what the chains built from it read is stated by Handler.AccountOfFirstContract, Handler.NoDataNoAccount and Handler.InvoicesPath |
| Json.First | api/login-engie.js:63-64 | one `?.[0]` step; what the chains built from it read is stated by Handler.AccountOfFirstContract, Handler.NoDataNoAccount and Handler.InvoicesPath |
| Multipart.Boundary | api/login-engie.js:14 | the boundary `----WebKitFormBoundary` plus the random suffix; Multipart.BoundaryIsValid shows it is an RFC 2046 boundary without CRLF |
| Multipart.Delimiter | api/login-engie.js:15 | `--boundary`; Multipart.EncodeFrame shows the body opens with it, Multipart.BoundaryIsValid bounds the boundary inside it |
| Multipart.CloseDelimiter | api/login-engie.js:16 | `--boundary--`; Multipart.EncodeFrame shows the body ends with it and a CRLF |
| Multipart.ContentType | api/login-engie.js:38 | the header `multipart/form-data; boundary=…`; Multipart.BoundaryOfContentType reads the boundary back from it |
| Multipart.LoginLines | api/login-engie.js:18-32 | the 14 lines of the handler's array in order; Multipart.LoginBodyIsForm shows they are the general encoding of the three fields |
| Multipart.LoginBody | api/login-engie.js:18-33 | the handler's body; it is the general encoding of its three fields (Multipart.LoginBodyIsForm) and decodes back to them (Multipart.LoginRoundTrip) |
| Multipart.Encode | api/login-engie.js:14-33 | the multipart encoding of a field list; framed by the delimiters (Multipart.EncodeFrame) and undone by Multipart.Decode (Multipart.RoundTrip) |
| Multipart.Decode | api/login-engie.js:14-38 | reads a body back through the boundary of its Content-Type header; it undoes Multipart.Encode (Multipart.RoundTrip) |
| Multipart.BoundaryOfContentType | api/login-engie.js:38 | the boundary named by the Content-Type header the handler sends is the boundary it was built from |
| Multipart.LoginBodyIsForm | api/login-engie.js:18-33 | the handler's 14-line literal joined by CRLF is the multipart encoding of the fields username, password, g-recaptcha-response in that order |
| Multipart.EncodeFrame | api/login-engie.js:15-33 | the body starts with the delimiter line and CRLF, and ends with the close delimiter `--boundary--` and a trailing CRLF |
| Multipart.RoundTrip | api/login-engie.js:14-33 | decoding an encoding through its Content-Type header gives back every field, name and value, in order, when boundary and names hold no CRLF and no value line begins with the delimiter (where an RFC 2046 receiver, which allows transport padding, would end the part) |
| Multipart.PlainValueIsSafe | api/login-engie.js:15-16 | a value without CRLF and without the delimiter meets the round-trip condition |
| Multipart.LoginRoundTrip | api/login-engie.js:14-38 | the login body decodes, through the header sent with it, to exactly username, password and CAPTCHA token in that order |
| Multipart.BoundaryIsValid | api/login-engie.js:14 | a boundary with a base-36 suffix of at most 48 digits is a valid RFC 2046 boundary and holds no CRLF |
| Cookies.Pair | api/login-engie.js:49 | `c.split(';')[0]`; it is the header's text before its first `;` (Cookies.PairIsPrefixBeforeSemicolon) and never holds "; " (Cookies.PairClean) |
| Cookies.Pairs | api/login-engie.js:49 | one pair per Set-Cookie header, in header order, each the header's `split(';')[0]` |
| Cookies.SessionCookie | api/login-engie.js:48-49 | the cookie is absent exactly when the response has no Set-Cookie headers |
| Cookies.PairIsPrefixBeforeSemicolon | api/login-engie.js:49 | each pair is the header's text before its first `;` (the whole header when it has none) and contains no `;` |
| Cookies.PairClean | api/login-engie.js:49 | a pair never contains the separator "; " |
| Cookies.SessionCookieSplits | api/login-engie.js:48-49 | with at least one header the cookie is present, and splitting it on "; " gives exactly the pairs in header order |
| Cookies.NoHeadersEmptyCookie | api/login-engie.js:49 | an empty header list gives the empty cookie, not an absent one |
| Handler.Handle | api/login-engie.js:4-99 | the handler makes at most two calls, the login POST first and the invoice GET second; the lemmas below state its answers |
| Handler.Relay | api/login-engie.js:13-98 | the try block; its calls and answers are stated by Handler.LoginCallCarriesForm, Handler.UpstreamFailureIs500 and Handler.SuccessAfterLogin |
| Handler.AfterLogin | api/login-engie.js:51-95 | after the login response at most the invoice call is made, and a 200 comes only after it |
| Handler.Caught | api/login-engie.js:97-98 | the catch block answers 500 with the error's message, or "Unknown error" when the message is empty |
| Handler.Destructurable | api/login-engie.js:7 | the destructuring of the body succeeds, i.e. the body is neither `undefined` nor `null`; Handler.StatusCodes shows that otherwise nothing is answered, Handler.MissingCredentialsIs400 uses it for the 400 |
| Handler.HasCredentials | api/login-engie.js:9 | all three credentials are truthy; Handler.MissingCredentialsIs400 shows that its failure is exactly the 400 with no call |
| Handler.Text | api/login-engie.js:18-33 | a credential's string form as the `join` of the body writes it; its failure and its shape for scalars are those of Json.ToJsString, and Handler.LoginFormDecodes reads it back from the body |
| Handler.Contract | api/login-engie.js:63 | `loginData.data?.[0]`; what is read through it is stated by Handler.AccountOfFirstContract, Handler.NoDataNoAccount and Handler.ScalarDataNoAccount |
| Handler.PocOf | api/login-engie.js:63-64 | `data[0].places_of_consumption[0].poc_number` of the first contract only (Handler.AccountOfFirstContract), absent without `data` (Handler.NoDataNoAccount) |
| Handler.PaOf | api/login-engie.js:63-65 | `data[0].pa` of the first contract only (Handler.AccountOfFirstContract), absent without `data` (Handler.NoDataNoAccount) |
| Handler.InvoicesOf | api/login-engie.js:89 | the invoices returned are always truthy; Handler.InvoicesPath says which value they are for every payload without `data` or with an array `data` |
| Handler.InvoiceUrl | api/login-engie.js:78 | the invoice-history URL; Handler.ParseInvoiceUrl reads its four values back (Handler.InvoiceUrlRoundTrip) |
| Handler.ParseInvoiceUrl | api/login-engie.js:78 | undoes Handler.InvoiceUrl when poc has no `?` and the dates have no `&` (Handler.InvoiceUrlRoundTrip) |
| Handler.NonPostIs405 | api/login-engie.js:5 | any method but POST gives 405 "Method not allowed", whatever the body, and no call is made |
| Handler.MissingCredentialsIs400 | api/login-engie.js:7-11 | the outcome "400 for missing credentials, no call made" happens exactly for a POST whose body has a falsy username, password or captchaToken |
| Handler.LoginCallCarriesForm | api/login-engie.js:9-46 | an upstream call happens exactly when the request is admitted, and the first call is then the login POST with the multipart header and body built from the credentials |
| Handler.LoginFormDecodes | api/login-engie.js:14-46 | the posted body decodes, through the Content-Type header of the same call, to the string forms of the request's username, password and token in order, when no line of them begins with the delimiter |
| Handler.PlainText | api/login-engie.js:18-33 | the string form of `null`, a boolean or a number is one line that does not begin with the delimiter, and holds no `?` or `&`, so such credentials always decode and such a POC always reads back from the URL |
| Handler.LoginChecksInOrder | api/login-engie.js:51-69 | unparsable login body gives 500 echoing the raw text, then non-ok or truthy `error` gives 401 with the parsed payload, then falsy POC or PA gives 400; none reaches the invoice call |
| Handler.RedirectWithoutJsonIs500 | api/login-engie.js:53-59 | a non-ok login answer (a redirect among them) whose body is not JSON gives 500 with the raw text after the login call alone, before `ok` is tested |
| Handler.NullLoginBodyIs500 | api/login-engie.js:59-63 | an ok login whose body is JSON `null` gives 500 with the TypeError of `loginData.data` |
| Handler.AccountOfFirstContract | api/login-engie.js:63-65 | for every payload whose `data` is an array: no contract, or a first contract that is not an object, means no POC and no PA; otherwise PA is the first contract's `pa` and POC the `poc_number` of its first place of consumption (an array's first element, an object's key "0", absent for any other value), whatever the other contracts hold |
| Handler.ScalarDataNoAccount | api/login-engie.js:63-65 | a payload whose `data` is `null`, a boolean, a number or a string has neither POC nor PA |
| Handler.NoDataNoAccount | api/login-engie.js:63-65 | a payload without a `data` member has neither POC nor PA |
| Handler.InvoiceCallTargetsAccount | api/login-engie.js:63-86 | after a login that passes every check, the second call is the invoice GET for the string forms of POC and PA and the given dates, with the derived session cookie, and the four values can be read back from its URL |
| Handler.InvoiceUrlRoundTrip | api/login-engie.js:78 | the URL embeds poc, startDate, endDate and pa verbatim in that order; they are read back when poc has no `?` and the dates have no `&` |
| Handler.SuccessEchoesUser | api/login-engie.js:88-95 | a 200 comes only after both calls succeed, with `user` equal to the request's username and `invoices` taken from the invoice payload |
| Handler.SuccessAfterLogin | api/login-engie.js:88-95 | a login that passes every check followed by any invoice payload answers 200 with the request's username and that payload's invoices, so a missing path is never an error |
| Handler.InvoicesPath | api/login-engie.js:89 | without `data` the invoices are `[]`; with an array `data` they are `data[0].invoices` when that is truthy and `[]` otherwise |
| Handler.UpstreamFailureIs500 | api/login-engie.js:97-98 | a failing login call or invoice call gives 500 with its message; there is no partial success |
| Handler.StatusCodes | api/login-engie.js:4-99 | every response has status 200, 400, 401, 405 or 500; the only unanswered case is a POST without a usable body |

## Left out

- A second, bearer-token login handler of the repository is not part of this model; only `api/login-engie.js` is modelled.
- Network I/O: the two `fetch` calls, `headers.raw()` and the `res.status().json()` writes are inputs and outputs (`Upstream`, `Outcome`).
- The fixed request headers (`Accept`, `Origin`, `Referer`, `User-Agent`) and `redirect: 'manual'`: constants with no logic.
- `Math.random()`: its base-36 digits are the input `boundarySuffix`.
- The date arithmetic of lines 71-76: it depends on the host clock and time zone, so `startDate` and `endDate` are inputs.
- `JSON.parse` and `invoiceRes.json()`: their results are inputs (`Option` for the login text, `Settled` for the invoice body).
- The catch-all sees thrown errors only as their messages; the error objects themselves are not modelled.
- The hosting framework's answer to an error thrown outside the `try`: the model reports `Uncaught`.
- How node-fetch sends a `Cookie` header whose value is `undefined`: the call carries `None`.
- JSON numbers are integers; doubles, exponent notation and precision loss are not modelled.
- `Json.Member`: array indices and `length` on arrays and strings are not modelled, since the handler reads none of them by name.
- The decoder reads only the shape this encoder produces: no preamble, one header line per part, and the epilogue is ignored. General RFC 7578 parsing is out of scope.
- Strings are Dafny strings, sequences of Unicode scalar values, where JavaScript strings are UTF-16 code units; every separator and index the handler uses is ASCII, so the two agree here.
- Handler.AccountOfFirstContract: a `data` member that is an object (read through its key "0") is covered only by the definition; an array `data` is covered by this lemma and a scalar one by Handler.ScalarDataNoAccount.
- Handler.InvoicesPath: a `data` member that is an object (read through its key "0") or a scalar is covered only by the definition, not by the lemma.
