/** The `Cookie` header value the handler derives from the login response's
    `Set-Cookie` headers (api/login-engie.js:48-49):
    `cookies?.map(c => c.split(';')[0]).join('; ')`. */
module Cookies {
  import opened Wrappers
  import opened Strings

  const PairSeparator: string := "; "

  /** `c.split(';')[0]`: the `name=value` pair of one Set-Cookie header. */
  function Pair(header: string): string {
    Split(header, ";")[0]
  }

  /** The pair of every header, in header order. */
  function Pairs(headers: seq<string>): (r: seq<string>)
    ensures |r| == |headers|
    ensures forall i :: 0 <= i < |headers| ==> r[i] == Pair(headers[i])
  {
    if headers == [] then [] else [Pair(headers[0])] + Pairs(headers[1..])
  }

  /** The session cookie; `undefined` (None) when the response has no
      Set-Cookie header, since `?.` stops there. */
  function SessionCookie(setCookie: Option<seq<string>>): (r: Option<string>)
    ensures r.None? <==> setCookie.None?
  {
    match setCookie
    case None => None
    case Some(headers) => Some(Join(Pairs(headers), PairSeparator))
  }

  /** The pair is the part of the header before its first `;`, or the whole
      header when it has none; it contains no `;`. */
  lemma PairIsPrefixBeforeSemicolon(header: string)
    ensures var p := Pair(header);
      && |p| <= |header| && header[..|p|] == p
      && ';' !in p
      && (p == header <==> ';' !in header)
      && (p != header ==> header[|p|] == ';')
  {
    var p := Pair(header);
    SplitFirstPiece(header, ";");
    ContainsChar(p, ';');
    ContainsChar(header, ';');
    if p != header {
      assert header[|p|..|p| + 1] == ";";
      assert header[|p|..|p| + 1][0] == header[|p|];
    }
  }

  /** A pair holds no `; `, so pairs can be taken apart again. */
  lemma PairClean(header: string)
    ensures !Contains(Pair(header), PairSeparator)
  {
    var p := Pair(header);
    PairIsPrefixBeforeSemicolon(header);
    forall i | 0 <= i <= |p| ensures !OccursAt(p, PairSeparator, i) {
      if i + 2 <= |p| {
        assert p[i..i + 2][0] == p[i];
        assert p[i] in p;
      }
    }
  }

  /** With at least one Set-Cookie header the cookie is present, and splitting it
      on "; " gives exactly one pair per header, in header order. */
  lemma SessionCookieSplits(headers: seq<string>)
    requires |headers| > 0
    ensures var c := SessionCookie(Some(headers));
      c.Some? && Split(c.value, PairSeparator) == Pairs(headers)
  {
    var pairs := Pairs(headers);
    forall k | 0 <= k < |pairs| ensures !Contains(pairs[k], PairSeparator) {
      PairClean(headers[k]);
    }
    assert FirstCharUnique(PairSeparator);
    SplitJoin(pairs, PairSeparator);
  }

  /** An empty header list (not a missing one) gives the empty cookie, as
      `[].join('; ')` does. node-fetch's `headers.raw()` leaves the key out rather
      than mapping it to an empty list, so the handler itself meets only the
      absent case; this fixes what the expression does in general. */
  lemma NoHeadersEmptyCookie()
    ensures SessionCookie(Some([])) == Some("")
  {
  }
}
