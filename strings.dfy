/** JavaScript's `String.prototype.split` (with a non-empty string separator) and
    `Array.prototype.join` on strings, with the facts that relate them. */
module Strings {
  import opened Wrappers

  const CRLF: string := "\r\n"

  /** `sub` occurs in `s` starting at index `i`. */
  predicate OccursAt(s: string, sub: string, i: int) {
    0 <= i && i + |sub| <= |s| && s[i..i + |sub|] == sub
  }

  predicate Contains(s: string, sub: string) {
    exists i :: 0 <= i <= |s| && OccursAt(s, sub, i)
  }

  /** The first character of `sep` does not occur again in `sep`, so two
      occurrences of `sep` can never overlap ("\r\n" and "; " are such). */
  predicate FirstCharUnique(sep: string) {
    |sep| > 0 && forall i :: 0 < i < |sep| ==> sep[i] != sep[0]
  }

  /** Leftmost occurrence of `sub` in `s` at or after index `from`. */
  function IndexFrom(s: string, sub: string, from: nat): (r: Option<nat>)
    requires |sub| > 0
    decreases |s| - from
    ensures r.Some? ==> from <= r.value && OccursAt(s, sub, r.value)
    ensures r.Some? ==> forall j :: from <= j < r.value ==> !OccursAt(s, sub, j)
    ensures r.None? ==> forall j :: from <= j ==> !OccursAt(s, sub, j)
  {
    if from + |sub| > |s| then None
    else if s[from..from + |sub|] == sub then Some(from)
    else IndexFrom(s, sub, from + 1)
  }

  /** `s.indexOf(sub)`, with "not found" as None. */
  function IndexOf(s: string, sub: string): (r: Option<nat>)
    requires |sub| > 0
    ensures r.Some? ==> OccursAt(s, sub, r.value)
    ensures r.Some? ==> forall j :: 0 <= j < r.value ==> !OccursAt(s, sub, j)
    ensures r.None? <==> !Contains(s, sub)
  {
    IndexFrom(s, sub, 0)
  }

  /** `s.split(sep)`: the pieces between the leftmost non-overlapping occurrences
      of `sep`; the empty string splits into one empty piece. */
  function Split(s: string, sep: string): (r: seq<string>)
    requires |sep| > 0
    decreases |s|
    ensures |r| > 0
  {
    match IndexOf(s, sep)
    case None => [s]
    case Some(i) => [s[..i]] + Split(s[i + |sep|..], sep)
  }

  /** `parts.join(sep)`. */
  function Join(parts: seq<string>, sep: string): string {
    if |parts| == 0 then ""
    else if |parts| == 1 then parts[0]
    else parts[0] + sep + Join(parts[1..], sep)
  }

  lemma JoinCons(p: string, rest: seq<string>, sep: string)
    requires |rest| > 0
    ensures Join([p] + rest, sep) == p + sep + Join(rest, sep)
  {
    assert ([p] + rest)[1..] == rest;
  }

  /** Joining two non-empty lists is joining each and putting one separator between. */
  lemma {:induction false} JoinAppend(xs: seq<string>, ys: seq<string>, sep: string)
    requires |xs| > 0 && |ys| > 0
    ensures Join(xs + ys, sep) == Join(xs, sep) + sep + Join(ys, sep)
  {
    if |xs| == 1 {
      JoinCons(xs[0], ys, sep);
      assert xs + ys == [xs[0]] + ys;
    } else {
      JoinAppend(xs[1..], ys, sep);
      assert xs + ys == [xs[0]] + (xs[1..] + ys);
      JoinCons(xs[0], xs[1..] + ys, sep);
      assert xs == [xs[0]] + xs[1..];
      JoinCons(xs[0], xs[1..], sep);
    }
  }

  /** Splitting loses nothing: joining the pieces back with the separator gives the string. */
  lemma {:induction false} JoinSplit(s: string, sep: string)
    requires |sep| > 0
    ensures Join(Split(s, sep), sep) == s
    decreases |s|
  {
    match IndexOf(s, sep)
    case None =>
    case Some(i) =>
      var rest := s[i + |sep|..];
      JoinSplit(rest, sep);
      JoinCons(s[..i], Split(rest, sep), sep);
      assert s == s[..i] + s[i..i + |sep|] + rest;
  }

  /** No piece of a split contains the separator. */
  lemma {:induction false} SplitPiecesClean(s: string, sep: string)
    requires |sep| > 0
    ensures forall k :: 0 <= k < |Split(s, sep)| ==> !Contains(Split(s, sep)[k], sep)
    decreases |s|
  {
    match IndexOf(s, sep)
    case None =>
    case Some(i) =>
      var rest := s[i + |sep|..];
      SplitPiecesClean(rest, sep);
      if Contains(s[..i], sep) {
        var j :| 0 <= j <= i && OccursAt(s[..i], sep, j);
        assert s[..i][j..j + |sep|] == s[j..j + |sep|];
        assert OccursAt(s, sep, j);
        assert false;
      }
      assert Split(s, sep) == [s[..i]] + Split(rest, sep);
  }

  /** A string without the separator splits into itself alone. */
  lemma SplitClean(s: string, sep: string)
    requires |sep| > 0 && !Contains(s, sep)
    ensures Split(s, sep) == [s]
  {
  }

  /** The first piece of a split is the prefix of `s` before the first separator
      (all of `s` when there is none), and it contains no separator. */
  lemma SplitFirstPiece(s: string, sep: string)
    requires |sep| > 0
    ensures var x := Split(s, sep)[0];
      && |x| <= |s| && s[..|x|] == x
      && !Contains(x, sep)
      && (x == s <==> !Contains(s, sep))
      && (x != s ==> OccursAt(s, sep, |x|))
  {
    SplitPiecesClean(s, sep);
    match IndexOf(s, sep)
    case None =>
    case Some(i) =>
      assert Split(s, sep)[0] == s[..i];
      assert |s[..i]| < |s|;
  }

  /** When `p` holds no separator that cannot overlap itself, the first separator
      in `p + sep + t` is the one right after `p`. */
  lemma FirstSeparator(p: string, sep: string, t: string)
    requires FirstCharUnique(sep) && !Contains(p, sep)
    ensures IndexOf(p + sep + t, sep) == Some(|p|)
  {
    var s := p + sep + t;
    assert s[|p|..|p| + |sep|] == sep;
    assert OccursAt(s, sep, |p|);
    forall j | 0 <= j < |p| ensures !OccursAt(s, sep, j) {
      if j + |sep| <= |p| {
        assert s[j..j + |sep|] == p[j..j + |sep|];
        assert !OccursAt(p, sep, j);
      } else if j + |sep| <= |s| {
        assert s[j..j + |sep|][|p| - j] == s[|p|] == sep[0];
        assert sep[|p| - j] != sep[0];
      }
    }
    assert Contains(s, sep);
  }

  /** Splitting a join gives back the parts, provided no part contains the
      separator and the separator cannot overlap itself. */
  lemma {:induction false} SplitJoin(parts: seq<string>, sep: string)
    requires FirstCharUnique(sep) && |parts| > 0
    requires forall k :: 0 <= k < |parts| ==> !Contains(parts[k], sep)
    ensures Split(Join(parts, sep), sep) == parts
  {
    if |parts| == 1 {
      SplitClean(parts[0], sep);
    } else {
      var rest := Join(parts[1..], sep);
      var s := parts[0] + sep + rest;
      FirstSeparator(parts[0], sep, rest);
      assert s[..|parts[0]|] == parts[0];
      assert s[|parts[0]| + |sep|..] == rest;
      SplitJoin(parts[1..], sep);
      assert parts == [parts[0]] + parts[1..];
    }
  }

  /** A string with no carriage return contains no CRLF. */
  lemma NoCarriageReturn(s: string)
    requires '\r' !in s
    ensures !Contains(s, CRLF)
  {
    forall i | 0 <= i <= |s| ensures !OccursAt(s, CRLF, i) {
      if i + 2 <= |s| {
        assert s[i..i + 2][0] == s[i];
        assert s[i] in s;
      }
    }
  }

  /** CRLF occurs in a concatenation only inside a side or across the seam. */
  lemma ConcatNoCrlf(a: string, b: string)
    requires !Contains(a, CRLF) && !Contains(b, CRLF)
    requires a == [] || b == [] || a[|a| - 1] != '\r' || b[0] != '\n'
    ensures !Contains(a + b, CRLF)
  {
    var s := a + b;
    forall i | 0 <= i <= |s| ensures !OccursAt(s, CRLF, i) {
      if i + 2 <= |s| {
        if i + 2 <= |a| {
          assert s[i..i + 2] == a[i..i + 2];
          assert !OccursAt(a, CRLF, i);
        } else if i >= |a| {
          assert s[i..i + 2] == b[i - |a|..i - |a| + 2];
          assert !OccursAt(b, CRLF, i - |a|);
        } else {
          assert s[i..i + 2][0] == s[i] == a[|a| - 1];
          assert s[i..i + 2][1] == s[i + 1] == b[0];
        }
      }
    }
  }

  lemma CrlfFirstCharUnique()
    ensures FirstCharUnique(CRLF)
  {
  }

  /** A one-character separator occurs exactly where its character does. */
  lemma ContainsChar(s: string, c: char)
    ensures Contains(s, [c]) <==> c in s
  {
    if c in s {
      var i :| 0 <= i < |s| && s[i] == c;
      assert s[i..i + 1] == [c];
      assert OccursAt(s, [c], i);
    }
    if Contains(s, [c]) {
      var i :| 0 <= i <= |s| && OccursAt(s, [c], i);
      assert s[i..i + 1][0] == s[i];
    }
  }
}
