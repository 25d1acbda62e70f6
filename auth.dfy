/**
 * The authentication middleware in front of every protected route: it reads
 * the `Authorization` header, expects `Bearer <token>`, verifies the token
 * and, only then, records the caller and passes control to the handler.
 * The token check itself (signature and expiry under the server's secret) is
 * a parameter `verify`, which yields the decoded payload or nothing.
 */
module AuthGate {

  import opened Wrappers
  import opened JsValues

  /** The identity carried in a token's payload (`{ user: { id } }`). */
  datatype Caller = Caller(id: Id)

  /** A decoded token payload; its `user` member may be missing. */
  datatype Decoded = Decoded(user: Option<Caller>)

  /**
   * What the middleware does: answer 401 with a message, or set the request's
   * user to the payload's `user` and call the next handler. The two exclude
   * each other, and every header leads to exactly one of them.
   */
  datatype Gate = Unauthorized(message: string) | Authorized(user: Option<Caller>)

  const Prefix: string := "Bearer "

  predicate StartsWith(s: string, p: string)
  {
    |p| <= |s| && s[..|p|] == p
  }

  /** JavaScript's `s.split(sep)` for a one-character separator. */
  function Split(s: string, sep: char): (parts: seq<string>)
    ensures |parts| >= 1
    ensures forall i :: 0 <= i < |parts| ==> sep !in parts[i]
    ensures |parts| == 1 <==> sep !in s
  {
    if s == [] then [""]
    else if s[0] == sep then [""] + Split(s[1..], sep)
    else
      var rest := Split(s[1..], sep);
      [[s[0]] + rest[0]] + rest[1..]
  }

  /** The inverse of `Split`: the parts with `sep` between them. */
  function Join(parts: seq<string>, sep: char): string
    requires |parts| >= 1
  {
    if |parts| == 1 then parts[0] else parts[0] + [sep] + Join(parts[1..], sep)
  }

  /** Splitting loses nothing: joining the parts gives back the string. */
  lemma {:induction false} JoinSplit(s: string, sep: char)
    ensures Join(Split(s, sep), sep) == s
  {
    if s == [] {
    } else if s[0] == sep {
      JoinSplit(s[1..], sep);
      assert s == [sep] + s[1..];
    } else {
      JoinSplit(s[1..], sep);
      var rest := Split(s[1..], sep);
      if |rest| == 1 {
        assert s == [s[0]] + rest[0];
      } else {
        assert rest == [rest[0]] + rest[1..];
        assert Join(rest, sep) == rest[0] + [sep] + Join(rest[1..], sep);
        assert s == [s[0]] + s[1..];
      }
    }
  }

  /** The longest prefix of `s` without a space: the token that follows the prefix. */
  function Word(s: string): (w: string)
    ensures |w| <= |s| && w == s[..|w|]
    ensures ' ' !in w
    ensures |w| < |s| ==> s[|w|] == ' '
  {
    if s == [] || s[0] == ' ' then [] else [s[0]] + Word(s[1..])
  }

  /** A word followed by the separator splits into that word and the parts of the rest. */
  lemma {:induction false} SplitAfterWord(w: string, rest: string, sep: char)
    requires sep !in w
    ensures Split(w + [sep] + rest, sep) == [w] + Split(rest, sep)
  {
    if w == [] {
      assert w + [sep] + rest == [sep] + rest;
    } else {
      SplitAfterWord(w[1..], rest, sep);
      assert (w + [sep] + rest)[1..] == w[1..] + [sep] + rest;
      assert [w[0]] + w[1..] == w;
    }
  }

  /** The first part of a split on spaces is the string's first word. */
  lemma {:induction false} FirstPartIsWord(s: string)
    ensures Split(s, ' ')[0] == Word(s)
  {
    if s != [] && s[0] != ' ' {
      FirstPartIsWord(s[1..]);
    }
  }

  /** `header.split(' ')[1]`, which is missing when there is no space at all. */
  function TokenValue(header: string): (r: Option<string>)
    ensures r.Some? <==> ' ' in header
    ensures r.Some? ==> ' ' !in r.value
  {
    var parts := Split(header, ' ');
    if |parts| > 1 then Some(parts[1]) else None
  }

  /** After the `Bearer ` prefix, the token is the word that follows it. */
  lemma BearerToken(rest: string)
    ensures TokenValue(Prefix + rest) == Some(Word(rest))
  {
    assert Prefix + rest == "Bearer" + [' '] + rest;
    SplitAfterWord("Bearer", rest, ' ');
    FirstPartIsWord(rest);
  }

  /** The middleware's decision for a request carrying `header` (None when absent). */
  function Authenticate(header: Option<string>, verify: string -> Option<Decoded>): (g: Gate)
    ensures header.None? || header == Some("") ==>
      g == Unauthorized("No token, authorization denied")
    ensures header.Some? && header.value != "" && !StartsWith(header.value, Prefix) ==>
      g == Unauthorized("Token format is invalid")
    ensures header.Some? && StartsWith(header.value, Prefix) ==>
      var token := Word(header.value[|Prefix|..]);
      && (token == "" ==> g == Unauthorized("Token value missing"))
      && (token != "" && verify(token).None? ==> g == Unauthorized("Token is not valid"))
      && (token != "" && verify(token).Some? ==> g == Authorized(verify(token).value.user))
    ensures g.Authorized? <==>
      && header.Some?
      && StartsWith(header.value, Prefix)
      && Word(header.value[|Prefix|..]) != ""
      && verify(Word(header.value[|Prefix|..])).Some?
  {
    if header.None? || header.value == "" then
      Unauthorized("No token, authorization denied")
    else if !StartsWith(header.value, Prefix) then
      Unauthorized("Token format is invalid")
    else
      assert header.value == Prefix + header.value[|Prefix|..];
      BearerToken(header.value[|Prefix|..]);
      match TokenValue(header.value)
      case None => Unauthorized("Token value missing")
      case Some(token) =>
        if token == "" then Unauthorized("Token value missing")
        else
          match verify(token)
          case None => Unauthorized("Token is not valid")
          case Some(decoded) => Authorized(decoded.user)
  }

  /** A header that is exactly `Bearer ` carries no token and is refused. */
  lemma BareBearerIsRefused(verify: string -> Option<Decoded>)
    ensures Authenticate(Some("Bearer "), verify) == Unauthorized("Token value missing")
  {
    assert "Bearer "[|Prefix|..] == [];
  }

  /** A second space after the prefix makes the token the empty part between the two spaces. */
  lemma DoubleSpaceIsRefused(token: string, verify: string -> Option<Decoded>)
    ensures Authenticate(Some(Prefix + " " + token), verify) == Unauthorized("Token value missing")
  {
    assert (Prefix + " " + token)[..|Prefix|] == Prefix;
    assert (Prefix + " " + token)[|Prefix|..] == " " + token;
  }
}
