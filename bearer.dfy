/**
 * The `authenticateToken` middleware of test.js:29-40: the token is the
 * second piece of the `Authorization` header split on spaces; `jwt.verify`
 * is an oracle passed in as a function.
 */
module Bearer {
  import opened Wrappers

  /** `s.split(sep)` for a one-character separator: the pieces between
      separators, empty ones included, so there is always at least one. */
  function Split(s: string, sep: char): (parts: seq<string>)
    ensures |parts| >= 1
    ensures forall k :: 0 <= k < |parts| ==> sep !in parts[k]
    ensures |parts| == 1 <==> sep !in s
    decreases |s|
  {
    if s == [] then [""]
    else
      var rest := Split(s[1..], sep);
      if s[0] == sep then [""] + rest
      else [[s[0]] + rest[0]] + rest[1..]
  }

  /** `parts.join(sep)`, the inverse of `Split`. */
  function Join(parts: seq<string>, sep: char): string
    requires |parts| >= 1
    decreases |parts|
  {
    if |parts| == 1 then parts[0] else parts[0] + [sep] + Join(parts[1..], sep)
  }

  /** Joining the pieces gives back the string. */
  lemma {:induction false} SplitJoin(s: string, sep: char)
    ensures Join(Split(s, sep), sep) == s
    decreases |s|
  {
    if s != [] {
      var rest := Split(s[1..], sep);
      SplitJoin(s[1..], sep);
      if s[0] != sep && |rest| > 1 {
        assert Join(rest, sep) == rest[0] + [sep] + Join(rest[1..], sep);
        assert rest[1..][1..] == rest[2..];
      }
    }
  }

  /** A prefix free of the separator is glued to the first piece of the rest. */
  lemma {:induction false} SplitPrefix(a: string, t: string, sep: char)
    requires sep !in a
    ensures Split(a + t, sep) == [a + Split(t, sep)[0]] + Split(t, sep)[1..]
    decreases |a|
  {
    if a == [] {
      var parts := Split(t, sep);
      assert a + t == t && a + parts[0] == parts[0];
      assert [parts[0]] + parts[1..] == parts;
    } else {
      assert (a + t)[1..] == a[1..] + t;
      SplitPrefix(a[1..], t, sep);
      assert [a[0]] + (a[1..] + Split(t, sep)[0]) == a + Split(t, sep)[0];
    }
  }

  /** Pieces free of the separator are what splitting their join gives. */
  lemma {:induction false} JoinSplit(parts: seq<string>, sep: char)
    requires |parts| >= 1
    requires forall k :: 0 <= k < |parts| ==> sep !in parts[k]
    ensures Split(Join(parts, sep), sep) == parts
    decreases |parts|
  {
    if |parts| == 1 {
      SplitPrefix(parts[0], "", sep);
      assert parts[0] + "" == parts[0];
    } else {
      JoinSplit(parts[1..], sep);
      var tail := [sep] + Join(parts[1..], sep);
      assert parts[0] + [sep] + Join(parts[1..], sep) == parts[0] + tail;
      SplitPrefix(parts[0], tail, sep);
      assert tail[0] == sep && tail[1..] == Join(parts[1..], sep);
      assert parts[0] + "" == parts[0];
    }
  }

  /** `authHeader && authHeader.split(' ')[1]`: undefined without a header,
      the empty header itself when it is "", and otherwise the second piece,
      undefined when there is none. */
  function ExtractToken(header: Option<string>): (token: Option<string>)
    ensures header.None? ==> token.None?
    ensures header == Some("") ==> token == Some("")
    ensures header.Some? && header.value != "" ==> (token.Some? <==> ' ' in header.value)
    ensures header.Some? && header.value != "" && token.Some? ==> ' ' !in token.value
  {
    match header
    case None => None
    case Some(h) =>
      if h == "" then Some("")
      else
        var parts := Split(h, ' ');
        if |parts| > 1 then Some(parts[1]) else None
  }

  /** `!token`: undefined and the empty string are falsy. */
  predicate TokenMissing(token: Option<string>)
  {
    token.None? || token.value == ""
  }

  /** A header `<scheme> <token>`, possibly followed by more space-separated
      words, yields exactly `<token>`. */
  lemma BearerTokenExtracted(scheme: string, token: string, rest: string)
    requires ' ' !in scheme && ' ' !in token
    requires rest == "" || rest[0] == ' '
    ensures ExtractToken(Some(scheme + " " + token + rest)) == Some(token)
  {
    var h := scheme + " " + token + rest;
    var tail := [' '] + (token + rest);
    assert h == scheme + tail;
    SplitPrefix(scheme, tail, ' ');
    assert tail[1..] == token + rest;
    assert Split(tail, ' ') == [""] + Split(token + rest, ' ');
    SplitPrefix(token, rest, ' ');
    assert Split(rest, ' ')[0] == "";
    assert token + "" == token;
    assert Split(h, ' ')[1] == token;
  }

  /** The first two pieces of a join, and what follows them. */
  lemma JoinFirstTwo(parts: seq<string>, sep: char)
    requires |parts| >= 2
    ensures Join(parts, sep) == parts[0] + [sep] + parts[1]
              + (if |parts| > 2 then [sep] + Join(parts[2..], sep) else [])
  {
  }

  /** `h` is `<scheme> <token>` followed by nothing or by more
      space-separated words. */
  predicate SchemeAndToken(h: string, scheme: string, token: string, rest: string)
  {
    && h == scheme + " " + token + rest
    && ' ' !in scheme && ' ' !in token
    && (rest == "" || rest[0] == ' ')
  }

  /** Conversely, a token extracted from a non-empty header is the word after
      the first space, ended by the next space or by the end of the header. */
  lemma TokenIsSecondWord(h: string, token: string)
    requires h != "" && ExtractToken(Some(h)) == Some(token)
    ensures exists scheme: string, rest: string :: SchemeAndToken(h, scheme, token, rest)
  {
    var scheme, rest := SecondWord(h, token);
    assert SchemeAndToken(h, scheme, token, rest);
  }

  /** The scheme and the words after the token, for `TokenIsSecondWord`. */
  lemma SecondWord(h: string, token: string) returns (scheme: string, rest: string)
    requires h != "" && ExtractToken(Some(h)) == Some(token)
    ensures h == scheme + " " + token + rest
    ensures ' ' !in scheme && ' ' !in token && (rest == "" || rest[0] == ' ')
  {
    var parts := Split(h, ' ');
    assert |parts| > 1 && parts[1] == token;
    SplitJoin(h, ' ');
    JoinFirstTwo(parts, ' ');
    scheme := parts[0];
    rest := if |parts| > 2 then " " + Join(parts[2..], ' ') else "";
  }

  /** `i` is the position of the first space in `h`. */
  predicate FirstSpaceAt(h: string, i: nat)
  {
    i < |h| && h[i] == ' ' && forall k :: 0 <= k < i ==> h[k] != ' '
  }

  /** In `<scheme> <after>` with a space-free scheme, the first space is the
      one after the scheme, and only that one. */
  lemma FirstSpaceAfterScheme(h: string, scheme: string, after: string)
    requires h == scheme + " " + after && ' ' !in scheme
    ensures FirstSpaceAt(h, |scheme|) && h[|scheme| + 1..] == after
    ensures forall j: nat :: FirstSpaceAt(h, j) ==> j == |scheme|
  {
  }

  /** The 401 branch (`!token`) is taken exactly when there is no header, the
      header has no space, or its first space is followed by another space
      or by the end of the header. */
  lemma TokenMissingIff(header: Option<string>)
    ensures TokenMissing(ExtractToken(header)) <==>
              || header.None?
              || ' ' !in header.value
              || exists i: nat :: FirstSpaceAt(header.value, i) && (i + 1 == |header.value| || header.value[i + 1] == ' ')
  {
    if header.Some? && ' ' in header.value {
      var h := header.value;
      var token := ExtractToken(header).value;
      var scheme, rest := SecondWord(h, token);
      assert h == scheme + " " + (token + rest);
      FirstSpaceAfterScheme(h, scheme, token + rest);
      var i := |scheme|;
      assert token == "" <==> (i + 1 == |h| || h[i + 1] == ' ') by {
        if token != "" { assert h[i + 1] == token[0]; }
      }
    }
  }

  // ---------------------------------------------------------------------
  // The middleware around the extraction

  datatype Response = Response(status: nat, error: string)

  const AccessDenied := Response(401, "Access denied")
  const InvalidToken := Response(403, "Invalid token")

  /** The payload `jwt.verify` decodes from a valid token. */
  datatype User = User(userId: nat, username: string)

  /** What `jwt.verify` hands its callback: the user, or an error. */
  datatype Verdict = Verified(user: User) | Rejected

  /** The effects of one pass through the middleware: the responses it starts
      on `res` in order, the user put on `req.user`, and whether `next()`
      ran. */
  datatype Passage = Passage(responses: seq<Response>, user: Option<User>, nextCalled: bool)

  /** test.js:29-40 as written: the 401 on a missing token does not return,
      so `jwt.verify` runs in every case. The oracle is unconstrained here;
      jsonwebtoken refuses every undefined or empty token, so after a 401 it
      is the second (403) response that is attempted, never `next()`. */
  function AuthenticateToken(header: Option<string>, verify: Option<string> -> Verdict): (p: Passage)
    ensures p.nextCalled <==> verify(ExtractToken(header)).Verified?
    ensures p.nextCalled ==> p.user == Some(verify(ExtractToken(header)).user)
    ensures !p.nextCalled ==> p.user == None
    ensures p.responses == (if TokenMissing(ExtractToken(header)) then [AccessDenied] else [])
                           + (if verify(ExtractToken(header)).Verified? then [] else [InvalidToken])
    ensures !TokenMissing(ExtractToken(header)) ==>
              (p.responses == [] && p.nextCalled) || (p.responses == [InvalidToken] && !p.nextCalled)
  {
    var token := ExtractToken(header);
    var denied := if TokenMissing(token) then [AccessDenied] else [];
    match verify(token)
    case Verified(u) => Passage(denied, Some(u), true)
    case Rejected => Passage(denied + [InvalidToken], None, false)
  }

  /** With no header and a `jwt.verify` that refuses the missing token, the
      request as written is answered twice: 401 and then 403. */
  lemma MissingHeaderAnsweredTwice(verify: Option<string> -> Verdict)
    requires verify(None) == Rejected
    ensures AuthenticateToken(None, verify).responses == [AccessDenied, InvalidToken]
  {
  }

  /** The middleware with `return` before the 401, as intended: a request
      gets exactly one response or is passed on, never both. */
  function AuthenticateTokenReturning(header: Option<string>, verify: Option<string> -> Verdict): (p: Passage)
    ensures (|p.responses| == 1 && !p.nextCalled) || (p.responses == [] && p.nextCalled)
    ensures TokenMissing(ExtractToken(header)) ==> p.responses == [AccessDenied]
    ensures p.nextCalled <==> !TokenMissing(ExtractToken(header)) && verify(ExtractToken(header)).Verified?
    ensures !TokenMissing(ExtractToken(header)) ==> p == AuthenticateToken(header, verify)
  {
    var token := ExtractToken(header);
    if TokenMissing(token) then Passage([AccessDenied], None, false)
    else
      match verify(token)
      case Verified(u) => Passage([], Some(u), true)
      case Rejected => Passage([InvalidToken], None, false)
  }
}
