/**
  The two request gates: `authMiddleware`, which admits a request carrying
  `Authorization: Bearer <token>` whose token verifies, and `adminMiddleware`,
  which admits a request whose `X-API-Key` header equals the configured key.

  Verifying a JSON Web Token is a library call with a secret; it is the
  parameter `verify`, which yields the decoded payload or nothing when the
  token does not verify.
 */
module Auth {
  import opened Wrappers
  import opened Http

  /** The decoded token payload the handlers read as `user`. */
  datatype AuthUser = AuthUser(id: int, role: string)

  const BearerPrefix: string := "Bearer "

  const Unauthorized: HttpError := HttpError(401, "Unauthorized")
  const InvalidToken: HttpError := HttpError(401, "Invalid token")
  const InvalidApiKey: HttpError := HttpError(401, "Invalid API key")

  /** `String.prototype.startsWith`: case-sensitive, character by character. */
  predicate StartsWith(s: string, prefix: string): (b: bool)
    ensures b <==> |prefix| <= |s| && forall i :: 0 <= i < |prefix| ==> s[i] == prefix[i]
    ensures b ==> s == prefix + s[|prefix|..]
  {
    |prefix| <= |s| && s[..|prefix|] == prefix
  }

  /**
    `String.prototype.split` with a one-character separator: the maximal runs
    between separators, an empty piece wherever two separators meet or the
    string starts or ends with one.
   */
  function Split(s: string, sep: char): (parts: seq<string>)
    ensures |parts| >= 1
    ensures forall p :: p in parts ==> sep !in p
  {
    if s == [] then [[]]
    else
      var rest := Split(s[1..], sep);
      if s[0] == sep then [[]] + rest
      else [[s[0]] + rest[0]] + rest[1..]
  }

  /** `Array.prototype.join`: the pieces with one separator between neighbours. */
  function Join(parts: seq<string>, sep: char): string
    requires |parts| >= 1
  {
    if |parts| == 1 then parts[0] else parts[0] + [sep] + Join(parts[1..], sep)
  }

  /** Splitting loses nothing: joining the pieces gives back the string. */
  lemma {:induction false} JoinSplit(s: string, sep: char)
    ensures Join(Split(s, sep), sep) == s
  {
    if s != [] {
      var rest := Split(s[1..], sep);
      JoinSplit(s[1..], sep);
      if s[0] == sep {
        assert ([[]] + rest)[1..] == rest;
      } else if |rest| == 1 {
        assert s == [s[0]] + s[1..];
      } else {
        var parts := [[s[0]] + rest[0]] + rest[1..];
        assert parts[1..] == rest[1..];
        calc {
          Join(parts, sep);
          ([s[0]] + rest[0]) + [sep] + Join(rest[1..], sep);
          [s[0]] + (rest[0] + [sep] + Join(rest[1..], sep));
          [s[0]] + Join(rest, sep);
          { assert s == [s[0]] + s[1..]; }
          s;
        }
      }
    }
  }

  /** A string without the separator is one piece. */
  lemma {:induction false} SplitWord(w: string, sep: char)
    requires sep !in w
    ensures Split(w, sep) == [w]
  {
    if w != [] {
      SplitWord(w[1..], sep);
      assert w == [w[0]] + w[1..];
    }
  }

  /** A separator-free word followed by the separator splits off as the first piece. */
  lemma {:induction false} SplitAfterWord(w: string, sep: char, rest: string)
    requires sep !in w
    ensures Split(w + [sep] + rest, sep) == [w] + Split(rest, sep)
  {
    var s := w + [sep] + rest;
    if w == [] {
      assert s == [sep] + rest;
      assert s[1..] == rest;
    } else {
      assert s[0] == w[0];
      assert s[1..] == w[1..] + [sep] + rest;
      SplitAfterWord(w[1..], sep, rest);
      assert [w[0]] + w[1..] == w;
    }
  }

  /** Splitting is a left inverse of joining separator-free pieces. */
  lemma {:induction false} SplitJoin(parts: seq<string>, sep: char)
    requires |parts| >= 1
    requires forall p :: p in parts ==> sep !in p
    ensures Split(Join(parts, sep), sep) == parts
  {
    if |parts| == 1 {
      SplitWord(parts[0], sep);
    } else {
      SplitJoin(parts[1..], sep);
      SplitAfterWord(parts[0], sep, Join(parts[1..], sep));
      assert [parts[0]] + parts[1..] == parts;
    }
  }

  /** `authHeader.split(' ')[1]`: the second piece, or `undefined` when there is none. */
  function BearerToken(header: string): (token: Option<string>)
    ensures StartsWith(header, BearerPrefix) ==> token.Some?
  {
    var parts := Split(header, ' ');
    assert StartsWith(header, BearerPrefix) ==> |parts| >= 2 by {
      if StartsWith(header, BearerPrefix) {
        assert header == "Bearer" + [' '] + header[|BearerPrefix|..];
        SplitAfterWord("Bearer", ' ', header[|BearerPrefix|..]);
      }
    }
    if |parts| >= 2 then Some(parts[1]) else None
  }

  /** After the prefix, the token runs up to the next space or the end of the header. */
  lemma TokenAfterPrefix(rest: string)
    ensures BearerToken(BearerPrefix + rest) == Some(Split(rest, ' ')[0])
    ensures ' ' !in BearerToken(BearerPrefix + rest).value
  {
    assert BearerPrefix + rest == "Bearer" + [' '] + rest;
    SplitAfterWord("Bearer", ' ', rest);
  }

  /** A header that passes the prefix test always yields a token; e.g. "Bearer abc" yields "abc". */
  lemma TokenOfBearer(t: string)
    requires ' ' !in t
    ensures BearerToken(BearerPrefix + t) == Some(t)
  {
    TokenAfterPrefix(t);
    SplitWord(t, ' ');
  }

  /**
    The decision of `authMiddleware`: 401 "Unauthorized" for a missing header
    or one that does not start with "Bearer " (exactly, with its space); 401
    "Invalid token" when the token does not verify; otherwise the payload.
   */
  function Authenticate(header: Option<string>, verify: string -> Option<AuthUser>): (r: Result<AuthUser, HttpError>)
    ensures r == Failure(Unauthorized) <==> header.None? || !StartsWith(header.value, BearerPrefix)
    ensures r == Failure(InvalidToken) <==>
      header.Some? && StartsWith(header.value, BearerPrefix) && verify(BearerToken(header.value).value).None?
    ensures r.Success? <==>
      header.Some? && StartsWith(header.value, BearerPrefix) && verify(BearerToken(header.value).value).Some?
    ensures r.Success? ==> verify(BearerToken(header.value).value) == Some(r.value)
  {
    // `!authHeader` also refuses the empty header, which the prefix test refuses anyway
    if header.None? || header.value == [] || !StartsWith(header.value, BearerPrefix) then
      Failure(Unauthorized)
    else
      match verify(BearerToken(header.value).value)
      case None => Failure(InvalidToken)
      case Some(user) => Success(user)
  }

  /** The request context; `authMiddleware` stores the decoded payload in it as `user`. */
  class RequestContext {
    var user: Option<AuthUser>

    constructor ()
      ensures user == None
    {
      user := None;
    }

    /**
      `authMiddleware`: on admission the payload is stored as `user` before the
      handler runs; on rejection nothing is stored and the handler is not run
      (the caller sees the error).
     */
    method AuthMiddleware(header: Option<string>, verify: string -> Option<AuthUser>)
      returns (r: Result<AuthUser, HttpError>)
      modifies this
      ensures r == Authenticate(header, verify)
      ensures user == if r.Success? then Some(r.value) else old(user)
    {
      if header.None? || header.value == [] || !StartsWith(header.value, BearerPrefix) {
        return Failure(Unauthorized);
      }
      // after the prefix test the header always has a second piece
      var token := BearerToken(header.value).value;
      var decoded := verify(token);
      if decoded.None? {
        return Failure(InvalidToken);
      }
      user := decoded;
      r := Success(decoded.value);
    }
  }

  /**
    `adminMiddleware`: admits the request exactly when the `X-API-Key` header
    is present, non-empty and equal to the configured key. Nothing about the
    caller's token or role takes part.
   */
  function AdminGate(apiKey: Option<string>, configured: Option<string>): (r: Result<string, HttpError>)
    ensures r.Success? <==> apiKey.Some? && apiKey.value != [] && configured == apiKey
    ensures r.Failure? ==> r.error == InvalidApiKey
  {
    if apiKey.None? || apiKey.value == [] || Some(apiKey.value) != configured then
      Failure(InvalidApiKey)
    else
      Success(apiKey.value)
  }

  /** With no key configured, or an empty one, every admin request is refused. */
  lemma AdminLockedWithoutKey(apiKey: Option<string>, configured: Option<string>)
    requires configured.None? || configured == Some([])
    ensures AdminGate(apiKey, configured) == Failure(InvalidApiKey)
  {
  }
}
