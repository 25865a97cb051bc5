/** The two guards in front of the host routes: jwtProtect, which takes the
    token out of the Authorization header, has it verified and stores the
    decoded claims on the request, and hostProtect, which lets through only
    claims whose role is "host". The token check itself (signature and
    expiry) is a parameter. */
module Middleware {
  import opened Util
  import opened Sql

  /** The claims a verified token carries. */
  type Claims = map<string, Value>

  /** What the token check reports: the decoded claims, or the name of the
      error. */
  datatype Verdict = Verified(claims: Claims) | Rejected(name: string)

  /** A guard either passes the request on or answers it. */
  datatype Reply = Next | Send(status: int, text: string)

  const NoToken := "No token provided"
  const TokenExpired := "Token expired"
  const InvalidToken := "Invalid token"
  const OnlyHost := "Only host can access"
  const ExpiredName := "TokenExpiredError"

  /** JavaScript's s.split(sep): the pieces between separators, an empty
      piece for each separator at an end or next to another. */
  function Split(s: string, sep: char): (parts: seq<string>)
    ensures |parts| >= 1
    decreases |s|
  {
    if s == [] then [""]
    else
      var rest := Split(s[1..], sep);
      if s[0] == sep then [""] + rest else [[s[0]] + rest[0]] + rest[1..]
  }

  /** The pieces joined back with the separator. */
  function Join(parts: seq<string>, sep: char): string
    requires |parts| >= 1
    decreases |parts|
  {
    if |parts| == 1 then parts[0] else parts[0] + [sep] + Join(parts[1..], sep)
  }

  /** Splitting loses nothing: joining the pieces gives the string back,
      and no piece holds the separator. */
  lemma {:induction false} SplitJoin(s: string, sep: char)
    ensures Join(Split(s, sep), sep) == s
    ensures forall i :: 0 <= i < |Split(s, sep)| ==> sep !in Split(s, sep)[i]
    decreases |s|
  {
    if s != [] {
      var rest := Split(s[1..], sep);
      SplitJoin(s[1..], sep);
      if s[0] == sep {
        assert Split(s, sep) == [""] + rest;
        assert ([""] + rest)[1..] == rest;
        assert s == [s[0]] + s[1..];
      } else {
        var parts := [[s[0]] + rest[0]] + rest[1..];
        assert Split(s, sep) == parts;
        if |rest| == 1 {
          assert Join(parts, sep) == [s[0]] + rest[0];
        } else {
          assert parts[1..] == rest[1..];
          assert Join(rest, sep) == rest[0] + [sep] + Join(rest[1..], sep);
        }
        assert s == [s[0]] + s[1..];
        forall i | 0 <= i < |parts| ensures sep !in parts[i] {
          if i > 0 {
            assert parts[i] == rest[i];
          }
        }
      }
    }
  }

  /** A string without the separator is one piece. */
  lemma {:induction false} SplitWithout(t: string, sep: char)
    requires sep !in t
    ensures Split(t, sep) == [t]
    decreases |t|
  {
    if t != [] {
      SplitWithout(t[1..], sep);
      assert [t[0]] + t[1..] == t;
    }
  }

  /** A word without the separator followed by the separator splits off
      as the first piece. */
  lemma {:induction false} SplitFirst(w: string, sep: char, t: string)
    requires sep !in w
    ensures Split(w + [sep] + t, sep) == [w] + Split(t, sep)
    decreases |w|
  {
    if w == [] {
      assert [] + [sep] + t == [sep] + t;
      assert ([sep] + t)[1..] == t;
    } else {
      SplitFirst(w[1..], sep, t);
      assert (w + [sep] + t)[1..] == w[1..] + [sep] + t;
      assert [w[0]] + w[1..] == w;
    }
  }

  /** The header generateJWT hands out: "Bearer " and the signed token. */
  function Bearer(token: string): string
  {
    "Bearer " + token
  }

  /** authHeader.split(' ')[1]: the second space-separated word, undefined
      (None) when there is none. */
  function TokenOf(header: string): Option<string>
  {
    var parts := Split(header, ' ');
    if |parts| >= 2 then Some(parts[1]) else None
  }

  /** The token jwtProtect reads from a generated header is the signed
      token, which holds no space. */
  lemma BearerToken(token: string)
    requires ' ' !in token
    ensures TokenOf(Bearer(token)) == Some(token)
  {
    assert Bearer(token) == "Bearer" + [' '] + token;
    SplitFirst("Bearer", ' ', token);
    SplitWithout(token, ' ');
  }

  /** A request as the guards see it: the Authorization header, and the
      claims jwtProtect stores on the body. */
  class Request {
    const authorization: Option<string>
    var decoded: Option<Claims>

    constructor (authorization: Option<string>)
      ensures this.authorization == authorization && decoded.None?
    {
      this.authorization := authorization;
      decoded := None;
    }
  }

  /** A header is present when it is a non-empty string. */
  predicate HasHeader(h: Option<string>)
  {
    h.Some? && h.value != ""
  }

  /** jwtProtect. verify is the token check; it receives undefined (None)
      when the header has no second word. */
  method JwtProtect(req: Request, verify: Option<string> -> Verdict) returns (reply: Reply)
    modifies req
    ensures !HasHeader(req.authorization) ==> reply == Send(401, NoToken)
    ensures HasHeader(req.authorization) ==>
              var verdict := verify(TokenOf(req.authorization.value));
              && (verdict.Verified? ==> reply == Next && req.decoded == Some(verdict.claims))
              && (verdict == Rejected(ExpiredName) ==> reply == Send(401, TokenExpired))
              && (verdict.Rejected? && verdict.name != ExpiredName ==> reply == Send(403, InvalidToken))
    ensures reply.Next? <==> HasHeader(req.authorization) && verify(TokenOf(req.authorization.value)).Verified?
    ensures !reply.Next? ==> req.decoded == old(req.decoded)
  {
    if !HasHeader(req.authorization) {
      return Send(401, NoToken);
    }
    var token := TokenOf(req.authorization.value);
    var verdict := verify(token);
    if verdict.Verified? {
      req.decoded := Some(verdict.claims);
      return Next;
    }
    if verdict.name == ExpiredName {
      return Send(401, TokenExpired);
    }
    reply := Send(403, InvalidToken);
  }

  /** The role a set of claims names, when it is truthy. */
  function Role(claims: Claims): Option<Value>
  {
    if "role" in claims && JsTruthy(claims["role"]) then Some(claims["role"]) else None
  }

  /** hostProtect: missing claims, a missing or falsy role, and any role
      but "host" are refused alike. */
  function HostProtect(decoded: Option<Claims>): (reply: Reply)
    ensures reply.Next? <==> decoded.Some? && "role" in decoded.value && decoded.value["role"] == Text("host")
    ensures !reply.Next? ==> reply == Send(403, OnlyHost)
  {
    if decoded.None? || Role(decoded.value).None? then Send(403, OnlyHost)
    else if Role(decoded.value) != Some(Text("host")) then Send(403, OnlyHost)
    else Next
  }

  /** The two guards in sequence pass a generated header exactly when the
      check verifies its token and the claims name the host role. */
  lemma HostRouteAdmits(token: string, verify: Option<string> -> Verdict)
    requires ' ' !in token
    ensures var verdict := verify(TokenOf(Bearer(token)));
            verdict == verify(Some(token))
            && (verdict.Verified? ==> (HostProtect(Some(verdict.claims)).Next? <==>
                                        "role" in verdict.claims && verdict.claims["role"] == Text("host")))
  {
    BearerToken(token);
  }
}
