/**
 The `authenticateToken` middleware: it takes the second space-separated field of the
 Authorization header as the token, without looking at the first (the scheme word), and
 hands it to `jwt.verify`. It reads nothing but the header and never touches the table.
 */
module Middleware {
  import opened Wrappers
  import opened Foreign
  import opened Http

  /** JavaScript's `s.split(" ")`: the pieces between single spaces, empty pieces kept. */
  function Split(s: string): (fields: seq<string>)
    ensures |fields| >= 1
    ensures forall k :: 0 <= k < |fields| ==> ' ' !in fields[k]
  {
    if s == [] then [[]]
    else
      var rest := Split(s[1..]);
      if s[0] == ' ' then [[]] + rest
      else [[s[0]] + rest[0]] + rest[1..]
  }

  /** JavaScript's `fields.join(" ")`. */
  function Join(fields: seq<string>): string
  {
    if |fields| == 0 then []
    else if |fields| == 1 then fields[0]
    else fields[0] + " " + Join(fields[1..])
  }

  /** Joining the pieces gives back the string. */
  lemma {:induction false} JoinSplit(s: string)
    ensures Join(Split(s)) == s
  {
    if s != [] {
      var rest := Split(s[1..]);
      JoinSplit(s[1..]);
      if s[0] == ' ' {
        assert ([[]] + rest)[1..] == rest;
      } else {
        var fields := [[s[0]] + rest[0]] + rest[1..];
        if |rest| == 1 {
          assert fields == [[s[0]] + rest[0]];
        } else {
          assert fields[1..] == rest[1..];
          assert Join(rest) == rest[0] + " " + Join(rest[1..]);
          assert Join(fields) == [s[0]] + rest[0] + " " + Join(rest[1..]);
          assert s == [s[0]] + s[1..];
        }
      }
    }
  }

  /** A word without spaces stays at the front of the first piece. */
  lemma {:induction false} SplitAfterWord(w: string, t: string)
    requires ' ' !in w
    ensures Split(w + t) == [w + Split(t)[0]] + Split(t)[1..]
  {
    var tail := Split(t);
    if w != [] {
      SplitAfterWord(w[1..], t);
      assert (w + t)[1..] == w[1..] + t;
      var rest := Split(w[1..] + t);
      assert rest[0] == w[1..] + tail[0] && rest[1..] == tail[1..];
      assert (w + t)[0] == w[0] && w[0] != ' ';
      assert Split(w + t) == [[w[0]] + rest[0]] + rest[1..];
      assert w == [w[0]] + w[1..];
      assert [w[0]] + rest[0] == w + tail[0];
    } else {
      assert w + t == t && w + tail[0] == tail[0];
      assert [tail[0]] + tail[1..] == tail;
    }
  }

  /** Splitting the joined pieces gives back the pieces, when none holds a space. */
  lemma {:induction false} SplitJoin(fields: seq<string>)
    requires |fields| >= 1
    requires forall k :: 0 <= k < |fields| ==> ' ' !in fields[k]
    ensures Split(Join(fields)) == fields
  {
    if |fields| == 1 {
      SplitAfterWord(fields[0], []);
      assert fields[0] + [] == fields[0] && Split([]) == [[]];
      assert fields == [fields[0]];
    } else {
      var tail := Join(fields[1..]);
      SplitJoin(fields[1..]);
      assert fields[0] + " " + tail == fields[0] + (" " + tail);
      SplitAfterWord(fields[0], " " + tail);
      assert (" " + tail)[1..] == tail;
      assert Split(" " + tail) == [[]] + fields[1..];
      assert fields[0] + [] == fields[0];
      assert fields == [fields[0]] + fields[1..];
    }
  }

  /** `authHeader && authHeader.split(" ")[1]`, when the result is truthy. */
  function BearerToken(header: Option<string>): (token: Option<string>)
    ensures token.Some? ==> token.value != "" && ' ' !in token.value
  {
    if header.None? || header.value == "" then None
    else
      var fields := Split(header.value);
      if |fields| < 2 || fields[1] == "" then None else Some(fields[1])
  }

  /** Any first word and the token as the second field: the scheme word is never checked,
      and whatever follows a further space is ignored. */
  lemma TokenAfterAnyWord(scheme: string, token: string, rest: string)
    requires ' ' !in scheme && ' ' !in token && token != ""
    requires rest == [] || rest[0] == ' '
    ensures BearerToken(Some(scheme + " " + token + rest)) == Some(token)
  {
    var h := scheme + " " + token + rest;
    assert h == scheme + (" " + token + rest);
    SplitAfterWord(scheme, " " + token + rest);
    assert (" " + token + rest)[1..] == token + rest;
    SplitAfterWord(token, rest);
    var after := Split(rest);
    if rest == [] {
      assert after == [[]];
    } else {
      assert after[0] == [];
    }
    assert token + after[0] == token;
    assert Split(token + rest) == [token] + after[1..];
    assert Split(" " + token + rest) == [[]] + Split(token + rest);
    assert Split(h)[1] == token;
  }

  /** The converse: a token found in a header is the text between its first space and the
      next space or the end, behind a first word that has no space. */
  lemma TokenShape(h: string)
    requires BearerToken(Some(h)).Some?
    ensures var t := BearerToken(Some(h)).value;
            var scheme := Split(h)[0];
            var n := |scheme| + 1 + |t|;
            && ' ' !in scheme
            && n <= |h|
            && h[..n] == scheme + " " + t
            && (n == |h| || h[n] == ' ')
  {
    var fields := Split(h);
    JoinSplit(h);
    if |fields| == 2 {
      assert Join(fields[1..]) == fields[1];
    } else {
      assert Join(fields[1..]) == fields[1] + " " + Join(fields[2..]);
    }
  }

  /** A header without a space holds no token: "Bearer" alone is refused. */
  lemma NoSpaceNoToken(h: string)
    requires ' ' !in h
    ensures BearerToken(Some(h)) == None
  {
    SplitJoin([h]);
  }

  /** Three headers the middleware meets. */
  lemma HeaderExamples()
    ensures BearerToken(Some("Token abc")) == Some("abc")
    ensures BearerToken(Some("Bearer")) == None
    ensures BearerToken(Some("Bearer  x")) == None
  {
    TokenAfterAnyWord("Token", "abc", "");
    assert "Token" + " " + "abc" + "" == "Token abc";
    NoSpaceNoToken("Bearer");
    SplitJoin(["Bearer", "", "x"]);
    assert Join(["Bearer", "", "x"]) == "Bearer  x";
  }

  const MissingToken := Reply(401, Error("Access denied, token missing"))
  const InvalidToken := Reply(403, Error("Invalid token"))

  /** The middleware's decision: answer and stop, or call `next()` once with `req.user` set. */
  datatype Verdict = Deny(reply: Reply) | Pass(user: Claims)

  function Authenticate(header: Option<string>, verify: string -> Option<Claims>): (v: Verdict)
    ensures v == Deny(MissingToken) <==> BearerToken(header).None?
    ensures v == Deny(InvalidToken) <==> BearerToken(header).Some? && verify(BearerToken(header).value).None?
    ensures v.Pass? ==> BearerToken(header).Some? && verify(BearerToken(header).value) == Some(v.user)
  {
    match BearerToken(header)
    case None => Deny(MissingToken)
    case Some(token) =>
      match verify(token)
      case None => Deny(InvalidToken)
      case Some(claims) => Pass(claims)
  }

  /** A token in the usual `Bearer <token>` header passes exactly when `jwt.verify` accepts it,
      and `req.user` is what verification decoded. */
  lemma BearerHeaderPasses(token: string, verify: string -> Option<Claims>, claims: Claims)
    requires token != "" && ' ' !in token
    requires verify(token) == Some(claims)
    ensures Authenticate(Some("Bearer " + token), verify) == Pass(claims)
  {
    TokenAfterAnyWord("Bearer", token, "");
    assert "Bearer" + " " + token + "" == "Bearer " + token;
  }
}
