/** The bearer-token guard mounted in front of every column and task route:
    it takes the second space-separated field of the Authorization header as
    the token, and either rejects the request or attaches the decoded
    identity and passes it on. Token verification is a parameter. */
module Guard {
  import opened Optional
  import opened Board

  const LoginFirst := "Access denied. Please login first."
  const BadToken := "Invalid or expired token."

  /** Index of the first space in `s`, or `|s|` when there is none. */
  function IndexOfSpace(s: string): (i: nat)
    ensures i <= |s|
    ensures ' ' !in s[..i]
    ensures i < |s| ==> s[i] == ' '
  {
    if |s| == 0 || s[0] == ' ' then 0 else 1 + IndexOfSpace(s[1..])
  }

  /** The fields joined back with single spaces. */
  function Join(fields: seq<string>): string
  {
    if |fields| == 0 then ""
    else if |fields| == 1 then fields[0]
    else fields[0] + " " + Join(fields[1..])
  }

  /** `s.split(" ")`: every space separates two fields, so adjacent or
      trailing spaces give empty fields and "" gives one empty field. */
  function Split(s: string): (fields: seq<string>)
    ensures |fields| >= 1
    ensures Join(fields) == s
    ensures forall i :: 0 <= i < |fields| ==> ' ' !in fields[i]
    decreases |s|
  {
    var i := IndexOfSpace(s);
    if i == |s| then
      assert s[..i] == s;
      [s]
    else
      var rest := Split(s[i + 1..]);
      assert s == s[..i] + " " + s[i + 1..];
      [s[..i]] + rest
  }

  /** Splitting undoes joining whenever no field holds a space. */
  lemma {:induction false} SplitJoin(fields: seq<string>)
    requires |fields| >= 1
    requires forall i :: 0 <= i < |fields| ==> ' ' !in fields[i]
    ensures Split(Join(fields)) == fields
    decreases |fields|
  {
    if |fields| == 1 {
      NoSpaceIndex(fields[0]);
    } else {
      var s := Join(fields);
      assert s == fields[0] + " " + Join(fields[1..]);
      NoSpaceIndex(fields[0]);
      IndexOfSpaceOfPrefix(fields[0], Join(fields[1..]));
      assert s[|fields[0]| + 1..] == Join(fields[1..]);
      assert s[..|fields[0]|] == fields[0];
      SplitJoin(fields[1..]);
      assert Split(s) == [fields[0]] + fields[1..];
    }
  }

  lemma {:induction false} NoSpaceIndex(w: string)
    requires ' ' !in w
    ensures IndexOfSpace(w) == |w|
    decreases |w|
  {
    if |w| > 0 {
      assert w[0] in w;
      assert forall c :: c in w[1..] ==> c in w;
      NoSpaceIndex(w[1..]);
    }
  }

  lemma {:induction false} IndexOfSpaceOfPrefix(w: string, rest: string)
    requires ' ' !in w
    ensures IndexOfSpace(w + " " + rest) == |w|
    decreases |w|
  {
    var s := w + " " + rest;
    if |w| > 0 {
      assert w[0] in w;
      assert forall c :: c in w[1..] ==> c in w;
      assert s[1..] == w[1..] + " " + rest;
      IndexOfSpaceOfPrefix(w[1..], rest);
    }
  }

  /** `authHeader && authHeader.split(" ")[1]`: an absent or empty header is
      itself the (falsy) result, and a header with a single field has no
      second element. */
  function ExtractToken(header: Option<string>): (token: Option<string>)
    ensures token.Some? ==> header.Some?
    ensures token.Some? ==> ' ' !in token.value
  {
    match header
    case None => None
    case Some(h) =>
      if h == "" then Some(h)
      else
        var fields := Split(h);
        if |fields| >= 2 then Some(fields[1]) else None
  }

  /** The token is the field between the first and second space whatever the
      first word is: the scheme is not checked. */
  lemma TokenIsSecondField(scheme: string, token: string, rest: string)
    requires ' ' !in scheme && ' ' !in token
    requires rest == "" || rest[0] == ' '
    ensures ExtractToken(Some(scheme + " " + token + rest)) == Some(token)
  {
    var h := scheme + " " + token + rest;
    if rest == "" {
      SplitJoin([scheme, token]);
      assert Join([scheme, token]) == h;
    } else {
      var tail := Split(rest[1..]);
      var fields := [scheme, token] + tail;
      assert Join([token] + tail) == token + " " + Join(tail);
      assert rest == " " + rest[1..];
      assert Join(fields) == scheme + " " + Join([token] + tail);
      assert Join(fields) == h;
      forall i | 0 <= i < |fields|
        ensures ' ' !in fields[i]
      {
        if i >= 2 {
          assert fields[i] == tail[i - 2];
        }
      }
      SplitJoin(fields);
    }
  }

  /** A header without any space yields no token. */
  lemma NoSpaceNoToken(h: string)
    requires h != "" && ' ' !in h
    ensures ExtractToken(Some(h)) == None
  {
    NoSpaceIndex(h);
  }

  /** A single trailing space ("Bearer ") or a doubled space ("Bearer  x")
      leaves an empty second field. */
  lemma EmptySecondField(scheme: string, rest: string)
    requires ' ' !in scheme
    requires rest == "" || rest[0] == ' '
    ensures ExtractToken(Some(scheme + " " + rest)) == Some("")
  {
    assert scheme + " " + rest == scheme + " " + "" + rest;
    TokenIsSecondField(scheme, "", rest);
  }

  /** Exactly one outcome per request: a rejection with its status, or
      `next()` with the identity attached as `req.user`. */
  datatype Decision = Reject(status: int, message: string) | Next(user: Identity)

  /** `authenticateToken`. `verify` stands for `jwt.verify` with the server's
      secret: `None` when it throws, the decoded payload otherwise. */
  function AuthenticateToken(header: Option<string>, verify: string -> Option<Identity>): (d: Decision)
    ensures d.Reject? ==> d.status == 401 || d.status == 403
    ensures d.Reject? && d.status == 401 <==> !Truthy(ExtractToken(header))
    ensures d.Reject? && d.status == 401 ==> d.message == LoginFirst
    ensures d.Reject? && d.status == 403 <==>
      Truthy(ExtractToken(header)) && verify(ExtractToken(header).value).None?
    ensures d.Reject? && d.status == 403 ==> d.message == BadToken
    ensures d.Next? <==> Truthy(ExtractToken(header)) && verify(ExtractToken(header).value).Some?
    ensures d.Next? ==> Some(d.user) == verify(ExtractToken(header).value)
  {
    var token := ExtractToken(header);
    if !Truthy(token) then
      Reject(401, LoginFirst)
    else
      match verify(token.value)
      case None => Reject(403, BadToken)
      case Some(decoded) => Next(decoded)
  }

  /** A header with no space, an empty header or no header at all is
      rejected with 401 and never reaches the handler. */
  lemma MissingTokenIs401(header: Option<string>, verify: string -> Option<Identity>)
    requires header.None? || ' ' !in header.value
    ensures AuthenticateToken(header, verify) == Reject(401, LoginFirst)
  {
    if header.Some? && header.value != "" {
      NoSpaceNoToken(header.value);
    }
  }
}
