/** The two request guards: `verificarToken` takes the token out of the
    Authorization header and verifies it, `soloAdmin` lets only role id 1
    through. */
module AuthMiddleware {
  import opened Js
  import opened Http
  import Jwt

  /** The signing key, fixed in the source. */
  const Secret := "claveultrasecreta"

  /** The role id that `soloAdmin` admits. */
  const AdminRoleId := 1

  /** Turns the compact token text into a token; a text that is no token at
      all decodes to None. */
  type Decoder = string -> Option<Jwt.Token>

  /** `s.split(" ")`: the pieces between single spaces, empty pieces kept. */
  function Split(s: string): (parts: seq<string>)
    ensures |parts| >= 1
  {
    if s == [] then [[]]
    else
      var rest := Split(s[1..]);
      if s[0] == ' ' then [[]] + rest else [[s[0]] + rest[0]] + rest[1..]
  }

  /** `parts.join(" ")`, the inverse of Split. */
  function Join(parts: seq<string>): string
    requires |parts| >= 1
  {
    if |parts| == 1 then parts[0] else parts[0] + " " + Join(parts[1..])
  }

  lemma {:induction false} JoinSplit(s: string)
    ensures Join(Split(s)) == s
    ensures forall k :: 0 <= k < |Split(s)| ==> ' ' !in Split(s)[k]
  {
    if s != [] {
      var rest := Split(s[1..]);
      JoinSplit(s[1..]);
      if s[0] != ' ' {
        if |rest| > 1 {
          calc {
            Join(Split(s));
            ([s[0]] + rest[0]) + " " + Join(rest[1..]);
            [s[0]] + (rest[0] + " " + Join(rest[1..]));
            [s[0]] + Join(rest);
          }
        }
        assert ' ' !in [s[0]] + rest[0];
      }
      assert s == [s[0]] + s[1..];
    }
  }

  /** The position of the first space of `s`, or |s| when there is none. */
  function IndexOfSpace(s: string): (i: nat)
    ensures i <= |s|
    ensures ' ' !in s[..i]
    ensures i < |s| ==> s[i] == ' '
  {
    if s == [] || s[0] == ' ' then 0 else 1 + IndexOfSpace(s[1..])
  }

  /** IndexOfSpace finds the first space and no other. */
  lemma {:induction false} FirstSpaceAt(s: string, k: nat)
    requires k <= |s| && ' ' !in s[..k]
    requires k < |s| ==> s[k] == ' '
    ensures IndexOfSpace(s) == k
  {
    if k > 0 {
      assert s[0] == s[..k][0];
      assert s[1..][..k - 1] == s[..k][1..];
      FirstSpaceAt(s[1..], k - 1);
    }
  }

  /** The first piece of Split is the text before the first space; the
      remaining pieces are the split of the text after it. */
  lemma {:induction false} SplitAtFirstSpace(s: string)
    ensures Split(s)[0] == s[..IndexOfSpace(s)]
    ensures IndexOfSpace(s) == |s| ==> |Split(s)| == 1
    ensures IndexOfSpace(s) < |s| ==> Split(s)[1..] == Split(s[IndexOfSpace(s) + 1..])
  {
    if s != [] && s[0] != ' ' {
      SplitAtFirstSpace(s[1..]);
      var j := IndexOfSpace(s[1..]);
      assert [s[0]] + s[1..][..j] == s[..j + 1];
      if j < |s[1..]| {
        assert s[1..][j + 1..] == s[j + 2..];
      }
    }
  }

  /** Reference reading of the header: the text between its first and second
      space (or up to its end), or nothing when it has no space. */
  function BetweenFirstTwoSpaces(h: string): Option<string>
  {
    var i := IndexOfSpace(h);
    if i == |h| then None
    else
      var rest := h[i + 1..];
      Some(rest[..IndexOfSpace(rest)])
  }

  /** `authHeader && authHeader.split(" ")[1]`: an absent header stays
      absent, an empty one stays empty, and otherwise the second piece of
      the split, or `undefined` when there is none. */
  function ExtractToken(header: Option<string>): Option<string>
  {
    match header
    case None => None
    case Some(h) =>
      if h == "" then Some(h)
      else
        var parts := Split(h);
        if |parts| > 1 then Some(parts[1]) else None
  }

  /** The extracted token is the text between the first two spaces of a
      non-empty header; the scheme word in front is never looked at. */
  lemma ExtractTokenIsSecondField(h: string)
    requires h != ""
    ensures ExtractToken(Some(h)) == BetweenFirstTwoSpaces(h)
  {
    SplitAtFirstSpace(h);
    var i := IndexOfSpace(h);
    if i < |h| {
      SplitAtFirstSpace(h[i + 1..]);
    }
  }

  /** Any scheme word followed by one space and a space-free token yields
      that token. */
  lemma ExtractAfterScheme(scheme: string, token: string)
    requires ' ' !in scheme && ' ' !in token
    ensures ExtractToken(Some(scheme + " " + token)) == Some(token)
  {
    var h := scheme + " " + token;
    ExtractTokenIsSecondField(h);
    assert h[..|scheme|] == scheme;
    FirstSpaceAt(h, |scheme|);
    assert h[|scheme| + 1..] == token;
    assert token[..|token|] == token;
    FirstSpaceAt(token, |token|);
  }

  /** Two spaces after the scheme word put an empty piece in second place,
      so the request counts as carrying no token at all. */
  lemma DoubleSpaceMeansNoToken(scheme: string, rest: string, decode: Decoder, now: int)
    requires ' ' !in scheme
    ensures ExtractToken(Some(scheme + "  " + rest)) == Some("")
    ensures VerificarToken(Some(scheme + "  " + rest), decode, now) == Fail(Unauthorized, "Token requerido")
  {
    var h := scheme + "  " + rest;
    ExtractTokenIsSecondField(h);
    assert h[..|scheme|] == scheme;
    FirstSpaceAt(h, |scheme|);
    var after := h[|scheme| + 1..];
    FirstSpaceAt(after, 0);
  }

  /** `verificarToken`: 401 "Token requerido" when the header yields no
      token, 403 "Token inválido" when the token does not decode or does not
      verify, and otherwise the decoded payload becomes `req.user` and the
      next handler runs. */
  function VerificarToken(authorization: Option<string>, decode: Decoder, now: int): (r: Reply<Jwt.Payload>)
    ensures !Present(ExtractToken(authorization)) <==> r == Fail(Unauthorized, "Token requerido")
    ensures r.Fail? ==> r.status == Unauthorized || r == Fail(Forbidden, "Token inválido")
    ensures Present(ExtractToken(authorization)) && r.Fail? ==> r == Fail(Forbidden, "Token inválido")
    ensures r.Ok? <==>
              && Present(ExtractToken(authorization))
              && decode(ExtractToken(authorization).value).Some?
              && Jwt.Verify(decode(ExtractToken(authorization).value).value, Secret, now).Valid?
    ensures r.Ok? ==>
              var t := decode(ExtractToken(authorization).value).value;
              && r.value == t.payload
              && t.signature == Jwt.Hs256(Secret, r.value)
              && Jwt.Unexpired(r.value, now)
  {
    var token := ExtractToken(authorization);
    if !Present(token) then Fail(Unauthorized, "Token requerido")
    else
      match decode(token.value)
      case None => Fail(Forbidden, "Token inválido")
      case Some(t) =>
        match Jwt.Verify(t, Secret, now)
        case Invalid(_) => Fail(Forbidden, "Token inválido")
        case Valid(p) => Ok(p)
  }

  /** `soloAdmin`: passes the request on exactly when the `rol_id` claim is
      the number 1 (strict equality), and answers 403 "No autorizado"
      otherwise. */
  function SoloAdmin(user: Jwt.Payload): (r: Reply<Jwt.Payload>)
    ensures r.Ok? <==> user.claims.rolId == Num(AdminRoleId as real)
    ensures r.Ok? ==> r.value == user
    ensures r.Fail? ==> r == Fail(Forbidden, "No autorizado")
  {
    if user.claims.rolId != Num(AdminRoleId as real) then Fail(Forbidden, "No autorizado")
    else Ok(user)
  }

  /** The chain `verificarToken, soloAdmin` in front of every admin route. */
  function AdminGate(authorization: Option<string>, decode: Decoder, now: int): (r: Reply<Jwt.Payload>)
    ensures r.Ok? <==> VerificarToken(authorization, decode, now).Ok? && SoloAdmin(VerificarToken(authorization, decode, now).value).Ok?
    ensures r.Ok? ==> r.value.claims.rolId == Num(AdminRoleId as real)
    ensures r.Fail? ==> r.status in {Unauthorized, Forbidden}
    ensures VerificarToken(authorization, decode, now).Fail? ==> r == VerificarToken(authorization, decode, now)
    ensures VerificarToken(authorization, decode, now).Ok? && r.Fail? ==> r == Fail(Forbidden, "No autorizado")
  {
    match VerificarToken(authorization, decode, now)
    case Fail(status, error) => Fail(status, error)
    case Ok(user) => SoloAdmin(user)
  }
}
