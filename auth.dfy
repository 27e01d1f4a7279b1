/** The `usuarios` table and the three account routes: self-registration,
    registration of an administrator by an administrator, and login. */
module Auth {
  import opened Js
  import opened Http
  import Bcrypt
  import Jwt
  import AuthMiddleware

  /** The signing key, fixed in the source (a second copy of the one the
      guards use). */
  const Secret := "claveultrasecreta"

  /** Role ids written by the two registration routes. */
  const AdminRoleId := 1
  const UserRoleId := 2

  /** `expiresIn: '2h'`, in seconds. */
  const TokenLifetime := 2 * 60 * 60

  /** One row of `usuarios`: the columns the INSERT writes plus the id the
      database assigns. The table's schema is not part of this model; it is
      assumed to have no `rol` column (the INSERTs write only `rol_id`), so
      `user.rol` reads as `undefined`. */
  datatype Usuario = Usuario(id: int, usuario: string, contrasena: Bcrypt.Digest, rolId: int)

  /** The JSON body of a successful login. */
  datatype Session = Session(mensaje: string, token: Jwt.Token)

  predicate Taken(rows: seq<Usuario>, u: string)
  {
    exists i :: 0 <= i < |rows| && rows[i].usuario == u
  }

  ghost predicate UniqueUsernames(rows: seq<Usuario>)
  {
    forall i, j :: 0 <= i < j < |rows| ==> rows[i].usuario != rows[j].usuario
  }

  /** `SELECT * FROM usuarios WHERE usuario = $1`, first row. */
  function FindByUsuario(rows: seq<Usuario>, u: string): (r: Option<Usuario>)
    ensures r.Some? <==> Taken(rows, u)
    ensures r.Some? ==> r.value in rows && r.value.usuario == u
  {
    if rows == [] then None
    else if rows[0].usuario == u then Some(rows[0])
    else FindByUsuario(rows[1..], u)
  }

  /** With unique usernames the lookup finds the one row holding the name. */
  lemma {:induction false} FindByUsuarioUnique(rows: seq<Usuario>, k: nat)
    requires UniqueUsernames(rows) && k < |rows|
    ensures FindByUsuario(rows, rows[k].usuario) == Some(rows[k])
  {
    if k > 0 {
      assert rows[0].usuario != rows[k].usuario;
      FindByUsuarioUnique(rows[1..], k - 1);
    }
  }

  /** A row appended under a fresh name is what the lookup finds for it. */
  lemma {:induction false} FindAppended(rows: seq<Usuario>, user: Usuario)
    requires !Taken(rows, user.usuario)
    ensures FindByUsuario(rows + [user], user.usuario) == Some(user)
  {
    if rows != [] {
      assert rows[0].usuario != user.usuario;
      assert (rows + [user])[1..] == rows[1..] + [user];
      assert !Taken(rows[1..], user.usuario) by {
        forall i | 0 <= i < |rows[1..]| ensures rows[1..][i].usuario != user.usuario {
          assert rows[1..][i] == rows[i + 1];
        }
      }
      FindAppended(rows[1..], user);
    }
  }

  /** The claims login signs: `{ id, usuario, rol: user.rol }`. Under the
      assumption that the row has no `rol` column that claim is undefined;
      whatever the schema, no `rol_id` claim is signed. */
  function LoginClaims(user: Usuario): Jwt.Claims
  {
    Jwt.Claims(Num(user.id as real), Str(user.usuario), Undefined, Undefined)
  }

  /** POST /login over a snapshot of the table: missing fields, then an
      unknown user, then a wrong password (all 400), and otherwise a token
      for the stored row that expires two hours after `now`. */
  function Login(rows: seq<Usuario>, usuario: Option<string>, contrasena: Option<string>, now: int): (r: Reply<Session>)
    ensures !Present(usuario) || !Present(contrasena) <==> r == Fail(BadRequest, "Usuario y contraseña requeridos")
    ensures Present(usuario) && Present(contrasena) && !Taken(rows, usuario.value) <==>
              r == Fail(BadRequest, "Usuario no encontrado")
    ensures r == Fail(BadRequest, "Contraseña incorrecta") <==>
              && Present(usuario) && Present(contrasena) && Taken(rows, usuario.value)
              && !Bcrypt.Compare(contrasena.value, FindByUsuario(rows, usuario.value).value.contrasena)
    ensures (&& Present(usuario) && Present(contrasena) && Taken(rows, usuario.value)
             && Bcrypt.Compare(contrasena.value, FindByUsuario(rows, usuario.value).value.contrasena))
            ==> r.Ok?
    ensures r.Ok? ==>
              var user := FindByUsuario(rows, usuario.value).value;
              && user in rows && user.usuario == usuario.value
              && Bcrypt.Compare(contrasena.value, user.contrasena)
              && r.value.mensaje == "Login exitoso"
              && r.value.token.payload.claims == LoginClaims(user)
              && r.value.token.payload.claims.id == Num(user.id as real)
              && r.value.token.payload.claims.usuario == Str(user.usuario)
              && r.value.token.payload.claims.rol == Undefined
              && r.value.token.payload.claims.rolId == Undefined
              && r.value.token.payload.iat == now
              && r.value.token.payload.exp == Some(now + TokenLifetime)
              && Jwt.Verify(r.value.token, AuthMiddleware.Secret, now).Valid?
  {
    if !Present(usuario) || !Present(contrasena) then Fail(BadRequest, "Usuario y contraseña requeridos")
    else
      match FindByUsuario(rows, usuario.value)
      case None => Fail(BadRequest, "Usuario no encontrado")
      case Some(user) =>
        if !Bcrypt.Compare(contrasena.value, user.contrasena) then Fail(BadRequest, "Contraseña incorrecta")
        else Ok(Session("Login exitoso", Jwt.Sign(LoginClaims(user), Secret, now, TokenLifetime)))
  }

  /** Logging in with the credentials of a row just appended under a fresh
      name succeeds, with a token naming that row. */
  lemma LoginAfterInsert(rows: seq<Usuario>, user: Usuario, contrasena: string, salt: int, now: int)
    requires !Taken(rows, user.usuario) && user.usuario != "" && contrasena != ""
    requires user.contrasena == Bcrypt.HashPassword(contrasena, salt)
    ensures Login(rows + [user], Some(user.usuario), Some(contrasena), now).Ok?
    ensures Login(rows + [user], Some(user.usuario), Some(contrasena), now).value.token.payload.claims == LoginClaims(user)
  {
    FindAppended(rows, user);
  }

  /** A token minted by login is accepted by `verificarToken` until it
      expires, and then always turned away by `soloAdmin`: it carries no
      `rol_id` claim, whatever the role id of the row. */
  lemma LoginTokenNeverAdmin(rows: seq<Usuario>, usuario: Option<string>, contrasena: Option<string>, now: int,
                             decode: AuthMiddleware.Decoder, scheme: string, text: string, later: int)
    requires Login(rows, usuario, contrasena, now).Ok?
    requires decode(text) == Some(Login(rows, usuario, contrasena, now).value.token)
    requires ' ' !in scheme && ' ' !in text && text != ""
    requires later < now + TokenLifetime
    ensures AuthMiddleware.VerificarToken(Some(scheme + " " + text), decode, later)
            == Ok(Login(rows, usuario, contrasena, now).value.token.payload)
    ensures AuthMiddleware.AdminGate(Some(scheme + " " + text), decode, later) == Fail(Forbidden, "No autorizado")
  {
    AuthMiddleware.ExtractAfterScheme(scheme, text);
  }

  /** The `usuarios` table, which the registration routes append to. */
  class Usuarios {
    var rows: seq<Usuario>
    var nextId: int

    ghost predicate Valid()
      reads this
    {
      && UniqueUsernames(rows)
      && forall i :: 0 <= i < |rows| ==> rows[i].id < nextId
    }

    constructor ()
      ensures Valid() && rows == [] && nextId == 1
    {
      rows := [];
      nextId := 1;
    }

    /** The body shared by both registration routes: validate, check the name
        is free, then insert a row with the given role id. */
    method CheckThenInsert(usuario: Option<string>, contrasena: Option<string>, salt: int, rolId: int, mensaje: string)
      returns (r: Reply<string>)
      requires Valid()
      modifies this
      ensures Valid()
      ensures !Present(usuario) || !Present(contrasena) ==>
                r == Fail(BadRequest, "Usuario y contraseña requeridos") && rows == old(rows) && nextId == old(nextId)
      ensures Present(usuario) && Present(contrasena) && Taken(old(rows), usuario.value) ==>
                r == Fail(BadRequest, "Usuario ya existe") && rows == old(rows) && nextId == old(nextId)
      ensures Present(usuario) && Present(contrasena) && !Taken(old(rows), usuario.value) ==>
                && r == Ok(mensaje)
                && rows == old(rows) + [Usuario(old(nextId), usuario.value, Bcrypt.HashPassword(contrasena.value, salt), rolId)]
                && nextId == old(nextId) + 1
      ensures r.Ok? ==> forall now :: Login(rows, usuario, contrasena, now).Ok?
    {
      if !Present(usuario) || !Present(contrasena) {
        return Fail(BadRequest, "Usuario y contraseña requeridos");
      }
      if FindByUsuario(rows, usuario.value).Some? {
        return Fail(BadRequest, "Usuario ya existe");
      }
      var user := Usuario(nextId, usuario.value, Bcrypt.HashPassword(contrasena.value, salt), rolId);
      forall now: int ensures Login(rows + [user], usuario, contrasena, now).Ok? {
        LoginAfterInsert(rows, user, contrasena.value, salt, now);
      }
      rows := rows + [user];
      nextId := nextId + 1;
      r := Ok(mensaje);
    }

    /** POST /register: a new row with role id 2. */
    method Register(usuario: Option<string>, contrasena: Option<string>, salt: int) returns (r: Reply<string>)
      requires Valid()
      modifies this
      ensures Valid()
      ensures !Present(usuario) || !Present(contrasena) ==>
                r == Fail(BadRequest, "Usuario y contraseña requeridos") && rows == old(rows)
      ensures Present(usuario) && Present(contrasena) && Taken(old(rows), usuario.value) ==>
                r == Fail(BadRequest, "Usuario ya existe") && rows == old(rows)
      ensures Present(usuario) && Present(contrasena) && !Taken(old(rows), usuario.value) ==>
                && r == Ok("Usuario registrado correctamente")
                && rows == old(rows) + [Usuario(old(nextId), usuario.value, Bcrypt.HashPassword(contrasena.value, salt), UserRoleId)]
      ensures r.Ok? ==> forall now :: Login(rows, usuario, contrasena, now).Ok?
    {
      r := CheckThenInsert(usuario, contrasena, salt, UserRoleId, "Usuario registrado correctamente");
    }

    /** POST /register-admin: behind `verificarToken` and `soloAdmin`, then a
        new row with role id 1. */
    method RegisterAdmin(authorization: Option<string>, decode: AuthMiddleware.Decoder, now: int,
                         usuario: Option<string>, contrasena: Option<string>, salt: int)
      returns (r: Reply<string>)
      requires Valid()
      modifies this
      ensures Valid()
      ensures var gate := AuthMiddleware.AdminGate(authorization, decode, now);
              gate.Fail? ==>
                && r == Fail(gate.status, gate.error)
                && rows == old(rows)
      ensures AuthMiddleware.AdminGate(authorization, decode, now).Ok? ==>
                && (!Present(usuario) || !Present(contrasena) ==>
                      r == Fail(BadRequest, "Usuario y contraseña requeridos") && rows == old(rows))
                && (Present(usuario) && Present(contrasena) && Taken(old(rows), usuario.value) ==>
                      r == Fail(BadRequest, "Usuario ya existe") && rows == old(rows))
                && (Present(usuario) && Present(contrasena) && !Taken(old(rows), usuario.value) ==>
                      && r == Ok("Administrador registrado correctamente")
                      && rows == old(rows) + [Usuario(old(nextId), usuario.value, Bcrypt.HashPassword(contrasena.value, salt), AdminRoleId)])
    {
      var gate := AuthMiddleware.AdminGate(authorization, decode, now);
      if gate.Fail? {
        return Fail(gate.status, gate.error);
      }
      r := CheckThenInsert(usuario, contrasena, salt, AdminRoleId, "Administrador registrado correctamente");
    }
  }
}
