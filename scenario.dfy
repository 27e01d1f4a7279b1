/** Client scenarios across the routes: what a sequence of requests against
    fresh tables produces, proved from the routes' contracts and the
    definitions those contracts name. */
module Scenarios {
  import opened Js
  import opened Http
  import Jwt
  import AuthMiddleware
  import Auth
  import Repuestos

  /** Registering the same name twice succeeds the first time and is refused
      the second time, whatever password comes with it. */
  method RegisterTwice(usuario: string, first: string, second: string, salt1: int, salt2: int)
    returns (r1: Reply<string>, r2: Reply<string>, count: nat)
    requires usuario != "" && first != "" && second != ""
    ensures r1 == Ok("Usuario registrado correctamente")
    ensures r2 == Fail(BadRequest, "Usuario ya existe")
    ensures count == 1
  {
    var users := new Auth.Usuarios();
    r1 := users.Register(Some(usuario), Some(first), salt1);
    assert users.rows[0].usuario == usuario;
    r2 := users.Register(Some(usuario), Some(second), salt2);
    count := |users.rows|;
  }

  /** Login right after registering succeeds with a token for the new row,
      valid for two hours; the token carries neither `rol` nor `rol_id`, so
      the role given at registration is not in it. */
  method RegisterThenLogin(usuario: string, contrasena: string, salt: int, now: int)
    returns (session: Reply<Auth.Session>)
    requires usuario != "" && contrasena != ""
    ensures session.Ok?
    ensures session.value.token.payload.claims == Jwt.Claims(Num(1.0), Str(usuario), Undefined, Undefined)
    ensures Jwt.Verify(session.value.token, AuthMiddleware.Secret, now + Auth.TokenLifetime - 1).Valid?
    ensures Jwt.Verify(session.value.token, AuthMiddleware.Secret, now + Auth.TokenLifetime).Invalid?
  {
    var users := new Auth.Usuarios();
    var r := users.Register(Some(usuario), Some(contrasena), salt);
    Auth.FindByUsuarioUnique(users.rows, 0);
    session := Auth.Login(users.rows, Some(usuario), Some(contrasena), now);
  }

  /** Login with a wrong password is told so; with an unknown name it is
      told the user does not exist. */
  method WrongCredentials(usuario: string, contrasena: string, wrong: string, other: string, salt: int, now: int)
    returns (badPassword: Reply<Auth.Session>, unknown: Reply<Auth.Session>)
    requires usuario != "" && contrasena != "" && wrong != "" && other != ""
    requires wrong != contrasena && other != usuario
    ensures badPassword == Fail(BadRequest, "Contraseña incorrecta")
    ensures unknown == Fail(BadRequest, "Usuario no encontrado")
  {
    var users := new Auth.Usuarios();
    var r := users.Register(Some(usuario), Some(contrasena), salt);
    Auth.FindByUsuarioUnique(users.rows, 0);
    badPassword := Auth.Login(users.rows, Some(usuario), Some(wrong), now);
    unknown := Auth.Login(users.rows, Some(other), Some(contrasena), now);
  }

  /** A freshly registered user logs in and presents the token it got as
      `Bearer <token>`: creating a part is refused with 403 and the catalog
      stays empty. */
  method LoginTokenCannotCreate(usuario: string, contrasena: string, salt: int, now: int,
                                decode: AuthMiddleware.Decoder, text: string, campos: Repuestos.Campos)
    returns (session: Reply<Auth.Session>, r: Reply<Repuestos.Repuesto>, catalog: seq<Repuestos.Repuesto>)
    requires usuario != "" && contrasena != ""
    requires ' ' !in text && text != ""
    ensures session.Ok?
    ensures decode(text) == Some(session.value.token) ==> r == Fail(Forbidden, "No autorizado") && catalog == []
  {
    var users := new Auth.Usuarios();
    var reg := users.Register(Some(usuario), Some(contrasena), salt);
    session := Auth.Login(users.rows, Some(usuario), Some(contrasena), now);
    if decode(text) == Some(session.value.token) {
      Auth.LoginTokenNeverAdmin(users.rows, Some(usuario), Some(contrasena), now, decode, "Bearer", text, now);
      assert "Bearer" + " " + text == "Bearer " + text;
    }
    var table := new Repuestos.RepuestosTable();
    r := table.Create(Some("Bearer " + text), decode, now, campos, None);
    catalog := table.rows;
  }

  /** The lifecycle of a part under an admin token: created active and
      listed publicly; toggled, it leaves the public list and shows up among
      the disabled parts; toggled again, it is back as it was. */
  method CatalogLifecycle(decode: AuthMiddleware.Decoder, text: string, now: int,
                          campos: Repuestos.Campos, file: Option<string>)
    returns (created: Repuestos.Repuesto, public1: seq<Repuestos.Repuesto>,
             off: Reply<Repuestos.ToggleReply>, public2: seq<Repuestos.Repuesto>,
             disabled: Reply<seq<Repuestos.Repuesto>>,
             on: Reply<Repuestos.ToggleReply>, public3: seq<Repuestos.Repuesto>)
    requires AuthMiddleware.AdminGate(Some("Bearer " + text), decode, now).Ok?
    ensures created.activo == Some(true) && created in public1
    ensures off == Ok(Repuestos.ToggleReply(Repuestos.DeactivatedMessage, created.(activo := Some(false))))
    ensures forall x :: x in public2 ==> x.id != created.id
    ensures disabled == Ok([created.(activo := Some(false))])
    ensures on == Ok(Repuestos.ToggleReply(Repuestos.ActivatedMessage, created))
    ensures public3 == [created]
  {
    var header := Some("Bearer " + text);
    var table := new Repuestos.RepuestosTable();
    var r := table.Create(header, decode, now, campos, file);
    created := r.value;
    public1 := table.List();
    off := table.Toggle(header, decode, now, created.id);
    public2 := table.List();
    disabled := table.ListDisabled(header, decode, now);
    assert table.rows == [created.(activo := Some(false))];
    assert Repuestos.Where(table.rows[1..], Repuestos.Disabled) == [];
    on := table.Toggle(header, decode, now, created.id);
    public3 := table.List();
    assert table.rows == [created];
    assert Repuestos.Where(table.rows[1..], Repuestos.Visible) == [];
  }

  /** The merge law on an example: a price of 50 replaces a price of 10 and
      keeps every other field, while a price of 0 (falsy) changes nothing. */
  method UpdatePriceOnly(decode: AuthMiddleware.Decoder, text: string, now: int)
    returns (first: Reply<Repuestos.Repuesto>, second: Reply<Repuestos.Repuesto>)
    requires AuthMiddleware.AdminGate(Some("Bearer " + text), decode, now).Ok?
    ensures first == Ok(Repuestos.Repuesto(1, Str("Filter"), Str("X"), Null, Num(50.0), None, Some(true)))
    ensures second == first
  {
    var header := Some("Bearer " + text);
    var table := new Repuestos.RepuestosTable();
    var r := table.Create(header, decode, now, Repuestos.Campos(Str("Filter"), Str("X"), Undefined, Num(10.0)), None);
    first := table.Update(header, decode, now, 1, Repuestos.Campos(Undefined, Undefined, Undefined, Num(50.0)), None);
    second := table.Update(header, decode, now, 1, Repuestos.Campos(Str(""), Null, Undefined, Num(0.0)), None);
  }
}
