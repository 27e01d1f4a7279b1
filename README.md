# Catalog backend: accounts, request guards and the parts table

A Dafny model of the decision logic of a small Express backend for a catalog of
spare parts ("repuestos"). Three pieces are modelled, each sequentially and over
in-memory tables:

- **The parts table** (`routes/repuestos.js`), as the class
  `Repuestos.RepuestosTable`: a sequence of `Repuesto` rows kept in ascending id
  order, with one method per mutating route (create, merge-style update,
  toggle) and one function per reading route (public list, disabled list,
  lookup by id). Each SQL statement is one table transformation: `Where` is a
  SELECT with a WHERE condition, `UpdateWhereId` an UPDATE by id, `FindById`
  the first row a SELECT by id returns.
- **Accounts** (`routes/auth.js`), as the class `Auth.Usuarios` for the
  `usuarios` table (both registration routes check the name is free, then
  insert) and the function `Auth.Login` over a snapshot of that table.
- **Request guards** (`middleware/authMiddleware.js`), as the functions
  `AuthMiddleware.VerificarToken`, `AuthMiddleware.SoloAdmin` and their
  composition `AuthMiddleware.AdminGate`, which every admin route runs first.

Collaborators are abstract. bcrypt is a symbolic digest (`Bcrypt.Digest`) that
`Bcrypt.Compare` accepts exactly for the secret it was made from. A JSON Web
Token (RFC 7519) is a payload of claims plus the registered "iat" and "exp"
claims and a symbolic HMAC signature over the whole payload (`Jwt.Token`);
`Jwt.Verify` succeeds exactly when the signature is the key's signature over
that payload and the clock is before "exp". Turning the compact token text
into a token is a parameter (`AuthMiddleware.Decoder`). The clock (`now`, in
seconds), the bcrypt salt and the uploaded file's name are parameters too.

Request-body values are JavaScript values (`Js.JsValue`). The JSON body parser
can deliver numbers and booleans and the multipart parser strings, so the
truthiness test behind `!x` and `x || null` is modelled exactly (`Js.Truthy`).
Login, password and header fields are absent-or-text (`Js.Option<string>`).

Behaviour reproduced from the code where it differs from the system's design
description:

- Login signs the claims `{ id, usuario, rol: user.rol }`
  (routes/auth.js:81-82). The INSERTs write a `rol_id` column and no `rol`
  column; the model assumes the table has none, so the `rol` claim is
  undefined. Whatever the schema, no `rol_id` claim is signed, and `soloAdmin` reads `rol_id`
  (middleware/authMiddleware.js:18), so a token issued by login never passes it
  (`Auth.LoginTokenNeverAdmin`, `Scenarios.LoginTokenCannotCreate`). Every
  admin route, `/auth/register-admin` included, is therefore reachable only
  with a token signed some other way. The design's claim that the login token
  embeds the role given at registration does not hold.
- All login failures answer 400, "Usuario no encontrado" included (not 404).
- GET `/repuestos/:id` sits behind both guards, and it returns the row whatever
  its `activo` value.
- `UPDATE ... SET activo = NOT activo` leaves a NULL `activo` NULL, and the
  toggle then reports "Repuesto desactivado correctamente". The public list
  (`activo IS DISTINCT FROM false`) shows rows with NULL `activo`; the disabled
  list (`activo = false`) does not.
- A price of `0` sent as a JSON number is falsy, so the update keeps the stored
  price. The text `"0"` from a multipart form is truthy, so it replaces it.

## Model

| member | source | states |
|---|---|---|
| `Bcrypt.HashPassword` | routes/auth.js:24 | the digest carries cost 10, and comparing a candidate against it succeeds exactly when the candidate is the hashed secret |
| `Jwt.Sign` | routes/auth.js:81-85 | the signed token carries the given claims, "iat" = now and "exp" = now + lifetime, and verifies under the same key exactly at times before "exp" |
| `Jwt.Verify` | middleware/authMiddleware.js:9-11 | verification succeeds iff the signature is the key's signature over the payload and the token is unexpired, and then yields the payload |
| `Jwt.TamperedTokenRejected` | middleware/authMiddleware.js:9-10 | a validly signed token whose payload is replaced by any other payload no longer verifies |
| `AuthMiddleware.JoinSplit` | middleware/authMiddleware.js:6 | `split(" ")` loses nothing: joining its pieces with single spaces gives back the header, and no piece contains a space |
| `AuthMiddleware.SplitAtFirstSpace` | middleware/authMiddleware.js:6 | the first piece of the split is the text before the first space, and the remaining pieces are the split of the text after it |
| `AuthMiddleware.ExtractTokenIsSecondField` | middleware/authMiddleware.js:5-6 | for a non-empty header the extracted token is exactly the text between the first and second space (to the end if there is no second), and absent when there is no space |
| `AuthMiddleware.ExtractAfterScheme` | middleware/authMiddleware.js:5-6 | any space-free scheme word, one space and a space-free token yield that token: the scheme word is not checked |
| `AuthMiddleware.DoubleSpaceMeansNoToken` | middleware/authMiddleware.js:6-7 | `"<scheme>  <rest>"` (two spaces) yields the empty token, and the guard answers 401 "Token requerido" |
| `AuthMiddleware.VerificarToken` | middleware/authMiddleware.js:4-13 | 401 "Token requerido" iff the header yields no token or an empty one; a present token that does not decode or does not verify gets exactly 403 "Token inválido", and it passes iff it decodes and verifies; on success the result is the payload of a token signed with the secret and unexpired |
| `AuthMiddleware.SoloAdmin` | middleware/authMiddleware.js:16-22 | passes iff the `rol_id` claim is strictly the number 1, and then passes the claims on unchanged; otherwise 403 "No autorizado" |
| `AuthMiddleware.AdminGate` | middleware/authMiddleware.js:4-22 | the chain of both guards passes iff both pass, only with `rol_id` 1; a failing `verificarToken` answer is returned unchanged, and a verified token without `rol_id` 1 gets 403 "No autorizado" |
| `Auth.FindByUsuario` | routes/auth.js:19-20 | the lookup by name finds a row iff some row has that name, and the row it finds is in the table and has that name |
| `Auth.FindByUsuarioUnique` | routes/auth.js:71-75 | with unique names the lookup returns the one row holding the name |
| `Auth.FindAppended` | routes/auth.js:25-28 | after appending a row under a name no row had, the lookup of that name finds the new row |
| `Auth.Login` | routes/auth.js:65-92 | checks in order: missing or empty fields, then unknown user, then password mismatch (each 400 with its message, each iff its condition); a known name with a matching password always succeeds; on success the token carries exactly the claims `id`, `usuario` of the stored row, an undefined `rol` and no `rol_id`, was issued at `now`, expires two hours later and verifies under the guards' secret; the table is an argument, never changed |
| `Auth.LoginAfterInsert` | routes/auth.js:71-87 | logging in with the name and password of a row just inserted under a fresh name succeeds, and the token carries that row's claims |
| `Auth.LoginTokenNeverAdmin` | routes/auth.js:81-82 | a token issued by login, sent as `<scheme> <token>` before it expires, passes `verificarToken` with the login payload and is then always refused by `soloAdmin` with 403 "No autorizado" |
| `Auth.Usuarios.CheckThenInsert` | routes/auth.js:14-28 | missing fields: 400 and no change; name taken: 400 "Usuario ya existe" and no change; otherwise exactly one row appended with the name, the bcrypt digest of the password and the given role id, after which login with those credentials succeeds; names stay unique |
| `Auth.Usuarios.Register` | routes/auth.js:11-35 | the same outcomes with role id 2 and "Usuario registrado correctamente" |
| `Auth.Usuarios.RegisterAdmin` | routes/auth.js:38-62 | a failing guard's answer is returned and nothing changes; past the guards, the same outcomes with role id 1 and "Administrador registrado correctamente" |
| `Repuestos.MergeField` | routes/repuestos.js:86-96 | `COALESCE(v or null, col)` stores the supplied value iff it is truthy, and otherwise keeps the stored one (`undefined`, `null`, `""`, `0`, `NaN`, `false`) |
| `Repuestos.Not` | routes/repuestos.js:151 | SQL `NOT` keeps NULL as NULL and changes every non-NULL value |
| `Repuestos.Apply` | routes/repuestos.js:79-99 | an update keeps `id` and `activo`, replaces each of nombre, marca, descripcion and precio iff the supplied value is truthy, and replaces the image with `/img/<file>` iff a file was uploaded; a toggle changes `activo` to its SQL negation and nothing else |
| `Repuestos.UpdateWhereId` | routes/repuestos.js:84-91 | an UPDATE by id keeps the table's length and every id, applies the change to the rows with that id and leaves every other row as it was |
| `Repuestos.FindById` | routes/repuestos.js:132-134 | the lookup by id finds a row iff some row has that id, and the row it finds is in the table and has that id |
| `Repuestos.Where` | routes/repuestos.js:27-29 | a SELECT with a condition returns the table's rows that satisfy it, each as many times as the table holds it, and no other row |
| `Repuestos.WhereAscending` | routes/repuestos.js:116-118 | selecting from a table in ascending id order gives rows in strictly ascending id order, so each row appears once |
| `Repuestos.FindAfterUpdate` | routes/repuestos.js:102-105 | the row RETURNING gives back is the old row with the change applied, and there is none iff no row had the id |
| `Repuestos.UpdateOneRow` | routes/repuestos.js:150-153 | in a table with ascending ids, an UPDATE by the id of a row changes that row and no other |
| `Repuestos.UpdateMissingId` | routes/repuestos.js:102-104 | an UPDATE for an id no row has leaves the table unchanged |
| `Repuestos.ToggleTwice` | routes/repuestos.js:151 | toggling the same id twice restores the table, NULL `activo` included |
| `Repuestos.ToggleMessage` | routes/repuestos.js:159-164 | the message is "Repuesto activado correctamente" iff the new `activo` is true, and "Repuesto desactivado correctamente" otherwise |
| `Repuestos.RepuestosTable.List` | routes/repuestos.js:25-35 | the public list holds the rows whose `activo` is not false, NULL included, each as often as in the table, and no other row |
| `Repuestos.RepuestosTable.ListDisabled` | routes/repuestos.js:114-126 | after both guards, the list holds the rows whose `activo` is false, each as often as in the table, in strictly ascending id order; a failing guard's answer is returned otherwise |
| `Repuestos.RepuestosTable.GetById` | routes/repuestos.js:129-143 | after both guards, the row with that id whatever its `activo`, or 404 "Repuesto no encontrado" iff there is none |
| `Repuestos.RepuestosTable.Create` | routes/repuestos.js:42-65 | after both guards, exactly one row is appended under a new id with the supplied fields (undefined stored as NULL), the uploaded image or NULL, and `activo` true, and it appears in the public list; a failing guard changes nothing |
| `Repuestos.RepuestosTable.Update` | routes/repuestos.js:68-111 | after both guards, 404 and no change when no row has the id; otherwise the table is the UPDATE-by-id of the merge and the reply is the merged row |
| `Repuestos.RepuestosTable.Toggle` | routes/repuestos.js:146-169 | after both guards, 404 and no change when no row has the id; otherwise only that row's `activo` is negated, and the reply is the new row with the message for its new state |
| `Scenarios.RegisterTwice` | routes/auth.js:19-22 | registering one name twice succeeds the first time, is refused with "Usuario ya existe" the second time, and leaves one row |
| `Scenarios.RegisterThenLogin` | routes/auth.js:24-28 | login right after registering succeeds with claims `{ id, usuario }` and neither role claim, valid up to one second before two hours have passed and expired at two hours |
| `Scenarios.WrongCredentials` | routes/auth.js:71-79 | after one registration, a wrong password gets "Contraseña incorrecta" and an unknown name "Usuario no encontrado" |
| `Scenarios.LoginTokenCannotCreate` | middleware/authMiddleware.js:16-19 | a user who registers, logs in and sends the token as `Bearer <token>` is refused with 403 "No autorizado" when creating a part, and the catalog stays empty |
| `Scenarios.CatalogLifecycle` | routes/repuestos.js:146-164 | with an admin token: a created part is active and publicly listed; toggled, it leaves the public list and is the only disabled part; toggled again, it is back unchanged |
| `Scenarios.UpdatePriceOnly` | routes/repuestos.js:84-99 | updating `{ precio: 50 }` on `{ nombre: "Filter", marca: "X", precio: 10 }` changes only the price; a further update with `""`, `null` and `0` changes nothing |

## Left out

- Repuestos.RepuestosTable.List: states which rows are listed, not their order, because the query has no ORDER BY and the order is the database's choice (the model returns table order).
- The schema of `usuarios` is not part of the source: the model assumes it has no `rol` column (the INSERTs write none), which is why the `rol` claim of a login token is undefined (`Auth.LoginClaims`, `Scenarios.RegisterThenLogin`). `Auth.LoginTokenNeverAdmin` does not depend on this.
- The 500 branches: database failures, and values the database refuses to cast (a non-numeric `:id`, a price that is not a number, a missing required column). Column types and constraints are not part of the source, so stored values are kept as the request supplied them.
- Non-string JSON values (numbers, objects) for `usuario` and `contrasena`, and objects or arrays as part fields; both are cast or rejected by libraries outside the model.
- Multer's disk storage and its `Date.now()` file names: an upload is an optional file name that becomes `/img/<name>`.
- bcrypt internals: the digest is symbolic, so one-wayness and the 72-byte password limit are not modelled; the random salt is a parameter.
- JWT cryptography and wire format: signatures are symbolic, decoding the compact text is a parameter, and the `nbf` claim, algorithm selection and clock tolerance are not modelled.
- The database's concurrency guarantees: the atomicity of the toggle and races between two registrations of one name (a UNIQUE constraint, if the schema has one, is not part of the source).
- `index.js`: Express wiring, CORS, static files and `listen`.
- Calling `next`: a guard's `Ok` result stands for one call of the next handler with `req.user` set.
