/** The `repuestos` table of catalog parts and its six routes: the public
    listing, create, merge-style update, the disabled listing, lookup by id
    and the visibility toggle. Each SQL statement is one transformation of
    the table. */
module Repuestos {
  import opened Js
  import opened Http
  import AuthMiddleware

  /** One row of `repuestos`. The text and price columns hold whatever value
      the request supplied (SQL NULL as `Null`); `activo` is a nullable
      boolean column. */
  datatype Repuesto = Repuesto(
    id: int,
    nombre: JsValue,
    marca: JsValue,
    descripcion: JsValue,
    precio: JsValue,
    imagen: Option<string>,
    activo: Option<bool>)

  /** The fields read from the request body. */
  datatype Campos = Campos(nombre: JsValue, marca: JsValue, descripcion: JsValue, precio: JsValue)

  /** The JSON body of a successful toggle. */
  datatype ToggleReply = ToggleReply(mensaje: string, repuesto: Repuesto)

  /** The per-row change an UPDATE statement applies. */
  datatype Change =
    | Merge(campos: Campos, file: Option<string>)  // SET col = COALESCE(...)
    | Flip                                          // SET activo = NOT activo

  const NotFoundMessage := "Repuesto no encontrado"
  const ActivatedMessage := "Repuesto activado correctamente"
  const DeactivatedMessage := "Repuesto desactivado correctamente"

  /** The public path of an uploaded file, or null when none was uploaded. */
  function ImagenUrl(file: Option<string>): Option<string>
  {
    match file
    case None => None
    case Some(name) => Some("/img/" + name)
  }

  /** A query parameter as stored: node-postgres binds `undefined` as NULL. */
  function Bound(v: JsValue): JsValue
  {
    if v == Undefined then Null else v
  }

  /** `col = COALESCE(v || null, col)`: the supplied value replaces the stored
      one exactly when it is truthy. */
  function MergeField(supplied: JsValue, stored: JsValue): (r: JsValue)
    ensures Truthy(supplied) ==> r == supplied
    ensures !Truthy(supplied) ==> r == stored
  {
    var param := OrNull(supplied);
    if param == Null then stored else param
  }

  /** SQL `NOT`: a NULL stays NULL. */
  function Not(a: Option<bool>): (r: Option<bool>)
    ensures r.None? <==> a.None?
    ensures a.Some? ==> r != a
  {
    match a
    case None => None
    case Some(b) => Some(!b)
  }

  /** The row an UPDATE leaves behind. */
  function Apply(c: Change, row: Repuesto): (r: Repuesto)
    ensures r.id == row.id
    ensures c.Merge? ==>
              && r.activo == row.activo
              && (Truthy(c.campos.nombre) ==> r.nombre == c.campos.nombre)
              && (!Truthy(c.campos.nombre) ==> r.nombre == row.nombre)
              && (Truthy(c.campos.marca) ==> r.marca == c.campos.marca)
              && (!Truthy(c.campos.marca) ==> r.marca == row.marca)
              && (Truthy(c.campos.descripcion) ==> r.descripcion == c.campos.descripcion)
              && (!Truthy(c.campos.descripcion) ==> r.descripcion == row.descripcion)
              && (Truthy(c.campos.precio) ==> r.precio == c.campos.precio)
              && (!Truthy(c.campos.precio) ==> r.precio == row.precio)
              && (c.file.Some? ==> r.imagen == Some("/img/" + c.file.value))
              && (c.file.None? ==> r.imagen == row.imagen)
    ensures c.Flip? ==> r == row.(activo := Not(row.activo))
  {
    match c
    case Merge(campos, file) =>
      var url := ImagenUrl(file);
      row.(nombre := MergeField(campos.nombre, row.nombre),
           marca := MergeField(campos.marca, row.marca),
           descripcion := MergeField(campos.descripcion, row.descripcion),
           precio := MergeField(campos.precio, row.precio),
           imagen := if url.Some? then url else row.imagen)
    case Flip =>
      row.(activo := Not(row.activo))
  }

  /** `UPDATE repuestos SET ... WHERE id = $id`. */
  function UpdateWhereId(rows: seq<Repuesto>, id: int, c: Change): (r: seq<Repuesto>)
    ensures |r| == |rows|
    ensures forall i :: 0 <= i < |rows| ==> r[i].id == rows[i].id
    ensures forall i :: 0 <= i < |rows| && rows[i].id != id ==> r[i] == rows[i]
    ensures forall i :: 0 <= i < |rows| && rows[i].id == id ==> r[i] == Apply(c, rows[i])
  {
    if rows == [] then []
    else [if rows[0].id == id then Apply(c, rows[0]) else rows[0]] + UpdateWhereId(rows[1..], id, c)
  }

  predicate HasId(rows: seq<Repuesto>, id: int)
  {
    exists i :: 0 <= i < |rows| && rows[i].id == id
  }

  /** `SELECT * FROM repuestos WHERE id = $1`, first row. */
  function FindById(rows: seq<Repuesto>, id: int): (r: Option<Repuesto>)
    ensures r.Some? <==> HasId(rows, id)
    ensures r.Some? ==> r.value in rows && r.value.id == id
  {
    if rows == [] then None
    else if rows[0].id == id then Some(rows[0])
    else FindById(rows[1..], id)
  }

  /** `WHERE activo IS DISTINCT FROM false`: true and NULL both pass. */
  predicate Visible(row: Repuesto)
  {
    row.activo != Some(false)
  }

  /** `WHERE activo = false`: NULL does not pass. */
  predicate Disabled(row: Repuesto)
  {
    row.activo == Some(false)
  }

  ghost predicate IdsAscending(rows: seq<Repuesto>)
  {
    forall i, j :: 0 <= i < j < |rows| ==> rows[i].id < rows[j].id
  }

  /** A SELECT with a WHERE condition: the rows that satisfy it, in table
      order. */
  function Where(rows: seq<Repuesto>, keep: Repuesto -> bool): (r: seq<Repuesto>)
    ensures forall x :: x in r <==> x in rows && keep(x)
    ensures forall x :: multiset(r)[x] == if keep(x) then multiset(rows)[x] else 0
  {
    if rows == [] then []
    else
      var rest := Where(rows[1..], keep);
      assert forall x :: x in rest ==> x in rows[1..];
      assert rows == [rows[0]] + rows[1..];
      if keep(rows[0]) then [rows[0]] + rest else rest
  }

  /** Selecting rows keeps their order, so a table in ascending id order
      gives a result in ascending id order (each row once). */
  lemma {:induction false} WhereAscending(rows: seq<Repuesto>, keep: Repuesto -> bool)
    requires IdsAscending(rows)
    ensures IdsAscending(Where(rows, keep))
  {
    if rows != [] {
      var rest := Where(rows[1..], keep);
      WhereAscending(rows[1..], keep);
      forall x | x in rest ensures rows[0].id < x.id {
        var k :| 0 <= k < |rows[1..]| && rows[1..][k] == x;
        assert rows[k + 1] == x;
      }
    }
  }

  /** The RETURNING row of an UPDATE is the old row with the change applied. */
  lemma {:induction false} FindAfterUpdate(rows: seq<Repuesto>, id: int, c: Change)
    ensures FindById(UpdateWhereId(rows, id, c), id) ==
            (if HasId(rows, id) then Some(Apply(c, FindById(rows, id).value)) else None)
  {
    if rows != [] {
      var updated := UpdateWhereId(rows, id, c);
      assert updated[1..] == UpdateWhereId(rows[1..], id, c);
      if rows[0].id != id {
        FindAfterUpdate(rows[1..], id, c);
        assert HasId(rows, id) ==> HasId(rows[1..], id) by {
          if HasId(rows, id) {
            var i :| 0 <= i < |rows| && rows[i].id == id;
            assert rows[1..][i - 1].id == id;
          }
        }
      }
    }
  }

  /** In a table with unique ids, an UPDATE by the id of a row changes that
      row and no other. */
  lemma UpdateOneRow(rows: seq<Repuesto>, k: nat, c: Change)
    requires IdsAscending(rows) && k < |rows|
    ensures UpdateWhereId(rows, rows[k].id, c) == rows[k := Apply(c, rows[k])]
  {
    var updated := UpdateWhereId(rows, rows[k].id, c);
    forall i | 0 <= i < |rows| ensures updated[i] == rows[k := Apply(c, rows[k])][i] {
      if i < k {
        assert rows[i].id < rows[k].id;
      } else if i > k {
        assert rows[k].id < rows[i].id;
      }
    }
  }

  /** An UPDATE for an id that no row has leaves the table as it was. */
  lemma {:induction false} UpdateMissingId(rows: seq<Repuesto>, id: int, c: Change)
    requires !HasId(rows, id)
    ensures UpdateWhereId(rows, id, c) == rows
  {
    if rows != [] {
      assert !HasId(rows[1..], id) by {
        forall i | 0 <= i < |rows[1..]| ensures rows[1..][i].id != id {
          assert rows[1..][i] == rows[i + 1];
        }
      }
      UpdateMissingId(rows[1..], id, c);
    }
  }

  /** Toggling the same id twice gives back the table it started from. */
  lemma ToggleTwice(rows: seq<Repuesto>, id: int)
    ensures UpdateWhereId(UpdateWhereId(rows, id, Flip), id, Flip) == rows
  {
    var twice := UpdateWhereId(UpdateWhereId(rows, id, Flip), id, Flip);
    forall i | 0 <= i < |rows| ensures twice[i] == rows[i] {
      if rows[i].id == id {
        assert twice[i].activo == Not(Not(rows[i].activo));
      }
    }
  }

  /** The message of a toggle, from the new value of `activo` (only `true`
      is truthy). */
  function ToggleMessage(activo: Option<bool>): (m: string)
    ensures m == ActivatedMessage <==> activo == Some(true)
    ensures m != ActivatedMessage ==> m == DeactivatedMessage
  {
    if activo == Some(true) then ActivatedMessage else DeactivatedMessage
  }

  /** The `repuestos` table. Ids are handed out in increasing order and rows
      are appended, so the table is kept in ascending id order. */
  class RepuestosTable {
    var rows: seq<Repuesto>
    var nextId: int

    ghost predicate Valid()
      reads this
    {
      && IdsAscending(rows)
      && forall i :: 0 <= i < |rows| ==> rows[i].id < nextId
    }

    constructor ()
      ensures Valid() && rows == [] && nextId == 1
    {
      rows := [];
      nextId := 1;
    }

    /** GET /: every row whose `activo` is not false, NULL included. */
    function List(): (r: seq<Repuesto>)
      reads this
      ensures forall x :: x in r <==> x in rows && x.activo != Some(false)
      ensures forall x :: multiset(r)[x] == if x.activo != Some(false) then multiset(rows)[x] else 0
    {
      Where(rows, Visible)
    }

    /** GET /deshabilitados (admin): the rows whose `activo` is false, each
        once, in ascending id order. */
    function ListDisabled(authorization: Option<string>, decode: AuthMiddleware.Decoder, now: int): (r: Reply<seq<Repuesto>>)
      reads this
      requires Valid()
      ensures var gate := AuthMiddleware.AdminGate(authorization, decode, now);
              gate.Fail? ==> r == Fail(gate.status, gate.error)
      ensures AuthMiddleware.AdminGate(authorization, decode, now).Ok? ==> r.Ok?
      ensures r.Ok? ==> forall x :: x in r.value <==> x in rows && x.activo == Some(false)
      ensures r.Ok? ==> forall x :: multiset(r.value)[x] == if x.activo == Some(false) then multiset(rows)[x] else 0
      ensures r.Ok? ==> forall i, j :: 0 <= i < j < |r.value| ==> r.value[i].id < r.value[j].id
    {
      match AuthMiddleware.AdminGate(authorization, decode, now)
      case Fail(status, error) => Fail(status, error)
      case Ok(_) =>
        WhereAscending(rows, Disabled);
        Ok(Where(rows, Disabled))
    }

    /** GET /:id (admin): the row with that id whatever its `activo`, or 404. */
    function GetById(authorization: Option<string>, decode: AuthMiddleware.Decoder, now: int, id: int): (r: Reply<Repuesto>)
      reads this
      ensures var gate := AuthMiddleware.AdminGate(authorization, decode, now);
              gate.Fail? ==>
                r == Fail(gate.status, gate.error)
      ensures AuthMiddleware.AdminGate(authorization, decode, now).Ok? ==>
                && (r.Ok? <==> HasId(rows, id))
                && (r.Ok? ==> r.value in rows && r.value.id == id)
                && (r.Fail? ==> r == Fail(NotFound, NotFoundMessage))
    {
      match AuthMiddleware.AdminGate(authorization, decode, now)
      case Fail(status, error) => Fail(status, error)
      case Ok(_) =>
        match FindById(rows, id)
        case None => Fail(NotFound, NotFoundMessage)
        case Some(row) => Ok(row)
    }

    /** POST / (admin): inserts one row with the supplied fields, the image
        of the uploaded file if any, and `activo = true`. */
    method Create(authorization: Option<string>, decode: AuthMiddleware.Decoder, now: int,
                  campos: Campos, file: Option<string>)
      returns (r: Reply<Repuesto>)
      requires Valid()
      modifies this
      ensures Valid()
      ensures var gate := AuthMiddleware.AdminGate(authorization, decode, now);
              gate.Fail? ==>
                && r == Fail(gate.status, gate.error)
                && rows == old(rows) && nextId == old(nextId)
      ensures AuthMiddleware.AdminGate(authorization, decode, now).Ok? ==>
                && r.Ok?
                && r.value == Repuesto(old(nextId), Bound(campos.nombre), Bound(campos.marca),
                                       Bound(campos.descripcion), Bound(campos.precio),
                                       ImagenUrl(file), Some(true))
                && rows == old(rows) + [r.value]
                && nextId == old(nextId) + 1
                && !HasId(old(rows), r.value.id)
                && r.value in List()
    {
      var gate := AuthMiddleware.AdminGate(authorization, decode, now);
      if gate.Fail? {
        return Fail(gate.status, gate.error);
      }
      var row := Repuesto(nextId, Bound(campos.nombre), Bound(campos.marca), Bound(campos.descripcion),
                          Bound(campos.precio), ImagenUrl(file), Some(true));
      rows := rows + [row];
      nextId := nextId + 1;
      r := Ok(row);
    }

    /** PUT /:id (admin): merges the truthy fields and the uploaded image into
        the row, or answers 404 and changes nothing. */
    method Update(authorization: Option<string>, decode: AuthMiddleware.Decoder, now: int,
                  id: int, campos: Campos, file: Option<string>)
      returns (r: Reply<Repuesto>)
      requires Valid()
      modifies this
      ensures Valid() && nextId == old(nextId)
      ensures var gate := AuthMiddleware.AdminGate(authorization, decode, now);
              gate.Fail? ==>
                r == Fail(gate.status, gate.error) && rows == old(rows)
      ensures AuthMiddleware.AdminGate(authorization, decode, now).Ok? && !HasId(old(rows), id) ==>
                r == Fail(NotFound, NotFoundMessage) && rows == old(rows)
      ensures AuthMiddleware.AdminGate(authorization, decode, now).Ok? && HasId(old(rows), id) ==>
                && r == Ok(Apply(Merge(campos, file), FindById(old(rows), id).value))
                && rows == UpdateWhereId(old(rows), id, Merge(campos, file))
    {
      var gate := AuthMiddleware.AdminGate(authorization, decode, now);
      if gate.Fail? {
        return Fail(gate.status, gate.error);
      }
      if !HasId(rows, id) {
        UpdateMissingId(rows, id, Merge(campos, file));
      }
      FindAfterUpdate(rows, id, Merge(campos, file));
      rows := UpdateWhereId(rows, id, Merge(campos, file));
      match FindById(rows, id)
      case None => r := Fail(NotFound, NotFoundMessage);
      case Some(row) => r := Ok(row);
    }

    /** PATCH /:id/toggle (admin): negates `activo` of the row and reports
        the new state, or answers 404 and changes nothing. */
    method Toggle(authorization: Option<string>, decode: AuthMiddleware.Decoder, now: int, id: int)
      returns (r: Reply<ToggleReply>)
      requires Valid()
      modifies this
      ensures Valid() && nextId == old(nextId)
      ensures var gate := AuthMiddleware.AdminGate(authorization, decode, now);
              gate.Fail? ==>
                r == Fail(gate.status, gate.error) && rows == old(rows)
      ensures AuthMiddleware.AdminGate(authorization, decode, now).Ok? && !HasId(old(rows), id) ==>
                r == Fail(NotFound, NotFoundMessage) && rows == old(rows)
      ensures AuthMiddleware.AdminGate(authorization, decode, now).Ok? && HasId(old(rows), id) ==>
                var before := FindById(old(rows), id).value;
                && r.Ok?
                && r.value.repuesto == before.(activo := Not(before.activo))
                && r.value.mensaje == ToggleMessage(r.value.repuesto.activo)
                && rows == UpdateWhereId(old(rows), id, Flip)
    {
      var gate := AuthMiddleware.AdminGate(authorization, decode, now);
      if gate.Fail? {
        return Fail(gate.status, gate.error);
      }
      if !HasId(rows, id) {
        UpdateMissingId(rows, id, Flip);
      }
      FindAfterUpdate(rows, id, Flip);
      rows := UpdateWhereId(rows, id, Flip);
      match FindById(rows, id)
      case None => r := Fail(NotFound, NotFoundMessage);
      case Some(row) => r := Ok(ToggleReply(ToggleMessage(row.activo), row));
    }
  }
}
