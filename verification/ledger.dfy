/** The ledger routes: `PUT`, `DELETE` and `GET /movimentacoes/:id`, and the
    listing `GET /movimentacoes`. Every statement is scoped to the caller: the
    row must match both the id in the path and the caller's user id, and a
    row of another user is reported exactly like a row that does not exist. */
module Ledger {
  import opened Common
  import opened Text
  import opened Store

  /** The JSON body of an update. JavaScript's falsy values (`undefined`,
      `null`, `""`, `0`) are `None`, `""` or `Some(0)`; which one does not
      matter, since the handler only tests truthiness. */
  datatype MovBody = MovBody(
    tipo: string,
    categoriaId: Option<int>,
    valor: Option<int>,
    detalhes: Option<string>,
    data: Option<Date>)

  /** The values the `UPDATE` statement writes, after validation. */
  datatype Fields = Fields(
    tipo: string,
    categoriaId: Option<int>,
    valor: int,
    detalhes: Option<string>,
    data: Date)

  /** The validation in front of the update: kind, amount and date are
      required, an expense needs a category, and the stored category is
      cleared for an income or when none was sent. `None` is the 400 answer. */
  function CheckMovBody(b: MovBody): (r: Option<Fields>)
    ensures r.None? <==>
              b.tipo == "" || !TruthyNumber(b.valor) || b.data.None? ||
              (b.tipo == GASTO && !TruthyNumber(b.categoriaId))
    ensures r.Some? ==>
              r.value.tipo == b.tipo && r.value.valor == b.valor.value && r.value.data == b.data.value
    ensures r.Some? && b.tipo == ENTRADA ==> r.value.categoriaId.None?
    ensures r.Some? && b.tipo == GASTO ==> r.value.categoriaId == b.categoriaId && b.categoriaId.value != 0
    ensures r.Some? ==> r.value.categoriaId.None? || r.value.categoriaId == b.categoriaId
    ensures r.Some? ==> (r.value.detalhes.Some? <==> TruthyText(b.detalhes))
    ensures r.Some? && r.value.detalhes.Some? ==> r.value.detalhes == b.detalhes
  {
    if b.tipo == "" || !TruthyNumber(b.valor) || b.data.None? then None
    else if b.tipo == GASTO && !TruthyNumber(b.categoriaId) then None
    else
      var categoria := if b.tipo == ENTRADA || !TruthyNumber(b.categoriaId) then None else b.categoriaId;
      var detalhes := if TruthyText(b.detalhes) then b.detalhes else None;
      Some(Fields(b.tipo, categoria, b.valor.value, detalhes, b.data.value))
  }

  /** The row condition of every statement here: `id = $id AND usuario_id = $caller`. */
  predicate Targets(m: Movimentacao, id: int, caller: int)
  {
    m.id == id && m.usuarioId == caller
  }

  /** Some row matches the condition (the statement's row count is not zero). */
  predicate HasTarget(rows: seq<Movimentacao>, id: int, caller: int)
  {
    exists k :: 0 <= k < |rows| && Targets(rows[k], id, caller)
  }

  /** The `SET` of the update applied to one row; owner and id stay. */
  function Assign(m: Movimentacao, f: Fields): Movimentacao
  {
    m.(tipo := f.tipo, categoriaId := f.categoriaId, valor := f.valor, detalhes := f.detalhes, data := f.data)
  }

  function UpdateWhere(rows: seq<Movimentacao>, id: int, caller: int, f: Fields): (r: seq<Movimentacao>)
    ensures |r| == |rows|
    ensures forall k :: 0 <= k < |rows| ==>
              r[k] == if Targets(rows[k], id, caller) then Assign(rows[k], f) else rows[k]
  {
    seq(|rows|, k requires 0 <= k < |rows| =>
      if Targets(rows[k], id, caller) then Assign(rows[k], f) else rows[k])
  }

  function DeleteWhere(rows: seq<Movimentacao>, id: int, caller: int): (r: seq<Movimentacao>)
    ensures |r| <= |rows|
    ensures forall m :: m in r <==> m in rows && !Targets(m, id, caller)
    ensures !HasTarget(rows, id, caller) ==> r == rows
    ensures HasTarget(rows, id, caller) ==> |r| < |rows|
  {
    if |rows| == 0 then []
    else if Targets(rows[0], id, caller) then DeleteWhere(rows[1..], id, caller)
    else
      assert HasTarget(rows, id, caller) ==> HasTarget(rows[1..], id, caller) by {
        if HasTarget(rows, id, caller) {
          var k :| 0 <= k < |rows| && Targets(rows[k], id, caller);
          assert rows[1..][k - 1] == rows[k];
        }
      }
      assert !HasTarget(rows, id, caller) ==> !HasTarget(rows[1..], id, caller) by {
        if HasTarget(rows[1..], id, caller) {
          var k :| 0 <= k < |rows[1..]| && Targets(rows[1..][k], id, caller);
          assert rows[k + 1] == rows[1..][k];
        }
      }
      [rows[0]] + DeleteWhere(rows[1..], id, caller)
  }

  /** `PUT /movimentacoes/:id`. Validation comes first (400); an id the
      database cannot read as an integer fails the statement (500); a row
      count of zero is 404; otherwise exactly the caller's row with that id
      takes the new values and nothing else in the database changes. */
  function UpdateMovimentacao(db: Db, caller: int, idParam: string, b: MovBody): (w: Write)
    ensures CheckMovBody(b).None? ==> w == Write(BAD_REQUEST, db)
    ensures CheckMovBody(b).Some? && PgInt(idParam).None? ==> w == Write(INTERNAL_ERROR, db)
    ensures (CheckMovBody(b).Some? && PgInt(idParam).Some? &&
             !HasTarget(db.movimentacoes, PgInt(idParam).value, caller)) ==> w == Write(NOT_FOUND, db)
    ensures w.status == OK <==>
              CheckMovBody(b).Some? && PgInt(idParam).Some? &&
              HasTarget(db.movimentacoes, PgInt(idParam).value, caller)
    ensures w.status != OK ==> w.db == db
    ensures w.status == OK ==>
              && w.db == db.(movimentacoes := w.db.movimentacoes)
              && |w.db.movimentacoes| == |db.movimentacoes|
              && forall k :: 0 <= k < |db.movimentacoes| ==>
                   w.db.movimentacoes[k] ==
                     if Targets(db.movimentacoes[k], PgInt(idParam).value, caller)
                     then Assign(db.movimentacoes[k], CheckMovBody(b).value)
                     else db.movimentacoes[k]
  {
    match CheckMovBody(b)
    case None => Write(BAD_REQUEST, db)
    case Some(f) =>
      match PgInt(idParam)
      case None => Write(INTERNAL_ERROR, db)
      case Some(id) =>
        if !HasTarget(db.movimentacoes, id, caller) then Write(NOT_FOUND, db)
        else Write(OK, db.(movimentacoes := UpdateWhere(db.movimentacoes, id, caller, f)))
  }

  /** `DELETE /movimentacoes/:id`: 204 after removing exactly the caller's
      row with that id; 404 and no change when there is none. */
  function DeleteMovimentacao(db: Db, caller: int, idParam: string): (w: Write)
    ensures PgInt(idParam).None? ==> w == Write(INTERNAL_ERROR, db)
    ensures PgInt(idParam).Some? && !HasTarget(db.movimentacoes, PgInt(idParam).value, caller) ==>
              w == Write(NOT_FOUND, db)
    ensures w.status == NO_CONTENT <==>
              PgInt(idParam).Some? && HasTarget(db.movimentacoes, PgInt(idParam).value, caller)
    ensures w.status != NO_CONTENT ==> w.db == db
    ensures w.status == NO_CONTENT ==>
              && w.db == db.(movimentacoes := w.db.movimentacoes)
              && |w.db.movimentacoes| < |db.movimentacoes|
              && forall m :: m in w.db.movimentacoes <==>
                   m in db.movimentacoes && !Targets(m, PgInt(idParam).value, caller)
  {
    match PgInt(idParam)
    case None => Write(INTERNAL_ERROR, db)
    case Some(id) =>
      if !HasTarget(db.movimentacoes, id, caller) then Write(NOT_FOUND, db)
      else Write(NO_CONTENT, db.(movimentacoes := DeleteWhere(db.movimentacoes, id, caller)))
  }

  /** First row satisfying the condition. */
  function FirstTarget(rows: seq<Movimentacao>, id: int, caller: int): (k: nat)
    requires HasTarget(rows, id, caller)
    ensures k < |rows| && Targets(rows[k], id, caller)
    ensures forall j :: 0 <= j < k ==> !Targets(rows[j], id, caller)
  {
    if Targets(rows[0], id, caller) then 0
    else
      assert HasTarget(rows[1..], id, caller) by {
        var k :| 0 <= k < |rows| && Targets(rows[k], id, caller);
        assert rows[1..][k - 1] == rows[k];
      }
      1 + FirstTarget(rows[1..], id, caller)
  }

  /** `GET /movimentacoes/:id`: the caller's row with that id, or 404 when
      the caller owns none, even if another user's row has that id. */
  function GetMovimentacao(db: Db, caller: int, idParam: string): (r: Reply<Movimentacao>)
    ensures PgInt(idParam).None? ==> r == Err(INTERNAL_ERROR)
    ensures r == Err(NOT_FOUND) <==>
              PgInt(idParam).Some? && !HasTarget(db.movimentacoes, PgInt(idParam).value, caller)
    ensures r.Ok? <==> PgInt(idParam).Some? && HasTarget(db.movimentacoes, PgInt(idParam).value, caller)
    ensures r.Ok? ==>
              r.value in db.movimentacoes && r.value.usuarioId == caller &&
              PgInt(idParam) == Some(r.value.id)
  {
    match PgInt(idParam)
    case None => Err(INTERNAL_ERROR)
    case Some(id) =>
      if !HasTarget(db.movimentacoes, id, caller) then Err(NOT_FOUND)
      else Ok(db.movimentacoes[FirstTarget(db.movimentacoes, id, caller)])
  }

  // ---------------------------------------------------------------------------
  // Listing
  // ---------------------------------------------------------------------------

  /** A row of the listing: the movement left-joined with its category. The
      category id shown is the joined category's, so it is `None` when the
      stored id names no category. */
  datatype ListedRow = ListedRow(
    id: int,
    tipo: string,
    valor: int,
    detalhes: Option<string>,
    data: Date,
    categoriaNome: Option<string>,
    categoriaId: Option<int>)

  /** `LEFT JOIN categorias c ON m.categoria_id = c.id` for one row. The
      first category with that id is taken; `id` is the table's primary key
      (part of `WellFormed`), so it is the only one, as `JoinNamesEveryMatch`
      states. */
  function JoinCategory(cats: seq<Categoria>, m: Movimentacao): (r: ListedRow)
    ensures r.id == m.id && r.tipo == m.tipo && r.valor == m.valor && r.data == m.data
    ensures r.detalhes == m.detalhes
    ensures m.categoriaId.Some? && CategoryById(cats, m.categoriaId.value).Some? ==>
              && r.categoriaId == m.categoriaId
              && r.categoriaNome == Some(CategoryById(cats, m.categoriaId.value).value.nome)
    ensures m.categoriaId.None? || CategoryById(cats, m.categoriaId.value).None? ==>
              r.categoriaId.None? && r.categoriaNome.None?
  {
    var c := if m.categoriaId.Some? then CategoryById(cats, m.categoriaId.value) else None;
    ListedRow(m.id, m.tipo, m.valor, m.detalhes, m.data,
              if c.Some? then Some(c.value.nome) else None,
              if c.Some? then Some(c.value.id) else None)
  }

  function JoinAll(cats: seq<Categoria>, rows: seq<Movimentacao>): (r: seq<ListedRow>)
    ensures |r| == |rows|
    ensures forall k :: 0 <= k < |rows| ==> r[k] == JoinCategory(cats, rows[k])
  {
    seq(|rows|, k requires 0 <= k < |rows| => JoinCategory(cats, rows[k]))
  }

  function DataOf(r: ListedRow): int
  {
    r.data
  }

  /** With unique category ids, the joined name is that of every category
      row the join condition matches. */
  lemma JoinNamesEveryMatch(cats: seq<Categoria>, m: Movimentacao, k: int)
    requires forall i, j :: 0 <= i < j < |cats| ==> cats[i].id != cats[j].id
    requires 0 <= k < |cats| && m.categoriaId == Some(cats[k].id)
    ensures JoinCategory(cats, m).categoriaNome == Some(cats[k].nome)
    ensures JoinCategory(cats, m).categoriaId == Some(cats[k].id)
  {
    CategoryByIdUnique(cats, cats[k].id, k);
  }

  lemma {:induction false} CategoryByIdUnique(cats: seq<Categoria>, id: int, k: int)
    requires forall i, j :: 0 <= i < j < |cats| ==> cats[i].id != cats[j].id
    requires 0 <= k < |cats| && cats[k].id == id
    ensures CategoryById(cats, id) == Some(cats[k])
  {
    if k > 0 {
      assert cats[0].id != cats[k].id;
      CategoryByIdUnique(cats[1..], id, k - 1);
    }
  }

  /** `GET /movimentacoes`: the caller's movements, restricted to the date
      interval only when both bounds are given, newest first. Rows of equal
      date come in no order the query promises; the model keeps table order. */
  function ListMovimentacoes(db: Db, caller: int, dataInicial: Option<Date>, dataFinal: Option<Date>)
    : (r: seq<ListedRow>)
    ensures SortedDesc(r, DataOf)
    ensures multiset(r) ==
              multiset(JoinAll(db.categorias,
                Select(db.movimentacoes, MovFilter(caller, None, None, RangeOf(dataInicial, dataFinal)))))
  {
    var rows := Select(db.movimentacoes, MovFilter(caller, None, None, RangeOf(dataInicial, dataFinal)));
    SortDesc(JoinAll(db.categorias, rows), DataOf)
  }

  // ---------------------------------------------------------------------------
  // Ownership and round trips
  // ---------------------------------------------------------------------------

  /** Neither an update nor a delete by one user alters a row of another
      user, whatever id the path names. */
  lemma {:induction false} OtherUsersRowsUntouched(db: Db, caller: int, idParam: string, b: MovBody, m: Movimentacao)
    requires m in db.movimentacoes && m.usuarioId != caller
    ensures m in UpdateMovimentacao(db, caller, idParam, b).db.movimentacoes
    ensures m in DeleteMovimentacao(db, caller, idParam).db.movimentacoes
  {
    var w := UpdateMovimentacao(db, caller, idParam, b);
    if w.status == OK {
      var k :| 0 <= k < |db.movimentacoes| && db.movimentacoes[k] == m;
      assert w.db.movimentacoes[k] == m;
    }
  }

  /** Reading a movement back after a successful update gives the values the
      update wrote. */
  lemma GetAfterUpdate(db: Db, caller: int, idParam: string, b: MovBody)
    requires WellFormed(db)
    requires UpdateMovimentacao(db, caller, idParam, b).status == OK
    ensures var r := GetMovimentacao(UpdateMovimentacao(db, caller, idParam, b).db, caller, idParam);
            var f := CheckMovBody(b).value;
            && r.Ok?
            && r.value.tipo == f.tipo && r.value.valor == f.valor && r.value.data == f.data
            && r.value.categoriaId == f.categoriaId && r.value.detalhes == f.detalhes
  {
    var id := PgInt(idParam).value;
    var rows := db.movimentacoes;
    var rows' := UpdateMovimentacao(db, caller, idParam, b).db.movimentacoes;
    var k :| 0 <= k < |rows| && Targets(rows[k], id, caller);
    assert Targets(rows'[k], id, caller);
    var r := GetMovimentacao(UpdateMovimentacao(db, caller, idParam, b).db, caller, idParam);
    var j := FirstTarget(rows', id, caller);
    assert rows'[j].id == id;
    assert Targets(rows[j], id, caller);
  }

  /** Once deleted, a movement can no longer be read by its owner. */
  lemma GetAfterDelete(db: Db, caller: int, idParam: string)
    requires DeleteMovimentacao(db, caller, idParam).status == NO_CONTENT
    ensures GetMovimentacao(DeleteMovimentacao(db, caller, idParam).db, caller, idParam) == Err(NOT_FOUND)
  {
  }

  /** An update keeps the tables' integrity: it never changes a row's id. */
  lemma UpdatePreservesWellFormed(db: Db, caller: int, idParam: string, b: MovBody)
    requires WellFormed(db)
    ensures WellFormed(UpdateMovimentacao(db, caller, idParam, b).db)
  {
  }

  /** A delete keeps the tables' integrity. */
  lemma DeletePreservesWellFormed(db: Db, caller: int, idParam: string)
    requires WellFormed(db)
    ensures WellFormed(DeleteMovimentacao(db, caller, idParam).db)
  {
    var w := DeleteMovimentacao(db, caller, idParam);
    if w.status == NO_CONTENT {
      DeleteKeepsUniqueIds(db.movimentacoes, PgInt(idParam).value, caller);
    }
  }

  lemma {:induction false} DeleteKeepsUniqueIds(rows: seq<Movimentacao>, id: int, caller: int)
    requires UniqueMovIds(rows)
    ensures UniqueMovIds(DeleteWhere(rows, id, caller))
  {
    if |rows| > 0 {
      assert rows == [rows[0]] + rows[1..];
      UniqueMovIdsCons(rows[0], rows[1..]);
      DeleteKeepsUniqueIds(rows[1..], id, caller);
      var tail := DeleteWhere(rows[1..], id, caller);
      if !Targets(rows[0], id, caller) {
        UniqueMovIdsCons(rows[0], tail);
      }
    }
  }
}
