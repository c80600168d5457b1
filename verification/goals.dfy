/** The goal routes: `POST /metas` (create or update the caller's goal for a
    category), `GET /metas/status` (each goal against the caller's accumulated
    expense in its category) and `DELETE /metas/:id`. */
module Goals {
  import opened Common
  import opened Text
  import opened Store

  /** Body of `POST /metas`; falsy values are `None` or `Some(0)`. */
  datatype MetaBody = MetaBody(categoriaId: Option<int>, valor: Option<int>)

  predicate GoalOf(g: Meta, caller: int, categoria: int)
  {
    g.usuarioId == caller && g.categoriaId == categoria
  }

  /** The caller's goals for one category (the `SELECT` before the upsert). */
  function GoalsFor(metas: seq<Meta>, caller: int, categoria: int): (r: seq<Meta>)
    ensures |r| <= |metas|
    ensures forall g :: g in r <==> g in metas && GoalOf(g, caller, categoria)
  {
    if |metas| == 0 then []
    else if GoalOf(metas[0], caller, categoria) then [metas[0]] + GoalsFor(metas[1..], caller, categoria)
    else GoalsFor(metas[1..], caller, categoria)
  }

  /** `UPDATE metas SET valor = $1 WHERE id = $2`. */
  function SetValor(metas: seq<Meta>, id: int, valor: int): (r: seq<Meta>)
    ensures |r| == |metas|
    ensures forall k :: 0 <= k < |metas| ==>
              r[k] == if metas[k].id == id then metas[k].(valor := valor) else metas[k]
  {
    seq(|metas|, k requires 0 <= k < |metas| =>
      if metas[k].id == id then metas[k].(valor := valor) else metas[k])
  }

  /** `POST /metas`: 400 without a truthy category and a truthy amount (so
      an amount of 0 is refused). When the caller already has a goal for the
      category only its amount changes (200); otherwise one goal is added
      with the next serial id (201). No other table changes. */
  function UpsertMeta(db: Db, caller: int, b: MetaBody): (w: Write)
    ensures !TruthyNumber(b.categoriaId) || !TruthyNumber(b.valor) ==> w == Write(BAD_REQUEST, db)
    ensures TruthyNumber(b.categoriaId) && TruthyNumber(b.valor) ==>
              var existing := GoalsFor(db.metas, caller, b.categoriaId.value);
              && w.db == db.(metas := w.db.metas, nextMetaId := w.db.nextMetaId)
              && (|existing| > 0 ==>
                    && w.status == OK
                    && w.db.nextMetaId == db.nextMetaId
                    && |w.db.metas| == |db.metas|
                    && forall k :: 0 <= k < |db.metas| ==>
                         w.db.metas[k] == if db.metas[k].id == existing[0].id
                                          then db.metas[k].(valor := b.valor.value) else db.metas[k])
              && (|existing| == 0 ==>
                    && w.status == CREATED
                    && w.db.metas == db.metas + [Meta(db.nextMetaId, caller, b.categoriaId.value, b.valor.value)]
                    && w.db.nextMetaId == db.nextMetaId + 1)
  {
    if !TruthyNumber(b.categoriaId) || !TruthyNumber(b.valor) then Write(BAD_REQUEST, db)
    else
      var categoria := b.categoriaId.value;
      var existing := GoalsFor(db.metas, caller, categoria);
      if |existing| > 0 then
        Write(OK, db.(metas := SetValor(db.metas, existing[0].id, b.valor.value)))
      else
        Write(CREATED, db.(metas := db.metas + [Meta(db.nextMetaId, caller, categoria, b.valor.value)],
                           nextMetaId := db.nextMetaId + 1))
  }

  /** The upsert keeps the tables well formed, in particular at most one goal
      per user and category. */
  lemma UpsertPreservesWellFormed(db: Db, caller: int, b: MetaBody)
    requires WellFormed(db)
    ensures WellFormed(UpsertMeta(db, caller, b).db)
  {
    var w := UpsertMeta(db, caller, b);
    if TruthyNumber(b.categoriaId) && TruthyNumber(b.valor) {
      var categoria := b.categoriaId.value;
      var existing := GoalsFor(db.metas, caller, categoria);
      if |existing| == 0 {
        var g := Meta(db.nextMetaId, caller, categoria, b.valor.value);
        var m' := w.db.metas;
        forall i, j | 0 <= i < j < |m'|
          ensures (m'[i].usuarioId, m'[i].categoriaId) != (m'[j].usuarioId, m'[j].categoriaId)
          ensures m'[i].id != m'[j].id
        {
          if j == |db.metas| {
            assert m'[j] == g && m'[i] == db.metas[i];
            assert db.metas[i] !in existing;
          }
        }
      }
    }
  }

  /** Upserting twice on one category leaves exactly one goal for it, with
      the second amount. */
  lemma UpsertTwiceKeepsLatest(db: Db, caller: int, categoria: int, v1: int, v2: int)
    requires WellFormed(db)
    requires categoria != 0 && v1 != 0 && v2 != 0
    ensures var db1 := UpsertMeta(db, caller, MetaBody(Some(categoria), Some(v1))).db;
            var db2 := UpsertMeta(db1, caller, MetaBody(Some(categoria), Some(v2))).db;
            |GoalsFor(db2.metas, caller, categoria)| == 1 &&
            GoalsFor(db2.metas, caller, categoria)[0].valor == v2
  {
    var b1 := MetaBody(Some(categoria), Some(v1));
    var b2 := MetaBody(Some(categoria), Some(v2));
    UpsertPreservesWellFormed(db, caller, b1);
    var db1 := UpsertMeta(db, caller, b1).db;
    var existing := GoalsFor(db1.metas, caller, categoria);
    assert |existing| > 0 by {
      var e0 := GoalsFor(db.metas, caller, categoria);
      if |e0| > 0 {
        assert e0[0] in e0;
        var k :| 0 <= k < |db.metas| && db.metas[k] == e0[0];
        assert GoalOf(db1.metas[k], caller, categoria);
        assert db1.metas[k] in existing;
      } else {
        assert db1.metas[|db.metas|] in existing;
      }
    }
    var db2 := UpsertMeta(db1, caller, b2).db;
    UpsertPreservesWellFormed(db1, caller, b2);
    var target := existing[0];
    assert target in existing;
    var t :| 0 <= t < |db1.metas| && db1.metas[t] == target;
    assert db2.metas[t] == target.(valor := v2);
    OnlyGoalFor(db2.metas, caller, categoria, t);
  }

  /** In a table with one goal per user and category, a goal of the caller
      for the category is the only one `GoalsFor` finds. */
  lemma {:induction false} OnlyGoalFor(metas: seq<Meta>, caller: int, categoria: int, t: int)
    requires OneGoalPerCategory(metas)
    requires 0 <= t < |metas| && GoalOf(metas[t], caller, categoria)
    ensures GoalsFor(metas, caller, categoria) == [metas[t]]
  {
    assert OneGoalPerCategory(metas[1..]) by {
      forall i, j | 0 <= i < j < |metas[1..]|
        ensures (metas[1..][i].usuarioId, metas[1..][i].categoriaId) != (metas[1..][j].usuarioId, metas[1..][j].categoriaId)
      {
        assert metas[1..][i] == metas[i + 1] && metas[1..][j] == metas[j + 1];
      }
    }
    if t == 0 {
      NoGoalFor(metas[1..], caller, categoria, metas);
    } else {
      assert !GoalOf(metas[0], caller, categoria) by {
        assert (metas[0].usuarioId, metas[0].categoriaId) != (metas[t].usuarioId, metas[t].categoriaId);
      }
      OnlyGoalFor(metas[1..], caller, categoria, t - 1);
    }
  }

  lemma NoGoalFor(tail: seq<Meta>, caller: int, categoria: int, metas: seq<Meta>)
    requires |metas| > 0 && tail == metas[1..] && OneGoalPerCategory(metas)
    requires GoalOf(metas[0], caller, categoria)
    ensures GoalsFor(tail, caller, categoria) == []
  {
    forall g | g in tail ensures !GoalOf(g, caller, categoria) {
      var k :| 0 <= k < |tail| && tail[k] == g;
      assert metas[k + 1] == g;
    }
    GoalsForNone(tail, caller, categoria);
  }

  lemma {:induction false} GoalsForNone(metas: seq<Meta>, caller: int, categoria: int)
    requires forall g :: g in metas ==> !GoalOf(g, caller, categoria)
    ensures GoalsFor(metas, caller, categoria) == []
  {
    if |metas| > 0 {
      assert metas[0] in metas;
      GoalsForNone(metas[1..], caller, categoria);
    }
  }

  // ---------------------------------------------------------------------------
  // Status
  // ---------------------------------------------------------------------------

  /** One line of `GET /metas/status`. Amounts in cents. */
  datatype GoalStatus = GoalStatus(
    id: int,
    categoriaNome: string,
    valor: int,
    gastoAtual: int,
    progresso: Ext,
    ultrapassada: bool)

  /** All-time expense of a user in a category: the left join of the status
      query, summing only `gasto` rows. */
  function Spent(db: Db, caller: int, categoria: int): int
  {
    SumValor(Select(db.movimentacoes, MovFilter(caller, Some(GASTO), Some(categoria), None)))
  }

  /** The status line the query and the mapping compute for one goal. */
  predicate DescribesGoal(db: Db, g: Meta, s: GoalStatus)
  {
    && CategoryById(db.categorias, g.categoriaId).Some?
    && s.id == g.id
    && s.categoriaNome == CategoryById(db.categorias, g.categoriaId).value.nome
    && s.valor == g.valor
    && s.gastoAtual == Spent(db, g.usuarioId, g.categoriaId)
    && s.progresso == Percent(s.gastoAtual, s.valor)
    && (s.ultrapassada <==> s.gastoAtual > s.valor)
  }

  /** The goals the status query returns: the caller's, joined with an
      existing category. */
  function Listed(db: Db, metas: seq<Meta>, caller: int): (r: seq<Meta>)
    ensures forall g :: g in r <==>
              g in metas && g.usuarioId == caller && CategoryById(db.categorias, g.categoriaId).Some?
  {
    if |metas| == 0 then []
    else if metas[0].usuarioId == caller && CategoryById(db.categorias, metas[0].categoriaId).Some?
    then [metas[0]] + Listed(db, metas[1..], caller)
    else Listed(db, metas[1..], caller)
  }

  /** The status line of one listed goal. */
  function Describe(db: Db, g: Meta): (s: GoalStatus)
    requires CategoryById(db.categorias, g.categoriaId).Some?
    ensures DescribesGoal(db, g, s)
  {
    var spent := Spent(db, g.usuarioId, g.categoriaId);
    GoalStatus(g.id, CategoryById(db.categorias, g.categoriaId).value.nome, g.valor, spent,
               Percent(spent, g.valor), spent > g.valor)
  }

  /** `GET /metas/status`: one status line per listed goal, in the order
      the goals are stored. */
  function MetasStatus(db: Db, caller: int): (r: seq<GoalStatus>)
    ensures |r| == |Listed(db, db.metas, caller)|
    ensures forall k :: 0 <= k < |r| ==> DescribesGoal(db, Listed(db, db.metas, caller)[k], r[k])
  {
    var goals := Listed(db, db.metas, caller);
    seq(|goals|, k requires 0 <= k < |goals| => Describe(db, goals[k]))
  }

  /** `s` is the status line of one of the caller's goals. */
  predicate LineOfCaller(db: Db, caller: int, s: GoalStatus)
  {
    exists g :: g in db.metas && g.usuarioId == caller && DescribesGoal(db, g, s)
  }

  /** Some line of `r` is the status line of `g`. */
  predicate HasLine(db: Db, r: seq<GoalStatus>, g: Meta)
  {
    exists k :: 0 <= k < |r| && DescribesGoal(db, g, r[k])
  }

  /** The status lines are exactly the caller's goals whose category exists:
      every line describes one of the caller's goals, and every such goal has
      a line carrying its amount, the caller's all-time expense in the
      category, the progress in percent and whether the expense is above the
      amount. */
  lemma MetasStatusExactlyCallerGoals(db: Db, caller: int, r: seq<GoalStatus>)
    requires r == MetasStatus(db, caller)
    ensures forall k :: 0 <= k < |r| ==> LineOfCaller(db, caller, r[k])
    ensures forall g :: (g in db.metas && g.usuarioId == caller &&
              CategoryById(db.categorias, g.categoriaId).Some?) ==> HasLine(db, r, g)
  {
    var goals := Listed(db, db.metas, caller);
    forall k | 0 <= k < |r| ensures LineOfCaller(db, caller, r[k]) {
      assert goals[k] in goals;
      assert DescribesGoal(db, goals[k], r[k]);
    }
    forall g | g in db.metas && g.usuarioId == caller && CategoryById(db.categorias, g.categoriaId).Some?
      ensures HasLine(db, r, g)
    {
      assert g in goals;
      var k :| 0 <= k < |goals| && goals[k] == g;
      assert DescribesGoal(db, g, r[k]);
    }
  }

  // ---------------------------------------------------------------------------
  // Delete
  // ---------------------------------------------------------------------------

  predicate Owned(g: Meta, id: int, caller: int)
  {
    g.id == id && g.usuarioId == caller
  }

  function RemoveOwned(metas: seq<Meta>, id: int, caller: int): (r: seq<Meta>)
    ensures |r| <= |metas|
    ensures forall g :: g in r <==> g in metas && !Owned(g, id, caller)
    ensures (forall g :: g in metas ==> !Owned(g, id, caller)) ==> r == metas
  {
    if |metas| == 0 then []
    else if Owned(metas[0], id, caller) then RemoveOwned(metas[1..], id, caller)
    else [metas[0]] + RemoveOwned(metas[1..], id, caller)
  }

  /** `DELETE /metas/:id`: removes exactly the caller's goal with that id
      (200); 404 and no change when the caller has none, even if another
      user's goal has that id. */
  function DeleteMeta(db: Db, caller: int, idParam: string): (w: Write)
    ensures PgInt(idParam).None? ==> w == Write(INTERNAL_ERROR, db)
    ensures PgInt(idParam).Some? && (forall g :: g in db.metas ==> !Owned(g, PgInt(idParam).value, caller)) ==>
              w == Write(NOT_FOUND, db)
    ensures w.status == OK <==>
              PgInt(idParam).Some? && exists g :: g in db.metas && Owned(g, PgInt(idParam).value, caller)
    ensures w.status != OK ==> w.db == db
    ensures w.status == OK ==>
              && w.db == db.(metas := w.db.metas)
              && forall g :: g in w.db.metas <==> g in db.metas && !Owned(g, PgInt(idParam).value, caller)
  {
    match PgInt(idParam)
    case None => Write(INTERNAL_ERROR, db)
    case Some(id) =>
      if forall g :: g in db.metas ==> !Owned(g, id, caller) then Write(NOT_FOUND, db)
      else Write(OK, db.(metas := RemoveOwned(db.metas, id, caller)))
  }

  /** After a delete, no status line shows the deleted goal. */
  lemma StatusAfterDelete(db: Db, caller: int, idParam: string)
    requires WellFormed(db)
    requires DeleteMeta(db, caller, idParam).status == OK
    ensures forall s :: s in MetasStatus(DeleteMeta(db, caller, idParam).db, caller) ==>
              s.id != PgInt(idParam).value
  {
    var db' := DeleteMeta(db, caller, idParam).db;
    var r := MetasStatus(db', caller);
    MetasStatusExactlyCallerGoals(db', caller, r);
    forall s | s in r ensures s.id != PgInt(idParam).value {
      var k :| 0 <= k < |r| && r[k] == s;
      assert LineOfCaller(db', caller, r[k]);
      var g :| g in db'.metas && g.usuarioId == caller && DescribesGoal(db', g, r[k]);
    }
  }
  /** Deleting a goal keeps the tables well formed. */
  lemma DeleteMetaPreservesWellFormed(db: Db, caller: int, idParam: string)
    requires WellFormed(db)
    ensures WellFormed(DeleteMeta(db, caller, idParam).db)
  {
    var w := DeleteMeta(db, caller, idParam);
    if w.status == OK {
      RemoveOwnedKeepsKeys(db.metas, PgInt(idParam).value, caller);
      forall i | 0 <= i < |w.db.metas| ensures w.db.metas[i].id < w.db.nextMetaId {
        assert w.db.metas[i] in db.metas;
      }
    }
  }

  lemma {:induction false} RemoveOwnedKeepsKeys(rows: seq<Meta>, id: int, caller: int)
    requires GoalsKeyed(rows)
    ensures GoalsKeyed(RemoveOwned(rows, id, caller))
  {
    if |rows| > 0 {
      var x, rest := rows[0], rows[1..];
      assert rows == [x] + rest;
      GoalsKeyedCons(x, rest);
      RemoveOwnedKeepsKeys(rest, id, caller);
      var tail := RemoveOwned(rest, id, caller);
      if !Owned(x, id, caller) {
        assert RemoveOwned(rows, id, caller) == [x] + tail;
        GoalsKeyedCons(x, tail);
      } else {
        assert RemoveOwned(rows, id, caller) == tail;
      }
    }
  }
}
