/** The database the API runs against, as four in-memory tables, together
    with the row filters its `WHERE` clauses express and the sums its
    aggregate queries compute. */
module Store {
  import opened Common

  /** The two kinds of movement the application knows. The `tipo` column is
      free text: an update stores whatever non-empty kind the client sends. */
  const ENTRADA: string := "entrada"
  const GASTO: string := "gasto"

  /** Row of `usuarios`. The password hash is left out. */
  datatype Usuario = Usuario(id: int, nome: string, email: string, isAdmin: bool)

  /** Row of `categorias`; `usuarioId` is `None` for a category shared by all users. */
  datatype Categoria = Categoria(id: int, nome: string, usuarioId: Option<int>)

  /** Row of `movimentacoes`. Amounts are in cents. */
  datatype Movimentacao = Movimentacao(
    id: int,
    usuarioId: int,
    tipo: string,
    valor: int,
    detalhes: Option<string>,
    categoriaId: Option<int>,
    data: Date)

  /** Row of `metas`: a standing spending target for one user and one category. */
  datatype Meta = Meta(id: int, usuarioId: int, categoriaId: int, valor: int)

  /** The whole database; `nextMetaId` is the serial sequence behind `metas.id`. */
  datatype Db = Db(
    usuarios: seq<Usuario>,
    categorias: seq<Categoria>,
    movimentacoes: seq<Movimentacao>,
    metas: seq<Meta>,
    nextMetaId: int)

  /** Outcome of a request that may write: the status answered and the
      database afterwards. */
  datatype Write = Write(status: int, db: Db)

  // ---------------------------------------------------------------------------
  // Integrity of the tables
  // ---------------------------------------------------------------------------

  /** Primary keys are unique, every goal id was drawn from the sequence, and
      no user has two goals for one category. */
  ghost predicate WellFormed(db: Db)
  {
    && UniqueUserIds(db.usuarios)
    && (forall i, j :: 0 <= i < j < |db.categorias| ==> db.categorias[i].id != db.categorias[j].id)
    && UniqueMovIds(db.movimentacoes)
    && GoalsKeyed(db.metas)
    && (forall i :: 0 <= i < |db.metas| ==> db.metas[i].id < db.nextMetaId)
  }

  ghost predicate UniqueUserIds(rows: seq<Usuario>)
  {
    forall i, j :: 0 <= i < j < |rows| ==> rows[i].id != rows[j].id
  }

  /** Prepending a user keeps ids unique exactly when its id is new. */
  lemma UniqueUserIdsCons(x: Usuario, tail: seq<Usuario>)
    ensures UniqueUserIds([x] + tail) <==> UniqueUserIds(tail) && forall u :: u in tail ==> u.id != x.id
  {
    var r := [x] + tail;
    if UniqueUserIds(tail) && forall u :: u in tail ==> u.id != x.id {
      forall i, j | 0 <= i < j < |r| ensures r[i].id != r[j].id {
        assert r[j] == tail[j - 1];
        if i > 0 {
          assert r[i] == tail[i - 1];
        } else {
          assert tail[j - 1] in tail;
        }
      }
    }
    if UniqueUserIds(r) {
      forall i, j | 0 <= i < j < |tail| ensures tail[i].id != tail[j].id {
        assert tail[i] == r[i + 1] && tail[j] == r[j + 1];
      }
      forall u | u in tail ensures u.id != x.id {
        var k :| 0 <= k < |tail| && tail[k] == u;
        assert r[0] == x && r[k + 1] == u;
      }
    }
  }

  ghost predicate UniqueMovIds(rows: seq<Movimentacao>)
  {
    forall i, j :: 0 <= i < j < |rows| ==> rows[i].id != rows[j].id
  }

  /** Prepending a row keeps ids unique exactly when its id is new. */
  lemma UniqueMovIdsCons(x: Movimentacao, tail: seq<Movimentacao>)
    ensures UniqueMovIds([x] + tail) <==> UniqueMovIds(tail) && forall m :: m in tail ==> m.id != x.id
  {
    var r := [x] + tail;
    if UniqueMovIds(tail) && forall m :: m in tail ==> m.id != x.id {
      forall i, j | 0 <= i < j < |r| ensures r[i].id != r[j].id {
        assert r[j] == tail[j - 1];
        if i > 0 {
          assert r[i] == tail[i - 1];
        } else {
          assert tail[j - 1] in tail;
        }
      }
    }
    if UniqueMovIds(r) {
      forall i, j | 0 <= i < j < |tail| ensures tail[i].id != tail[j].id {
        assert tail[i] == r[i + 1] && tail[j] == r[j + 1];
      }
      forall m | m in tail ensures m.id != x.id {
        var k :| 0 <= k < |tail| && tail[k] == m;
        assert r[0] == x && r[k + 1] == m;
      }
    }
  }

  /** At most one goal for each (user, category) pair. */
  ghost predicate OneGoalPerCategory(metas: seq<Meta>)
  {
    forall i, j :: 0 <= i < j < |metas| ==>
      (metas[i].usuarioId, metas[i].categoriaId) != (metas[j].usuarioId, metas[j].categoriaId)
  }

  /** Two goals clash when they share an id or a (user, category) pair. */
  predicate DistinctGoals(a: Meta, b: Meta)
  {
    a.id != b.id && (a.usuarioId, a.categoriaId) != (b.usuarioId, b.categoriaId)
  }

  /** The two keys of `metas`: the primary key and the unique
      (usuario_id, categoria_id) pair. */
  ghost predicate GoalsKeyed(metas: seq<Meta>)
  {
    && (forall i, j :: 0 <= i < j < |metas| ==> metas[i].id != metas[j].id)
    && OneGoalPerCategory(metas)
  }

  /** Prepending a goal keeps both keys exactly when it clashes with no
      goal of the tail. */
  lemma GoalsKeyedCons(x: Meta, tail: seq<Meta>)
    ensures GoalsKeyed([x] + tail) <==> GoalsKeyed(tail) && forall g :: g in tail ==> DistinctGoals(x, g)
  {
    var r := [x] + tail;
    if GoalsKeyed(tail) && forall g :: g in tail ==> DistinctGoals(x, g) {
      forall i, j | 0 <= i < j < |r| ensures DistinctGoals(r[i], r[j]) {
        assert r[j] == tail[j - 1];
        if i > 0 {
          assert r[i] == tail[i - 1];
        } else {
          assert tail[j - 1] in tail;
        }
      }
    }
    if GoalsKeyed(r) {
      forall i, j | 0 <= i < j < |tail| ensures DistinctGoals(tail[i], tail[j]) {
        assert tail[i] == r[i + 1] && tail[j] == r[j + 1];
      }
      forall g | g in tail ensures DistinctGoals(x, g) {
        var k :| 0 <= k < |tail| && tail[k] == g;
        assert r[0] == x && r[k + 1] == g;
      }
    }
  }

  // ---------------------------------------------------------------------------
  // WHERE clauses over movimentacoes
  // ---------------------------------------------------------------------------

  /** Inclusive date interval, the meaning of SQL `data BETWEEN from AND to`. */
  datatype DateRange = DateRange(from: Date, to: Date)

  predicate InRange(d: Date, range: Option<DateRange>)
  {
    range.None? || range.value.from <= d <= range.value.to
  }

  /** The date filter of the listing and of the summary: it applies only when
      both bounds were sent; a lone bound is ignored. */
  function RangeOf(dataInicial: Option<Date>, dataFinal: Option<Date>): (r: Option<DateRange>)
    ensures r.Some? <==> dataInicial.Some? && dataFinal.Some?
    ensures r.Some? ==> r.value.from == dataInicial.value && r.value.to == dataFinal.value
  {
    if dataInicial.Some? && dataFinal.Some? then Some(DateRange(dataInicial.value, dataFinal.value))
    else None
  }

  /** Conjunction of the conditions the queries put on a movement: its owner,
      optionally its kind, its category and its date. */
  datatype MovFilter = MovFilter(
    usuario: int,
    tipo: Option<string>,
    categoria: Option<int>,
    range: Option<DateRange>)

  predicate Matches(f: MovFilter, m: Movimentacao)
  {
    && m.usuarioId == f.usuario
    && (f.tipo.None? || m.tipo == f.tipo.value)
    && (f.categoria.None? || m.categoriaId == Some(f.categoria.value))
    && InRange(m.data, f.range)
  }

  /** The rows a `WHERE` clause keeps, in table order. */
  function Select(rows: seq<Movimentacao>, f: MovFilter): (r: seq<Movimentacao>)
    ensures |r| <= |rows|
    ensures forall m :: m in r <==> m in rows && Matches(f, m)
    ensures forall k :: 0 <= k < |r| ==> Matches(f, r[k])
  {
    if |rows| == 0 then []
    else if Matches(f, rows[0]) then [rows[0]] + Select(rows[1..], f)
    else Select(rows[1..], f)
  }

  /** A `WHERE` clause keeps each matching row as many times as the table
      holds it, and no other row. */
  lemma {:induction false} SelectKeepsMultiplicity(rows: seq<Movimentacao>, f: MovFilter)
    ensures forall m :: multiset(Select(rows, f))[m] == if Matches(f, m) then multiset(rows)[m] else 0
  {
    if |rows| > 0 {
      assert rows == [rows[0]] + rows[1..];
      SelectKeepsMultiplicity(rows[1..], f);
    }
  }

  lemma {:induction false} SelectAppend(a: seq<Movimentacao>, b: seq<Movimentacao>, f: MovFilter)
    ensures Select(a + b, f) == Select(a, f) + Select(b, f)
  {
    if |a| > 0 {
      assert (a + b)[1..] == a[1..] + b;
      SelectAppend(a[1..], b, f);
    } else {
      assert a + b == b;
    }
  }

  /** Rows of other users never pass a filter for the caller. */
  lemma {:induction false} SelectOthersEmpty(rows: seq<Movimentacao>, f: MovFilter)
    requires forall k :: 0 <= k < |rows| ==> rows[k].usuarioId != f.usuario
    ensures Select(rows, f) == []
  {
    if |rows| > 0 {
      SelectOthersEmpty(rows[1..], f);
    }
  }

  function ValorOf(m: Movimentacao): int
  {
    m.valor
  }

  /** `COALESCE(SUM(valor), 0)` over the given rows. */
  function SumValor(rows: seq<Movimentacao>): int
  {
    SumBy(rows, ValorOf)
  }

  /** The sum over a selection, one row at a time. */
  lemma SumValorSelectCons(rows: seq<Movimentacao>, f: MovFilter)
    requires |rows| > 0
    ensures SumValor(Select(rows, f)) ==
            (if Matches(f, rows[0]) then rows[0].valor else 0) + SumValor(Select(rows[1..], f))
  {
    if Matches(f, rows[0]) {
      assert ([rows[0]] + Select(rows[1..], f))[1..] == Select(rows[1..], f);
    }
  }

  // ---------------------------------------------------------------------------
  // Joins with categorias
  // ---------------------------------------------------------------------------

  /** The category row a foreign key points to, if any (the first, the key
      being unique). */
  function CategoryById(cats: seq<Categoria>, id: int): (r: Option<Categoria>)
    ensures r.Some? ==> r.value in cats && r.value.id == id
    ensures r.None? ==> forall k :: 0 <= k < |cats| ==> cats[k].id != id
  {
    if |cats| == 0 then None
    else if cats[0].id == id then Some(cats[0])
    else CategoryById(cats[1..], id)
  }
}
