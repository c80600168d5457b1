/** What the dashboard page computes from the API's answers before drawing
    them: the income and expense totals of the chart, the progress card of
    each goal and the trend of each category in the comparison. */
module Dashboard {
  import opened Common
  import opened Store
  import opened Ledger
  import opened Reports
  import opened Goals

  // ---------------------------------------------------------------------------
  // Chart totals
  // ---------------------------------------------------------------------------

  /** A movement as the page reads it: its kind and its amount after
      `parseFloat`, `None` standing for `NaN`. Amounts in cents. */
  datatype ClientRow = ClientRow(tipo: string, valor: Option<int>)

  datatype Totals = Totals(entradas: int, gastos: int)

  /** What one row adds to the total of the given kind. */
  function Contribution(r: ClientRow, tipo: string): int
  {
    if r.tipo == tipo && r.valor.Some? then r.valor.value else 0
  }

  /** Reference definition: the parsed amounts of the rows of one kind. */
  function KindTotal(rows: seq<ClientRow>, tipo: string): int
  {
    if |rows| == 0 then 0 else Contribution(rows[0], tipo) + KindTotal(rows[1..], tipo)
  }

  lemma {:induction false} KindTotalAppend(rows: seq<ClientRow>, r: ClientRow, tipo: string)
    ensures KindTotal(rows + [r], tipo) == KindTotal(rows, tipo) + Contribution(r, tipo)
  {
    if |rows| > 0 {
      assert (rows + [r])[1..] == rows[1..] + [r];
      KindTotalAppend(rows[1..], r, tipo);
    }
  }

  /** The totals the doughnut chart shows: one pass over the rows, adding
      each income to one total and each expense to the other; a row whose
      amount does not parse, or of any other kind, adds nothing. */
  method ChartTotals(rows: seq<ClientRow>) returns (t: Totals)
    ensures t.entradas == KindTotal(rows, ENTRADA)
    ensures t.gastos == KindTotal(rows, GASTO)
  {
    var totalEntradas := 0;
    var totalGastos := 0;
    var i := 0;
    while i < |rows|
      invariant 0 <= i <= |rows|
      invariant totalEntradas == KindTotal(rows[..i], ENTRADA)
      invariant totalGastos == KindTotal(rows[..i], GASTO)
    {
      var r := rows[i];
      assert rows[..i + 1] == rows[..i] + [r];
      KindTotalAppend(rows[..i], r, ENTRADA);
      KindTotalAppend(rows[..i], r, GASTO);
      if r.valor.Some? {
        if r.tipo == ENTRADA {
          totalEntradas := totalEntradas + r.valor.value;
        } else if r.tipo == GASTO {
          totalGastos := totalGastos + r.valor.value;
        }
      }
      i := i + 1;
    }
    assert rows[..i] == rows;
    t := Totals(totalEntradas, totalGastos);
  }

  /** A listed row as the page receives it; the stored amount always parses. */
  function AsClient(r: ListedRow): ClientRow
  {
    ClientRow(r.tipo, Some(r.valor))
  }

  function ClientRows(rows: seq<ListedRow>): (r: seq<ClientRow>)
    ensures |r| == |rows|
    ensures forall k :: 0 <= k < |rows| ==> r[k] == AsClient(rows[k])
  {
    seq(|rows|, k requires 0 <= k < |rows| => AsClient(rows[k]))
  }

  lemma {:induction false} KindTotalClientRows(s: seq<ListedRow>, tipo: string, f: ListedRow -> int)
    requires forall r :: f(r) == Contribution(AsClient(r), tipo)
    ensures KindTotal(ClientRows(s), tipo) == SumBy(s, f)
  {
    if |s| > 0 {
      assert ClientRows(s)[1..] == ClientRows(s[1..]);
      KindTotalClientRows(s[1..], tipo, f);
    }
  }

  lemma {:induction false} SumJoinAll(cats: seq<Categoria>, rows: seq<Movimentacao>, caller: int,
                                      range: Option<DateRange>, tipo: string, f: ListedRow -> int)
    requires forall r :: f(r) == Contribution(AsClient(r), tipo)
    requires forall k :: 0 <= k < |rows| ==> Matches(MovFilter(caller, None, None, range), rows[k])
    ensures SumBy(JoinAll(cats, rows), f) == SumValor(Select(rows, KindFilter(caller, tipo, range)))
  {
    if |rows| > 0 {
      assert JoinAll(cats, rows)[1..] == JoinAll(cats, rows[1..]);
      SumJoinAll(cats, rows[1..], caller, range, tipo, f);
    }
  }

  /** Filtering by kind after filtering by owner and date is filtering by all three. */
  lemma {:induction false} SelectByKind(rows: seq<Movimentacao>, caller: int, range: Option<DateRange>, tipo: string)
    ensures Select(Select(rows, MovFilter(caller, None, None, range)), KindFilter(caller, tipo, range)) ==
            Select(rows, KindFilter(caller, tipo, range))
  {
    if |rows| > 0 {
      SelectByKind(rows[1..], caller, range, tipo);
    }
  }

  lemma ChartKindMatchesResumo(db: Db, caller: int, dataInicial: Option<Date>, dataFinal: Option<Date>, tipo: string)
    ensures KindTotal(ClientRows(ListMovimentacoes(db, caller, dataInicial, dataFinal)), tipo) ==
            SumValor(Select(db.movimentacoes, KindFilter(caller, tipo, RangeOf(dataInicial, dataFinal))))
  {
    var range := RangeOf(dataInicial, dataFinal);
    var rows := Select(db.movimentacoes, MovFilter(caller, None, None, range));
    var joined := JoinAll(db.categorias, rows);
    var f: ListedRow -> int := r => Contribution(AsClient(r), tipo);
    KindTotalClientRows(ListMovimentacoes(db, caller, dataInicial, dataFinal), tipo, f);
    SumBySortDesc(joined, DataOf, f);
    SumJoinAll(db.categorias, rows, caller, range, tipo, f);
    SelectByKind(db.movimentacoes, caller, range, tipo);
  }

  /** The chart drawn from the listing agrees with the summary cards for
      the same dates: the page's totals are the server's `entradas` and
      `saidas`, whatever order the listing came in. */
  lemma ChartMatchesResumo(db: Db, caller: int, dataInicial: Option<Date>, dataFinal: Option<Date>)
    ensures var rows := ClientRows(ListMovimentacoes(db, caller, dataInicial, dataFinal));
            var s := Resumo(db, caller, dataInicial, dataFinal);
            KindTotal(rows, ENTRADA) == s.entradas && KindTotal(rows, GASTO) == s.saidas
  {
    ChartKindMatchesResumo(db, caller, dataInicial, dataFinal, ENTRADA);
    ChartKindMatchesResumo(db, caller, dataInicial, dataFinal, GASTO);
  }

  // ---------------------------------------------------------------------------
  // Goal cards
  // ---------------------------------------------------------------------------

  /** `Math.min(100, p)`; the minimum with `NaN` is `NaN`. */
  function Min100(p: Ext): (m: Ext)
    ensures !Above(m, 100.0)
    ensures Above(p, 100.0) ==> m == Finite(100.0)
    ensures !Above(p, 100.0) ==> m == p
  {
    match p
    case Finite(r) => if r > 100.0 then Finite(100.0) else p
    case PosInf => Finite(100.0)
    case NegInf => p
    case NaN => p
  }

  /** Under the bar: what is left of the target, or by how much it was exceeded. */
  datatype Remainder = Resta(amount: int) | Excedida(excess: int)

  datatype GoalCard = GoalCard(shown: Ext, red: bool, remainder: Remainder)

  /** The card of a goal with target `alvo` and current expense `gasto`: the
      bar's width is the progress capped at 100, the colour is red exactly
      when the uncapped progress is above 100, and the text gives the
      remaining amount when it is not negative and the excess otherwise. */
  function RenderMeta(alvo: int, gasto: int): (c: GoalCard)
    ensures !Above(c.shown, 100.0)
    ensures Above(Percent(gasto, alvo), 100.0) ==> c.shown == Finite(100.0)
    ensures !Above(Percent(gasto, alvo), 100.0) ==> c.shown == Percent(gasto, alvo)
    ensures c.red <==> Above(Percent(gasto, alvo), 100.0)
    ensures c.remainder.Resta? <==> gasto <= alvo
    ensures c.remainder.Resta? ==> c.remainder.amount == alvo - gasto >= 0
    ensures c.remainder.Excedida? ==> c.remainder.excess == gasto - alvo > 0
  {
    var progresso := Percent(gasto, alvo);
    var saldoRestante := alvo - gasto;
    GoalCard(Min100(progresso), Above(progresso, 100.0),
             if saldoRestante >= 0 then Resta(saldoRestante) else Excedida(-saldoRestante))
  }

  /** For a positive target, more than 100 percent means more spent than the target. */
  lemma AboveHundredIffExceeded(gasto: int, alvo: int)
    requires alvo > 0
    ensures Above(Percent(gasto, alvo), 100.0) <==> gasto > alvo
  {
    var q := gasto as real / alvo as real;
    assert q * alvo as real == gasto as real;
    if q * 100.0 > 100.0 {
      assert q > 1.0;
      assert q * alvo as real > alvo as real;
    }
    if gasto > alvo {
      assert q * alvo as real > 1.0 * alvo as real;
      assert q > 1.0;
    }
  }

  /** The card the page draws for a line of `GET /metas/status` agrees with
      the line: red and "exceeded" exactly when the server reports the goal
      as exceeded (for a positive target). */
  lemma CardMatchesStatus(db: Db, g: Meta, s: GoalStatus)
    requires DescribesGoal(db, g, s)
    requires s.valor > 0
    ensures RenderMeta(s.valor, s.gastoAtual).red <==> s.ultrapassada
    ensures RenderMeta(s.valor, s.gastoAtual).remainder.Excedida? <==> s.ultrapassada
  {
    AboveHundredIffExceeded(s.gastoAtual, s.valor);
  }

  // ---------------------------------------------------------------------------
  // Comparison cards
  // ---------------------------------------------------------------------------

  datatype Trend = Piorou | Melhorou | Neutro

  /** A growth above half a percent is worse, below minus half a percent is
      better, anything else counts as unchanged. */
  function Classify(crescimento: real): (t: Trend)
    ensures t == Piorou <==> crescimento > 0.5
    ensures t == Melhorou <==> crescimento < -0.5
    ensures t == Neutro <==> -0.5 <= crescimento <= 0.5
  {
    if crescimento > 0.5 then Piorou
    else if crescimento < -0.5 then Melhorou
    else Neutro
  }

  datatype ComparisonCard = ComparisonCard(categoriaNome: string, gastoM1: int, gastoM0: int, trend: Trend)

  /** What the comparison panel shows: an information message for an empty
      list, otherwise one card per line in the order received. */
  datatype ComparisonView = NothingToCompare | Cards(cards: seq<ComparisonCard>)

  function RenderComparativo(items: seq<Comparison>): (v: ComparisonView)
    ensures v.NothingToCompare? <==> |items| == 0
    ensures v.Cards? ==> |v.cards| == |items|
    ensures v.Cards? ==> forall k :: 0 <= k < |items| ==>
              && v.cards[k].categoriaNome == items[k].categoriaNome
              && v.cards[k].gastoM1 == items[k].gastoM1
              && v.cards[k].gastoM0 == items[k].gastoM0
              && v.cards[k].trend == Classify(items[k].crescimento)
  {
    if |items| == 0 then NothingToCompare
    else
      Cards(seq(|items|, k requires 0 <= k < |items| =>
        ComparisonCard(items[k].categoriaNome, items[k].gastoM1, items[k].gastoM0, Classify(items[k].crescimento))))
  }

  /** The trend of a category in terms of the two monthly expenses, in
      cents: worse when this month exceeds last month by more than half a
      percent, better when it falls short by more than that; a category
      with no expense last month is worse as soon as anything was spent. */
  lemma TrendOfExpenses(m1: int, m0: int)
    ensures m0 > 0 ==> (Classify(Growth(m1, m0)) == Piorou <==> 200 * m1 > 201 * m0)
    ensures m0 > 0 ==> (Classify(Growth(m1, m0)) == Melhorou <==> 200 * m1 < 199 * m0)
    ensures m0 <= 0 ==> (Classify(Growth(m1, m0)) == Piorou <==> m1 > 0)
    ensures m0 <= 0 ==> Classify(Growth(m1, m0)) != Melhorou
  {
    if m0 > 0 {
      GrowthThresholds(m1, m0);
    }
  }

  /** Half a percent of growth, stated on whole cents. */
  lemma GrowthThresholds(m1: int, m0: int)
    requires m0 > 0
    ensures Growth(m1, m0) > 0.5 <==> 200 * m1 > 201 * m0
    ensures Growth(m1, m0) < -0.5 <==> 200 * m1 < 199 * m0
  {
    var d := (m1 - m0) as real;
    var b := m0 as real;
    var q := d / b;
    assert q * b == d;
    var g := q * 100.0;
    assert g == Growth(m1, m0);
    assert g * b == (q * b) * 100.0;
    HalfPercent(d, b, g);
    assert 200.0 * d - b == (200 * m1 - 201 * m0) as real;
    assert -200.0 * d - b == (199 * m0 - 200 * m1) as real;
  }

  lemma HalfPercent(d: real, b: real, g: real)
    requires b > 0.0
    requires g * b == d * 100.0
    ensures g > 0.5 <==> 200.0 * d > b
    ensures g < -0.5 <==> -200.0 * d > b
  {
    ScaleByPositive(g, 0.5, b);
    ScaleByPositive(-0.5, g, b);
  }

  lemma ScaleByPositive(x: real, y: real, b: real)
    requires b > 0.0
    ensures x > y <==> x * b > y * b
  {
    assert x * b - y * b == (x - y) * b;
  }

  /** The panel is empty exactly when the server found no expense group in
      either month; otherwise its first card is the category spending most
      this month. */
  lemma ComparisonPanel(db: Db, caller: int, mesAtual: DateRange, mesAnterior: DateRange)
    ensures var items := Comparativo(db, caller, mesAtual, mesAnterior);
            var v := RenderComparativo(items);
            && (v.NothingToCompare? <==>
                  Keys(MonthExpenses(db, caller, mesAtual)) == {} && Keys(MonthExpenses(db, caller, mesAnterior)) == {})
            && (v.Cards? ==> forall k :: 0 <= k < |v.cards| ==> v.cards[k].gastoM1 <= v.cards[0].gastoM1)
  {
    var items := Comparativo(db, caller, mesAtual, mesAnterior);
    ComparativoEmptyIffNoExpense(db, caller, mesAtual, mesAnterior);
    var v := RenderComparativo(items);
    if v.Cards? {
      forall k | 0 <= k < |v.cards| ensures v.cards[k].gastoM1 <= v.cards[0].gastoM1 {
        if k > 0 {
          assert GastoM1Of(items[0]) >= GastoM1Of(items[k]);
        }
      }
    }
  }
}
