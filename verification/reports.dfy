/** The reporting routes: `GET /resumo` (income, expense and balance of the
    caller, optionally within a date interval) and `GET /resumo/comparativo`
    (expense per category in the current month against the previous one). */
module Reports {
  import opened Common
  import opened Store

  // ---------------------------------------------------------------------------
  // Summary
  // ---------------------------------------------------------------------------

  datatype Summary = Summary(entradas: int, saidas: int, saldo: int)

  function KindFilter(caller: int, tipo: string, range: Option<DateRange>): MovFilter
  {
    MovFilter(caller, Some(tipo), None, range)
  }

  /** `GET /resumo`: total income and total expense of the caller's
      movements, within the interval only when both bounds are given, and the
      balance between them. */
  function Resumo(db: Db, caller: int, dataInicial: Option<Date>, dataFinal: Option<Date>): (s: Summary)
    ensures s.entradas == SumValor(Select(db.movimentacoes, KindFilter(caller, ENTRADA, RangeOf(dataInicial, dataFinal))))
    ensures s.saidas == SumValor(Select(db.movimentacoes, KindFilter(caller, GASTO, RangeOf(dataInicial, dataFinal))))
    ensures s.saldo == s.entradas - s.saidas
  {
    var range := RangeOf(dataInicial, dataFinal);
    var entradas := SumValor(Select(db.movimentacoes, KindFilter(caller, ENTRADA, range)));
    var saidas := SumValor(Select(db.movimentacoes, KindFilter(caller, GASTO, range)));
    Summary(entradas, saidas, entradas - saidas)
  }

  /** A single date bound is ignored: the summary is the all-time one. */
  lemma ResumoIgnoresLoneBound(db: Db, caller: int, d: Date)
    ensures Resumo(db, caller, Some(d), None) == Resumo(db, caller, None, None)
    ensures Resumo(db, caller, None, Some(d)) == Resumo(db, caller, None, None)
  {
  }

  function Plus(a: Summary, b: Summary): Summary
  {
    Summary(a.entradas + b.entradas, a.saidas + b.saidas, a.saldo + b.saldo)
  }

  /** One kind's total over an interval is the sum of its totals over the two
      halves of the interval. */
  lemma {:induction false} SumSplitsAtDate(rows: seq<Movimentacao>, caller: int, tipo: string, from: Date, mid: Date, to: Date)
    requires from <= mid < to
    ensures SumValor(Select(rows, KindFilter(caller, tipo, Some(DateRange(from, to))))) ==
            SumValor(Select(rows, KindFilter(caller, tipo, Some(DateRange(from, mid))))) +
            SumValor(Select(rows, KindFilter(caller, tipo, Some(DateRange(mid + 1, to)))))
  {
    if |rows| > 0 {
      SumSplitsAtDate(rows[1..], caller, tipo, from, mid, to);
      SumValorSelectCons(rows, KindFilter(caller, tipo, Some(DateRange(from, to))));
      SumValorSelectCons(rows, KindFilter(caller, tipo, Some(DateRange(from, mid))));
      SumValorSelectCons(rows, KindFilter(caller, tipo, Some(DateRange(mid + 1, to))));
    }
  }

  /** The summary is additive: over an interval cut in two, it is the
      component-wise sum of the summaries of the two parts. */
  lemma ResumoSplitsAtDate(db: Db, caller: int, from: Date, mid: Date, to: Date)
    requires from <= mid < to
    ensures Resumo(db, caller, Some(from), Some(to)) ==
            Plus(Resumo(db, caller, Some(from), Some(mid)), Resumo(db, caller, Some(mid + 1), Some(to)))
  {
    SumSplitsAtDate(db.movimentacoes, caller, ENTRADA, from, mid, to);
    SumSplitsAtDate(db.movimentacoes, caller, GASTO, from, mid, to);
  }

  /** Movements of other users never reach the caller's summary. */
  lemma ResumoIgnoresOtherUsers(db: Db, caller: int, others: seq<Movimentacao>, dataInicial: Option<Date>, dataFinal: Option<Date>)
    requires forall k :: 0 <= k < |others| ==> others[k].usuarioId != caller
    ensures Resumo(db.(movimentacoes := db.movimentacoes + others), caller, dataInicial, dataFinal) ==
            Resumo(db, caller, dataInicial, dataFinal)
  {
    var range := RangeOf(dataInicial, dataFinal);
    SelectAppend(db.movimentacoes, others, KindFilter(caller, ENTRADA, range));
    SelectAppend(db.movimentacoes, others, KindFilter(caller, GASTO, range));
    SelectOthersEmpty(others, KindFilter(caller, ENTRADA, range));
    SelectOthersEmpty(others, KindFilter(caller, GASTO, range));
    var mine := Select(db.movimentacoes, KindFilter(caller, ENTRADA, range));
    var spent := Select(db.movimentacoes, KindFilter(caller, GASTO, range));
    assert mine + [] == mine && spent + [] == spent;
  }

  // ---------------------------------------------------------------------------
  // Month-over-month comparison
  // ---------------------------------------------------------------------------

  /** An expense of the month joined with its category's name. */
  datatype NamedExpense = NamedExpense(nome: string, valor: int)

  /** The caller's expenses in the interval whose category exists, labelled
      with the category's name (the inner join of the comparison query). */
  function JoinNames(cats: seq<Categoria>, rows: seq<Movimentacao>): (r: seq<NamedExpense>)
    ensures |r| <= |rows|
  {
    if |rows| == 0 then []
    else
      var c := if rows[0].categoriaId.Some? then CategoryById(cats, rows[0].categoriaId.value) else None;
      var rest := JoinNames(cats, rows[1..]);
      if c.Some? then [NamedExpense(c.value.nome, rows[0].valor)] + rest else rest
  }

  function MonthExpenses(db: Db, caller: int, month: DateRange): seq<NamedExpense>
  {
    JoinNames(db.categorias, Select(db.movimentacoes, KindFilter(caller, GASTO, Some(month))))
  }

  /** The names that occur in a joined list. */
  ghost function NameSet(es: seq<NamedExpense>): set<string>
  {
    set k | 0 <= k < |es| :: es[k].nome
  }

  /** `GROUP BY c.nome`: each name once, in order of first occurrence.
      Categories sharing a name are one group. */
  function Names(es: seq<NamedExpense>): (r: seq<string>)
    ensures Distinct(r)
    ensures forall n :: n in r <==> n in NameSet(es)
  {
    if |es| == 0 then []
    else
      var init := es[..|es| - 1];
      var rest := Names(init);
      var last := es[|es| - 1].nome;
      assert NameSet(es) == NameSet(init) + {last} by {
        forall n | n in NameSet(es) ensures n in NameSet(init) + {last} {
          var k :| 0 <= k < |es| && es[k].nome == n;
          if k < |es| - 1 { assert init[k] == es[k]; }
        }
        forall n | n in NameSet(init) ensures n in NameSet(es) {
          var k :| 0 <= k < |init| && init[k].nome == n;
          assert es[k] == init[k];
        }
      }
      if last in rest then rest else rest + [last]
  }

  /** The name under which a plain JavaScript object ignores the assignment
      of a number: such a group never becomes a key of the month's object. */
  const PROTO: string := "__proto__"

  /** The other names a plain object `{}` inherits from `Object.prototype`.
      Reading one of them from an object that has no own property of that
      name gives a function, which `|| 0` keeps. */
  const INHERITED: set<string> := {
    "constructor", "hasOwnProperty", "isPrototypeOf", "propertyIsEnumerable",
    "toLocaleString", "toString", "valueOf",
    "__defineGetter__", "__defineSetter__", "__lookupGetter__", "__lookupSetter__"}

  /** The keys of the object `reduce` builds from a month's groups. */
  ghost function Keys(es: seq<NamedExpense>): set<string>
  {
    NameSet(es) - {PROTO}
  }

  /** The names other than `x`, in order. */
  function Without(names: seq<string>, x: string): (r: seq<string>)
    ensures forall n :: n in r <==> n in names && n != x
    ensures Distinct(names) ==> Distinct(r)
  {
    if |names| == 0 then []
    else
      var rest := Without(names[1..], x);
      assert Distinct(names) ==> Distinct(names[1..]) && names[0] !in names[1..] by {
        assert names == [names[0]] + names[1..];
        DistinctCons(names[0], names[1..]);
      }
      DistinctCons(names[0], rest);
      if names[0] == x then rest else [names[0]] + rest
  }

  /** `SUM(m.valor)` of one group. */
  function TotalFor(es: seq<NamedExpense>, nome: string): int
  {
    if |es| == 0 then 0
    else (if es[0].nome == nome then es[0].valor else 0) + TotalFor(es[1..], nome)
  }

  /** Growth of the expense from the previous month `m0` to the current
      month `m1`, in percent. With a positive previous month it is the
      percentage that takes that month's expense to the current one, so its
      sign says which month spent more; otherwise it is 100 when only the
      current month has spending and 0 when neither has. */
  function Growth(m1: int, m0: int): (g: real)
    ensures m0 > 0 ==> (m0 as real) * (1.0 + g / 100.0) == m1 as real
    ensures m0 > 0 ==> (g > 0.0 <==> m1 > m0)
    ensures m0 > 0 ==> (g == 0.0 <==> m1 == m0)
    ensures m0 <= 0 && m1 > 0 ==> g == 100.0
    ensures m0 <= 0 && m1 <= 0 ==> g == 0.0
  {
    if m0 > 0 then
      var a := (m1 - m0) as real;
      var b := m0 as real;
      assert b * (1.0 + a / b) == b + a;
      (a / b) * 100.0
    else if m1 > 0 then 100.0
    else 0.0
  }

  /** One line of the comparison. Amounts are in cents. */
  datatype Comparison = Comparison(categoriaNome: string, gastoM1: int, gastoM0: int, crescimento: real)

  function GastoM1Of(c: Comparison): int
  {
    c.gastoM1
  }

  /** The category names of the lines, in order. */
  function NamesOf(r: seq<Comparison>): (names: seq<string>)
    ensures |names| == |r|
  {
    seq(|r|, k requires 0 <= k < |r| => r[k].categoriaNome)
  }

  /** The line of category `n`: both monthly totals and their growth. */
  function CompareLine(e1: seq<NamedExpense>, e0: seq<NamedExpense>, n: string): Comparison
  {
    Comparison(n, TotalFor(e1, n), TotalFor(e0, n), Growth(TotalFor(e1, n), TotalFor(e0, n)))
  }

  function Lines(e1: seq<NamedExpense>, e0: seq<NamedExpense>, names: seq<string>): (r: seq<Comparison>)
    ensures NamesOf(r) == names
    ensures forall k :: 0 <= k < |r| ==> r[k] == CompareLine(e1, e0, names[k])
  {
    seq(|names|, k requires 0 <= k < |names| => CompareLine(e1, e0, names[k]))
  }

  /** `GET /resumo/comparativo` for the given current (`mesAtual`) and
      previous (`mesAnterior`) month: 500 when some category name is an
      inherited member of a plain object and has an expense group in one
      month only (the other month's lookup gives a function, and formatting
      it throws); otherwise the lines of `Comparativo`. */
  function ComparativoRoute(db: Db, caller: int, mesAtual: DateRange, mesAnterior: DateRange)
    : (r: Reply<seq<Comparison>>)
    ensures r.Err? <==>
              exists n :: n in INHERITED &&
                (n in Keys(MonthExpenses(db, caller, mesAtual)) <==> n !in Keys(MonthExpenses(db, caller, mesAnterior)))
    ensures r.Err? ==> r.status == INTERNAL_ERROR
    ensures r.Ok? ==> r.value == Comparativo(db, caller, mesAtual, mesAnterior)
  {
    var n1 := Names(MonthExpenses(db, caller, mesAtual));
    var n0 := Names(MonthExpenses(db, caller, mesAnterior));
    if exists n :: n in INHERITED && (n in n1 <==> n !in n0) then Err(INTERNAL_ERROR)
    else Ok(Comparativo(db, caller, mesAtual, mesAnterior))
  }

  /** The lines of the comparison: one per key of either month's object,
      that is per category name with an expense group in either month other
      than `__proto__`, carrying both totals and the growth, ordered from the
      largest current-month expense to the smallest. */
  function Comparativo(db: Db, caller: int, mesAtual: DateRange, mesAnterior: DateRange): (r: seq<Comparison>)
    ensures SortedDesc(r, GastoM1Of)
    ensures Distinct(NamesOf(r))
    ensures forall n :: n in NamesOf(r) <==>
              n in Keys(MonthExpenses(db, caller, mesAtual)) + Keys(MonthExpenses(db, caller, mesAnterior))
    ensures forall k :: 0 <= k < |r| ==>
              && r[k].gastoM1 == TotalFor(MonthExpenses(db, caller, mesAtual), r[k].categoriaNome)
              && r[k].gastoM0 == TotalFor(MonthExpenses(db, caller, mesAnterior), r[k].categoriaNome)
              && r[k].crescimento == Growth(r[k].gastoM1, r[k].gastoM0)
  {
    var e1 := MonthExpenses(db, caller, mesAtual);
    var e0 := MonthExpenses(db, caller, mesAnterior);
    var f := (n: string) => TotalFor(e1, n);
    var sorted := SortDesc(Without(Names(e1 + e0), PROTO), f);
    SortedNames(e1, e0, sorted);
    LinesSorted(e1, e0, sorted, f);
    Lines(e1, e0, sorted)
  }

  /** Sorting the distinct keys of both months keeps them distinct and
      keeps exactly the keys of either month. */
  lemma SortedNames(e1: seq<NamedExpense>, e0: seq<NamedExpense>, sorted: seq<string>)
    requires multiset(sorted) == multiset(Without(Names(e1 + e0), PROTO))
    ensures Distinct(sorted)
    ensures forall n :: n in sorted <==> n in Keys(e1) + Keys(e0)
  {
    var names := Without(Names(e1 + e0), PROTO);
    DistinctPermutation(names, sorted);
    NameSetAppend(e1, e0);
    forall n ensures n in sorted <==> n in names {
      assert n in sorted <==> n in multiset(sorted);
      assert n in names <==> n in multiset(names);
    }
  }

  /** Names sorted by their current-month total give lines sorted by it. */
  lemma LinesSorted(e1: seq<NamedExpense>, e0: seq<NamedExpense>, sorted: seq<string>, f: string -> int)
    requires forall n :: f(n) == TotalFor(e1, n)
    requires SortedDesc(sorted, f)
    ensures SortedDesc(Lines(e1, e0, sorted), GastoM1Of)
  {
    var r := Lines(e1, e0, sorted);
    forall i, j | 0 <= i < j < |r| ensures GastoM1Of(r[i]) >= GastoM1Of(r[j]) {
      assert f(sorted[i]) >= f(sorted[j]);
    }
  }

  lemma NameSetAppend(a: seq<NamedExpense>, b: seq<NamedExpense>)
    ensures NameSet(a + b) == NameSet(a) + NameSet(b)
  {
    forall n | n in NameSet(a + b) ensures n in NameSet(a) + NameSet(b) {
      var k :| 0 <= k < |a + b| && (a + b)[k].nome == n;
      if k >= |a| { assert (a + b)[k] == b[k - |a|]; }
    }
    forall n | n in NameSet(a) + NameSet(b) ensures n in NameSet(a + b) {
      if n in NameSet(a) {
        var k :| 0 <= k < |a| && a[k].nome == n;
        assert (a + b)[k] == a[k];
      } else {
        var k :| 0 <= k < |b| && b[k].nome == n;
        assert (a + b)[k + |a|] == b[k];
      }
    }
  }

  /** A category with no expense before this month but some now shows 100%
      growth; the first line carries the largest current-month expense. */
  lemma ComparativoNewCategoryAndHead(db: Db, caller: int, mesAtual: DateRange, mesAnterior: DateRange, k: int)
    requires 0 <= k < |Comparativo(db, caller, mesAtual, mesAnterior)|
    ensures var c := Comparativo(db, caller, mesAtual, mesAnterior)[k];
            c.gastoM0 <= 0 && c.gastoM1 > 0 ==> c.crescimento == 100.0
    ensures Comparativo(db, caller, mesAtual, mesAnterior)[0].gastoM1 >=
            Comparativo(db, caller, mesAtual, mesAnterior)[k].gastoM1
  {
    var c := Comparativo(db, caller, mesAtual, mesAnterior)[k];
    if k > 0 {
      var r := Comparativo(db, caller, mesAtual, mesAnterior);
      assert GastoM1Of(r[0]) >= GastoM1Of(r[k]);
    }
  }

  /** The comparison is empty exactly when neither month has an expense
      group other than one named `__proto__`. */
  lemma ComparativoEmptyIffNoExpense(db: Db, caller: int, mesAtual: DateRange, mesAnterior: DateRange)
    ensures |Comparativo(db, caller, mesAtual, mesAnterior)| == 0 <==>
            Keys(MonthExpenses(db, caller, mesAtual)) == {} && Keys(MonthExpenses(db, caller, mesAnterior)) == {}
  {
    var names := NamesOf(Comparativo(db, caller, mesAtual, mesAnterior));
    var k1 := Keys(MonthExpenses(db, caller, mesAtual));
    var k0 := Keys(MonthExpenses(db, caller, mesAnterior));
    if k1 != {} {
      var n :| n in k1;
      assert n in names;
    } else if k0 != {} {
      var n :| n in k0;
      assert n in names;
    } else if |names| > 0 {
      assert names[0] in k1 + k0;
    }
  }
}
