/** The page's own input handling: the checks of the transaction form, the
    query string of the date filter, and the currency text every amount is
    shown with. */
module Forms {
  import opened Common
  import opened Text
  import opened Store
  import opened Ledger

  // ---------------------------------------------------------------------------
  // Transaction form
  // ---------------------------------------------------------------------------

  /** The form's fields as read: the selected kind (`""` when none), the
      amount after `parseFloat` in cents (`None` for `NaN`), the raw detail
      and date texts, and the selected category (`None` when none). */
  datatype FormInput = FormInput(
    tipo: string,
    valor: Option<int>,
    detalhes: string,
    data: string,
    categoria: Option<int>)

  /** The JSON body the form sends. */
  datatype Payload = Payload(tipo: string, valor: int, detalhes: string, categoriaId: Option<int>, data: string)

  datatype FormError = TipoMissing | ValorInvalid | DataMissing | CategoriaMissing

  datatype FormCheck = Rejected(error: FormError) | Accepted(payload: Payload)

  function Trim(s: string): string
  {
    TrimEnd(TrimStart(s))
  }

  /** The submit handler's checks, in order: a kind must be selected, the
      amount must be a number above zero, the date must not be blank, and an
      expense must name a category. Only an expense carries its category;
      every other kind is sent with a null one. */
  function ValidateForm(f: FormInput): (r: FormCheck)
    ensures r == Rejected(TipoMissing) <==> f.tipo == ""
    ensures r == Rejected(ValorInvalid) <==> f.tipo != "" && (f.valor.None? || f.valor.value <= 0)
    ensures r == Rejected(DataMissing) <==>
              f.tipo != "" && f.valor.Some? && f.valor.value > 0 && Trim(f.data) == ""
    ensures r == Rejected(CategoriaMissing) <==>
              f.tipo != "" && f.valor.Some? && f.valor.value > 0 && Trim(f.data) != "" &&
              f.tipo == GASTO && f.categoria.None?
    ensures r.Accepted? ==>
              && r.payload.tipo == f.tipo
              && r.payload.valor == f.valor.value > 0
              && r.payload.data == Trim(f.data) != ""
              && r.payload.detalhes == Trim(f.detalhes)
              && (r.payload.categoriaId.Some? <==> f.tipo == GASTO)
              && (f.tipo == GASTO ==> r.payload.categoriaId == f.categoria)
  {
    var data := Trim(f.data);
    if f.tipo == "" then Rejected(TipoMissing)
    else if f.valor.None? || f.valor.value <= 0 then Rejected(ValorInvalid)
    else if data == "" then Rejected(DataMissing)
    else if f.tipo == GASTO && f.categoria.None? then Rejected(CategoriaMissing)
    else
      var categoria := if f.tipo == GASTO then f.categoria else None;
      Accepted(Payload(f.tipo, f.valor.value, Trim(f.detalhes), categoria, data))
  }

  /** The payload as the update route reads it, the date text standing for
      the date `when`. */
  function AsBody(p: Payload, when: Date): MovBody
  {
    MovBody(p.tipo, p.categoriaId, Some(p.valor), Some(p.detalhes), Some(when))
  }

  /** Everything the form accepts passes the server's validation of an
      update, and the row keeps the selected category for an expense and
      none for an income (category ids are never 0). */
  lemma AcceptedFormPassesServer(f: FormInput, when: Date)
    requires f.categoria.Some? ==> f.categoria.value != 0
    requires ValidateForm(f).Accepted?
    ensures var fields := CheckMovBody(AsBody(ValidateForm(f).payload, when));
            && fields.Some?
            && fields.value.valor == f.valor.value
            && (f.tipo == GASTO ==> fields.value.categoriaId == f.categoria)
            && (f.tipo != GASTO ==> fields.value.categoriaId.None?)
  {
  }

  // ---------------------------------------------------------------------------
  // Date filter and query string
  // ---------------------------------------------------------------------------

  /** The address of a list or summary request: the two dates go into the
      query string only when both are non-empty. */
  function WithDates(url: string, dataInicial: string, dataFinal: string): (r: string)
    ensures dataInicial == "" || dataFinal == "" ==> r == url
    ensures dataInicial != "" && dataFinal != "" ==> |r| > |url| && r[|url|] == '?'
  {
    if dataInicial != "" && dataFinal != "" then url + ['?'] + DateQuery(dataInicial, dataFinal)
    else url
  }

  /** The names of the two query parameters. */
  const DATA_INICIAL: string := "data_inicial"
  const DATA_FINAL: string := "data_final"

  /** Reading one parameter back from an address: the text after the first
      `?`, split at `&`, and the first `key=value` piece with that key. */
  function QueryParam(url: string, key: string): Option<string>
  {
    if '?' !in url then None
    else Lookup(Split(url[IndexOf(url, '?') + 1..], '&'), key)
  }

  function Lookup(pieces: seq<string>, key: string): Option<string>
  {
    if |pieces| == 0 then None
    else
      var p := pieces[0];
      if '=' in p && p[..IndexOf(p, '=')] == key then Some(p[IndexOf(p, '=') + 1..])
      else Lookup(pieces[1..], key)
  }

  lemma IndexOfAfter(a: string, c: char, b: string)
    requires c !in a
    ensures c in a + [c] + b
    ensures IndexOf(a + [c] + b, c) == |a|
  {
    assert (a + [c] + b)[|a|] == c;
    assert (a + [c] + b)[..|a|] == a;
  }

  /** A `key=value` piece whose key has no `=` splits back into the two. */
  lemma KeyValue(key: string, value: string)
    requires '=' !in key
    ensures var p := key + ['='] + value;
            '=' in p && p[..IndexOf(p, '=')] == key && p[IndexOf(p, '=') + 1..] == value
  {
    IndexOfAfter(key, '=', value);
    var p := key + ['='] + value;
    assert p[..|key|] == key;
    assert p[|key| + 1..] == value;
  }

  /** Everything after the first `?` of an address is its query. */
  lemma QueryOf(url: string, query: string, key: string)
    requires '?' !in url
    ensures QueryParam(url + ['?'] + query, key) == Lookup(Split(query, '&'), key)
  {
    IndexOfAfter(url, '?', query);
    assert (url + ['?'] + query)[|url| + 1..] == query;
  }

  /** Looking up either key of a two-piece query. */
  lemma LookupTwo(k1: string, v1: string, k2: string, v2: string)
    requires '=' !in k1 && '=' !in k2 && k1 != k2
    ensures Lookup([k1 + ['='] + v1, k2 + ['='] + v2], k1) == Some(v1)
    ensures Lookup([k1 + ['='] + v1, k2 + ['='] + v2], k2) == Some(v2)
  {
    KeyValue(k1, v1);
    KeyValue(k2, v2);
    assert [k1 + ['='] + v1, k2 + ['='] + v2][1..] == [k2 + ['='] + v2];
  }

  lemma NoAmpersand(key: string, value: string)
    requires '&' !in key && '&' !in value
    ensures '&' !in key + ['='] + value
  {
  }

  /** Both dates survive the trip through the address: the server finds
      each under its own name. An address with a date missing carries no
      date at all. */
  lemma WithDatesRoundTrip(url: string, dataInicial: string, dataFinal: string)
    requires '?' !in url
    requires '&' !in dataInicial && '&' !in dataFinal
    ensures var u := WithDates(url, dataInicial, dataFinal);
            dataInicial != "" && dataFinal != "" ==>
              QueryParam(u, DATA_INICIAL) == Some(dataInicial) && QueryParam(u, DATA_FINAL) == Some(dataFinal)
    ensures var u := WithDates(url, dataInicial, dataFinal);
            dataInicial == "" || dataFinal == "" ==>
              QueryParam(u, DATA_INICIAL).None? && QueryParam(u, DATA_FINAL).None?
  {
    if dataInicial != "" && dataFinal != "" {
      var query := DateQuery(dataInicial, dataFinal);
      assert WithDates(url, dataInicial, dataFinal) == url + ['?'] + query;
      DateQuerySplits(dataInicial, dataFinal);
      QueryOf(url, query, DATA_INICIAL);
      QueryOf(url, query, DATA_FINAL);
      DateKeys();
      LookupTwo(DATA_INICIAL, dataInicial, DATA_FINAL, dataFinal);
    }
  }

  /** The two parameter names are different and hold neither `=` nor `&`. */
  lemma DateKeys()
    ensures '=' !in DATA_INICIAL && '=' !in DATA_FINAL && DATA_INICIAL != DATA_FINAL
    ensures '&' !in DATA_INICIAL && '&' !in DATA_FINAL
  {
    assert DATA_INICIAL[5] != DATA_FINAL[5];
  }

  /** The query string `WithDates` appends after the `?`. */
  function DateQuery(dataInicial: string, dataFinal: string): string
  {
    DATA_INICIAL + ['='] + dataInicial + ['&'] + DATA_FINAL + ['='] + dataFinal
  }

  /** The date query splits at `&` into its two `key=value` pieces. */
  lemma DateQuerySplits(dataInicial: string, dataFinal: string)
    requires '&' !in dataInicial && '&' !in dataFinal
    ensures Split(DateQuery(dataInicial, dataFinal), '&') ==
            [DATA_INICIAL + ['='] + dataInicial, DATA_FINAL + ['='] + dataFinal]
  {
    var first := DATA_INICIAL + ['='] + dataInicial;
    var second := DATA_FINAL + ['='] + dataFinal;
    DateKeys();
    NoAmpersand(DATA_INICIAL, dataInicial);
    NoAmpersand(DATA_FINAL, dataFinal);
    assert Join([first, second], '&') == DateQuery(dataInicial, dataFinal);
    SplitJoin([first, second], '&');
  }

  /** What pressing the filter button does: refuse with a message when a
      date is missing, otherwise reload the summary and the listing with
      both dates. */
  datatype FilterOutcome = Refused | Reload(resumoUrl: string, movimentacoesUrl: string)

  function ApplyFilter(api: string, dataInicial: string, dataFinal: string): (o: FilterOutcome)
    ensures o.Refused? <==> dataInicial == "" || dataFinal == ""
    ensures o.Reload? ==>
              && o.resumoUrl == WithDates(api + "/resumo", dataInicial, dataFinal)
              && o.movimentacoesUrl == WithDates(api + "/movimentacoes", dataInicial, dataFinal)
              && o.resumoUrl != api + "/resumo" && o.movimentacoesUrl != api + "/movimentacoes"
  {
    if dataInicial == "" || dataFinal == "" then Refused
    else Reload(WithDates(api + "/resumo", dataInicial, dataFinal),
                WithDates(api + "/movimentacoes", dataInicial, dataFinal))
  }

  /** A filter that is applied sends both dates to both routes, so the
      server's range condition is in force for the summary and the listing. */
  lemma FilterSendsBothDates(api: string, dataInicial: string, dataFinal: string)
    requires '?' !in api
    requires '&' !in dataInicial && '&' !in dataFinal
    requires ApplyFilter(api, dataInicial, dataFinal).Reload?
    ensures var o := ApplyFilter(api, dataInicial, dataFinal);
            && QueryParam(o.resumoUrl, DATA_INICIAL) == Some(dataInicial)
            && QueryParam(o.resumoUrl, DATA_FINAL) == Some(dataFinal)
            && QueryParam(o.movimentacoesUrl, DATA_INICIAL) == Some(dataInicial)
            && QueryParam(o.movimentacoesUrl, DATA_FINAL) == Some(dataFinal)
  {
    assert '?' !in "/resumo" && '?' !in "/movimentacoes";
    WithDatesRoundTrip(api + "/resumo", dataInicial, dataFinal);
    WithDatesRoundTrip(api + "/movimentacoes", dataInicial, dataFinal);
  }

  // ---------------------------------------------------------------------------
  // Currency
  // ---------------------------------------------------------------------------

  function TwoDigits(n: nat): (s: string)
    requires n < 100
    ensures |s| == 2 && AllDigits(s)
  {
    [DigitChar(n / 10), DigitChar(n % 10)]
  }

  /** The whole part without leading zeros, a comma and exactly two
      decimals of a non-negative amount of cents. */
  function Magnitude(m: nat): (t: string)
    ensures |t| >= 4 && IsDigit(t[0])
    ensures t[|t| - 3] == ',' && IsDigit(t[|t| - 2]) && IsDigit(t[|t| - 1])
    ensures '.' !in t && '-' !in t
  {
    var whole := ShowNat(m / 100);
    var two := TwoDigits(m % 100);
    var t := whole + [','] + two;
    assert forall k :: 0 <= k < |t| ==> IsDigit(t[k]) || t[k] == ',' by {
      forall k | 0 <= k < |t| ensures IsDigit(t[k]) || t[k] == ',' {
        if k < |whole| { assert t[k] == whole[k]; }
        else if k > |whole| { assert t[k] == two[k - |whole| - 1]; }
      }
    }
    t
  }

  const MOEDA: string := "R$ "

  /** `formatarMoeda` on an amount of `cents`: `R$ `, a minus sign for a
      negative amount, then the magnitude with a decimal comma. */
  function FormatMoeda(cents: int): (s: string)
    ensures |s| >= 7 && s[..3] == MOEDA
    ensures s[|s| - 3] == ',' && IsDigit(s[|s| - 2]) && IsDigit(s[|s| - 1])
    ensures '.' !in s
    ensures s[3] == '-' <==> cents < 0
  {
    var signed := if cents < 0 then ['-'] + Magnitude(-cents) else Magnitude(cents);
    assert '.' !in signed;
    MOEDA + signed
  }

  /** Reads the whole part, comma and two decimals back into cents. */
  function ParseMagnitude(t: string): Option<nat>
  {
    if |t| < 4 || t[|t| - 3] != ',' then None
    else
      var whole := t[..|t| - 3];
      var fraction := t[|t| - 2..];
      if !AllDigits(whole) || !AllDigits(fraction) then None
      else Some(ValueIn(whole, 10) * 100 + ValueIn(fraction, 10))
  }

  /** Reads a text in the shape `FormatMoeda` writes back into cents. */
  function ParseMoeda(s: string): Option<int>
  {
    if |s| < 3 || s[..3] != MOEDA then None
    else
      var body := s[3..];
      if |body| > 0 && body[0] == '-' then
        match ParseMagnitude(body[1..])
        case None => None
        case Some(v) => Some(-(v as int))
      else
        match ParseMagnitude(body)
        case None => None
        case Some(v) => Some(v)
  }

  lemma TwoDigitsValue(n: nat)
    requires n < 100
    ensures ValueIn(TwoDigits(n), 10) == n
  {
    var s := TwoDigits(n);
    assert s[..1] == [DigitChar(n / 10)];
    assert s[..1][..0] == [];
    assert ValueIn(s[..1], 10) == n / 10;
    assert DigitValue(s[1]) == n % 10;
  }

  lemma MagnitudeRoundTrip(m: nat)
    ensures ParseMagnitude(Magnitude(m)) == Some(m)
  {
    var whole := ShowNat(m / 100);
    var two := TwoDigits(m % 100);
    var t := whole + [','] + two;
    assert t == Magnitude(m);
    assert t[..|t| - 3] == whole;
    assert t[|t| - 2..] == two;
    ShowNatRoundTrip(m / 100);
    TwoDigitsValue(m % 100);
  }

  lemma ParseSigned(t: string)
    ensures ParseMagnitude(t).Some? ==> ParseMoeda(MOEDA + (['-'] + t)) == Some(-(ParseMagnitude(t).value as int))
    ensures ParseMagnitude(t).Some? && t[0] != '-' ==> ParseMoeda(MOEDA + t) == Some(ParseMagnitude(t).value)
  {
    var s1 := MOEDA + (['-'] + t);
    assert s1[..3] == MOEDA && s1[3..] == ['-'] + t && s1[3..][1..] == t;
    var s2 := MOEDA + t;
    assert s2[..3] == MOEDA && s2[3..] == t;
  }

  /** The currency text loses nothing: reading it back gives the amount. */
  lemma MoedaRoundTrip(cents: int)
    ensures ParseMoeda(FormatMoeda(cents)) == Some(cents)
  {
    var m: nat := if cents < 0 then -cents else cents;
    var t := Magnitude(m);
    var signed := if cents < 0 then ['-'] + t else t;
    assert FormatMoeda(cents) == MOEDA + signed;
    assert ParseMoeda(MOEDA + signed) == Some(cents) by {
      MagnitudeRoundTrip(m);
      ParseSigned(t);
    }
  }
}
