/** The Zapt Tech export: the shopping siglas it accepts, the payload built
    from a shopping's query rows, and the loop that gathers every shopping's
    rows into one payload. The database query is an oracle parameter. */
module Zapt {
  import opened Wrappers

  /** `VALID_SHOPPING_SIGLAS`, in order. */
  const ValidSiglas: seq<string> := ["NK", "BS", "GS", "NR", "CS", "NS"]

  const OrganizationId: nat := 6291090961989632

  /** A field of the payload schema: its name and declared type. */
  datatype Field = Field(name: string, kind: string)

  datatype Schema = Schema(name: string, fields: seq<Field>)

  /** `ZAPT_TECH_SCHEMA`, without the help texts. */
  const TheSchema: Schema := Schema("Stores_Almeida_Junior", [
    Field("shopping", "string"), Field("luc", "string"),
    Field("abl", "float"), Field("vitrine", "float"),
    Field("lojista", "string"), Field("segmento", "string"), Field("atividade", "string"),
    Field("contrato", "string"), Field("vencimento", "string"), Field("competencia", "string"),
    Field("media_venda", "float"), Field("venda_m2", "float"),
    Field("amm", "float"), Field("amm_m2", "float"),
    Field("aluguel_variavel", "float"),
    Field("condominio", "float"), Field("condominio_m2", "float"),
    Field("fundo_promocao", "float"), Field("fundo_promocao_m2", "float"),
    Field("faturamento_total", "float"), Field("co_percentual", "float"),
    Field("tipo_contrato", "string"), Field("cdu_m2", "float"), Field("status", "string")
  ])

  /** `validate_shopping_sigla`: true for a listed sigla, a `ValueError`
      naming the valid ones otherwise. */
  function ValidateSigla(sigla: string): (r: Result<bool, string>)
    ensures r.Success? <==> sigla in ValidSiglas
    ensures r.Success? ==> r.value
  {
    if sigla !in ValidSiglas then Failure("Sigla de shopping inválida")
    else Success(true)
  }

  /** The only siglas accepted are the six centres'. */
  lemma ValidSiglasAreTheSix(sigla: string)
    ensures ValidateSigla(sigla).Success? <==>
      sigla == "NK" || sigla == "BS" || sigla == "GS" || sigla == "NR" || sigla == "CS" || sigla == "NS"
  {
  }

  // ---------------------------------------------------------------------------
  // Payload
  // ---------------------------------------------------------------------------

  /** A value a query row holds: `None`, a number (with the float it
      converts to, if the conversion succeeds, and its `str`), a string, or
      anything else (dates and the like), known by its `str`. */
  datatype Value = Null | Number(asFloat: Option<real>, text: string) | Str(s: string) | Other(text: string)

  /** A value of the payload. */
  datatype Json = JNull | JFloat(x: real) | JStr(s: string)

  /** The conversion of each value: `None` stays null, a number becomes its
      float (or its text when that fails), a string stays, anything else
      becomes its text. */
  function Convert(v: Value): (j: Json)
    ensures j.JNull? <==> v.Null?
    ensures j.JFloat? <==> v.Number? && v.asFloat.Some?
    ensures v.Str? ==> j == JStr(v.s)
    ensures (v.Other? || (v.Number? && v.asFloat.None?)) ==> j == JStr(v.text)
  {
    match v
    case Null => JNull
    case Number(f, text) => if f.Some? then JFloat(f.value) else JStr(text)
    case Str(s) => JStr(s)
    case Other(text) => JStr(text)
  }

  /** A row: its columns in order. */
  type Row = seq<(string, Value)>
  type Item = seq<(string, Json)>

  function ConvertRow(row: Row): (item: Item)
    ensures |item| == |row|
    ensures forall i :: 0 <= i < |row| ==> item[i].0 == row[i].0 && item[i].1 == Convert(row[i].1)
  {
    seq(|row|, i requires 0 <= i < |row| => (row[i].0, Convert(row[i].1)))
  }

  datatype Payload = Payload(organizationId: nat, schema: Schema, items: seq<Item>)

  /** `format_data_for_zapt_tech_api`: one item per row, in order, under the
      fixed organization and schema. */
  function FormatPayload(rows: seq<Row>): (p: Payload)
    ensures p.organizationId == OrganizationId && p.schema == TheSchema
    ensures |p.items| == |rows|
    ensures forall i :: 0 <= i < |rows| ==> p.items[i] == ConvertRow(rows[i])
  {
    Payload(OrganizationId, TheSchema, seq(|rows|, i requires 0 <= i < |rows| => ConvertRow(rows[i])))
  }

  /** Every payload value is the conversion of some row value; this is one
      that converts to it. */
  function Back(j: Json): (v: Value)
    ensures Convert(v) == j
  {
    match j
    case JNull => Null
    case JFloat(x) => Number(Some(x), "")
    case JStr(s) => Str(s)
  }

  /** Formatting two batches of rows formats each. */
  lemma FormatAppend(a: seq<Row>, b: seq<Row>)
    ensures FormatPayload(a + b).items == FormatPayload(a).items + FormatPayload(b).items
  {
  }

  // ---------------------------------------------------------------------------
  // All shoppings
  // ---------------------------------------------------------------------------

  /** How one shopping went: its item count, or the error it raised. */
  datatype Outcome = Ok(sigla: string, records: nat) | Err(sigla: string)

  /** The query of a shopping: its rows, or `None` when it raised. */
  type Query = string -> Option<seq<Row>>

  /** The items the successful shoppings contribute, in list order. */
  function Gathered(siglas: seq<string>, query: Query): (items: seq<Item>)
    ensures |items| <= Rows(siglas, query)
  {
    if siglas == [] then []
    else
      var here := if query(siglas[0]).Some? then FormatPayload(query(siglas[0]).value).items else [];
      here + Gathered(siglas[1..], query)
  }

  /** The rows all shoppings return, failing ones counting none. */
  function Rows(siglas: seq<string>, query: Query): nat {
    if siglas == [] then 0
    else (if query(siglas[0]).Some? then |query(siglas[0]).value| else 0) + Rows(siglas[1..], query)
  }

  function Successes(siglas: seq<string>, query: Query): nat {
    if siglas == [] then 0 else (if query(siglas[0]).Some? then 1 else 0) + Successes(siglas[1..], query)
  }

  lemma {:induction false} GatheredAppend(a: seq<string>, b: seq<string>, query: Query)
    ensures Gathered(a + b, query) == Gathered(a, query) + Gathered(b, query)
  {
    if a == [] {
      assert a + b == b;
    } else {
      var h := if query(a[0]).Some? then FormatPayload(query(a[0]).value).items else [];
      calc {
        Gathered(a + b, query);
      == { assert (a + b)[0] == a[0] && (a + b)[1..] == a[1..] + b; }
        h + Gathered(a[1..] + b, query);
      == { GatheredAppend(a[1..], b, query); }
        h + (Gathered(a[1..], query) + Gathered(b, query));
      ==
        (h + Gathered(a[1..], query)) + Gathered(b, query);
      }
    }
  }

  lemma {:induction false} SuccessesAppend(a: seq<string>, b: seq<string>, query: Query)
    ensures Successes(a + b, query) == Successes(a, query) + Successes(b, query)
  {
    if a == [] {
      assert a + b == b;
    } else {
      assert (a + b)[0] == a[0] && (a + b)[1..] == a[1..] + b;
      SuccessesAppend(a[1..], b, query);
    }
  }

  /** `o` is the summary entry of `sigla`: its sigla, a success exactly
      when the query answers, and then its item count. */
  predicate Reports(o: Outcome, sigla: string, query: Query) {
    o.sigla == sigla && (o.Ok? <==> query(sigla).Some?) && (o.Ok? ==> o.records == |query(sigla).value|)
  }

  /** One turn of the loop: validate the sigla, query it, format the rows;
      a query that raises gives an error outcome and no item. */
  method GatherOne(sigla: string, query: Query) returns (items: seq<Item>, outcome: Outcome)
    requires sigla in ValidSiglas
    ensures items == Gathered([sigla], query)
    ensures Reports(outcome, sigla, query)
    ensures Successes([sigla], query) == if outcome.Ok? then 1 else 0
  {
    var valid := ValidateSigla(sigla);
    var rows := query(sigla);
    if valid.Failure? || rows.None? {
      items, outcome := [], Err(sigla);
    } else {
      items := FormatPayload(rows.value).items;
      outcome := Ok(sigla, |items|);
    }
  }

  /** The loop state after the first `n` siglas. */
  ghost predicate GatherInv(siglas: seq<string>, n: nat, query: Query, all: seq<Item>, summary: seq<Outcome>, successes: nat, errors: nat) {
    n <= |siglas|
    && successes + errors == n == |summary|
    && all == Gathered(siglas[..n], query)
    && successes == Successes(siglas[..n], query)
    && forall i :: 0 <= i < n ==> Reports(summary[i], siglas[i], query)
  }

  /** One more shopping keeps the loop state. */
  lemma GatherStep(siglas: seq<string>, n: nat, query: Query, all: seq<Item>, summary: seq<Outcome>, successes: nat, errors: nat, items: seq<Item>, outcome: Outcome)
    requires GatherInv(siglas, n, query, all, summary, successes, errors) && n < |siglas|
    requires items == Gathered([siglas[n]], query) && Reports(outcome, siglas[n], query)
    requires Successes([siglas[n]], query) == if outcome.Ok? then 1 else 0
    ensures GatherInv(siglas, n + 1, query, all + items, summary + [outcome],
                      successes + (if outcome.Ok? then 1 else 0), errors + (if outcome.Ok? then 0 else 1))
  {
    assert siglas[..n + 1] == siglas[..n] + [siglas[n]];
    GatheredAppend(siglas[..n], [siglas[n]], query);
    SuccessesAppend(siglas[..n], [siglas[n]], query);
  }

  /** The loop of `zapt_tech_to_api_all_shoppings` over the given siglas:
      each is validated and queried; one whose query raises is recorded as
      an error and adds nothing, the others add their items. */
  method Gather(siglas: seq<string>, query: Query) returns (all: seq<Item>, summary: seq<Outcome>, successes: nat, errors: nat)
    requires forall i :: 0 <= i < |siglas| ==> siglas[i] in ValidSiglas
    ensures successes + errors == |siglas| == |summary|
    ensures all == Gathered(siglas, query)
    ensures successes == Successes(siglas, query)
    ensures forall i :: 0 <= i < |siglas| ==> Reports(summary[i], siglas[i], query)
  {
    all := [];
    summary := [];
    successes, errors := 0, 0;
    var n := 0;
    while n < |siglas|
      invariant GatherInv(siglas, n, query, all, summary, successes, errors)
    {
      var sigla := siglas[n];
      var items, outcome := GatherOne(sigla, query);
      GatherStep(siglas, n, query, all, summary, successes, errors, items, outcome);
      all := all + items;
      summary := summary + [outcome];
      if outcome.Ok? {
        successes := successes + 1;
      } else {
        errors := errors + 1;
      }
      n := n + 1;
    }
    assert siglas[..n] == siglas;
  }

  /** `zapt_tech_to_api_all_shoppings`: the six valid siglas in turn, every
      one a success or an error, the payload holding the successes' items
      under the fixed organization and schema. */
  method AllShoppings(query: Query) returns (p: Payload, summary: seq<Outcome>, successes: nat, errors: nat)
    ensures successes + errors == |ValidSiglas| == 6
    ensures p.organizationId == OrganizationId && p.schema == TheSchema
    ensures p.items == Gathered(ValidSiglas, query)
    ensures successes == Successes(ValidSiglas, query)
    ensures |summary| == 6
    ensures forall i :: 0 <= i < 6 ==> summary[i].sigla == ValidSiglas[i]
    ensures forall i :: 0 <= i < 6 ==> (summary[i].Ok? <==> query(ValidSiglas[i]).Some?)
    ensures forall i :: 0 <= i < 6 && summary[i].Ok? ==> summary[i].records == |query(ValidSiglas[i]).value|
  {
    var all;
    all, summary, successes, errors := Gather(ValidSiglas, query);
    p := Payload(OrganizationId, TheSchema, all);
  }

  /** A shopping whose query raises adds no item and no success. */
  lemma FailedShoppingAddsNothing(a: seq<string>, sigla: string, b: seq<string>, query: Query)
    requires query(sigla).None?
    ensures Gathered(a + [sigla] + b, query) == Gathered(a + b, query)
    ensures Successes(a + [sigla] + b, query) == Successes(a + b, query)
  {
    GatheredAppend(a + [sigla], b, query);
    GatheredAppend(a, [sigla], query);
    GatheredAppend(a, b, query);
    SuccessesAppend(a + [sigla], b, query);
    SuccessesAppend(a, [sigla], query);
    SuccessesAppend(a, b, query);
    assert Gathered([sigla], query) == [] && Successes([sigla], query) == 0;
  }

  /** When every query answers, the payload holds every row, shopping by
      shopping. */
  lemma {:induction false} AllAnswerAllGathered(siglas: seq<string>, query: Query)
    requires forall s :: s in siglas ==> query(s).Some?
    ensures |Gathered(siglas, query)| == Rows(siglas, query)
    ensures Successes(siglas, query) == |siglas|
  {
    if siglas != [] {
      AllAnswerAllGathered(siglas[1..], query);
    }
  }
}
