/** The FIPE pricing runs: the PostgreSQL flow (`main_fipe.py`), which
    claims a batch of consolidated vehicles, prices each one and writes the
    outcomes in one transaction, and the legacy Snowflake flow, whose guarded
    statements each commit on their own.

    A consolidated vehicle row is keyed by brand, model, year of
    manufacture and model year; every status statement matches only brand,
    model and model year, so it reaches every row sharing those three. */
module FipeFlow {
  import opened Wrappers
  import opened Text
  import opened PlateApi
  import opened Schemas
  import opened WorkStatus
  import opened Fipe

  // ---------------------------------------------------------------------------
  // Keys
  // ---------------------------------------------------------------------------

  /** The key of a consolidated vehicle row. */
  datatype VKey = VKey(brand: string, model: string, yearManuf: int, yearModel: int)

  /** The columns a status statement matches. */
  datatype Target = Target(brand: string, model: string, yearModel: int)

  function Columns(k: VKey): Target {
    Target(k.brand, k.model, k.yearModel)
  }

  /** The vehicle key text, `f"{brand}|{model}|{year_model}"`. */
  function KeyText(t: Target): string {
    t.brand + "|" + t.model + "|" + IntToString(t.yearModel)
  }

  /** The record `get_pending_vehicles` builds for a row. */
  function Record(k: VKey): VehicleRecord {
    VehicleRecord(k.brand, k.model, k.yearManuf, k.yearModel, KeyText(Columns(k)))
  }

  /** `brand, model, year_str = key.split('|')` then `int(year_str)`, as
      the status updates read a key back; `None` where that raises. */
  function KeyColumns(key: string): (t: Option<Target>)
    ensures t.Some? ==> |Split(key, "|")| == 3 && ParseInt(Split(key, "|")[2]) == Some(t.value.yearModel)
  {
    var parts := Split(key, "|");
    if |parts| != 3 then None
    else
      match ParseInt(parts[2])
      case None => None
      case Some(y) => Some(Target(parts[0], parts[1], y))
  }

  lemma OccursAtBar(s: string, j: int)
    ensures OccursAt(s, "|", j) <==> 0 <= j < |s| && s[j] == '|'
  {
    if 0 <= j < |s| {
      assert s[j..j + 1] == [s[j]];
    }
  }

  /** A piece without the separator splits off at the first separator. */
  lemma {:induction false} SplitAtBar(a: string, rest: string)
    requires Lacks(a, '|')
    ensures Split(a + "|" + rest, "|") == [a] + Split(rest, "|")
  {
    var s := a + "|" + rest;
    OccursAtBar(s, |a|);
    forall j | 0 <= j < |a| ensures !OccursAt(s, "|", j) {
      OccursAtBar(s, j);
    }
    assert Find(s, "|") == Some(|a|);
    assert s[..|a|] == a;
    assert s[|a| + 1..] == rest;
  }

  /** A text without the separator is one piece. */
  lemma NoBarOnePiece(a: string)
    requires Lacks(a, '|')
    ensures Split(a, "|") == [a]
  {
    assert !Contains(a, "|") by {
      forall j | 0 <= j <= |a| - 1 ensures !OccursAt(a, "|", j) {
        OccursAtBar(a, j);
      }
    }
  }

  lemma IntTextLacksBar(y: int)
    ensures Lacks(IntToString(y), '|')
  {
    if y < 0 {
      assert IntToString(y) == "-" + NatToString(-y);
    }
  }

  /** Reading a key back gives its columns whenever neither the brand nor
      the model holds the separator. */
  lemma KeyColumnsRoundTrip(t: Target)
    requires Lacks(t.brand, '|') && Lacks(t.model, '|')
    ensures KeyColumns(KeyText(t)) == Some(t)
  {
    var y := IntToString(t.yearModel);
    IntTextLacksBar(t.yearModel);
    assert KeyText(t) == t.brand + "|" + (t.model + "|" + y);
    SplitAtBar(t.brand, t.model + "|" + y);
    SplitAtBar(t.model, y);
    NoBarOnePiece(y);
    ParseIntOfIntToString(t.yearModel);
  }

  /** A brand holding the separator gives a key that splits into four
      parts, so the source's three-way unpacking raises. */
  lemma BarInBrandBreaksKey()
    ensures KeyColumns(KeyText(Target("A|B", "C", 2020))).None?
  {
    var a, b, m := "A", "B", "C";
    assert Lacks(a, '|') && Lacks(b, '|') && Lacks(m, '|');
    assert "A|B" == a + "|" + b;
    BarBreaksKey(a, b, m, 2020);
  }

  /** No key of a brand `a|b` can be read back. */
  lemma BarBreaksKey(a: string, b: string, m: string, year: int)
    requires Lacks(a, '|') && Lacks(b, '|') && Lacks(m, '|')
    ensures KeyColumns(KeyText(Target(a + "|" + b, m, year))).None?
  {
    BarSplitsFour(a, b, m, year);
  }

  /** The key of a brand `a|b` splits into four parts. */
  lemma BarSplitsFour(a: string, b: string, m: string, year: int)
    requires Lacks(a, '|') && Lacks(b, '|') && Lacks(m, '|')
    ensures |Split(KeyText(Target(a + "|" + b, m, year)), "|")| == 4
  {
    var y := IntToString(year);
    var brand := a + "|" + b;
    IntTextLacksBar(year);
    SplitJoin(brand + "|" + m, y);
    SplitJoin(brand, m);
    SplitJoin(a, b);
    NoBarOnePiece(a);
    NoBarOnePiece(b);
    NoBarOnePiece(m);
    NoBarOnePiece(y);
  }

  /** The columns of every vehicle in a list. */
  function ColumnsOf(ks: seq<VKey>): (ts: seq<Target>)
    ensures |ts| == |ks| && forall i :: 0 <= i < |ks| ==> ts[i] == Columns(ks[i])
  {
    if ks == [] then [] else [Columns(ks[0])] + ColumnsOf(ks[1..])
  }

  // ---------------------------------------------------------------------------
  // Per-vehicle outcome
  // ---------------------------------------------------------------------------

  /** What one vehicle turns into: a row, a refusal with its reason, a
      failure recorded as an error, or an exception while building the row,
      which aborts the batch. */
  datatype VFate<R> = Valued(row: R) | Refused(reason: string) | Failed | Crash

  /** `fipe_data.get("_motivo", "Erro não especificado")` for a text reason. */
  function Motivo(body: map<string, Json>): (m: string)
    ensures "_motivo" in body && body["_motivo"].JStr? ==> m == body["_motivo"].s
  {
    if "_motivo" in body && body["_motivo"].JStr? then body["_motivo"].s else "Erro n\U{E3}o especificado"
  }

  /** A field of a price body as decoded, or absent. */
  function Field(body: map<string, Json>, key: string): (f: Option<Json>)
    ensures f.Some? <==> key in body
    ensures f.Some? ==> f.value == body[key]
  {
    if key in body then Some(body[key]) else None
  }

  /** The price body's fields as the row builder reads them. */
  function PriceValue(body: map<string, Json>): (f: FipeValue)
    ensures f.modelo == Field(body, "Modelo") && f.combustivel == Field(body, "Combustivel")
    ensures f.valor == Field(body, "Valor") && f.mesReferencia == Field(body, "MesReferencia")
  {
    FipeValue(Field(body, "Modelo"), Get(body, "AnoModelo"), Field(body, "Combustivel"),
              Get(body, "CodigoFipe"), Field(body, "Valor"), Field(body, "MesReferencia"),
              Get(body, "Autenticacao"))
  }

  /** A body that itself says `_status: "I"` is taken as a refusal. */
  predicate SaysInvalid(body: map<string, Json>) {
    Get(body, "_status") == JStr("I")
  }

  /** `process_vehicles` for one vehicle of the PostgreSQL flow. */
  function FateOf(k: VKey, cat: Catalog): (f: VFate<FipeRow>)
    ensures f.Valued? ==> f.row.key == KeyText(Columns(k)) && f.row.brand == k.brand && f.row.model == k.model
                          && f.row.yearModel == k.yearModel
    ensures f.Refused? && QueryFipe(k.brand, k.model, k.yearModel, cat).Unusable? ==> f.reason == QueryFipe(k.brand, k.model, k.yearModel, cat).reason
    ensures f.Failed? <==> QueryFipe(k.brand, k.model, k.yearModel, cat).NoPrice?
    ensures f.Crash? <==> var a := QueryFipe(k.brand, k.model, k.yearModel, cat);
                          a.Priced? && !SaysInvalid(a.body) && TransformFipeRow(Record(k), PriceValue(a.body), a.meta).None?
  {
    var v := Record(k);
    match QueryFipe(k.brand, k.model, k.yearModel, cat)
    case NoPrice => Failed
    case Unusable(reason) => Refused(reason)
    case Priced(body, meta) =>
      if SaysInvalid(body) then Refused(Motivo(body))
      else match TransformFipeRow(v, PriceValue(body), meta)
        case Some(row) => Valued(row)
        case None => Crash
  }

  /** The vehicle the flow prices for a set of columns; the year of
      manufacture plays no part in pricing. */
  function Representative(t: Target): VKey {
    VKey(t.brand, t.model, 0, t.yearModel)
  }

  /** Pricing reads brand, model and model year only. */
  lemma FateIgnoresYearManuf(k: VKey, cat: Catalog)
    ensures FateOf(k, cat) == FateOf(Representative(Columns(k)), cat)
  {
    var r := Representative(Columns(k));
    assert r.brand == k.brand && r.model == k.model && r.yearModel == k.yearModel;
    assert Columns(r) == Columns(k);
  }

  function Fates(cat: Catalog): (fate: Target -> VFate<FipeRow>)
    ensures forall t :: fate(t) == FateOf(Representative(t), cat)
  {
    t => FateOf(Representative(t), cat)
  }

  /** What the legacy batch keeps for a priced vehicle: its key, the price
      body and the search metadata. */
  datatype LegacyPrice = LegacyPrice(key: string, body: map<string, Json>, meta: FipeMetadata)

  /** Building a legacy row raises: `fipe_data.get("Modelo").title()` needs
      a text model, absent counting as `None`, and the fuel abbreviation
      needs a fuel that is falsy, text or a list. */
  predicate LegacyRowRaises(body: map<string, Json>) {
    !("Modelo" in body && body["Modelo"].JStr?) || FuelAbbr(Get(body, "Combustivel")).None?
  }

  /** The legacy row builder raises wherever the current one does, and also
      on a body without a model, which the current one reads as empty. */
  lemma LegacyRaisesMore(body: map<string, Json>, v: VehicleRecord, meta: FipeMetadata)
    ensures TransformFipeRow(v, PriceValue(body), meta).None? ==> LegacyRowRaises(body)
    ensures "Modelo" !in body ==> LegacyRowRaises(body)
  {
  }

  /** `process_vehicle_batch` for one vehicle. */
  function LegacyFateOf(k: VKey, cat: Catalog): (f: VFate<LegacyPrice>)
    ensures f.Valued? ==> f.row.key == KeyText(Columns(k)) && !Refusal(f.row.body) && !LegacyRowRaises(f.row.body)
    ensures f.Failed? <==> LegacyQueryFipeValue(k.brand, k.model, k.yearModel, cat).NoPrice?
  {
    LegacyFateOfAnswer(Record(k).key, LegacyQueryFipeValue(k.brand, k.model, k.yearModel, cat))
  }

  /** The legacy fate of a vehicle keyed `key` whose price query answered `a`. */
  function LegacyFateOfAnswer(key: string, a: Answer): (f: VFate<LegacyPrice>)
    ensures f.Valued? ==> f.row.key == key && a.Priced? && f.row.body == a.body && !LegacyRowRaises(a.body)
    ensures f.Failed? <==> a.NoPrice?
    ensures f.Crash? <==> a.Priced? && !SaysInvalid(a.body) && LegacyRowRaises(a.body)
  {
    match a
    case NoPrice => Failed
    case Unusable(reason) => Refused(reason)
    case Priced(body, meta) =>
      if SaysInvalid(body) then Refused(Motivo(body))
      else if LegacyRowRaises(body) then Crash
      else Valued(LegacyPrice(key, body, meta))
  }

  lemma LegacyFateIgnoresYearManuf(k: VKey, cat: Catalog)
    ensures LegacyFateOf(k, cat) == LegacyFateOf(Representative(Columns(k)), cat)
  {
    var r := Representative(Columns(k));
    assert r.brand == k.brand && r.model == k.model && r.yearModel == k.yearModel;
    assert Columns(r) == Columns(k);
  }

  function LegacyFates(cat: Catalog): (fate: Target -> VFate<LegacyPrice>)
    ensures forall t :: fate(t) == LegacyFateOf(Representative(t), cat)
  {
    t => LegacyFateOf(Representative(t), cat)
  }

  /** A vehicle whose brand neither table maps is refused by both flows,
      with no catalogue call, and so recorded as invalid. */
  lemma UnmappedBrandIsRefused(k: VKey, cat: Catalog)
    requires BrandCode(BRAND_CODES, Upper(k.brand)).None? && BrandCode(LEGACY_BRAND_CODES, k.brand).None?
    ensures FateOf(k, cat) == Refused(BrandMissing(k.brand))
    ensures LegacyFateOf(k, cat) == Refused(LegacyBrandMissing(k.brand))
  {
  }

  // ---------------------------------------------------------------------------
  // The batch loop
  // ---------------------------------------------------------------------------

  /** The outputs of a batch: the rows with the vehicle each was made for,
      the refusals with their reasons, the failures. */
  datatype Batch<R> = Batch(rows: seq<R>, succeeded: seq<Target>, invalid: map<Target, string>, failed: seq<Target>)

  /** Every entry of every bucket is the fate of one of `ts`. */
  predicate Sound<R(==,!new)>(ts: seq<Target>, fate: Target -> VFate<R>, b: Batch<R>) {
    |b.rows| == |b.succeeded|
    && (forall j :: 0 <= j < |b.succeeded| ==> b.succeeded[j] in ts && fate(b.succeeded[j]) == Valued(b.rows[j]))
    && (forall t :: t in b.invalid ==> t in ts && fate(t) == Refused(b.invalid[t]))
    && (forall j :: 0 <= j < |b.failed| ==> b.failed[j] in ts && fate(b.failed[j]) == Failed)
  }

  /** Vehicle `t` has been put where its fate says. */
  predicate Landed<R(==,!new)>(t: Target, f: VFate<R>, b: Batch<R>) {
    match f
    case Valued(_) => t in b.succeeded
    case Refused(_) => t in b.invalid
    case Failed => t in b.failed
    case Crash => false
  }

  predicate LandedUpTo<R(==,!new)>(ts: seq<Target>, k: nat, fate: Target -> VFate<R>, b: Batch<R>)
    requires k <= |ts|
  {
    forall i :: 0 <= i < k ==> Landed(ts[i], fate(ts[i]), b)
  }

  predicate Complete<R(==,!new)>(ts: seq<Target>, fate: Target -> VFate<R>, b: Batch<R>) {
    LandedUpTo(ts, |ts|, fate, b)
  }

  /** One step of the loop: where vehicle `t` goes. */
  function Add<R(==,!new)>(b: Batch<R>, t: Target, f: VFate<R>): (b': Batch<R>)
    requires !f.Crash?
    ensures Landed(t, f, b')
    ensures forall u, g :: Landed(u, g, b) ==> Landed(u, g, b')
    ensures |b'.rows| == |b.rows| + (if f.Valued? then 1 else 0)
  {
    match f
    case Valued(row) => b.(rows := b.rows + [row], succeeded := b.succeeded + [t])
    case Refused(reason) => b.(invalid := b.invalid[t := reason])
    case Failed => b.(failed := b.failed + [t])
  }

  /** Some vehicle of `ts` raises while its row is built. */
  predicate Crashes<R(!new)>(ts: seq<Target>, fate: Target -> VFate<R>) {
    exists i :: 0 <= i < |ts| && fate(ts[i]).Crash?
  }

  lemma AddStep<R(!new)>(ts: seq<Target>, k: nat, fate: Target -> VFate<R>, b: Batch<R>)
    requires k < |ts| && Sound(ts, fate, b) && LandedUpTo(ts, k, fate, b) && !fate(ts[k]).Crash?
    ensures Sound(ts, fate, Add(b, ts[k], fate(ts[k])))
    ensures LandedUpTo(ts, k + 1, fate, Add(b, ts[k], fate(ts[k])))
  {
    var b' := Add(b, ts[k], fate(ts[k]));
    forall i | 0 <= i < k + 1 ensures Landed(ts[i], fate(ts[i]), b') {
      if i < k {
        assert Landed(ts[i], fate(ts[i]), b);
      }
    }
    if fate(ts[k]).Valued? {
      assert forall j :: 0 <= j < |b.succeeded| ==> b'.succeeded[j] == b.succeeded[j] && b'.rows[j] == b.rows[j];
    }
  }

  /** The loop of `process_vehicles` / `process_vehicle_batch`: each vehicle
      in order, its outcome appended to its bucket. An exception while
      building a row aborts the whole batch. */
  method Partition<R(==,!new)>(ts: seq<Target>, fate: Target -> VFate<R>) returns (r: Result<Batch<R>, string>)
    ensures r.Success? <==> !Crashes(ts, fate)
    ensures r.Success? ==> Sound(ts, fate, r.value) && Complete(ts, fate, r.value)
    ensures r.Success? ==> |r.value.rows| <= |ts|
  {
    var b := Batch([], [], map[], []);
    var k := 0;
    while k < |ts|
      invariant 0 <= k <= |ts|
      invariant Sound(ts, fate, b) && LandedUpTo(ts, k, fate, b)
      invariant |b.rows| <= k
    {
      if fate(ts[k]).Crash? {
        return Failure("transform_to_snowflake_row raised");
      }
      AddStep(ts, k, fate, b);
      b := Add(b, ts[k], fate(ts[k]));
      k := k + 1;
    }
    assert forall i :: 0 <= i < |ts| ==> Landed(ts[i], fate(ts[i]), b);
    r := Success(b);
  }

  /** Every vehicle of a processed batch is in exactly one bucket. */
  lemma {:induction false} ExactlyOneBucket<R(!new)>(ts: seq<Target>, fate: Target -> VFate<R>, b: Batch<R>, t: Target)
    requires Sound(ts, fate, b) && Complete(ts, fate, b) && t in ts
    ensures var s := t in b.succeeded;
            var i := t in b.invalid;
            var f := t in b.failed;
            (s && !i && !f) || (!s && i && !f) || (!s && !i && f)
  {
    var n :| 0 <= n < |ts| && ts[n] == t;
    assert Landed(t, fate(t), b);
    if t in b.succeeded {
      var j :| 0 <= j < |b.succeeded| && b.succeeded[j] == t;
      assert fate(t).Valued?;
    }
    if t in b.failed {
      var j :| 0 <= j < |b.failed| && b.failed[j] == t;
      assert fate(t).Failed?;
    }
  }

  /** In a processed batch a vehicle's bucket is the one its fate names. */
  lemma FateBucket<R(!new)>(ts: seq<Target>, fate: Target -> VFate<R>, b: Batch<R>, t: Target)
    requires Sound(ts, fate, b) && Complete(ts, fate, b) && t in ts
    ensures fate(t).Valued? <==> t in b.succeeded
    ensures fate(t).Refused? <==> t in b.invalid
    ensures fate(t).Failed? <==> t in b.failed
  {
    ExactlyOneBucket(ts, fate, b, t);
    var n :| 0 <= n < |ts| && ts[n] == t;
    assert Landed(t, fate(t), b);
  }

  // ---------------------------------------------------------------------------
  // main (PostgreSQL flow): claim, process, one transaction
  // ---------------------------------------------------------------------------

  /** The consolidated vehicle table and the price table. */
  datatype FipeStore = FipeStore(vehicles: map<VKey, Row>, prices: seq<FipeRow>)

  /** How a run ended: nothing pending, committed with the number of rows
      inserted, or rolled back after the claim (the error is re-raised). */
  datatype Outcome = Idle | Committed(inserted: nat) | RolledBack

  /** The table after the outcome statements: S for the priced vehicles,
      I (no reason is written) for the refused ones, E for the failures. */
  function MainOutcomes<R(==,!new)>(t: map<VKey, Row>, b: Batch<R>): (u: map<VKey, Row>)
    ensures u.Keys == t.Keys
  {
    var t2 := SetStatus(t, Columns, Members(b.succeeded), Succeeded, map[], None).table;
    var t3 := SetStatus(t2, Columns, b.invalid.Keys, Invalid, map[], None).table;
    SetStatus(t3, Columns, Members(b.failed), Error, map[], None).table
  }

  /** Row `u` records fate `f`. */
  predicate Recorded<R(==,!new)>(u: Row, f: VFate<R>) {
    match f
    case Valued(_) => u.status == Succeeded
    case Refused(_) => u.status == Invalid
    case Failed => u.status == Error
    case Crash => false
  }

  /** A row whose columns were in the batch ends in its fate's status, with
      reason, attempts and collection time untouched. */
  lemma MainOutcomeOfRow<R(!new)>(t: map<VKey, Row>, ts: seq<Target>, fate: Target -> VFate<R>, b: Batch<R>, k: VKey)
    requires Sound(ts, fate, b) && Complete(ts, fate, b) && k in t && Columns(k) in ts
    ensures Recorded(MainOutcomes(t, b)[k], fate(Columns(k)))
    ensures MainOutcomes(t, b)[k] == t[k].(status := MainOutcomes(t, b)[k].status)
  {
    ExactlyOneBucket(ts, fate, b, Columns(k));
  }

  /** Rows whose columns were not in the batch are untouched. */
  lemma MainOutcomesKeepOthers<R(!new)>(t: map<VKey, Row>, ts: seq<Target>, fate: Target -> VFate<R>, b: Batch<R>, k: VKey)
    requires Sound(ts, fate, b) && k in t && Columns(k) !in ts
    ensures MainOutcomes(t, b)[k] == t[k]
  {
    assert Columns(k) !in b.succeeded;
    assert Columns(k) !in b.invalid;
    assert Columns(k) !in b.failed;
  }

  /** The claim followed by the outcome statements, row by row. */
  lemma ClaimThenOutcomes<R(!new)>(t: map<VKey, Row>, ts: seq<Target>, fate: Target -> VFate<R>, b: Batch<R>)
    requires Sound(ts, fate, b) && Complete(ts, fate, b)
    ensures var u := MainOutcomes(SetStatus(t, Columns, Members(ts), Processing, map[], None).table, b);
            && u.Keys == t.Keys
            && (forall k :: k in t && Columns(k) !in ts ==> u[k] == t[k])
            && (forall k :: k in t && Columns(k) in ts ==> Recorded(u[k], fate(Columns(k))) && u[k] == t[k].(status := u[k].status))
  {
    var claimed := SetStatus(t, Columns, Members(ts), Processing, map[], None).table;
    forall k | k in t && Columns(k) in ts
      ensures Recorded(MainOutcomes(claimed, b)[k], fate(Columns(k)))
      ensures MainOutcomes(claimed, b)[k] == t[k].(status := MainOutcomes(claimed, b)[k].status)
    {
      MainOutcomeOfRow(claimed, ts, fate, b, k);
    }
    forall k | k in t && Columns(k) !in ts
      ensures MainOutcomes(claimed, b)[k] == t[k]
    {
      MainOutcomesKeepOthers(claimed, ts, fate, b, k);
    }
  }

  /** The rows a committed run appends are priced vehicles of the batch. */
  lemma AppendedPrices(ts: seq<Target>, cat: Catalog, b: Batch<FipeRow>, old_: seq<FipeRow>)
    requires Sound(ts, Fates(cat), b)
    ensures var d := old_ + b.rows;
            forall j :: |old_| <= j < |d| ==>
              Target(d[j].brand, d[j].model, d[j].yearModel) in ts && FateOf(Representative(Target(d[j].brand, d[j].model, d[j].yearModel)), cat) == Valued(d[j])
  {
    var d := old_ + b.rows;
    forall j | |old_| <= j < |d|
      ensures Target(d[j].brand, d[j].model, d[j].yearModel) in ts
      ensures FateOf(Representative(Target(d[j].brand, d[j].model, d[j].yearModel)), cat) == Valued(d[j])
    {
      var n := j - |old_|;
      assert d[j] == b.rows[n];
      var t := b.succeeded[n];
      assert FateOf(Representative(t), cat) == Valued(b.rows[n]);
      assert Target(d[j].brand, d[j].model, d[j].yearModel) == t;
    }
  }

  /** A fate whose price rows carry the columns of the vehicle they were
      made for. */
  ghost predicate RowsOwnColumns(fate: Target -> VFate<FipeRow>) {
    forall t :: fate(t).Valued? ==> Target(fate(t).row.brand, fate(t).row.model, fate(t).row.yearModel) == t
  }

  lemma FatesOwnColumns(cat: Catalog)
    ensures RowsOwnColumns(Fates(cat))
  {
    forall t | Fates(cat)(t).Valued?
      ensures Target(Fates(cat)(t).row.brand, Fates(cat)(t).row.model, Fates(cat)(t).row.yearModel) == t
    {
      assert Fates(cat)(t) == FateOf(Representative(t), cat);
    }
  }

  /** Every row a batch appends belongs to a batch vehicle and is the row
      its fate made. */
  lemma AppendedRows(ts: seq<Target>, fate: Target -> VFate<FipeRow>, b: Batch<FipeRow>, old_: seq<FipeRow>)
    requires Sound(ts, fate, b) && RowsOwnColumns(fate)
    ensures var d := old_ + b.rows;
            forall j :: |old_| <= j < |d| ==>
              Target(d[j].brand, d[j].model, d[j].yearModel) in ts && fate(Target(d[j].brand, d[j].model, d[j].yearModel)) == Valued(d[j])
  {
    var d := old_ + b.rows;
    forall j | |old_| <= j < |d|
      ensures Target(d[j].brand, d[j].model, d[j].yearModel) in ts
      ensures fate(Target(d[j].brand, d[j].model, d[j].yearModel)) == Valued(d[j])
    {
      var n := j - |old_|;
      assert d[j] == b.rows[n];
      var t := b.succeeded[n];
      assert fate(t) == Valued(b.rows[n]);
    }
  }

  /** The run of `main` for any per-vehicle fate. */
  method RunMain(s: FipeStore, limit: nat, queryFails: bool, fate: Target -> VFate<FipeRow>, writeFails: bool)
    returns (s': FipeStore, out: Outcome, selected: seq<VKey>)
    requires RowsOwnColumns(fate)
    ensures selected == [] ==> s' == s && out == Idle
    ensures Distinct(selected) && forall k :: k in selected ==> k in PendingKeys(s.vehicles)
    ensures s'.vehicles.Keys == s.vehicles.Keys
    ensures forall k :: k in s.vehicles && Columns(k) !in ColumnsOf(selected) ==> s'.vehicles[k] == s.vehicles[k]
    ensures forall k :: k in s.vehicles ==> s'.vehicles[k] == s.vehicles[k].(status := s'.vehicles[k].status)
    ensures out.RolledBack? <==> selected != [] && (writeFails || Crashes(ColumnsOf(selected), fate))
    ensures out.RolledBack? ==> s'.prices == s.prices
    ensures out.RolledBack? ==> forall k :: k in s.vehicles && Columns(k) in ColumnsOf(selected) ==> s'.vehicles[k].status == Processing
    ensures out.Committed? ==> forall k :: k in s.vehicles && Columns(k) in ColumnsOf(selected) ==> Recorded(s'.vehicles[k], fate(Columns(k)))
    ensures out.Committed? ==> |s'.prices| == |s.prices| + out.inserted && s'.prices[..|s.prices|] == s.prices
    ensures out.Committed? ==> forall j :: |s.prices| <= j < |s'.prices| ==>
              var t := Target(s'.prices[j].brand, s'.prices[j].model, s'.prices[j].yearModel);
              t in ColumnsOf(selected) && fate(t) == Valued(s'.prices[j])
  {
    selected := SelectPending(s.vehicles, limit, queryFails);
    if selected == [] {
      return s, Idle, selected;
    }
    var ts := ColumnsOf(selected);
    var claimed := SetStatus(s.vehicles, Columns, Members(ts), Processing, map[], None).table;
    var r := Partition(ts, fate);
    if writeFails || r.Failure? {
      s' := FipeStore(claimed, s.prices);
      out := RolledBack;
      return;
    }
    var b := r.value;
    ClaimThenOutcomes(s.vehicles, ts, fate, b);
    AppendedRows(ts, fate, b, s.prices);
    s' := FipeStore(MainOutcomes(claimed, b), s.prices + b.rows);
    assert s'.prices[..|s.prices|] == s.prices;
    out := Committed(|b.rows|);
  }

  /** `main`: select the pending vehicles (nothing to do when there are
      none), claim them to P and commit, price them, then insert the rows
      and write S, I and E, and commit once. A database error after the
      claim (`writeFails`) or an exception while building a row rolls back
      to the claimed state. */
  method RunFipe(s: FipeStore, limit: nat, queryFails: bool, cat: Catalog, writeFails: bool)
    returns (s': FipeStore, out: Outcome, selected: seq<VKey>)
    ensures selected == [] ==> s' == s && out == Idle
    ensures Distinct(selected) && forall k :: k in selected ==> k in PendingKeys(s.vehicles)
    ensures s'.vehicles.Keys == s.vehicles.Keys
    ensures forall k :: k in s.vehicles && Columns(k) !in ColumnsOf(selected) ==> s'.vehicles[k] == s.vehicles[k]
    ensures forall k :: k in s.vehicles ==> s'.vehicles[k] == s.vehicles[k].(status := s'.vehicles[k].status)
    ensures out.RolledBack? <==> selected != [] && (writeFails || exists k :: k in selected && FateOf(k, cat).Crash?)
    ensures out.RolledBack? ==> s'.prices == s.prices
    ensures out.RolledBack? ==> forall k :: k in s.vehicles && Columns(k) in ColumnsOf(selected) ==> s'.vehicles[k].status == Processing
    ensures out.Committed? ==> forall k :: k in s.vehicles && Columns(k) in ColumnsOf(selected) ==> Recorded(s'.vehicles[k], FateOf(k, cat))
    ensures out.Committed? ==> |s'.prices| == |s.prices| + out.inserted && s'.prices[..|s.prices|] == s.prices
    ensures out.Committed? ==> forall j :: |s.prices| <= j < |s'.prices| ==>
              var t := Target(s'.prices[j].brand, s'.prices[j].model, s'.prices[j].yearModel);
              t in ColumnsOf(selected) && FateOf(Representative(t), cat) == Valued(s'.prices[j])
  {
    FatesOwnColumns(cat);
    s', out, selected := RunMain(s, limit, queryFails, Fates(cat), writeFails);
    forall k | k in s.vehicles
      ensures FateOf(k, cat) == Fates(cat)(Columns(k))
    {
      FateIgnoresYearManuf(k, cat);
    }
    CrashesOfSelected(selected, Fates(cat), k => FateOf(k, cat));
  }

  /** A batch of columns crashes exactly when one of its vehicles does, for
      any per-vehicle fate that agrees with the fate of its columns. */
  lemma CrashesOfSelected<R(!new)>(ks: seq<VKey>, fate: Target -> VFate<R>, own: VKey -> VFate<R>)
    requires forall k :: k in ks ==> own(k) == fate(Columns(k))
    ensures Crashes(ColumnsOf(ks), fate) <==> exists k :: k in ks && own(k).Crash?
  {
    var ts := ColumnsOf(ks);
    if Crashes(ts, fate) {
      var i :| 0 <= i < |ts| && fate(ts[i]).Crash?;
      assert own(ks[i]).Crash?;
    }
    if k :| k in ks && own(k).Crash? {
      var i :| 0 <= i < |ks| && ks[i] == k;
      assert fate(ts[i]).Crash?;
    }
  }

  /** The claim matches by columns and not by status, so a finished row
      that shares brand, model and model year with a selected vehicle is
      reopened to P. */
  lemma ClaimReopensSiblingRow()
    ensures var t := map[VKey("FIAT", "UNO", 2019, 2020) := Row(New, None, 0, 2, None),
                         VKey("FIAT", "UNO", 2020, 2020) := Row(Succeeded, None, 0, 1, None)];
            var u := SetStatus(t, Columns, Members(ColumnsOf([VKey("FIAT", "UNO", 2019, 2020)])), Processing, map[], None).table;
            u[VKey("FIAT", "UNO", 2020, 2020)].status == Processing
  {
    var sel := [VKey("FIAT", "UNO", 2019, 2020)];
    assert ColumnsOf(sel) == [Target("FIAT", "UNO", 2020)];
    assert Columns(VKey("FIAT", "UNO", 2020, 2020)) in Members(ColumnsOf(sel));
  }

  // ---------------------------------------------------------------------------
  // Legacy Snowflake flow: guarded statements, each committed on its own
  // ---------------------------------------------------------------------------

  /** `marca, modelo, ano = chave.split('|')`, as the legacy S and I
      statements read a key back, succeeds: `KeySplitsIff` shows the key
      splits into exactly three parts, the vehicle's own brand, model and
      year text, exactly when neither brand nor model holds the separator;
      otherwise the unpacking raises. The year stays text, which the
      database compares with the model year as a number. */
  predicate KeySplits(t: Target) {
    Lacks(t.brand, '|') && Lacks(t.model, '|')
  }

  /** The index of the first separator of `x`, `|x|` when there is none. */
  function BarIndex(x: string): (j: nat)
    ensures j <= |x| && Lacks(x[..j], '|')
    ensures j < |x| ==> x[j] == '|'
  {
    if x == [] || x[0] == '|' then 0
    else
      var j := BarIndex(x[1..]);
      assert x[..j + 1] == [x[0]] + x[1..][..j];
      j + 1
  }

  /** The pieces of `x + "|" + y` are those of `x` followed by those of `y`. */
  lemma {:induction false} SplitJoin(x: string, y: string)
    ensures Split(x + "|" + y, "|") == Split(x, "|") + Split(y, "|")
    decreases |x|
  {
    var j := BarIndex(x);
    if j == |x| {
      assert x[..j] == x;
      SplitAtBar(x, y);
      NoBarOnePiece(x);
    } else {
      var a, x' := x[..j], x[j + 1..];
      var s1 := x' + "|" + y;
      assert x == a + "|" + x';
      assert x + "|" + y == a + "|" + s1;
      SplitAtBar(a, s1);
      SplitAtBar(a, x');
      SplitJoin(x', y);
      AppendAssoc([a], Split(x', "|"), Split(y, "|"));
    }
  }

  lemma AppendAssoc<T>(p: seq<T>, q: seq<T>, r: seq<T>)
    ensures p + (q + r) == (p + q) + r
  {
  }

  /** A text is one piece exactly when it lacks the separator. */
  lemma OnePieceIff(a: string)
    ensures |Split(a, "|")| == 1 <==> Lacks(a, '|')
  {
    if !Lacks(a, '|') {
      var i :| 0 <= i < |a| && a[i] == '|';
      OccursAtBar(a, i);
      assert Contains(a, "|");
    } else {
      NoBarOnePiece(a);
    }
  }

  /** The source's split of a key gives three parts exactly when neither
      brand nor model holds the separator, and then gives the brand, the
      model and the year text, so the statement matches the vehicle's own
      columns. */
  lemma KeySplitsIff(t: Target)
    ensures KeySplits(t) <==> |Split(KeyText(t), "|")| == 3
    ensures KeySplits(t) ==> Split(KeyText(t), "|") == [t.brand, t.model, IntToString(t.yearModel)]
  {
    var y := IntToString(t.yearModel);
    IntTextLacksBar(t.yearModel);
    NoBarOnePiece(y);
    assert KeyText(t) == t.brand + "|" + (t.model + "|" + y);
    SplitJoin(t.brand, t.model + "|" + y);
    SplitJoin(t.model, y);
    OnePieceIff(t.brand);
    OnePieceIff(t.model);
    if KeySplits(t) {
      NoBarOnePiece(t.brand);
      NoBarOnePiece(t.model);
    }
  }

  /** The index of the first key of `ks` that does not split, `|ks|` when
      every one does. */
  function FirstBad(ks: seq<Target>): (n: nat)
    ensures n <= |ks|
    ensures forall j :: 0 <= j < n ==> KeySplits(ks[j])
    ensures n < |ks| ==> !KeySplits(ks[n])
  {
    if ks == [] || !KeySplits(ks[0]) then 0 else 1 + FirstBad(ks[1..])
  }

  /** How the legacy outcome statements ended: all of them ran, or the key
      of vehicle `at` did not split, so its statement raised and none after
      it ran. */
  datatype Stop = AllRan | KeyRaised(at: Target)

  /** A table after some of the legacy statements, and how they ended. */
  datatype Applied = Applied(table: map<VKey, Row>, stop: Stop)

  /** The S loop over the priced keys in batch order: each key is split,
      then `SET DS_STATUS = 'S' WHERE brand, model, model year AND
      DS_STATUS = 'P'`. */
  function SuccessStatements(t: map<VKey, Row>, ks: seq<Target>): (a: Applied)
    ensures a.table.Keys == t.Keys
    decreases |ks|
  {
    if ks == [] then Applied(t, AllRan)
    else if !KeySplits(ks[0]) then Applied(t, KeyRaised(ks[0]))
    else SuccessStatements(Finish(t, Columns, {ks[0]}, Succeeded).table, ks[1..])
  }

  /** The S loop moves every P row of the keys before the first key that
      does not split, and stops at that key. */
  lemma {:induction false} SuccessPrefix(t: map<VKey, Row>, ks: seq<Target>)
    ensures var n := FirstBad(ks);
            SuccessStatements(t, ks)
              == Applied(Finish(t, Columns, Members(ks[..n]), Succeeded).table, if n < |ks| then KeyRaised(ks[n]) else AllRan)
    decreases |ks|
  {
    var n := FirstBad(ks);
    if ks == [] || !KeySplits(ks[0]) {
      assert Members(ks[..n]) == {};
      FinishNothing(t, Columns, Succeeded);
    } else {
      var x, rest := ks[0], ks[1..];
      var t1 := Finish(t, Columns, {x}, Succeeded).table;
      assert SuccessStatements(t, ks) == SuccessStatements(t1, rest);
      assert n == 1 + FirstBad(rest);
      SuccessPrefix(t1, rest);
      TakeCons(ks, n);
      MembersCons(x, rest[..n - 1]);
      FinishTwice(t, Columns, {x}, Members(rest[..n - 1]), Succeeded);
      assert (if n - 1 < |rest| then KeyRaised(rest[n - 1]) else AllRan) == (if n < |ks| then KeyRaised(ks[n]) else AllRan);
    }
  }

  lemma TakeCons<T>(s: seq<T>, n: nat)
    requires 1 <= n <= |s|
    ensures s[..n] == [s[0]] + s[1..][..n - 1]
  {
  }

  lemma MembersCons<T(!new)>(x: T, s: seq<T>)
    ensures Members([x] + s) == {x} + Members(s)
  {
  }

  /** The refused vehicles in the order the batch first stored them in its
      dict, which is the order `update_status_invalid` visits them. */
  function InsertionOrder(ts: seq<Target>, invalid: map<Target, string>): (o: seq<Target>)
    ensures Distinct(o)
    ensures forall x :: x in o <==> x in ts && x in invalid
    decreases |ts|
  {
    if ts == [] then []
    else
      var o := InsertionOrder(ts[..|ts| - 1], invalid);
      var x := ts[|ts| - 1];
      assert ts == ts[..|ts| - 1] + [x];
      if x in invalid && x !in o then o + [x] else o
  }

  /** The stored reasons of the keys `ks`. */
  function ReasonsOf(ks: seq<Target>, reasons: map<Target, string>): (m: map<Target, Option<string>>)
    requires forall j :: 0 <= j < |ks| ==> ks[j] in reasons
    ensures m.Keys == Members(ks)
    ensures forall x :: x in m ==> m[x] == Some(reasons[x])
  {
    map x | x in Members(ks) :: Some(reasons[x])
  }

  lemma ReasonsOfCons(x: Target, ks: seq<Target>, reasons: map<Target, string>)
    requires x in reasons && forall j :: 0 <= j < |ks| ==> ks[j] in reasons
    ensures ReasonsOf([x] + ks, reasons) == ReasonsOf(ks, reasons)[x := Some(reasons[x])]
  {
    assert Members([x] + ks) == Members(ks) + {x};
  }

  /** `update_status_invalid`: per refused key in dict order, the split,
      then `SET DS_STATUS = 'I', DS_MOTIVO_ERRO = reason WHERE brand, model,
      model year AND DS_STATUS = 'P'`. */
  function InvalidStatements(t: map<VKey, Row>, ks: seq<Target>, reasons: map<Target, string>): (a: Applied)
    requires forall j :: 0 <= j < |ks| ==> ks[j] in reasons
    ensures a.table.Keys == t.Keys
    decreases |ks|
  {
    if ks == [] then Applied(t, AllRan)
    else if !KeySplits(ks[0]) then Applied(t, KeyRaised(ks[0]))
    else InvalidStatements(FinishInvalid(t, Columns, map[ks[0] := Some(reasons[ks[0]])]).table, ks[1..], reasons)
  }

  /** One I statement, then those of `ks`, is the I statements of `[x] + ks`. */
  lemma InvalidStep(t: map<VKey, Row>, x: Target, ks: seq<Target>, reasons: map<Target, string>)
    requires x in reasons && forall j :: 0 <= j < |ks| ==> ks[j] in reasons
    ensures FinishInvalid(FinishInvalid(t, Columns, map[x := Some(reasons[x])]).table, Columns, ReasonsOf(ks, reasons)).table
              == FinishInvalid(t, Columns, ReasonsOf([x] + ks, reasons)).table
  {
    ReasonsOfCons(x, ks, reasons);
    FinishInvalidTwice(t, Columns, x, Some(reasons[x]), ReasonsOf(ks, reasons));
  }

  /** The invalidation loop marks every P row of the keys before the first
      key that does not split, each with its own reason, and stops there. */
  lemma {:induction false} InvalidPrefix(t: map<VKey, Row>, ks: seq<Target>, reasons: map<Target, string>)
    requires forall j :: 0 <= j < |ks| ==> ks[j] in reasons
    ensures var n := FirstBad(ks);
            InvalidStatements(t, ks, reasons)
              == Applied(FinishInvalid(t, Columns, ReasonsOf(ks[..n], reasons)).table, if n < |ks| then KeyRaised(ks[n]) else AllRan)
    decreases |ks|
  {
    var n := FirstBad(ks);
    if ks == [] || !KeySplits(ks[0]) {
      assert ReasonsOf(ks[..n], reasons) == map[];
      FinishNothing(t, Columns, Succeeded);
    } else {
      var x, rest := ks[0], ks[1..];
      var t1 := FinishInvalid(t, Columns, map[x := Some(reasons[x])]).table;
      assert InvalidStatements(t, ks, reasons) == InvalidStatements(t1, rest, reasons);
      assert n == 1 + FirstBad(rest);
      InvalidPrefix(t1, rest, reasons);
      TakeCons(ks, n);
      InvalidStep(t, x, rest[..n - 1], reasons);
      assert (if n - 1 < |rest| then KeyRaised(rest[n - 1]) else AllRan) == (if n < |ks| then KeyRaised(ks[n]) else AllRan);
    }
  }

  /** The legacy outcome statements on the claimed table, as written: the
      S loop over the priced keys in batch order, `update_status_invalid`
      over the refused ones, then E by columns. A key that does not split
      raises, and no statement after it runs. */
  function LegacyOutcomes<R(==,!new)>(t: map<VKey, Row>, ts: seq<Target>, b: Batch<R>): (a: Applied)
    ensures a.table.Keys == t.Keys
  {
    var s := SuccessStatements(t, b.succeeded);
    if s.stop.KeyRaised? then s
    else
      var i := InvalidStatements(s.table, InsertionOrder(ts, b.invalid), b.invalid);
      if i.stop.KeyRaised? then i
      else Applied(Finish(i.table, Columns, Members(b.failed), Error).table, AllRan)
  }

  /** The legacy outcome statements as evidently intended, each matching
      the vehicle's own columns: S for the priced vehicles, I with reasons,
      then E, each only on rows still P. */
  function ColumnOutcomes<R(==,!new)>(t: map<VKey, Row>, b: Batch<R>): (u: map<VKey, Row>)
    ensures u.Keys == t.Keys
  {
    var t2 := Finish(t, Columns, Members(b.succeeded), Succeeded).table;
    var t3 := FinishInvalid(t2, Columns, Texts(b.invalid)).table;
    Finish(t3, Columns, Members(b.failed), Error).table
  }

  /** The statements as written when the S loop raises at the `n`th
      priced key: the S statements before it, and nothing else. */
  lemma OutcomesWhenSuccessRaises<R(!new)>(t: map<VKey, Row>, ts: seq<Target>, b: Batch<R>, n: nat)
    requires n == FirstBad(b.succeeded) < |b.succeeded|
    ensures LegacyOutcomes(t, ts, b)
              == Applied(Finish(t, Columns, Members(b.succeeded[..n]), Succeeded).table, KeyRaised(b.succeeded[n]))
  {
    SuccessPrefix(t, b.succeeded);
  }

  /** The statements as written when every priced key splits and the
      invalidation loop raises at the `m`th refused key: every S, the I
      statements before that key, and no E. */
  lemma OutcomesWhenRefusalRaises<R(!new)>(t: map<VKey, Row>, ts: seq<Target>, b: Batch<R>, m: nat)
    requires FirstBad(b.succeeded) == |b.succeeded|
    requires var o := InsertionOrder(ts, b.invalid); m == FirstBad(o) < |o|
    ensures var o := InsertionOrder(ts, b.invalid);
            var t2 := Finish(t, Columns, Members(b.succeeded), Succeeded).table;
            LegacyOutcomes(t, ts, b) == Applied(FinishInvalid(t2, Columns, ReasonsOf(o[..m], b.invalid)).table, KeyRaised(o[m]))
  {
    SuccessPrefix(t, b.succeeded);
    assert b.succeeded[..|b.succeeded|] == b.succeeded;
    var t2 := Finish(t, Columns, Members(b.succeeded), Succeeded).table;
    InvalidPrefix(t2, InsertionOrder(ts, b.invalid), b.invalid);
  }

  /** The statements as written when every priced and refused key splits:
      every S, every I, then E. */
  lemma OutcomesWhenAllRan<R(!new)>(t: map<VKey, Row>, ts: seq<Target>, b: Batch<R>)
    requires FirstBad(b.succeeded) == |b.succeeded|
    requires var o := InsertionOrder(ts, b.invalid); FirstBad(o) == |o|
    ensures var o := InsertionOrder(ts, b.invalid);
            var t2 := Finish(t, Columns, Members(b.succeeded), Succeeded).table;
            var t3 := FinishInvalid(t2, Columns, ReasonsOf(o, b.invalid)).table;
            LegacyOutcomes(t, ts, b) == Applied(Finish(t3, Columns, Members(b.failed), Error).table, AllRan)
  {
    SuccessPrefix(t, b.succeeded);
    assert b.succeeded[..|b.succeeded|] == b.succeeded;
    var t2 := Finish(t, Columns, Members(b.succeeded), Succeeded).table;
    var o := InsertionOrder(ts, b.invalid);
    InvalidPrefix(t2, o, b.invalid);
    assert o[..|o|] == o;
  }

  /** When every priced and refused key splits, the statements as written
      all run and agree with the column outcomes. */
  lemma LegacyOutcomesWhenKeysSplit<R(!new)>(t: map<VKey, Row>, ts: seq<Target>, b: Batch<R>)
    requires forall x :: x in b.invalid ==> x in ts && KeySplits(x)
    requires forall j :: 0 <= j < |b.succeeded| ==> KeySplits(b.succeeded[j])
    ensures LegacyOutcomes(t, ts, b) == Applied(ColumnOutcomes(t, b), AllRan)
  {
    var o := InsertionOrder(ts, b.invalid);
    assert FirstBad(o) == |o|;
    OutcomesWhenAllRan(t, ts, b);
    assert ReasonsOf(o, b.invalid) == Texts(b.invalid);
  }

  /** Some vehicle of `ts` gets a price row, so the insert runs. */
  predicate SomePriced<R(!new)>(ts: seq<Target>, fate: Target -> VFate<R>) {
    exists i :: 0 <= i < |ts| && fate(ts[i]).Valued?
  }

  /** Some priced or refused vehicle of `ts` has a key the legacy
      statements cannot split. */
  predicate SomeKeyBreaks<R(!new)>(ts: seq<Target>, fate: Target -> VFate<R>) {
    exists i :: 0 <= i < |ts| && (fate(ts[i]).Valued? || fate(ts[i]).Refused?) && !KeySplits(ts[i])
  }

  /** A processed batch has rows exactly when some vehicle is priced. */
  lemma PricedHasRows<R(!new)>(ts: seq<Target>, fate: Target -> VFate<R>, b: Batch<R>)
    requires Sound(ts, fate, b) && Complete(ts, fate, b)
    ensures SomePriced(ts, fate) <==> b.rows != []
  {
    if SomePriced(ts, fate) {
      var i :| 0 <= i < |ts| && fate(ts[i]).Valued?;
      assert Landed(ts[i], fate(ts[i]), b);
    }
    if b.rows != [] {
      var x := b.succeeded[0];
      var i :| 0 <= i < |ts| && ts[i] == x;
      assert fate(ts[i]).Valued?;
    }
  }

  /** Where the statements as written stop, read off the batch: the S loop
      raises exactly when a priced key does not split, and otherwise the
      invalidation loop raises exactly when a refused key does not. */
  lemma StopOfBatch<R(!new)>(t: map<VKey, Row>, ts: seq<Target>, fate: Target -> VFate<R>, b: Batch<R>)
    requires Sound(ts, fate, b) && Complete(ts, fate, b)
    ensures var n := FirstBad(b.succeeded);
            var o := InsertionOrder(ts, b.invalid);
            && (n < |b.succeeded| ==> b.succeeded[n] in ts && fate(b.succeeded[n]).Valued?)
            && (FirstBad(o) < |o| ==> o[FirstBad(o)] in ts && fate(o[FirstBad(o)]).Refused?)
            && (SomeKeyBreaks(ts, fate) <==> n < |b.succeeded| || FirstBad(o) < |o|)
  {
    var n := FirstBad(b.succeeded);
    var o := InsertionOrder(ts, b.invalid);
    var m := FirstBad(o);
    if SomeKeyBreaks(ts, fate) {
      var i :| 0 <= i < |ts| && (fate(ts[i]).Valued? || fate(ts[i]).Refused?) && !KeySplits(ts[i]);
      assert Landed(ts[i], fate(ts[i]), b);
      if fate(ts[i]).Valued? {
        var j :| 0 <= j < |b.succeeded| && b.succeeded[j] == ts[i];
        assert n <= j;
      } else {
        assert ts[i] in o;
        var j :| 0 <= j < |o| && o[j] == ts[i];
        assert m <= j;
      }
    }
    if n < |b.succeeded| {
      var i :| 0 <= i < |ts| && ts[i] == b.succeeded[n];
    }
    if m < |o| {
      assert o[m] in b.invalid;
      var i :| 0 <= i < |ts| && ts[i] == o[m];
    }
  }

  /** The statements as written raise exactly when some priced or refused
      vehicle's key does not split, and then at such a vehicle of the batch. */
  lemma LegacyStop<R(!new)>(t: map<VKey, Row>, ts: seq<Target>, fate: Target -> VFate<R>, b: Batch<R>)
    requires Sound(ts, fate, b) && Complete(ts, fate, b)
    ensures var a := LegacyOutcomes(t, ts, b);
            && (a.stop.KeyRaised? <==> SomeKeyBreaks(ts, fate))
            && (a.stop.KeyRaised? ==>
                  a.stop.at in ts && !KeySplits(a.stop.at) && (fate(a.stop.at).Valued? || fate(a.stop.at).Refused?))
  {
    StopOfBatch(t, ts, fate, b);
    var n := FirstBad(b.succeeded);
    var o := InsertionOrder(ts, b.invalid);
    var m := FirstBad(o);
    if n < |b.succeeded| {
      OutcomesWhenSuccessRaises(t, ts, b, n);
    } else if m < |o| {
      OutcomesWhenRefusalRaises(t, ts, b, m);
    } else {
      OutcomesWhenAllRan(t, ts, b);
    }
  }

  /** The column outcomes put a claimed row of the batch in its fate's
      status, with the refusal's reason for I. */
  lemma ColumnOutcomeOfRow<R(!new)>(t: map<VKey, Row>, ts: seq<Target>, fate: Target -> VFate<R>, b: Batch<R>, k: VKey)
    requires Sound(ts, fate, b) && Complete(ts, fate, b) && k in t && Columns(k) in ts && t[k].status == Processing
    ensures Recorded(ColumnOutcomes(t, b)[k], fate(Columns(k)))
    ensures fate(Columns(k)).Refused? ==> ColumnOutcomes(t, b)[k].reason == Some(fate(Columns(k)).reason)
  {
    ExactlyOneBucket(ts, fate, b, Columns(k));
  }

  /** A P row after the S statements of the first `n` priced keys: in S
      when its columns are among them, and as it was otherwise. */
  lemma RowAfterSuccesses<R(!new)>(t: map<VKey, Row>, ts: seq<Target>, fate: Target -> VFate<R>, b: Batch<R>, k: VKey, n: nat)
    requires Sound(ts, fate, b) && k in t && t[k].status == Processing && n <= |b.succeeded|
    ensures var u := Finish(t, Columns, Members(b.succeeded[..n]), Succeeded).table[k];
            && (Columns(k) in b.succeeded[..n] ==> u == t[k].(status := Succeeded) && fate(Columns(k)).Valued?)
            && (Columns(k) !in b.succeeded[..n] ==> u == t[k])
  {
    if Columns(k) in b.succeeded[..n] {
      var j :| 0 <= j < n && b.succeeded[..n][j] == Columns(k);
      assert b.succeeded[j] == Columns(k);
    }
  }

  /** A row after the I statements of the refused keys `ks`: a P row of
      those columns in I with its refusal's reason, any other row as it
      was. */
  lemma RowAfterRefusals<R(!new)>(t: map<VKey, Row>, ts: seq<Target>, fate: Target -> VFate<R>, b: Batch<R>, k: VKey, ks: seq<Target>)
    requires Sound(ts, fate, b) && k in t && forall j :: 0 <= j < |ks| ==> ks[j] in b.invalid
    ensures var u := FinishInvalid(t, Columns, ReasonsOf(ks, b.invalid)).table[k];
            && (t[k].status == Processing && Columns(k) in ks ==>
                  u.status == Invalid && fate(Columns(k)).Refused? && u.reason == Some(fate(Columns(k)).reason))
            && (t[k].status != Processing || Columns(k) !in ks ==> u == t[k])
  {
  }

  /** Row `u` records fate `f`, with the refusal's reason for I. */
  predicate RecordedWithReason<R(==,!new)>(u: Row, f: VFate<R>) {
    Recorded(u, f) && (f.Refused? ==> u.reason == Some(f.reason))
  }

  /** What the statements as written, ending in `stop`, may leave in a P
      row `r` of the batch whose columns `c` have fate `fate(c)`: the row
      as it was, or its fate recorded; its fate when every statement ran;
      the row as it was when its own key raised or it failed; its S when a
      later refused key raised; and its P when a priced key raised before
      its I. */
  predicate RowOutcome<R(==,!new)>(r: Row, u: Row, stop: Stop, fate: Target -> VFate<R>, c: Target) {
    var f := fate(c);
    && (u == r || RecordedWithReason(u, f))
    && (stop.AllRan? ==> RecordedWithReason(u, f))
    && (stop.KeyRaised? && (c == stop.at || f.Failed?) ==> u == r)
    && (stop.KeyRaised? && fate(stop.at).Refused? && f.Valued? ==> RecordedWithReason(u, f))
    && (stop.KeyRaised? && fate(stop.at).Valued? && f.Refused? ==> u == r)
  }

  /** A P row of the batch when the S loop raised at the `n`th priced key. */
  lemma RowWhenSuccessRaises<R(!new)>(t: map<VKey, Row>, ts: seq<Target>, fate: Target -> VFate<R>, b: Batch<R>, k: VKey, n: nat)
    requires Sound(ts, fate, b) && k in t && t[k].status == Processing
    requires n == FirstBad(b.succeeded) < |b.succeeded|
    ensures RowOutcome(t[k], Finish(t, Columns, Members(b.succeeded[..n]), Succeeded).table[k], KeyRaised(b.succeeded[n]), fate, Columns(k))
  {
    RowAfterSuccesses(t, ts, fate, b, k, n);
    assert fate(b.succeeded[n]).Valued?;
  }

  /** A P row of the batch when the invalidation loop raised at the `m`th
      refused key. */
  lemma RowWhenRefusalRaises<R(!new)>(t: map<VKey, Row>, ts: seq<Target>, fate: Target -> VFate<R>, b: Batch<R>, k: VKey, m: nat)
    requires Sound(ts, fate, b) && Complete(ts, fate, b) && k in t && t[k].status == Processing && Columns(k) in ts
    requires var o := InsertionOrder(ts, b.invalid); m == FirstBad(o) < |o|
    ensures var o := InsertionOrder(ts, b.invalid);
            var t2 := Finish(t, Columns, Members(b.succeeded), Succeeded).table;
            RowOutcome(t[k], FinishInvalid(t2, Columns, ReasonsOf(o[..m], b.invalid)).table[k], KeyRaised(o[m]), fate, Columns(k))
  {
    var o := InsertionOrder(ts, b.invalid);
    var c := Columns(k);
    assert o[m] in b.invalid;
    assert fate(o[m]).Refused?;
    FateBucket(ts, fate, b, c);
    assert b.succeeded[..|b.succeeded|] == b.succeeded;
    RowAfterSuccesses(t, ts, fate, b, k, |b.succeeded|);
    var t2 := Finish(t, Columns, Members(b.succeeded), Succeeded).table;
    RowAfterRefusals(t2, ts, fate, b, k, o[..m]);
    var u := FinishInvalid(t2, Columns, ReasonsOf(o[..m], b.invalid)).table[k];
    if fate(c).Valued? {
      assert u == t2[k] == t[k].(status := Succeeded);
    } else if fate(c).Refused? {
      assert t2[k] == t[k];
      if c == o[m] {
        assert c !in o[..m];
      }
    } else {
      assert c !in o[..m];
      assert u == t[k];
    }
  }

  /** A P row of the batch when every statement ran. */
  lemma RowWhenAllRan<R(!new)>(t: map<VKey, Row>, ts: seq<Target>, fate: Target -> VFate<R>, b: Batch<R>, k: VKey)
    requires Sound(ts, fate, b) && Complete(ts, fate, b) && k in t && t[k].status == Processing && Columns(k) in ts
    ensures var o := InsertionOrder(ts, b.invalid);
            var t2 := Finish(t, Columns, Members(b.succeeded), Succeeded).table;
            var t3 := FinishInvalid(t2, Columns, ReasonsOf(o, b.invalid)).table;
            RowOutcome(t[k], Finish(t3, Columns, Members(b.failed), Error).table[k], AllRan, fate, Columns(k))
  {
    var o := InsertionOrder(ts, b.invalid);
    ExactlyOneBucket(ts, fate, b, Columns(k));
    assert b.succeeded[..|b.succeeded|] == b.succeeded;
    RowAfterSuccesses(t, ts, fate, b, k, |b.succeeded|);
    var t2 := Finish(t, Columns, Members(b.succeeded), Succeeded).table;
    RowAfterRefusals(t2, ts, fate, b, k, o);
    assert Landed(Columns(k), fate(Columns(k)), b);
  }

  /** A P row of the batch after the statements as written, as
      `RowOutcome` describes. */
  lemma LegacyOutcomeOfRow<R(!new)>(t: map<VKey, Row>, ts: seq<Target>, fate: Target -> VFate<R>, b: Batch<R>, k: VKey)
    requires Sound(ts, fate, b) && Complete(ts, fate, b) && k in t && Columns(k) in ts && t[k].status == Processing
    ensures RowOutcome(t[k], LegacyOutcomes(t, ts, b).table[k], LegacyOutcomes(t, ts, b).stop, fate, Columns(k))
  {
    var n := FirstBad(b.succeeded);
    var o := InsertionOrder(ts, b.invalid);
    var m := FirstBad(o);
    if n < |b.succeeded| {
      OutcomesWhenSuccessRaises(t, ts, b, n);
      RowWhenSuccessRaises(t, ts, fate, b, k, n);
    } else if m < |o| {
      OutcomesWhenRefusalRaises(t, ts, b, m);
      RowWhenRefusalRaises(t, ts, fate, b, k, m);
    } else {
      OutcomesWhenAllRan(t, ts, b);
      RowWhenAllRan(t, ts, fate, b, k);
    }
  }

  /** The statements as written touch only P rows of the batch. */
  lemma LegacyOutcomesFrame<R(!new)>(t: map<VKey, Row>, ts: seq<Target>, fate: Target -> VFate<R>, b: Batch<R>, k: VKey)
    requires Sound(ts, fate, b) && k in t && (t[k].status != Processing || Columns(k) !in ts)
    ensures LegacyOutcomes(t, ts, b).table[k] == t[k]
  {
    var n := FirstBad(b.succeeded);
    var o := InsertionOrder(ts, b.invalid);
    var m := FirstBad(o);
    assert Columns(k) in b.succeeded[..n] ==> Columns(k) in b.succeeded;
    var t2 := Finish(t, Columns, Members(b.succeeded[..n]), Succeeded).table;
    assert t2[k] == t[k];
    if n < |b.succeeded| {
      OutcomesWhenSuccessRaises(t, ts, b, n);
    } else {
      assert b.succeeded[..n] == b.succeeded;
      assert Columns(k) in o[..m] ==> Columns(k) in o;
      if m < |o| {
        OutcomesWhenRefusalRaises(t, ts, b, m);
      } else {
        assert o[..m] == o;
        OutcomesWhenAllRan(t, ts, b);
      }
    }
  }

  /** The guarded statements never touch a finished row. */
  lemma GuardsSpareFinished<R(!new)>(t: map<VKey, Row>, ts: seq<Target>, fate: Target -> VFate<R>, b: Batch<R>, k: VKey)
    requires Sound(ts, fate, b) && k in t && !IsPending(t[k].status)
    ensures LegacyOutcomes(Claim(t, Columns, Members(ts)).table, ts, b).table[k] == t[k]
  {
    var claimed := Claim(t, Columns, Members(ts)).table;
    assert claimed[k] == t[k];
    LegacyOutcomesFrame(claimed, ts, fate, b, k);
  }

  /** The legacy claim followed by the column outcomes, row by row:
      finished rows and rows outside the batch are untouched; every other
      row of the batch ends in its fate's status. */
  lemma LegacyClaimThenOutcomes<R(!new)>(t: map<VKey, Row>, ts: seq<Target>, fate: Target -> VFate<R>, b: Batch<R>)
    requires Sound(ts, fate, b) && Complete(ts, fate, b)
    ensures var u := ColumnOutcomes(Claim(t, Columns, Members(ts)).table, b);
            && (forall k :: k in t && Columns(k) !in ts ==> u[k] == t[k])
            && (forall k :: k in t && !IsPending(t[k].status) ==> u[k] == t[k])
            && (forall k :: k in t && IsPending(t[k].status) && Columns(k) in ts ==>
                  Recorded(u[k], fate(Columns(k)))
                  && (fate(Columns(k)).Refused? ==> u[k].reason == Some(fate(Columns(k)).reason)))
  {
    var claimed := Claim(t, Columns, Members(ts)).table;
    var u := ColumnOutcomes(claimed, b);
    forall k | k in t && Columns(k) !in ts
      ensures u[k] == t[k]
    {
      assert Columns(k) !in b.succeeded && Columns(k) !in b.invalid && Columns(k) !in b.failed;
      assert claimed[k] == t[k];
    }
    forall k | k in t && !IsPending(t[k].status)
      ensures u[k] == t[k]
    {
      assert claimed[k] == t[k];
      var t2 := Finish(claimed, Columns, Members(b.succeeded), Succeeded).table;
      assert t2[k] == t[k];
      var t3 := FinishInvalid(t2, Columns, Texts(b.invalid)).table;
      assert t3[k] == t[k];
    }
    forall k | k in t && IsPending(t[k].status) && Columns(k) in ts
      ensures Recorded(u[k], fate(Columns(k)))
      ensures fate(Columns(k)).Refused? ==> u[k].reason == Some(fate(Columns(k)).reason)
    {
      assert claimed[k].status == Processing;
      ColumnOutcomeOfRow(claimed, ts, fate, b, k);
    }
  }

  /** A brand holding the separator, as written: the vehicle is priced and
      its row inserted, but its S statement raises, so the vehicle stays P. */
  lemma BarKeyStaysClaimed()
    ensures var k := VKey("A|B", "C", 2019, 2020);
            var a := LegacyOutcomes(map[k := Row(Processing, None, 0, 1, None)], [Columns(k)], Batch([0], [Columns(k)], map[], []));
            a.stop == KeyRaised(Columns(k)) && a.table[k].status == Processing
  {
    var x := Target("A|B", "C", 2020);
    assert "A|B"[1] == '|';
    KeySplitsIff(x);
    assert !KeySplits(x);
  }

  /** The legacy claim alone: pending rows sharing columns with the batch
      become P and nothing else changes. */
  lemma ClaimOnly(t: map<VKey, Row>, ts: seq<Target>)
    ensures var c := Claim(t, Columns, Members(ts)).table;
            && c.Keys == t.Keys
            && (forall k :: k in t && Columns(k) !in ts ==> c[k] == t[k])
            && (forall k :: k in t && !IsPending(t[k].status) ==> c[k] == t[k])
            && (forall k :: k in t && IsPending(t[k].status) && Columns(k) in ts ==> c[k] == t[k].(status := Processing))
  {
  }

  /** How a legacy run ended: nothing pending or every statement ran; an
      exception while building a row, or from the insert, after the claim
      (nothing inserted, no outcome written); or a key that the outcome
      statements could not split, after the insert. The flow re-raises in
      the last three. */
  datatype LegacyEnd = Done | RowRaised | InsertRaised | StatementRaised(key: Target)

  /** What a legacy run ending in `end` leaves in a pending row of the
      batch, claimed as `r`, with columns `c` and fate `f`: the claimed row
      when a row or the insert raised; the claimed row or its fate recorded
      when a key raised, and the claimed row when that key is its own or it
      failed; its fate recorded, with a refusal's reason, when every
      statement ran. */
  predicate RunRowOutcome<R(==,!new)>(r: Row, u: Row, end: LegacyEnd, f: VFate<R>, c: Target) {
    && (end.RowRaised? || end.InsertRaised? ==> u == r)
    && (end.StatementRaised? ==> u == r || RecordedWithReason(u, f))
    && (end.StatementRaised? && (c == end.key || f.Failed?) ==> u == r)
    && (end.Done? ==> RecordedWithReason(u, f))
  }

  /** The legacy run for any per-vehicle fate; `writeFails` is a database
      error from the insert. `b` is the batch whose rows were inserted. */
  method RunLegacy<R(==,!new)>(t: map<VKey, Row>, prices: seq<R>, limit: nat, queryFails: bool, fate: Target -> VFate<R>, writeFails: bool)
    returns (t': map<VKey, Row>, prices': seq<R>, selected: seq<VKey>, b: Batch<R>, end: LegacyEnd)
    ensures selected == [] ==> t' == t && prices' == prices && end == Done
    ensures Distinct(selected) && forall k :: k in selected ==> k in PendingKeys(t)
    ensures t'.Keys == t.Keys
    ensures forall k :: k in t && Columns(k) !in ColumnsOf(selected) ==> t'[k] == t[k]
    ensures forall k :: k in t && !IsPending(t[k].status) ==> t'[k] == t[k]
    ensures end.RowRaised? <==> Crashes(ColumnsOf(selected), fate)
    ensures end.InsertRaised? <==> !Crashes(ColumnsOf(selected), fate) && writeFails && SomePriced(ColumnsOf(selected), fate)
    ensures end.StatementRaised? <==>
              !Crashes(ColumnsOf(selected), fate) && !(writeFails && SomePriced(ColumnsOf(selected), fate))
              && SomeKeyBreaks(ColumnsOf(selected), fate)
    ensures end.RowRaised? || end.InsertRaised? ==> prices' == prices
    ensures end.StatementRaised? ==>
              end.key in ColumnsOf(selected) && !KeySplits(end.key) && (fate(end.key).Valued? || fate(end.key).Refused?)
    ensures forall k :: k in t && IsPending(t[k].status) && Columns(k) in ColumnsOf(selected) ==>
              RunRowOutcome(t[k].(status := Processing), t'[k], end, fate(Columns(k)), Columns(k))
    ensures prices' == prices + b.rows && |b.succeeded| == |b.rows|
    ensures forall j :: 0 <= j < |b.rows| ==> b.succeeded[j] in ColumnsOf(selected) && fate(b.succeeded[j]) == Valued(b.rows[j])
  {
    selected := SelectPending(t, limit, queryFails);
    b := Batch([], [], map[], []);
    if selected == [] {
      return t, prices, selected, b, Done;
    }
    var ts := ColumnsOf(selected);
    var claimed := Claim(t, Columns, Members(ts)).table;
    ClaimOnly(t, ts);
    var r := Partition(ts, fate);
    if r.Failure? {
      return claimed, prices, selected, b, RowRaised;
    }
    PricedHasRows(ts, fate, r.value);
    if writeFails && r.value.rows != [] {
      return claimed, prices, selected, b, InsertRaised;
    }
    b := r.value;
    prices' := prices + b.rows;
    var a := LegacyOutcomes(claimed, ts, b);
    t' := a.table;
    end := if a.stop.KeyRaised? then StatementRaised(a.stop.at) else Done;
    LegacyStop(claimed, ts, fate, b);
    forall k | k in t && (!IsPending(t[k].status) || Columns(k) !in ts)
      ensures t'[k] == t[k]
    {
      LegacyOutcomesFrame(claimed, ts, fate, b, k);
    }
    forall k | k in t && IsPending(t[k].status) && Columns(k) in ts
      ensures RunRowOutcome(t[k].(status := Processing), t'[k], end, fate(Columns(k)), Columns(k))
    {
      LegacyOutcomeOfRow(claimed, ts, fate, b, k);
    }
  }

  /** The legacy flow: select, claim N/E to P (its row count is not
      checked, so vehicles already P are priced again), price the batch,
      insert the rows, then the S loop, `update_status_invalid` and the E
      statement. Finished rows are never touched. An exception while
      building a row or from the insert leaves the claimed rows P with
      nothing inserted; a key that does not split leaves the rest of the
      outcomes unwritten after the insert; otherwise every other row
      sharing columns with the batch ends in its fate's status. */
  method RunLegacyFipe(t: map<VKey, Row>, prices: seq<LegacyPrice>, limit: nat, queryFails: bool, cat: Catalog, writeFails: bool)
    returns (t': map<VKey, Row>, prices': seq<LegacyPrice>, selected: seq<VKey>, b: Batch<LegacyPrice>, end: LegacyEnd)
    ensures selected == [] ==> t' == t && prices' == prices && end == Done
    ensures Distinct(selected) && forall k :: k in selected ==> k in PendingKeys(t)
    ensures t'.Keys == t.Keys
    ensures forall k :: k in t && Columns(k) !in ColumnsOf(selected) ==> t'[k] == t[k]
    ensures forall k :: k in t && !IsPending(t[k].status) ==> t'[k] == t[k]
    ensures LegacyEndMeans(selected, cat, writeFails, end)
    ensures end.RowRaised? || end.InsertRaised? ==> prices' == prices
    ensures end.StatementRaised? ==> end.key in ColumnsOf(selected) && !KeySplits(end.key)
    ensures forall k :: k in t && IsPending(t[k].status) && Columns(k) in ColumnsOf(selected) ==>
              RunRowOutcome(t[k].(status := Processing), t'[k], end, LegacyFateOf(k, cat), Columns(k))
    ensures prices' == prices + b.rows && |b.succeeded| == |b.rows|
    ensures forall j :: 0 <= j < |b.rows| ==>
              b.succeeded[j] in ColumnsOf(selected) && LegacyFateOf(Representative(b.succeeded[j]), cat) == Valued(b.rows[j])
  {
    var fate := LegacyFates(cat);
    t', prices', selected, b, end := RunLegacy(t, prices, limit, queryFails, fate, writeFails);
    LegacyEndOfSelected(selected, cat, writeFails, end);
    LegacyRowsOfSelected(t, t', ColumnsOf(selected), cat, end);
  }

  /** The end of a legacy run on `selected`, by each vehicle's own legacy
      fate: a row raised exactly when some vehicle crashes; otherwise the
      insert raised exactly when it failed with some vehicle priced;
      otherwise a key raised exactly when some priced or refused vehicle's
      key does not split. */
  predicate LegacyEndMeans(selected: seq<VKey>, cat: Catalog, writeFails: bool, end: LegacyEnd) {
    var crash := exists k :: k in selected && LegacyFateOf(k, cat).Crash?;
    var priced := exists k :: k in selected && LegacyFateOf(k, cat).Valued?;
    && (end.RowRaised? <==> crash)
    && (end.InsertRaised? <==> !crash && writeFails && priced)
    && (end.StatementRaised? <==>
          !crash && !(writeFails && priced)
          && exists k :: k in selected && (LegacyFateOf(k, cat).Valued? || LegacyFateOf(k, cat).Refused?) && !KeySplits(Columns(k)))
  }

  /** How a legacy run on `selected` ended, read through each vehicle's own
      legacy fate rather than its columns'. */
  lemma LegacyEndOfSelected(selected: seq<VKey>, cat: Catalog, writeFails: bool, end: LegacyEnd)
    requires var ts := ColumnsOf(selected); var fate := LegacyFates(cat);
             && (end.RowRaised? <==> Crashes(ts, fate))
             && (end.InsertRaised? <==> !Crashes(ts, fate) && writeFails && SomePriced(ts, fate))
             && (end.StatementRaised? <==> !Crashes(ts, fate) && !(writeFails && SomePriced(ts, fate)) && SomeKeyBreaks(ts, fate))
    ensures LegacyEndMeans(selected, cat, writeFails, end)
  {
    var fate := LegacyFates(cat);
    forall k | k in selected
      ensures LegacyFateOf(k, cat) == fate(Columns(k))
    {
      LegacyFateIgnoresYearManuf(k, cat);
    }
    CrashesOfSelected(selected, fate, k => LegacyFateOf(k, cat));
    OutcomesOfSelected(selected, fate, k => LegacyFateOf(k, cat));
  }

  /** The rows a legacy run leaves, read through each vehicle's own legacy
      fate rather than its columns'. */
  lemma LegacyRowsOfSelected(t: map<VKey, Row>, t': map<VKey, Row>, ts: seq<Target>, cat: Catalog, end: LegacyEnd)
    requires t'.Keys == t.Keys
    requires forall k :: k in t && IsPending(t[k].status) && Columns(k) in ts ==>
               RunRowOutcome(t[k].(status := Processing), t'[k], end, LegacyFates(cat)(Columns(k)), Columns(k))
    ensures forall k :: k in t && IsPending(t[k].status) && Columns(k) in ts ==>
              RunRowOutcome(t[k].(status := Processing), t'[k], end, LegacyFateOf(k, cat), Columns(k))
  {
    forall k | k in t && IsPending(t[k].status) && Columns(k) in ts
      ensures RunRowOutcome(t[k].(status := Processing), t'[k], end, LegacyFateOf(k, cat), Columns(k))
    {
      LegacyFateIgnoresYearManuf(k, cat);
      assert LegacyFateOf(k, cat) == LegacyFates(cat)(Columns(k));
    }
  }

  /** Whether some selected vehicle is priced, or priced or refused with a
      key that does not split, read through its columns or its own fate. */
  lemma OutcomesOfSelected<R(!new)>(ks: seq<VKey>, fate: Target -> VFate<R>, own: VKey -> VFate<R>)
    requires forall k :: k in ks ==> own(k) == fate(Columns(k))
    ensures SomePriced(ColumnsOf(ks), fate) <==> exists k :: k in ks && own(k).Valued?
    ensures SomeKeyBreaks(ColumnsOf(ks), fate) <==>
              exists k :: k in ks && (own(k).Valued? || own(k).Refused?) && !KeySplits(Columns(k))
  {
    var ts := ColumnsOf(ks);
    if SomePriced(ts, fate) {
      var i :| 0 <= i < |ts| && fate(ts[i]).Valued?;
      assert own(ks[i]).Valued?;
    }
    if k :| k in ks && own(k).Valued? {
      var i :| 0 <= i < |ks| && ks[i] == k;
      assert fate(ts[i]).Valued?;
    }
    if SomeKeyBreaks(ts, fate) {
      var i :| 0 <= i < |ts| && (fate(ts[i]).Valued? || fate(ts[i]).Refused?) && !KeySplits(ts[i]);
      assert ks[i] in ks && Columns(ks[i]) == ts[i];
    }
    if k :| k in ks && (own(k).Valued? || own(k).Refused?) && !KeySplits(Columns(k)) {
      var i :| 0 <= i < |ks| && ks[i] == k;
      assert ts[i] == Columns(k);
    }
  }

}
