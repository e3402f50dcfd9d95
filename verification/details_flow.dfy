/** The plate-details runs: the PostgreSQL flow (`main_details.py`), which
    partitions a batch with the AnyCar client and writes every outcome in one
    transaction after a committed claim, and the legacy Snowflake flow, whose
    guarded statements each commit on their own. */
module DetailsFlow {
  import opened Wrappers
  import opened PlateApi
  import opened Schemas
  import opened WorkStatus
  import Plates
  import LegacyBatch

  // ---------------------------------------------------------------------------
  // process_plates (PostgreSQL flow)
  // ---------------------------------------------------------------------------

  /** What one plate turns into: an enriched row, an invalid entry with its
      reason, a retryable failure, or an exception that aborts the batch. */
  datatype Fate = Enriched(row: PlateRow) | Refused(reason: Option<string>) | Retry | Crash

  /** The reason stored for a refusal, `vehicle_data.get("reason", "UNKNOWN")`
      handed to the driver as it is: a text is stored as that text and a
      JSON null as NULL. */
  function ReasonText(reason: Json): (s: Option<string>)
    ensures reason.JStr? ==> s == Some(reason.s)
    ensures s.None? <==> reason.JNull?
  {
    match reason
    case JStr(t) => Some(t)
    case JNull => None
    case _ => Some("UNKNOWN")
  }

  /** The fate of one plate in `process_plates`, given what the client's
      `query_plate` answers for it: a plate that does not validate is
      invalid without any query; an empty answer and nothing at all are
      failures; an answer whose `status` is "invalid" is a refusal with its
      reason and one whose `status` is 429 a failure, whether the client or
      the record itself says so; any other record becomes a row unless the
      row cannot be built. */
  function FateOf(plate: string, query: string -> Lookup): Fate {
    if Plates.Normalize(plate).None? then Refused(Some(INVALID_PLATE_FORMAT))
    else if query(plate).Found? && |query(plate).record| == 0 then Retry
    else match AsSeen(query(plate))
      case Found(rec) =>
        (match TransformPlateRow(plate, rec)
         case Some(row) => Enriched(row)
         case None => Crash)
      case Rejected(reason) => Refused(ReasonText(reason))
      case RateLimited => Retry
      case NoData => Retry
  }

  /** A record that itself says `status: "invalid"` refuses the plate with
      its own reason (`UNKNOWN` when it has none, NULL when that is null),
      and one that says `status: 429` leaves it for a retry. */
  lemma RecordStatusDecides(plate: string, query: string -> Lookup)
    requires Plates.Normalize(plate).Some? && query(plate).Found?
    ensures var rec := query(plate).record;
            Get(rec, "status") == JStr("invalid") ==>
              FateOf(plate, query) == Refused(if "reason" in rec then ReasonText(rec["reason"]) else Some("UNKNOWN"))
    ensures Get(query(plate).record, "status") == JNum(429) ==> FateOf(plate, query) == Retry
    ensures var rec := query(plate).record;
            Get(rec, "status") == JStr("invalid") && "reason" in rec && rec["reason"] == JNull ==>
              FateOf(plate, query) == Refused(None)
  {
  }

  /** The plates of `plates` that `valid` accepts, in order. */
  function Keep(plates: seq<string>, valid: string -> bool): (v: seq<string>)
    ensures |v| <= |plates|
  {
    if |plates| == 0 then []
    else
      var rest := Keep(plates[..|plates| - 1], valid);
      var p := plates[|plates| - 1];
      if valid(p) then rest + [p] else rest
  }

  lemma {:induction false} KeepMembers(plates: seq<string>, valid: string -> bool)
    ensures forall p :: p in Keep(plates, valid) <==> p in plates && valid(p)
  {
    if |plates| > 0 {
      var init := plates[..|plates| - 1];
      KeepMembers(init, valid);
      assert plates == init + [plates[|plates| - 1]];
    }
  }

  /** `client.validate_plate`. */
  function Validates(): (valid: string -> bool)
    ensures forall p :: valid(p) == Plates.Normalize(p).Some?
  {
    p => Plates.Normalize(p).Some?
  }

  /** The plates the client is asked about, in order. */
  function ValidPlates(plates: seq<string>): (v: seq<string>)
    ensures forall p :: p in v <==> p in plates && Plates.Normalize(p).Some?
  {
    KeepMembers(plates, Validates());
    Keep(plates, Validates())
  }

  /** The three outputs of `process_plates`. */
  datatype Batch = Batch(rows: seq<PlateRow>, invalid: map<string, Option<string>>, failed: seq<string>)

  function RowKeys(rows: seq<PlateRow>): (ks: set<string>)
    ensures forall p :: p in ks <==> exists j :: 0 <= j < |rows| && rows[j].plate == p
  {
    set j | 0 <= j < |rows| :: rows[j].plate
  }

  /** `FateOf` for a fixed client. */
  function Fates(query: string -> Lookup): (fate: string -> Fate)
    ensures forall p :: fate(p) == FateOf(p, query)
  {
    p => FateOf(p, query)
  }

  /** Every entry of every bucket is the fate of one of `plates`. */
  predicate Sound(plates: seq<string>, fate: string -> Fate, b: Batch) {
    (forall j :: 0 <= j < |b.rows| ==> b.rows[j].plate in plates && fate(b.rows[j].plate) == Enriched(b.rows[j]))
    && (forall p :: p in b.invalid ==> p in plates && fate(p) == Refused(b.invalid[p]))
    && (forall j :: 0 <= j < |b.failed| ==> b.failed[j] in plates && fate(b.failed[j]) == Retry)
  }

  /** Plate `p` has been put where its fate says. */
  predicate Landed(p: string, f: Fate, b: Batch) {
    match f
    case Enriched(_) => p in RowKeys(b.rows)
    case Refused(_) => p in b.invalid
    case Retry => p in b.failed
    case Crash => false
  }

  /** The first `k` plates have been put where their fates say. */
  predicate LandedUpTo(plates: seq<string>, k: nat, fate: string -> Fate, b: Batch)
    requires k <= |plates|
  {
    forall i :: 0 <= i < k ==> Landed(plates[i], fate(plates[i]), b)
  }

  /** Every plate has been put where its fate says. */
  predicate Complete(plates: seq<string>, fate: string -> Fate, b: Batch) {
    LandedUpTo(plates, |plates|, fate, b)
  }

  /** One step of the partition: where plate `p` goes. */
  function Add(b: Batch, p: string, f: Fate): (b': Batch)
    requires !f.Crash? && (f.Enriched? ==> f.row.plate == p)
    ensures Landed(p, f, b')
    ensures forall q, g :: Landed(q, g, b) ==> Landed(q, g, b')
  {
    match f
    case Enriched(row) =>
      var rows := b.rows + [row];
      assert rows[|b.rows|].plate == p;
      assert forall j :: 0 <= j < |b.rows| ==> rows[j] == b.rows[j];
      b.(rows := rows)
    case Refused(reason) => b.(invalid := b.invalid[p := reason])
    case Retry => b.(failed := b.failed + [p])
  }

  /** One step of the partition keeps every bucket sound and complete. */
  lemma AddStep(plates: seq<string>, k: nat, fate: string -> Fate, b: Batch)
    requires k < |plates| && !fate(plates[k]).Crash? && Faithful(fate)
    requires Sound(plates, fate, b) && LandedUpTo(plates, k, fate, b)
    ensures Sound(plates, fate, Add(b, plates[k], fate(plates[k])))
    ensures LandedUpTo(plates, k + 1, fate, Add(b, plates[k], fate(plates[k])))
  {
    var b' := Add(b, plates[k], fate(plates[k]));
    forall i | 0 <= i < k + 1 ensures Landed(plates[i], fate(plates[i]), b') {
      if i < k {
        assert Landed(plates[i], fate(plates[i]), b);
      }
    }
  }

  lemma KeepStep(plates: seq<string>, k: nat, valid: string -> bool)
    requires k < |plates|
    ensures Keep(plates[..k + 1], valid) == Keep(plates[..k], valid) + (if valid(plates[k]) then [plates[k]] else [])
  {
    assert plates[..k + 1][..k] == plates[..k];
  }

  /** A fate function whose rows belong to the plate they were made for. */
  ghost predicate Faithful(fate: string -> Fate) {
    forall p :: fate(p).Enriched? ==> fate(p).row.plate == p
  }

  lemma FatesFaithful(query: string -> Lookup)
    ensures Faithful(Fates(query))
  {
    forall p | Fates(query)(p).Enriched? ensures Fates(query)(p).row.plate == p {
      FateRowIsOwn(p, query);
    }
  }

  /** A row made for a plate names that plate. */
  lemma FateRowIsOwn(p: string, query: string -> Lookup)
    ensures FateOf(p, query).Enriched? ==> FateOf(p, query).row.plate == p
  {
    var seen := AsSeen(query(p));
    if Plates.Normalize(p).Some? && seen.Found? {
      var r := TransformPlateRow(p, seen.record);
      assert r.Some? ==> r.value.plate == p;
    }
  }

  /** The loop state of `process_plates` after the first `k` plates. */
  ghost predicate PartitionInv(plates: seq<string>, k: nat, valid: string -> bool, fate: string -> Fate, b: Batch, queried: seq<string>) {
    k <= |plates|
    && (forall i :: 0 <= i < k ==> !fate(plates[i]).Crash?)
    && Sound(plates, fate, b) && LandedUpTo(plates, k, fate, b)
    && queried == Keep(plates[..k], valid)
  }

  lemma PartitionStep(plates: seq<string>, k: nat, valid: string -> bool, fate: string -> Fate, b: Batch, queried: seq<string>)
    requires PartitionInv(plates, k, valid, fate, b, queried) && k < |plates|
    requires !fate(plates[k]).Crash? && Faithful(fate)
    ensures PartitionInv(plates, k + 1, valid, fate, Add(b, plates[k], fate(plates[k])),
                         queried + if valid(plates[k]) then [plates[k]] else [])
  {
    KeepStep(plates, k, valid);
    AddStep(plates, k, fate, b);
  }

  /** The loop of `process_plates` for any validation and per-plate decision. */
  method Partition(plates: seq<string>, valid: string -> bool, fate: string -> Fate) returns (r: Result<Batch, string>, queried: seq<string>)
    requires Faithful(fate)
    ensures r.Success? <==> forall i :: 0 <= i < |plates| ==> !fate(plates[i]).Crash?
    ensures r.Success? ==> Sound(plates, fate, r.value) && Complete(plates, fate, r.value)
    ensures r.Success? ==> queried == Keep(plates, valid)
    ensures forall p :: p in queried ==> p in plates && valid(p)
  {
    var b := Batch([], map[], []);
    queried := [];
    var k := 0;
    while k < |plates|
      invariant PartitionInv(plates, k, valid, fate, b, queried)
    {
      var p := plates[k];
      var f := fate(p);
      if f.Crash? {
        KeepStep(plates, k, valid);
        KeepIn(plates, k + 1, valid);
        queried := queried + if valid(p) then [p] else [];
        assert fate(plates[k]).Crash?;
        return Failure("transform_plate_to_snowflake_row raised"), queried;
      }
      PartitionStep(plates, k, valid, fate, b, queried);
      queried := queried + if valid(p) then [p] else [];
      b := Add(b, p, f);
      k := k + 1;
    }
    assert plates[..k] == plates;
    KeepIn(plates, k, valid);
    r := Success(b);
  }

  lemma KeepIn(plates: seq<string>, n: nat, valid: string -> bool)
    requires n <= |plates|
    ensures forall p :: p in Keep(plates[..n], valid) ==> p in plates && valid(p)
  {
    KeepMembers(plates[..n], valid);
    forall p | p in Keep(plates[..n], valid) ensures p in plates {
      var i :| 0 <= i < n && plates[..n][i] == p;
      assert plates[i] == p;
    }
  }

  /** `process_plates`: each plate in order, validated first; the client is
      queried only for the valid ones. An exception while building a row
      aborts the whole batch. */
  method ProcessPlates(plates: seq<string>, query: string -> Lookup) returns (r: Result<Batch, string>, queried: seq<string>)
    ensures r.Success? <==> forall i :: 0 <= i < |plates| ==> !FateOf(plates[i], query).Crash?
    ensures r.Success? ==> Sound(plates, Fates(query), r.value) && Complete(plates, Fates(query), r.value)
    ensures r.Success? ==> queried == ValidPlates(plates)
    ensures forall p :: p in queried ==> p in plates && Plates.Normalize(p).Some?
  {
    FatesFaithful(query);
    r, queried := Partition(plates, Validates(), Fates(query));
  }

  /** Every plate of a processed batch is in exactly one bucket, and an
      invalid plate carries the reason its fate gives. */
  lemma {:induction false} ExactlyOneBucket(plates: seq<string>, fate: string -> Fate, b: Batch, p: string)
    requires Sound(plates, fate, b) && Complete(plates, fate, b) && p in plates
    ensures var inRows := p in RowKeys(b.rows);
            var inInvalid := p in b.invalid;
            var inFailed := p in b.failed;
            (inRows && !inInvalid && !inFailed) || (!inRows && inInvalid && !inFailed) || (!inRows && !inInvalid && inFailed)
    ensures p in b.invalid ==> fate(p) == Refused(b.invalid[p])
  {
    var i :| 0 <= i < |plates| && plates[i] == p;
    assert Landed(p, fate(p), b);
    if p in RowKeys(b.rows) {
      var j :| 0 <= j < |b.rows| && b.rows[j].plate == p;
      assert fate(p).Enriched?;
    }
    if p in b.failed {
      var j :| 0 <= j < |b.failed| && b.failed[j] == p;
      assert fate(p).Retry?;
    }
  }

  /** A plate that does not validate never reaches the client. */
  lemma InvalidFormatNotQueried(plates: seq<string>, p: string)
    requires p in plates && Plates.Normalize(p).None?
    ensures p !in ValidPlates(plates)
    ensures FateOf(p, (q: string) => NoData) == Refused(Some(INVALID_PLATE_FORMAT))
  {
  }

  // ---------------------------------------------------------------------------
  // main (PostgreSQL flow): claim, process, one transaction
  // ---------------------------------------------------------------------------

  /** The plate table and the details table. */
  datatype Store = Store(plates: map<string, Row>, details: seq<PlateRow>)

  /** How a run ended: nothing pending, committed, or rolled back after the
      claim (the error is re-raised). */
  datatype Outcome = Idle | Committed(inserted: nat, invalid: nat, failed: nat) | RolledBack(error: string)

  function Id(k: string): string { k }

  /** The plate table after the outcome writes: S for the rows' plates,
      I with reasons for the invalid ones, E for the failures. */
  function WriteOutcomes(t: map<string, Row>, b: Batch): (u: map<string, Row>)
    ensures u.Keys == t.Keys
  {
    var t2 := SetStatus(t, Id, RowKeys(b.rows), Succeeded, map[], None).table;
    var t3 := SetStatus(t2, Id, b.invalid.Keys, Invalid, b.invalid, None).table;
    SetStatus(t3, Id, Members(b.failed), Error, map[], None).table
  }

  /** Row `u` records fate `f`: S for a row, I with the reason for a
      refusal, E for a failure. */
  predicate Recorded(u: Row, f: Fate) {
    match f
    case Enriched(_) => u.status == Succeeded
    case Refused(reason) => u.status == Invalid && u.reason == reason
    case Retry => u.status == Error
    case Crash => false
  }

  /** The status and reason a claimed row ends with after the outcome writes. */
  lemma {:induction false} OutcomeOfRow(t: map<string, Row>, plates: seq<string>, fate: string -> Fate, b: Batch, k: string)
    requires Sound(plates, fate, b) && Complete(plates, fate, b) && k in plates && k in t
    ensures Recorded(WriteOutcomes(t, b)[k], fate(k))
    ensures fate(k).Enriched? || fate(k).Retry? ==> WriteOutcomes(t, b)[k].reason == t[k].reason
    ensures WriteOutcomes(t, b)[k].attempts == t[k].attempts
    ensures WriteOutcomes(t, b)[k].collectedAt == t[k].collectedAt
  {
    ExactlyOneBucket(plates, fate, b, k);
  }

  /** Rows outside the batch are untouched by the outcome writes. */
  lemma OutcomesKeepOthers(t: map<string, Row>, plates: seq<string>, fate: string -> Fate, b: Batch, k: string)
    requires Sound(plates, fate, b) && k in t && k !in plates
    ensures WriteOutcomes(t, b)[k] == t[k]
  {
    assert k !in RowKeys(b.rows);
    assert k !in b.invalid;
    assert k !in b.failed;
  }

  /** The claim followed by the outcome writes, row by row. */
  lemma ClaimThenOutcomes(t: map<string, Row>, selected: seq<string>, now: int, fate: string -> Fate, b: Batch)
    requires forall k :: k in selected ==> k in t
    requires Sound(selected, fate, b) && Complete(selected, fate, b)
    ensures var u := WriteOutcomes(SetStatus(t, Id, Members(selected), Processing, map[], Some(now)).table, b);
            && u.Keys == t.Keys
            && (forall k :: k in t && k !in selected ==> u[k] == t[k])
            && (forall k :: k in selected ==>
                  u[k].attempts == t[k].attempts + 1 && u[k].collectedAt == Some(now) && Recorded(u[k], fate(k)))
  {
    var claimed := SetStatus(t, Id, Members(selected), Processing, map[], Some(now)).table;
    forall k | k in selected
      ensures WriteOutcomes(claimed, b)[k].attempts == t[k].attempts + 1
      ensures WriteOutcomes(claimed, b)[k].collectedAt == Some(now)
      ensures Recorded(WriteOutcomes(claimed, b)[k], fate(k))
    {
      OutcomeOfRow(claimed, selected, fate, b, k);
    }
    forall k | k in t && k !in selected
      ensures WriteOutcomes(claimed, b)[k] == t[k]
    {
      OutcomesKeepOthers(claimed, selected, fate, b, k);
    }
  }

  /** The rows a committed run appends belong to selected plates and are
      the rows their fates made. */
  lemma AppendedRows(selected: seq<string>, query: string -> Lookup, b: Batch, old_: seq<PlateRow>)
    requires Sound(selected, Fates(query), b)
    ensures var d := old_ + b.rows;
            forall j :: |old_| <= j < |d| ==> d[j].plate in selected && FateOf(d[j].plate, query) == Enriched(d[j])
  {
    var d := old_ + b.rows;
    forall j | |old_| <= j < |d| ensures d[j].plate in selected && FateOf(d[j].plate, query) == Enriched(d[j]) {
      assert d[j] == b.rows[j - |old_|];
    }
  }

  /** The claim puts every selected plate in P with one more attempt and
      the collection time, and leaves the other plates alone. */
  lemma ClaimedRows(t: map<string, Row>, selected: seq<string>, now: int)
    requires forall k :: k in selected ==> k in t
    ensures var c := SetStatus(t, Id, Members(selected), Processing, map[], Some(now)).table;
            && c.Keys == t.Keys
            && (forall k :: k in t && k !in selected ==> c[k] == t[k])
            && (forall k :: k in selected ==>
                  c[k].status == Processing && c[k].attempts == t[k].attempts + 1 && c[k].collectedAt == Some(now))
  {
    var sel := Members(selected);
    forall k | k in t ensures Id(k) in sel <==> k in selected {
    }
  }

  /** `main`: select the pending plates (nothing to do when there are
      none), claim them to P with one more attempt and commit, process them,
      then insert the rows and write S, I and E, and commit once. An error
      after the claim (a failing transform or `writeFails`, the database
      refusing a write) rolls back to the claimed state. */
  method RunDetails(s: Store, limit: nat, queryFails: bool, now: int, query: string -> Lookup, writeFails: bool)
    returns (s': Store, out: Outcome, selected: seq<string>)
    ensures selected == [] ==> s' == s && out == Idle
    ensures Distinct(selected) && forall k :: k in selected ==> k in PendingKeys(s.plates)
    ensures s'.plates.Keys == s.plates.Keys
    ensures forall k :: k in s.plates && k !in selected ==> s'.plates[k] == s.plates[k]
    ensures forall k :: k in selected ==>
              k in s.plates && s'.plates[k].attempts == s.plates[k].attempts + 1 && s'.plates[k].collectedAt == Some(now)
    ensures out.RolledBack? ==> s'.details == s.details
    ensures out.RolledBack? ==> forall k :: k in selected ==> s'.plates[k].status == Processing
    ensures out.Committed? ==> forall k :: k in selected ==> Recorded(s'.plates[k], FateOf(k, query))
    ensures out.Committed? ==> |s'.details| >= |s.details| && s'.details[..|s.details|] == s.details
    ensures out.Committed? ==> forall j :: |s.details| <= j < |s'.details| ==>
              s'.details[j].plate in selected && FateOf(s'.details[j].plate, query) == Enriched(s'.details[j])
  {
    selected := SelectPending(s.plates, limit, queryFails);
    if selected == [] {
      return s, Idle, selected;
    }
    var sel := Members(selected);
    var claimed := SetStatus(s.plates, Id, sel, Processing, map[], Some(now)).table;
    ClaimedRows(s.plates, selected, now);
    var r, _ := ProcessPlates(selected, query);
    if r.Failure? || writeFails {
      s' := Store(claimed, s.details);
      out := RolledBack(if r.Failure? then r.error else "write failed");
      return;
    }
    var b := r.value;
    ClaimThenOutcomes(s.plates, selected, now, Fates(query), b);
    AppendedRows(selected, query, b, s.details);
    s' := Store(WriteOutcomes(claimed, b), s.details + b.rows);
    assert s'.details[..|s.details|] == s.details;
    out := Committed(|b.rows|, |b.invalid|, |b.failed|);
  }

  // ---------------------------------------------------------------------------
  // Legacy Snowflake flow: guarded statements, each committed on its own
  // ---------------------------------------------------------------------------

  /** The reasons of the legacy invalid bucket as stored. */
  function Reasons(invalid: map<string, Json>): (m: map<string, Option<string>>)
    ensures m.Keys == invalid.Keys
    ensures forall p :: p in m ==> m[p] == ReasonText(invalid[p])
  {
    map p | p in invalid :: ReasonText(invalid[p])
  }

  /** The plate table after the legacy outcome statements: S for the
      enriched plates, I with reasons, then E, each only on rows still P. */
  function LegacyOutcomes(t: map<string, Row>, out: LegacyBatch.Buckets): (u: map<string, Row>)
    ensures u.Keys == t.Keys
  {
    var rowPlates := Members(LegacyBatch.RowPlates(out.rows));
    var t2 := Finish(t, Id, rowPlates, Succeeded).table;
    var t3 := FinishInvalid(t2, Id, Reasons(out.invalid)).table;
    Finish(t3, Id, Members(out.failed), Error).table
  }

  /** A claimed plate in exactly one bucket ends in that bucket's status. */
  lemma LegacyOutcomeOfRow(t: map<string, Row>, out: LegacyBatch.Buckets, k: string)
    requires k in t && t[k].status == Processing && LegacyBatch.OneBucket(k, out)
    ensures k in LegacyBatch.RowPlates(out.rows) ==> LegacyOutcomes(t, out)[k].status == Succeeded
    ensures k in out.invalid ==>
              LegacyOutcomes(t, out)[k].status == Invalid && LegacyOutcomes(t, out)[k].reason == ReasonText(out.invalid[k])
    ensures k in out.failed ==> LegacyOutcomes(t, out)[k].status == Error
  {
  }

  /** The legacy flow: select, claim N/E to P (its row count is not
      checked, so rows already P are processed as well), run the
      rate-limited batch, insert the rows, then the guarded S, I and E
      statements. `writeFails` is a database error from the insert, which
      is only attempted when the batch has rows: the flow re-raises, so
      nothing is appended and every selected row stays P (`raised`).
      Otherwise every selected row leaves P. Rows not selected are
      untouched either way. */
  method RunLegacyDetails(t: map<string, Row>, details: seq<(string, map<string, Json>)>, limit: nat, queryFails: bool,
                          start: int, reply: (string, nat) -> Http, latency: nat -> nat, writeFails: bool)
    returns (t': map<string, Row>, details': seq<(string, map<string, Json>)>, selected: seq<string>, out: LegacyBatch.Buckets,
             raised: bool)
    ensures selected == [] ==> t' == t && details' == details && !raised
    ensures raised <==> selected != [] && writeFails && out.rows != []
    ensures t'.Keys == t.Keys
    ensures forall k :: k in t && k !in selected ==> t'[k] == t[k]
    ensures forall k :: k in selected ==> k in t && Legal(t[k].status, Processing)
    ensures forall k :: k in selected ==> LegacyBatch.OneBucket(k, out)
    ensures raised ==> details' == details && forall k :: k in selected ==> t'[k] == t[k].(status := Processing)
    ensures !raised ==> forall k :: k in selected && k in LegacyBatch.RowPlates(out.rows) ==> t'[k].status == Succeeded
    ensures !raised ==> forall k :: k in selected && k in out.invalid ==>
              t'[k].status == Invalid && t'[k].reason == ReasonText(out.invalid[k])
    ensures !raised ==> forall k :: k in selected && k in out.failed ==> t'[k].status == Error
    ensures !raised ==> details' == details + out.rows
  {
    selected := SelectPending(t, limit, queryFails);
    out := LegacyBatch.Buckets([], map[], []);
    if selected == [] {
      return t, details, selected, out, false;
    }
    var sel := Members(selected);
    var claimed := Claim(t, Id, sel).table;
    assert forall k :: k in selected ==> claimed[k].status == Processing;
    var clock;
    out, clock := LegacyBatch.ProcessPlateBatch(selected, start, reply, latency);
    raised := writeFails && out.rows != [];
    forall k | k in t && k !in selected
      ensures claimed[k] == t[k]
    {
      assert Id(k) !in sel;
    }
    if raised {
      return claimed, details, selected, out, raised;
    }
    details' := details + out.rows;
    t' := LegacyOutcomes(claimed, out);
    forall k | k in selected
      ensures LegacyBatch.OneBucket(k, out)
      ensures k in LegacyBatch.RowPlates(out.rows) ==> t'[k].status == Succeeded
      ensures k in out.invalid ==> t'[k].status == Invalid && t'[k].reason == ReasonText(out.invalid[k])
      ensures k in out.failed ==> t'[k].status == Error
    {
      LegacyOutcomeOfRow(claimed, out, k);
    }
    forall k | k in t && k !in selected
      ensures t'[k] == t[k]
    {
      assert k !in LegacyBatch.RowPlates(out.rows) && k !in out.invalid && k !in out.failed;
      LegacyOutcomesKeepOthers(claimed, out, k);
    }
  }

  /** A plate in no bucket keeps its row through the outcome statements. */
  lemma LegacyOutcomesKeepOthers(t: map<string, Row>, out: LegacyBatch.Buckets, k: string)
    requires k in t && k !in LegacyBatch.RowPlates(out.rows) && k !in out.invalid && k !in out.failed
    ensures LegacyOutcomes(t, out)[k] == t[k]
  {
    assert Id(k) !in Members(LegacyBatch.RowPlates(out.rows));
    assert Id(k) !in Reasons(out.invalid);
    assert Id(k) !in Members(out.failed);
  }

  /** The legacy run's closing log splits the elapsed seconds with
      `divmod(seconds, 70)`: minutes and seconds that do not add up. */
  function LegacyDurationParts(seconds: nat): (ms: (nat, nat))
    ensures ms.1 < 70
  {
    (seconds / 70, seconds % 70)
  }

  lemma LegacyDurationMisreads()
    ensures LegacyDurationParts(120) == (1, 50)
    ensures LegacyDurationParts(120).0 * 60 + LegacyDurationParts(120).1 != 120
  {
  }

  /** Minutes and seconds as the PostgreSQL flow logs them (`// 60`, `% 60`). */
  function DurationParts(seconds: nat): (ms: (nat, nat))
    ensures ms.1 < 60 && ms.0 * 60 + ms.1 == seconds
  {
    (seconds / 60, seconds % 60)
  }
}
