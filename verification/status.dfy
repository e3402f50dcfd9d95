/** The status column every work table of the vehicle enrichment pipeline
    carries, the "pending" selection that feeds a run, and the UPDATE
    statements the runs issue against it.

    A table is a map from its primary key to its row. An UPDATE matches rows
    through a projection of the key (`proj`): the plate table is matched on
    the whole key (the plate), the consolidated vehicle table on three of its
    four key columns (brand, model, model year). */
module WorkStatus {
  import opened Wrappers

  /** The keys a list names, as in `WHERE key IN (...)`. */
  function Members<T(!new)>(s: seq<T>): (m: set<T>)
    ensures forall x :: x in m <==> x in s
  {
    set x | x in s
  }

  /** `N` new, `P` claimed by a run, `E` retryable error, `S` enriched,
      `I` permanently invalid. */
  datatype Status = New | Processing | Error | Succeeded | Invalid

  function Code(s: Status): (c: char)
    ensures c in "NPESI"
  {
    match s
    case New => 'N'
    case Processing => 'P'
    case Error => 'E'
    case Succeeded => 'S'
    case Invalid => 'I'
  }

  lemma CodeInjective(a: Status, b: Status)
    ensures Code(a) == Code(b) ==> a == b
  {
  }

  /** `DS_STATUS IN ('P', 'E', 'N')`. */
  predicate IsPending(s: Status) {
    s == Processing || s == Error || s == New
  }

  /** The `CASE DS_STATUS WHEN 'P' THEN 1 WHEN 'E' THEN 2 WHEN 'N' THEN 3 END` key. */
  function Priority(s: Status): (p: nat)
    requires IsPending(s)
    ensures 1 <= p <= 3
  {
    match s
    case Processing => 1
    case Error => 2
    case New => 3
  }

  /** One row of a work table: status, error reason, attempt counter,
      insertion time and last collection time (times as integers). */
  datatype Row = Row(status: Status, reason: Option<string>, attempts: nat, insertedAt: int, collectedAt: Option<int>)

  /** `a` sorts no later than `b` under `ORDER BY priority, DT_INSERCAO DESC`. */
  predicate RanksNoLater(a: Row, b: Row)
    requires IsPending(a.status) && IsPending(b.status)
  {
    Priority(a.status) < Priority(b.status)
    || (Priority(a.status) == Priority(b.status) && a.insertedAt >= b.insertedAt)
  }

  function PendingKeys<K(!new)>(t: map<K, Row>): (ks: set<K>)
    ensures ks <= t.Keys
  {
    set k | k in t && IsPending(t[k].status)
  }

  predicate Distinct<T(==)>(s: seq<T>) {
    forall i, j :: 0 <= i < j < |s| ==> s[i] != s[j]
  }

  function Min(a: nat, b: nat): nat { if a <= b then a else b }

  /** A key of `s` that ranks no later than any other key of `s`. */
  method Best<K(!new)>(t: map<K, Row>, s: set<K>) returns (b: K)
    requires s != {} && s <= PendingKeys(t)
    ensures b in s
    ensures forall k :: k in s ==> RanksNoLater(t[b], t[k])
  {
    var rest := s;
    b :| b in rest;
    rest := rest - {b};
    while rest != {}
      invariant b in s && rest <= s
      invariant forall k :: k in s && k !in rest ==> RanksNoLater(t[b], t[k])
      decreases |rest|
    {
      var k :| k in rest;
      rest := rest - {k};
      if !RanksNoLater(t[b], t[k]) {
        b := k;
      }
    }
  }

  /** The pending selection (`get_pending_plates` / `get_pending_vehicles`):
      up to `limit` keys whose status is P, E or N, P before E before N and
      newest insertion first inside one status. A failing query yields the
      empty list. Ties are broken arbitrarily, as SQL leaves them. */
  method SelectPending<K(!new)>(t: map<K, Row>, limit: nat, queryFails: bool) returns (r: seq<K>)
    ensures queryFails ==> r == []
    ensures !queryFails ==> |r| == Min(limit, |PendingKeys(t)|)
    ensures forall i :: 0 <= i < |r| ==> r[i] in PendingKeys(t)
    ensures Distinct(r)
    ensures forall i, j :: 0 <= i < j < |r| ==> RanksNoLater(t[r[i]], t[r[j]])
    ensures forall i, k :: 0 <= i < |r| && k in PendingKeys(t) && k !in r ==> RanksNoLater(t[r[i]], t[k])
  {
    r := [];
    if queryFails {
      return;
    }
    var pending := PendingKeys(t);
    var rest := pending;
    while |r| < limit && rest != {}
      invariant rest <= pending
      invariant forall k :: k in pending ==> (k in r <==> k !in rest)
      invariant forall i :: 0 <= i < |r| ==> r[i] in pending
      invariant |r| + |rest| == |pending|
      invariant |r| <= limit
      invariant Distinct(r)
      invariant forall i, j :: 0 <= i < j < |r| ==> RanksNoLater(t[r[i]], t[r[j]])
      invariant forall i, k :: 0 <= i < |r| && k in rest ==> RanksNoLater(t[r[i]], t[k])
      decreases |rest|
    {
      var b := Best(t, rest);
      r := r + [b];
      rest := rest - {b};
    }
  }

  // ---------------------------------------------------------------------------
  // UPDATE statements
  // ---------------------------------------------------------------------------

  /** The status condition an UPDATE adds to its WHERE clause. */
  datatype Guard =
    | Unguarded        // PostgreSQL flows: no status condition
    | FromNewOrError   // `AND (DS_STATUS = 'N' OR DS_STATUS = 'E')`
    | FromProcessing   // `AND DS_STATUS = 'P'`

  predicate Admits(g: Guard, s: Status) {
    match g
    case Unguarded => true
    case FromNewOrError => s == New || s == Error
    case FromProcessing => s == Processing
  }

  /** The rows an `UPDATE ... WHERE proj(key) IN sel AND <guard>` matches. */
  function Matching<K(!new), S>(t: map<K, Row>, proj: K -> S, sel: set<S>, g: Guard): (m: set<K>)
    ensures m <= t.Keys
    ensures forall k :: k in m <==> k in t && proj(k) in sel && Admits(g, t[k].status)
  {
    set k | k in t && proj(k) in sel && Admits(g, t[k].status)
  }

  /** A table after an UPDATE, and the statement's row count. */
  datatype Written<K> = Written(table: map<K, Row>, count: nat)

  /** Legacy claim: `SET DS_STATUS = 'P' WHERE key IN sel AND status IN (N, E)`. */
  function Claim<K(!new), S>(t: map<K, Row>, proj: K -> S, sel: set<S>): (w: Written<K>)
    ensures w.table.Keys == t.Keys
    ensures w.count == |Matching(t, proj, sel, FromNewOrError)|
    ensures forall k :: k in t && w.table[k] != t[k] ==> proj(k) in sel && w.table[k].status == Processing
  {
    var m := Matching(t, proj, sel, FromNewOrError);
    Written(map k | k in t :: if k in m then t[k].(status := Processing) else t[k], |m|)
  }

  /** Legacy finish: `SET DS_STATUS = to WHERE key IN sel AND DS_STATUS = 'P'`
      (used with `to` = S after the insert and `to` = E for failures). */
  function Finish<K(!new), S>(t: map<K, Row>, proj: K -> S, sel: set<S>, to: Status): (w: Written<K>)
    ensures w.table.Keys == t.Keys
    ensures w.count == |Matching(t, proj, sel, FromProcessing)|
    ensures forall k :: k in t && w.table[k] != t[k] ==> proj(k) in sel && t[k].status == Processing
  {
    var m := Matching(t, proj, sel, FromProcessing);
    Written(map k | k in t :: if k in m then t[k].(status := to) else t[k], |m|)
  }

  /** Legacy invalidation: per selector `s`,
      `SET DS_STATUS = 'I', DS_MOTIVO_ERRO = reasons[s] WHERE key = s AND DS_STATUS = 'P'`;
      a reason of `None` is stored as NULL. */
  function FinishInvalid<K(!new), S>(t: map<K, Row>, proj: K -> S, reasons: map<S, Option<string>>): (w: Written<K>)
    ensures w.table.Keys == t.Keys
    ensures w.count == |Matching(t, proj, reasons.Keys, FromProcessing)|
    ensures forall k :: k in t && w.table[k] != t[k] ==>
              t[k].status == Processing && proj(k) in reasons && w.table[k].reason == reasons[proj(k)]
  {
    var m := Matching(t, proj, reasons.Keys, FromProcessing);
    Written(map k | k in t :: if k in m then t[k].(status := Invalid, reason := reasons[proj(k)]) else t[k], |m|)
  }

  /** Text reasons as stored, none of them NULL. */
  function Texts<S>(m: map<S, string>): (r: map<S, Option<string>>)
    ensures r.Keys == m.Keys && forall s :: s in m ==> r[s] == Some(m[s])
  {
    map s | s in m :: Some(m[s])
  }

  /** A guarded finish over no selector changes nothing. */
  lemma FinishNothing<K(!new), S>(t: map<K, Row>, proj: K -> S, to: Status)
    ensures Finish(t, proj, {}, to).table == t
    ensures FinishInvalid(t, proj, map[]).table == t
  {
    assert Matching(t, proj, {}, FromProcessing) == {};
  }

  /** Two guarded finishes to the same status act as one over both
      selections: a row the first moves is no longer P, so the second
      cannot match it. */
  lemma FinishTwice<K(!new), S>(t: map<K, Row>, proj: K -> S, a: set<S>, b: set<S>, to: Status)
    requires to != Processing
    ensures Finish(Finish(t, proj, a, to).table, proj, b, to).table == Finish(t, proj, a + b, to).table
  {
    var t1 := Finish(t, proj, a, to).table;
    forall k | k in t
      ensures Finish(t1, proj, b, to).table[k] == Finish(t, proj, a + b, to).table[k]
    {
      assert k in Matching(t, proj, a, FromProcessing) <==> proj(k) in a && t[k].status == Processing;
    }
  }

  /** An invalidation of one selector followed by one of others acts as a
      single invalidation with the first selector's reason. */
  lemma FinishInvalidTwice<K(!new), S>(t: map<K, Row>, proj: K -> S, x: S, r: Option<string>, rest: map<S, Option<string>>)
    ensures FinishInvalid(FinishInvalid(t, proj, map[x := r]).table, proj, rest).table
              == FinishInvalid(t, proj, rest[x := r]).table
  {
    var t1 := FinishInvalid(t, proj, map[x := r]).table;
    forall k | k in t
      ensures FinishInvalid(t1, proj, rest).table[k] == FinishInvalid(t, proj, rest[x := r]).table[k]
    {
      assert k in Matching(t, proj, map[x := r].Keys, FromProcessing) <==> proj(k) == x && t[k].status == Processing;
    }
  }

  /** PostgreSQL `update_status` (no status condition). A non-empty `reasons`
      map also sets `ds_motivo_erro` to `reasons.get(key, 'UNKNOWN')`, NULL
      for a reason of `None`;
      `collectedAt` = `Some(now)` also bumps `nr_tentativas` and sets `dt_coleta`. */
  function SetStatus<K(!new), S>(t: map<K, Row>, proj: K -> S, sel: set<S>, to: Status,
                           reasons: map<S, Option<string>>, collectedAt: Option<int>): (w: Written<K>)
    ensures w.table.Keys == t.Keys
    ensures w.count == |Matching(t, proj, sel, Unguarded)|
    ensures forall k :: k in t && proj(k) !in sel ==> w.table[k] == t[k]
    ensures forall k :: k in t && proj(k) in sel ==> w.table[k].status == to && w.table[k].insertedAt == t[k].insertedAt
    ensures forall k :: k in t && proj(k) in sel ==>
              w.table[k].reason == (if |reasons| > 0 then (if proj(k) in reasons then reasons[proj(k)] else Some("UNKNOWN")) else t[k].reason)
    ensures forall k :: k in t && proj(k) in sel ==>
              w.table[k].attempts == t[k].attempts + (if collectedAt.Some? then 1 else 0)
              && w.table[k].collectedAt == (if collectedAt.Some? then collectedAt else t[k].collectedAt)
  {
    var m := Matching(t, proj, sel, Unguarded);
    Written(map k | k in t :: if k !in m then t[k] else
      var r1 := t[k].(status := to);
      var r2 := if |reasons| > 0 then r1.(reason := if proj(k) in reasons then reasons[proj(k)] else Some("UNKNOWN")) else r1;
      if collectedAt.Some? then r2.(attempts := r2.attempts + 1, collectedAt := collectedAt) else r2,
      |m|)
  }

  // ---------------------------------------------------------------------------
  // What the guards buy
  // ---------------------------------------------------------------------------

  /** The transitions the guarded statements make: N/E to P when claimed, P to S/E/I
      when the outcome is known. */
  predicate Legal(a: Status, b: Status) {
    a == b || ((a == New || a == Error) && b == Processing)
    || (a == Processing && (b == Succeeded || b == Error || b == Invalid))
  }

  predicate LegalStep<K>(t: map<K, Row>, u: map<K, Row>)
    requires t.Keys == u.Keys
  {
    forall k :: k in t ==> Legal(t[k].status, u[k].status)
  }

  /** Every guarded statement of the legacy flows only makes legal transitions. */
  lemma GuardedWritesAreLegal<K(!new), S>(t: map<K, Row>, proj: K -> S, sel: set<S>, to: Status, reasons: map<S, Option<string>>)
    requires to == Succeeded || to == Error
    ensures LegalStep(t, Claim(t, proj, sel).table)
    ensures LegalStep(t, Finish(t, proj, sel, to).table)
    ensures LegalStep(t, FinishInvalid(t, proj, reasons).table)
  {
  }

  /** Rows in a terminal state (S or I) are untouched by every guarded statement. */
  lemma GuardedWritesKeepTerminalRows<K(!new), S>(t: map<K, Row>, proj: K -> S, sel: set<S>, to: Status, reasons: map<S, Option<string>>, k: K)
    requires k in t && (t[k].status == Succeeded || t[k].status == Invalid)
    ensures Claim(t, proj, sel).table[k] == t[k]
    ensures Finish(t, proj, sel, to).table[k] == t[k]
    ensures FinishInvalid(t, proj, reasons).table[k] == t[k]
  {
  }

  /** A second claim over the same selection claims nothing: a row claimed
      once is not handed out again until it leaves P. */
  lemma ClaimIsExclusive<K(!new), S>(t: map<K, Row>, proj: K -> S, sel: set<S>)
    ensures Claim(Claim(t, proj, sel).table, proj, sel).count == 0
    ensures Claim(Claim(t, proj, sel).table, proj, sel).table == Claim(t, proj, sel).table
  {
    var u := Claim(t, proj, sel).table;
    assert Matching(u, proj, sel, FromNewOrError) == {};
  }

  /** Re-running a finishing statement matches nothing and changes nothing. */
  lemma FinishIsIdempotent<K(!new), S>(t: map<K, Row>, proj: K -> S, sel: set<S>, to: Status)
    requires to != Processing
    ensures Finish(Finish(t, proj, sel, to).table, proj, sel, to).count == 0
    ensures Finish(Finish(t, proj, sel, to).table, proj, sel, to).table == Finish(t, proj, sel, to).table
  {
    var u := Finish(t, proj, sel, to).table;
    assert Matching(u, proj, sel, FromProcessing) == {};
  }

  /** Claiming then finishing moves exactly the claimed rows to the outcome. */
  lemma ClaimThenFinish<K(!new), S>(t: map<K, Row>, proj: K -> S, sel: set<S>, to: Status, k: K)
    requires k in t && proj(k) in sel && (t[k].status == New || t[k].status == Error)
    ensures Finish(Claim(t, proj, sel).table, proj, sel, to).table[k].status == to
  {
  }

  /** The PostgreSQL statements have no guard: a row already finished as S is
      rewritten when its key is selected again. */
  lemma UnguardedRewritesFinishedRow()
    ensures var t := map["ABC1234" := Row(Succeeded, None, 1, 0, Some(5))];
            var w := SetStatus(t, (k: string) => k, {"ABC1234"}, Error, map[], None);
            w.count == 1 && w.table["ABC1234"].status == Error && !Legal(Succeeded, Error)
  {
    var t := map["ABC1234" := Row(Succeeded, None, 1, 0, Some(5))];
    assert "ABC1234" in Matching(t, (k: string) => k, {"ABC1234"}, Unguarded);
    assert Matching(t, (k: string) => k, {"ABC1234"}, Unguarded) == {"ABC1234"};
  }

  /** The PostgreSQL claim counts one attempt per claimed row and stamps the
      collection time; the reason column is left alone. */
  lemma ClaimCountsAttempt<K(!new), S>(t: map<K, Row>, proj: K -> S, sel: set<S>, now: int, k: K)
    requires k in t && proj(k) in sel
    ensures var u := SetStatus(t, proj, sel, Processing, map[], Some(now)).table[k];
            u.status == Processing && u.attempts == t[k].attempts + 1 && u.collectedAt == Some(now)
            && u.reason == t[k].reason
  {
  }

  /** With reasons, each selected row gets its own reason, or `UNKNOWN`. */
  lemma SetStatusReasons<K(!new), S>(t: map<K, Row>, proj: K -> S, sel: set<S>, to: Status, reasons: map<S, Option<string>>, k: K)
    requires k in t && proj(k) in sel && |reasons| > 0
    ensures SetStatus(t, proj, sel, to, reasons, None).table[k].reason
            == (if proj(k) in reasons then reasons[proj(k)] else Some("UNKNOWN"))
    ensures SetStatus(t, proj, sel, to, reasons, None).table[k].attempts == t[k].attempts
  {
  }
}
