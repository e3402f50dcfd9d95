/** The two upstream loaders of the vehicle pipeline: the raw plate table
    (`main_plate_raw.py`), filled from the union of four plate sources, and
    the consolidated vehicle table (`main_consolidation.py`), filled from the
    distinct (brand, model, year of manufacture, model year) tuples of the
    plate details. Both insert only keys the table does not hold yet, as new
    work (status N, no reason). */
module Ingestion {
  import opened Wrappers
  import opened Text
  import opened WorkStatus
  import opened FipeFlow

  /** The row every freshly loaded key starts with: N, no reason, no
      attempt, no collection time, stamped with the load time. */
  function Fresh(now: int): Row {
    Row(New, None, 0, now, None)
  }

  // ---------------------------------------------------------------------------
  // Raw plates
  // ---------------------------------------------------------------------------

  /** `aggregate_plates`: the union of the four sources, sorted ascending
      without duplicates, each plate paired with the fresh row. */
  method AggregatePlates(wps: set<string>, gs: set<string>, nr: set<string>, ns: set<string>, now: int)
    returns (plates: seq<string>, rows: seq<(string, Row)>)
    ensures forall p :: p in plates <==> p in wps + gs + nr + ns
    ensures StrictlySorted(plates) && |plates| == |wps + gs + nr + ns|
    ensures |rows| == |plates| && forall i :: 0 <= i < |rows| ==> rows[i] == (plates[i], Fresh(now))
  {
    plates := SortSet(wps + gs + nr + ns);
    rows := seq(|plates|, i requires 0 <= i < |plates| => (plates[i], Fresh(now)));
  }

  /** A strictly sorted list has no repeated entry. */
  lemma SortedIsDistinct(s: seq<string>)
    requires StrictlySorted(s)
    ensures Distinct(s)
  {
    forall i, j | 0 <= i < j < |s|
      ensures s[i] != s[j]
    {
      if s[i] == s[j] {
        LessIrreflexive(s[i]);
      }
    }
  }

  // ---------------------------------------------------------------------------
  // Insert only what is new
  // ---------------------------------------------------------------------------

  /** The keys not already in the table, in order. */
  function Unseen<K(!new)>(keys: seq<K>, existing: set<K>): (r: seq<K>)
    ensures forall k :: k in r <==> k in keys && k !in existing
    ensures |r| <= |keys|
  {
    if keys == [] then []
    else if keys[0] in existing then Unseen(keys[1..], existing)
    else [keys[0]] + Unseen(keys[1..], existing)
  }

  /** Picking the unseen keys of a duplicate-free list keeps it so. */
  lemma {:induction false} UnseenKeepsDistinct<K(!new)>(keys: seq<K>, existing: set<K>)
    requires Distinct(keys)
    ensures Distinct(Unseen(keys, existing))
  {
    if keys != [] {
      assert Distinct(keys[1..]);
      UnseenKeepsDistinct(keys[1..], existing);
      assert keys[0] !in keys[1..];
    }
  }

  /** The table after inserting a fresh row for each key. */
  function Load<K(!new)>(t: map<K, Row>, keys: seq<K>, now: int): (u: map<K, Row>)
    ensures u.Keys == t.Keys + set k | k in keys
    ensures forall k :: k in t && k !in keys ==> u[k] == t[k]
    ensures forall k :: k in keys ==> u[k] == Fresh(now)
    decreases |keys|
  {
    if keys == [] then t else Load(t[keys[0] := Fresh(now)], keys[1..], now)
  }

  /** `insert_new_plates` / `insert_new_vehicles`: an empty input, or one
      whose every key is already present, inserts nothing and reports 0;
      otherwise a fresh row is inserted for each unseen key and their
      number reported. Two equal unseen keys violate the primary key and
      the insert raises. */
  function InsertNew<K(!new)>(t: map<K, Row>, keys: seq<K>, now: int): (r: Result<(map<K, Row>, nat), string>)
    ensures r.Success? ==> r.value.0.Keys == t.Keys + (set k | k in keys)
    ensures r.Success? ==> forall k :: k in t ==> r.value.0[k] == t[k]
    ensures r.Success? ==> forall k :: k in keys && k !in t ==> r.value.0[k] == Fresh(now)
    ensures r.Success? ==> r.value.1 == |Unseen(keys, t.Keys)|
    ensures r.Success? && r.value.1 == 0 <==> forall k :: k in keys ==> k in t
    ensures r.Failure? <==> !Distinct(Unseen(keys, t.Keys))
  {
    var unseen := Unseen(keys, t.Keys);
    if keys == [] || unseen == [] then Success((t, 0))
    else
      assert unseen[0] in unseen;
      if !Distinct(unseen) then Result<(map<K, Row>, nat), string>.Failure("duplicate key value violates unique constraint")
      else
        assert forall k :: k in keys ==> k in t || k in unseen;
        Success((Load(t, unseen, now), |unseen|))
  }

  /** Loading the aggregated plates never fails, never touches an existing
      row, and inserts exactly the plates the table lacked. */
  lemma PlateLoadSucceeds(t: map<string, Row>, plates: seq<string>, now: int)
    requires StrictlySorted(plates)
    ensures InsertNew(t, plates, now).Success?
    ensures InsertNew(t, plates, now).value.1 == |Unseen(plates, t.Keys)|
  {
    SortedIsDistinct(plates);
    UnseenKeepsDistinct(plates, t.Keys);
  }

  /** Nothing is unseen when every key is present. */
  lemma {:induction false} UnseenOfPresent<K(!new)>(keys: seq<K>, existing: set<K>)
    requires forall k :: k in keys ==> k in existing
    ensures Unseen(keys, existing) == []
  {
    if keys != [] {
      UnseenOfPresent(keys[1..], existing);
    }
  }

  /** Loading twice inserts nothing the second time. */
  lemma LoadIsIdempotent<K(!new)>(t: map<K, Row>, keys: seq<K>, now: int, later: int)
    requires InsertNew(t, keys, now).Success?
    ensures InsertNew(InsertNew(t, keys, now).value.0, keys, later) == Success((InsertNew(t, keys, now).value.0, 0))
  {
    var u := InsertNew(t, keys, now).value.0;
    assert forall k :: k in keys ==> k in u;
    UnseenOfPresent(keys, u.Keys);
  }

  // ---------------------------------------------------------------------------
  // Consolidated vehicles
  // ---------------------------------------------------------------------------

  /** A row of the plate details table as the consolidation reads it. */
  datatype DetailRow = DetailRow(brand: Option<string>, model: Option<string>, yearManuf: Option<int>, yearModel: Option<int>)

  /** The `WHERE` of `extract_new_vehicles`: every column present and the
      names not blank. */
  predicate Usable(d: DetailRow) {
    d.brand.Some? && d.model.Some? && d.yearManuf.Some? && d.yearModel.Some?
    && TrimBlanks(d.brand.value) != "" && TrimBlanks(d.model.value) != ""
  }

  /** `UPPER(TRIM(name))`. */
  function Clean(s: string): (r: string)
    ensures NoLower(r) && |r| <= |s|
    ensures |r| > 0 ==> r[0] != ' ' && r[|r| - 1] != ' '
  {
    var b := TrimBlanks(s);
    UpperHasNoLower(b);
    var r := Upper(b);
    assert |r| > 0 ==> r[0] == UpperChar(b[0]) && r[|r| - 1] == UpperChar(b[|b| - 1]);
    r
  }

  function KeyOf(d: DetailRow): VKey
    requires Usable(d)
  {
    VKey(Clean(d.brand.value), Clean(d.model.value), d.yearManuf.value, d.yearModel.value)
  }

  /** A consolidated key as the extraction guarantees it: upper-case,
      trimmed, non-empty names. */
  predicate WellFormed(k: VKey) {
    |k.brand| > 0 && |k.model| > 0 && NoLower(k.brand) && NoLower(k.model)
    && k.brand[0] != ' ' && k.brand[|k.brand| - 1] != ' ' && k.model[0] != ' ' && k.model[|k.model| - 1] != ' '
  }

  /** Some usable detail row yields key `k`. */
  ghost predicate Yields(ds: seq<DetailRow>, k: VKey) {
    exists i :: 0 <= i < |ds| && Usable(ds[i]) && KeyOf(ds[i]) == k
  }

  /** The keys a list yields are those of its head and of its tail. */
  lemma YieldsCons(ds: seq<DetailRow>)
    requires ds != []
    ensures forall k :: Yields(ds, k) <==> (Usable(ds[0]) && KeyOf(ds[0]) == k) || Yields(ds[1..], k)
  {
    forall k ensures Yields(ds, k) <==> (Usable(ds[0]) && KeyOf(ds[0]) == k) || Yields(ds[1..], k) {
      if Yields(ds, k) && !(Usable(ds[0]) && KeyOf(ds[0]) == k) {
        var i :| 0 <= i < |ds| && Usable(ds[i]) && KeyOf(ds[i]) == k;
        assert ds[1..][i - 1] == ds[i];
      }
      if Yields(ds[1..], k) {
        var i :| 0 <= i < |ds[1..]| && Usable(ds[1..][i]) && KeyOf(ds[1..][i]) == k;
        assert ds[i + 1] == ds[1..][i];
      }
    }
  }

  /** `SELECT DISTINCT UPPER(TRIM(...)), ...` over the usable detail rows,
      each tuple once (kept where it last occurs; SQL leaves the order
      open). */
  function Extract(ds: seq<DetailRow>): (ks: seq<VKey>)
    ensures Distinct(ks)
    ensures forall i :: 0 <= i < |ks| ==> WellFormed(ks[i])
  {
    if ds == [] then []
    else
      var rest := Extract(ds[1..]);
      if !Usable(ds[0]) || KeyOf(ds[0]) in rest then rest
      else
        KeyWellFormed(ds[0]);
        ConsDistinct(KeyOf(ds[0]), rest);
        [KeyOf(ds[0])] + rest
  }

  /** The key of a usable row is well formed. */
  lemma KeyWellFormed(d: DetailRow)
    requires Usable(d)
    ensures WellFormed(KeyOf(d))
  {
  }

  /** A new head keeps a list free of repeats. */
  lemma ConsDistinct<T>(x: T, rest: seq<T>)
    requires Distinct(rest) && x !in rest
    ensures Distinct([x] + rest)
  {
    var s := [x] + rest;
    forall i, j | 0 <= i < j < |s| ensures s[i] != s[j] {
      assert s[j] == rest[j - 1];
      if i > 0 {
        assert s[i] == rest[i - 1];
      }
    }
  }

  /** The extraction holds exactly the keys some usable row yields. */
  lemma {:induction false} ExtractYields(ds: seq<DetailRow>)
    ensures forall k :: k in Extract(ds) <==> Yields(ds, k)
  {
    if ds != [] {
      ExtractYields(ds[1..]);
      YieldsCons(ds);
    }
  }

  /** The consolidation run: extract the usable tuples and insert the new
      ones; the distinct extraction never trips the primary key. */
  function Consolidate(t: map<VKey, Row>, ds: seq<DetailRow>, now: int): (r: (map<VKey, Row>, nat))
    ensures r.0.Keys == t.Keys + (set k | k in Extract(ds))
    ensures forall k :: k in t ==> r.0[k] == t[k]
    ensures forall k :: k in r.0 && k !in t ==> r.0[k] == Fresh(now) && WellFormed(k)
    ensures r.1 == |Unseen(Extract(ds), t.Keys)|
    ensures r.1 == 0 <==> forall k :: Yields(ds, k) ==> k in t
  {
    var ks := Extract(ds);
    ExtractYields(ds);
    UnseenKeepsDistinct(ks, t.Keys);
    InsertNew(t, ks, now).value
  }
}
