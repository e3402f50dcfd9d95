/** The Deconve people-counting export: which shopping centre a unit's name
    belongs to, the cameras of the units, the paginated flow report of a
    camera, the CSV rows written from both, and the expiry test of the API
    token. The API itself is a set of oracle parameters. */
module Deconve {
  import opened Wrappers
  import opened Text

  // ---------------------------------------------------------------------------
  // Shopping centres
  // ---------------------------------------------------------------------------

  datatype ShoppingInfo = ShoppingInfo(id: nat, sigla: string)

  /** `SHOPPING_MAPPING`, in declaration order: a name fragment and the
      centre it stands for. The accented and plain spellings of two names
      both appear. */
  const Mapping: seq<(string, ShoppingInfo)> := [
    ("neumarkt", ShoppingInfo(1, "NK")),
    ("balneário", ShoppingInfo(2, "BS")),
    ("balneario", ShoppingInfo(2, "BS")),
    ("garten", ShoppingInfo(3, "GS")),
    ("norte", ShoppingInfo(4, "NR")),
    ("continente", ShoppingInfo(5, "CS")),
    ("nações", ShoppingInfo(6, "NS")),
    ("nacoes", ShoppingInfo(6, "NS"))
  ]

  /** The first entry from `i` on whose fragment occurs in `name`. */
  function FirstMatch(name: string, i: nat): (r: Option<nat>)
    requires i <= |Mapping|
    ensures r.Some? ==> i <= r.value < |Mapping| && Contains(name, Mapping[r.value].0)
    ensures r.Some? ==> forall j :: i <= j < r.value ==> !Contains(name, Mapping[j].0)
    ensures r.None? <==> forall j :: i <= j < |Mapping| ==> !Contains(name, Mapping[j].0)
    decreases |Mapping| - i
  {
    if i == |Mapping| then None
    else if Contains(name, Mapping[i].0) then Some(i)
    else FirstMatch(name, i + 1)
  }

  /** `get_shopping_info`: a missing or empty name gives nothing; otherwise
      the name is lower-cased and the first fragment, in mapping order,
      that occurs in it decides. */
  function ShoppingOf(name: Option<string>): (r: Option<ShoppingInfo>)
    ensures name.None? || name.value == "" ==> r.None?
    ensures r.Some? ==> exists i :: (0 <= i < |Mapping| && Contains(Lower(name.value), Mapping[i].0)
      && r.value == Mapping[i].1 && forall j :: 0 <= j < i ==> !Contains(Lower(name.value), Mapping[j].0))
    ensures r.None? && name.Some? ==> forall j :: 0 <= j < |Mapping| ==> !Contains(Lower(name.value), Mapping[j].0)
  {
    if name.None? || name.value == "" then None
    else
      match FirstMatch(Lower(name.value), 0)
      case None => None
      case Some(i) => Some(Mapping[i].1)
  }

  /** The sigla each centre id carries. */
  function SiglaOf(id: nat): string {
    if id == 1 then "NK" else if id == 2 then "BS" else if id == 3 then "GS"
    else if id == 4 then "NR" else if id == 5 then "CS" else if id == 6 then "NS" else ""
  }

  /** Every answer is one of the six centres, with the sigla that belongs to
      its id. */
  lemma ShoppingIsConsistent(name: Option<string>)
    ensures ShoppingOf(name).Some? ==> 1 <= ShoppingOf(name).value.id <= 6
    ensures ShoppingOf(name).Some? ==> ShoppingOf(name).value.sigla == SiglaOf(ShoppingOf(name).value.id)
  {
  }

  /** The lookup ignores case: a name and its lower-case form get the same
      centre. */
  lemma ShoppingIgnoresCase(name: string)
    ensures ShoppingOf(Some(name)) == ShoppingOf(Some(Lower(name)))
  {
    LowerHasNoUpper(name);
    LowerOfNoUpper(Lower(name));
    assert |Lower(name)| == |name|;
  }

  /** Both spellings of the accented names lead to the same centre. */
  lemma AliasesAgree()
    ensures Mapping[1].1 == Mapping[2].1 == ShoppingInfo(2, "BS")
    ensures Mapping[6].1 == Mapping[7].1 == ShoppingInfo(6, "NS")
    ensures Mapping[1].0 != Mapping[2].0 && Mapping[6].0 != Mapping[7].0
  {
  }

  /** A name holding the plain spelling of Balneário and no Neumarkt is
      Balneário. */
  lemma PlainBalnearioIsBS(name: string)
    requires Contains(Lower(name), "balneario") && !Contains(Lower(name), "neumarkt")
    ensures ShoppingOf(Some(name)) == Some(ShoppingInfo(2, "BS"))
  {
    var i :| 0 <= i <= |Lower(name)| - 9 && OccursAt(Lower(name), "balneario", i);
    assert |name| == |Lower(name)| >= 9;
  }

  /** The CSV's shopping cells: `id or ''` and `sigla or ''`. */
  function ShoppingCells(r: Option<ShoppingInfo>): (cells: (string, string))
    ensures cells.0 == "" <==> r.None?
    ensures cells.1 == "" <==> r.None? || r.value.sigla == ""
    ensures r.Some? ==> (forall i :: 0 <= i < |cells.0| ==> IsDigit(cells.0[i])) && DigitsValue(cells.0) == r.value.id
  {
    match r
    case None => ("", "")
    case Some(info) =>
      DigitsValueOfNatToString(info.id);
      (NatToString(info.id), info.sigla)
  }

  // ---------------------------------------------------------------------------
  // Cameras
  // ---------------------------------------------------------------------------

  /** The video ids a unit's details list, or `None` when fetching the
      details raised. A video without an id has `None`. */
  type UnitVideos = string -> Option<seq<Option<string>>>

  /** The truthy ids of a unit's videos, in order. */
  function TruthyIds(vs: seq<Option<string>>): (ids: seq<string>)
    ensures forall x :: x in ids <==> x != "" && Some(x) in vs
    ensures |ids| <= |vs|
  {
    if vs == [] then []
    else
      assert forall v :: v in vs <==> v == vs[0] || v in vs[1..];
      if vs[0].Some? && vs[0].value != "" then [vs[0].value] + TruthyIds(vs[1..]) else TruthyIds(vs[1..])
  }

  /** `get_all_cameras`: the truthy video ids of every unit, unit by unit;
      a unit whose details cannot be fetched adds nothing. */
  function AllCameras(units: seq<string>, videos: UnitVideos): (ids: seq<string>)
    ensures forall x :: x in ids <==> x != "" && exists u :: u in units && videos(u).Some? && Some(x) in videos(u).value
  {
    if units == [] then []
    else
      assert forall u :: u in units <==> u == units[0] || u in units[1..];
      var here := if videos(units[0]).Some? then TruthyIds(videos(units[0]).value) else [];
      here + AllCameras(units[1..], videos)
  }

  /** The cameras of two lists of units are those of each, in order. */
  lemma {:induction false} AllCamerasAppend(a: seq<string>, b: seq<string>, videos: UnitVideos)
    ensures AllCameras(a + b, videos) == AllCameras(a, videos) + AllCameras(b, videos)
  {
    if a != [] {
      assert (a + b)[0] == a[0] && (a + b)[1..] == a[1..] + b;
      AllCamerasAppend(a[1..], b, videos);
    } else {
      assert a + b == b;
    }
  }

  /** A unit whose details fail is as good as absent. */
  lemma FailingUnitIsSkipped(a: seq<string>, u: string, b: seq<string>, videos: UnitVideos)
    requires videos(u).None?
    ensures AllCameras(a + [u] + b, videos) == AllCameras(a + b, videos)
  {
    AllCamerasAppend(a + [u], b, videos);
    AllCamerasAppend(a, [u], videos);
    AllCamerasAppend(a, b, videos);
    assert AllCameras([u], videos) == [];
  }

  /** A row of the camera table. */
  datatype CameraRow = CameraRow(camera: string, cameraName: string, unit: string,
                                 shoppingId: string, sigla: string, shoppingName: string, createdAt: string)

  /** The camera table's rows for one unit: one per video, the camera name
      falling back to '' when it cannot be fetched, the shopping cells left
      empty for an unmapped unit. */
  function UnitCameraRows(unit: string, name: string, vs: seq<string>, cameraName: string -> Option<string>, now: string): (rows: seq<CameraRow>)
    ensures |rows| == |vs|
    ensures forall i :: 0 <= i < |rows| ==> rows[i].camera == vs[i] && rows[i].unit == unit && rows[i].shoppingName == name
    ensures forall i :: 0 <= i < |rows| ==> rows[i].cameraName == cameraName(vs[i]).GetOr("")
    ensures forall i :: 0 <= i < |rows| ==> (rows[i].shoppingId, rows[i].sigla) == ShoppingCells(ShoppingOf(Some(name)))
  {
    var cells := ShoppingCells(ShoppingOf(Some(name)));
    seq(|vs|, i requires 0 <= i < |vs| =>
      CameraRow(vs[i], cameraName(vs[i]).GetOr(""), unit, cells.0, cells.1, name, now))
  }

  // ---------------------------------------------------------------------------
  // Paginated flow report
  // ---------------------------------------------------------------------------

  /** One page of the report, or the exception fetching it raised. */
  datatype Reply<T> = Page(items: seq<T>, hasMore: bool) | Raised

  function Items<T>(r: Reply<T>): seq<T> {
    if r.Page? then r.items else []
  }

  /** The loop stops after this reply. */
  predicate Ends<T>(r: Reply<T>) {
    r.Raised? || !r.hasMore || r.items == []
  }

  /** The items of the first `n` pages, page `k` being fetched at skip
      `k * limit`. */
  function Upto<T>(reply: nat -> Reply<T>, limit: nat, n: nat): seq<T> {
    if n == 0 then [] else Upto(reply, limit, n - 1) + Items(reply((n - 1) * limit))
  }

  /** `fetch_people_counter_data_with_pagination`: fetch pages from skip 0,
      `limit` apart, until one says there is no more, is empty or raises;
      the items of every page fetched are kept in page order. `stop` is a
      page that ends the loop: without one the source loops for ever. */
  method Paginate<T>(reply: nat -> Reply<T>, limit: nat, ghost stop: nat) returns (all: seq<T>, pages: nat)
    requires Ends(reply(stop * limit))
    ensures pages <= stop && Ends(reply(pages * limit))
    ensures forall k :: 0 <= k < pages ==> !Ends(reply(k * limit))
    ensures all == Upto(reply, limit, pages + 1)
  {
    all := [];
    var skip := 0;
    pages := 0;
    while true
      invariant pages <= stop && skip == pages * limit
      invariant forall k :: 0 <= k < pages ==> !Ends(reply(k * limit))
      invariant all == Upto(reply, limit, pages)
      decreases stop - pages
    {
      var r := reply(skip);
      if r.Raised? {
        return;
      }
      all := all + r.items;
      if !r.hasMore || r.items == [] {
        return;
      }
      skip := skip + limit;
      pages := pages + 1;
    }
  }

  /** A raising page adds nothing to what was gathered. */
  lemma RaisedKeepsEarlier<T>(reply: nat -> Reply<T>, limit: nat, n: nat)
    requires reply(n * limit).Raised?
    ensures Upto(reply, limit, n + 1) == Upto(reply, limit, n)
  {
  }

  // ---------------------------------------------------------------------------
  // Flow rows
  // ---------------------------------------------------------------------------

  /** A decoded `total`: a number, or null. */
  datatype Count = Number(n: int) | NullCount

  /** A decoded direction value: an object with or without `total`, or
      anything else (null included), on which `.get` raises. */
  datatype Direction = Counts(total: Option<Count>) | NotAnObject

  /** A report item: the creation stamp (None when absent or null) and the
      two directions (None when absent, read as `{}`). */
  datatype Item = Item(createdAt: Option<string>, directionIn: Option<Direction>, directionOut: Option<Direction>)

  /** A CSV count cell: a number, or empty, which is how the writer writes
      a null. */
  datatype Cell = Num(n: int) | Empty

  datatype FlowRow = FlowRow(camera: string, flowAt: string, entries: Cell, exits: Cell, createdAt: string)

  /** `direction.get('total', 0)` on `item.get(..., {})`: None when `.get`
      raises. */
  function Total(d: Option<Direction>): (c: Option<Cell>)
    ensures c.None? <==> d == Some(NotAnObject)
    ensures d.None? || d == Some(Counts(None)) ==> c == Some(Num(0))
    ensures d == Some(Counts(Some(NullCount))) ==> c == Some(Empty)
    ensures forall n :: d == Some(Counts(Some(Number(n)))) ==> c == Some(Num(n))
  {
    match d
    case None => Some(Num(0))
    case Some(NotAnObject) => None
    case Some(Counts(None)) => Some(Num(0))
    case Some(Counts(Some(NullCount))) => Some(Empty)
    case Some(Counts(Some(Number(n)))) => Some(Num(n))
  }

  /** The row of one report item, or None when reading a direction raises. */
  function ItemRow(camera: string, item: Item, now: string): (r: Option<FlowRow>)
    ensures r.None? <==> Total(item.directionIn).None? || Total(item.directionOut).None?
    ensures r.Some? ==> r.value.camera == camera && r.value.createdAt == now && r.value.flowAt == item.createdAt.GetOr("")
    ensures r.Some? ==> Some(r.value.entries) == Total(item.directionIn) && Some(r.value.exits) == Total(item.directionOut)
  {
    var entries := Total(item.directionIn);
    var exits := Total(item.directionOut);
    if entries.None? || exits.None? then None
    else Some(FlowRow(camera, item.createdAt.GetOr(""), entries.value, exits.value, now))
  }

  /** Every direction of the items can be read. */
  predicate Readable(items: seq<Item>) {
    forall i :: 0 <= i < |items| ==> Total(items[i].directionIn).Some? && Total(items[i].directionOut).Some?
  }

  /** The rows one camera writes: one per report item, in order, up to the
      first item whose direction raises; the handler then drops the rest of
      that camera's items, and the rows already written stay in the file.
      `CameraFlowRowsPrefix` states this. */
  function CameraFlowRows(camera: string, items: seq<Item>, now: string): (rows: seq<FlowRow>)
    ensures |rows| <= |items|
  {
    if items == [] then []
    else
      match ItemRow(camera, items[0], now)
      case None => []
      case Some(r) => [r] + CameraFlowRows(camera, items[1..], now)
  }

  /** A camera's rows are the rows of its leading readable items, and stop
      exactly at the first item whose direction raises. */
  lemma {:induction false} CameraFlowRowsPrefix(camera: string, items: seq<Item>, now: string)
    ensures var rows := CameraFlowRows(camera, items, now);
            && (forall i :: 0 <= i < |rows| ==> ItemRow(camera, items[i], now) == Some(rows[i]))
            && (|rows| < |items| ==> ItemRow(camera, items[|rows|], now).None?)
            && (Readable(items) <==> |rows| == |items|)
    decreases |items|
  {
    if items != [] && ItemRow(camera, items[0], now).Some? {
      var tail := items[1..];
      CameraFlowRowsPrefix(camera, tail, now);
      var rows := CameraFlowRows(camera, items, now);
      assert rows == [ItemRow(camera, items[0], now).value] + CameraFlowRows(camera, tail, now);
      forall i | 0 < i < |rows|
        ensures ItemRow(camera, items[i], now) == Some(rows[i])
      {
        assert items[i] == tail[i - 1];
      }
      if |rows| < |items| {
        assert items[|rows|] == tail[|rows| - 1];
      }
      if Readable(tail) {
        forall i | 0 < i < |items|
          ensures Total(items[i].directionIn).Some? && Total(items[i].directionOut).Some?
        {
          assert items[i] == tail[i - 1];
        }
      }
      if Readable(items) {
        forall i | 0 <= i < |tail|
          ensures Total(tail[i].directionIn).Some? && Total(tail[i].directionOut).Some?
        {
          assert tail[i] == items[i + 1];
        }
      }
    }
  }

  /** A direction that is present but null stops its camera's rows at that
      item; a null total is written as an empty cell. */
  lemma NullDirectionStopsCamera(camera: string, now: string)
    ensures var ok := Item(Some("t"), Some(Counts(Some(Number(3)))), None);
            var bad := Item(Some("t"), Some(NotAnObject), None);
            CameraFlowRows(camera, [ok, bad, ok], now) == [FlowRow(camera, "t", Num(3), Num(0), now)]
    ensures CameraFlowRows(camera, [Item(None, Some(Counts(Some(NullCount))), Some(Counts(None)))], now)
              == [FlowRow(camera, "", Empty, Num(0), now)]
  {
    var ok := Item(Some("t"), Some(Counts(Some(Number(3)))), None);
    var bad := Item(Some("t"), Some(NotAnObject), None);
    assert [ok, bad, ok][1..] == [bad, ok];
  }

  /** `process_cameras_and_save_csv`: the rows of every camera in camera
      order, `fetch` standing for the paginated report of each. */
  function FlowRows(cameras: seq<string>, fetch: string -> seq<Item>, now: string): (rows: seq<FlowRow>)
    ensures forall r :: r in rows ==> r.camera in cameras
  {
    if cameras == [] then []
    else
      var here := CameraFlowRows(cameras[0], fetch(cameras[0]), now);
      CameraFlowRowsPrefix(cameras[0], fetch(cameras[0]), now);
      assert forall r :: r in here ==> r.camera == cameras[0];
      here + FlowRows(cameras[1..], fetch, now)
  }

  /** Sum of the report sizes. */
  function TotalItems(cameras: seq<string>, fetch: string -> seq<Item>): nat {
    if cameras == [] then 0 else |fetch(cameras[0])| + TotalItems(cameras[1..], fetch)
  }

  /** At most one row per report item, and exactly one when every item of
      every camera can be read. */
  lemma {:induction false} FlowRowsCount(cameras: seq<string>, fetch: string -> seq<Item>, now: string)
    ensures |FlowRows(cameras, fetch, now)| <= TotalItems(cameras, fetch)
    ensures (forall c :: c in cameras ==> Readable(fetch(c))) ==> |FlowRows(cameras, fetch, now)| == TotalItems(cameras, fetch)
  {
    if cameras != [] {
      CameraFlowRowsPrefix(cameras[0], fetch(cameras[0]), now);
      FlowRowsCount(cameras[1..], fetch, now);
    }
  }

  /** The pieces `f(c)` of the elements of `cs`, one after another. */
  function Concat<C, T>(cs: seq<C>, f: C -> seq<T>): seq<T> {
    if cs == [] then [] else f(cs[0]) + Concat(cs[1..], f)
  }

  /** The piece of element `i` sits right after the pieces of the elements
      before it. */
  lemma {:induction false} ConcatBlock<C, T>(cs: seq<C>, f: C -> seq<T>, i: nat)
    requires i < |cs|
    ensures var o := |Concat(cs[..i], f)|;
            o + |f(cs[i])| <= |Concat(cs, f)| && Concat(cs, f)[o..o + |f(cs[i])|] == f(cs[i])
    decreases i
  {
    var here := f(cs[0]);
    var rest := Concat(cs[1..], f);
    if i == 0 {
      assert cs[..0] == [];
      assert (here + rest)[0..|here|] == here;
    } else {
      var tail := cs[1..];
      ConcatBlock(tail, f, i - 1);
      assert tail[i - 1] == cs[i];
      var pre := cs[..i];
      assert pre[0] == cs[0] && pre[1..] == tail[..i - 1];
      var o := |Concat(tail[..i - 1], f)|;
      assert |Concat(pre, f)| == |here| + o;
      SliceAfter(here, rest, o, |f(cs[i])|);
    }
  }

  /** The flow's rows are the cameras' rows, one camera after another. */
  lemma {:induction false} FlowRowsAreConcat(cameras: seq<string>, fetch: string -> seq<Item>, now: string)
    ensures FlowRows(cameras, fetch, now) == Concat(cameras, c => CameraFlowRows(c, fetch(c), now))
    decreases |cameras|
  {
    if cameras != [] {
      FlowRowsAreConcat(cameras[1..], fetch, now);
    }
  }

  /** The rows of camera `i` are its rows, in report order, right after the
      rows of the cameras before it. */
  lemma FlowRowsBlock(cameras: seq<string>, fetch: string -> seq<Item>, now: string, i: nat)
    requires i < |cameras|
    ensures var o := |FlowRows(cameras[..i], fetch, now)|;
            var here := CameraFlowRows(cameras[i], fetch(cameras[i]), now);
            o + |here| <= |FlowRows(cameras, fetch, now)| && FlowRows(cameras, fetch, now)[o..o + |here|] == here
  {
    FlowRowsAreConcat(cameras, fetch, now);
    FlowRowsAreConcat(cameras[..i], fetch, now);
    ConcatBlock(cameras, c => CameraFlowRows(c, fetch(c), now), i);
  }

  lemma SliceAfter<T>(a: seq<T>, b: seq<T>, o: nat, n: nat)
    requires o + n <= |b|
    ensures (a + b)[|a| + o..|a| + o + n] == b[o..o + n]
  {
  }

  // ---------------------------------------------------------------------------
  // Token expiry
  // ---------------------------------------------------------------------------

  /** The token fields the expiry test reads, in whole seconds. */
  datatype Token = Token(obtainedAt: Option<int>, expiresIn: Option<int>)

  const DefaultBuffer: int := 60

  /** `is_token_expired`: a token missing either field is expired;
      otherwise it is expired once the time left is at most `buffer`. */
  function IsExpired(tok: Token, now: int, buffer: int): (b: bool)
    ensures tok.obtainedAt.None? || tok.expiresIn.None? ==> b
    ensures tok.obtainedAt.Some? && tok.expiresIn.Some? ==>
      (b <==> now >= tok.obtainedAt.value + tok.expiresIn.value - buffer)
  {
    if tok.obtainedAt.None? || tok.expiresIn.None? then true
    else
      var elapsed := now - tok.obtainedAt.value;
      var left := tok.expiresIn.value - elapsed;
      left <= buffer
  }

  /** Once expired, a token stays expired. */
  lemma ExpiryIsMonotoneInTime(tok: Token, now: int, later: int, buffer: int)
    requires now <= later && IsExpired(tok, now, buffer)
    ensures IsExpired(tok, later, buffer)
  {
  }

  /** A larger safety margin never revives an expired token. */
  lemma ExpiryIsMonotoneInBuffer(tok: Token, now: int, buffer: int, wider: int)
    requires buffer <= wider && IsExpired(tok, now, buffer)
    ensures IsExpired(tok, now, wider)
  {
  }

  /** With the default margin a complete token is fresh exactly during the
      first `expires_in - 60` seconds after it was obtained. */
  lemma DefaultWindow(obtained: int, expiresIn: int, now: int)
    ensures !IsExpired(Token(Some(obtained), Some(expiresIn)), now, DefaultBuffer) <==> now - obtained < expiresIn - 60
  {
  }
}
