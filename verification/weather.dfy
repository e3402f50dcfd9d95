/** The HG Brasil weather flows: each configured city is asked for its
    weather, the cities that answer are kept, and their forecasts are
    flattened into rows, one per forecast day, or one per city holding just
    the first day (the current conditions). Both the current flow and the
    legacy one are modelled; the HTTP calls are parameters. */
module Weather {
  import opened Wrappers
  import opened Text
  import opened Calendar

  /** A configured city: its dimension id, its name, and the name the API
      is queried with. */
  datatype City = City(id: nat, name: string, apiName: string)

  /** `CIDADES`, in order. */
  const Cities: seq<City> := [
    City(1, "Blumenau", "Blumenau,SC"),
    City(2, "Balneário Camboriú", "Balneário Camboriú,SC"),
    City(3, "Joinville", "Joinville,SC"),
    City(4, "São José", "São José,SC"),
    City(5, "Criciúma", "Criciúma,SC")
  ]

  // ---------------------------------------------------------------------------
  // Flattening forecasts into rows
  // ---------------------------------------------------------------------------

  /** One city's answer as the row builders see it: what every row of the
      city repeats, and its forecast days in order. */
  datatype Block<H, D> = Block(head: H, days: seq<D>)

  /** A row: the city's part and one forecast day. */
  datatype Row<H, D> = Row(head: H, day: D)

  /** The forecast days of all blocks together. */
  function DayCount<H, D>(bs: seq<Block<H, D>>): nat
    decreases |bs|
  {
    if bs == [] then 0 else DayCount(bs[..|bs| - 1]) + |bs[|bs| - 1].days|
  }

  /** The blocks with at least one forecast day. */
  function NonEmptyCount<H, D>(bs: seq<Block<H, D>>): nat
    decreases |bs|
  {
    if bs == [] then 0 else NonEmptyCount(bs[..|bs| - 1]) + (if bs[|bs| - 1].days == [] then 0 else 1)
  }

  /** The rows of a block's days, in day order. */
  function DayRows<H, D>(b: Block<H, D>, days: seq<D>): (rows: seq<Row<H, D>>)
    ensures |rows| == |days|
    ensures forall j :: 0 <= j < |days| ==> rows[j] == Row(b.head, days[j])
  {
    seq(|days|, j requires 0 <= j < |days| => Row(b.head, days[j]))
  }

  /** Every day of every block, blocks in order and days in order within a
      block. */
  function AllDays<H, D>(bs: seq<Block<H, D>>): (rows: seq<Row<H, D>>)
    ensures |rows| == DayCount(bs)
    decreases |bs|
  {
    if bs == [] then [] else AllDays(bs[..|bs| - 1]) + DayRows(bs[|bs| - 1], bs[|bs| - 1].days)
  }

  /** Day `j` of block `i` sits right after the days of the blocks before
      it. */
  lemma {:induction false} AllDaysPlace<H, D>(bs: seq<Block<H, D>>, i: nat, j: nat)
    requires i < |bs| && j < |bs[i].days|
    ensures DayCount(bs[..i]) + j < |AllDays(bs)| && AllDays(bs)[DayCount(bs[..i]) + j] == Row(bs[i].head, bs[i].days[j])
    decreases |bs|
  {
    var front := bs[..|bs| - 1];
    if i < |front| {
      AllDaysPlace(front, i, j);
      assert front[..i] == bs[..i] && front[i] == bs[i];
    } else {
      assert bs[..i] == front;
    }
  }

  /** The days of the blocks up to and including block `i` are some of
      the days of all blocks. */
  lemma {:induction false} DayCountPrefix<H, D>(bs: seq<Block<H, D>>, i: nat)
    requires i < |bs|
    ensures DayCount(bs[..i]) + |bs[i].days| <= DayCount(bs)
    decreases |bs|
  {
    var front := bs[..|bs| - 1];
    if i < |front| {
      DayCountPrefix(front, i);
      assert front[..i] == bs[..i] && front[i] == bs[i];
    } else {
      assert bs[..i] == front;
    }
  }

  /** So block `i`'s rows are the run that starts after the days of the
      blocks before it. */
  lemma AllDaysBlock<H, D>(bs: seq<Block<H, D>>, i: nat)
    requires i < |bs|
    ensures DayCount(bs[..i]) + |bs[i].days| <= |AllDays(bs)|
    ensures AllDays(bs)[DayCount(bs[..i])..DayCount(bs[..i]) + |bs[i].days|] == DayRows(bs[i], bs[i].days)
  {
    var o := DayCount(bs[..i]);
    var n := |bs[i].days|;
    DayCountPrefix(bs, i);
    var all := AllDays(bs);
    var run := all[o..o + n];
    var want := DayRows(bs[i], bs[i].days);
    forall j | 0 <= j < n
      ensures run[j] == want[j]
    {
      AllDaysPlace(bs, i, j);
    }
    assert run == want;
  }


  /** The first day of every block that has one, blocks in order. */
  function FirstDays<H, D>(bs: seq<Block<H, D>>): (rows: seq<Row<H, D>>)
    ensures |rows| == NonEmptyCount(bs)
    decreases |bs|
  {
    if bs == [] then []
    else
      var last := bs[|bs| - 1];
      FirstDays(bs[..|bs| - 1]) + (if last.days == [] then [] else [Row(last.head, last.days[0])])
  }

  /** Block `i`'s row comes after one row for each non-empty block before
      it. */
  lemma {:induction false} FirstDaysPlace<H, D>(bs: seq<Block<H, D>>, i: nat)
    requires i < |bs| && bs[i].days != []
    ensures NonEmptyCount(bs[..i]) < |FirstDays(bs)| && FirstDays(bs)[NonEmptyCount(bs[..i])] == Row(bs[i].head, bs[i].days[0])
    decreases |bs|
  {
    var front := bs[..|bs| - 1];
    if i < |front| {
      FirstDaysPlace(front, i);
      assert front[..i] == bs[..i] && front[i] == bs[i];
    } else {
      assert bs[..i] == front;
    }
  }

  /** The current-conditions row of a city is the first of its forecast
      rows. */
  lemma FirstIsStartOfAll<H, D>(bs: seq<Block<H, D>>, i: nat)
    requires i < |bs| && bs[i].days != []
    ensures NonEmptyCount(bs[..i]) < |FirstDays(bs)| && DayCount(bs[..i]) < |AllDays(bs)|
    ensures FirstDays(bs)[NonEmptyCount(bs[..i])] == AllDays(bs)[DayCount(bs[..i])]
  {
    AllDaysPlace(bs, i, 0);
    FirstDaysPlace(bs, i);
  }

  /** There are never more current rows than forecast rows, nor than
      cities. */
  lemma {:induction false} FirstNeverOutnumbers<H, D>(bs: seq<Block<H, D>>)
    ensures NonEmptyCount(bs) <= DayCount(bs)
    ensures NonEmptyCount(bs) <= |bs|
    decreases |bs|
  {
    if bs != [] {
      FirstNeverOutnumbers(bs[..|bs| - 1]);
    }
  }

  /** When every city has a forecast, there is one current row per city. */
  lemma {:induction false} OneCurrentRowEach<H, D>(bs: seq<Block<H, D>>)
    requires forall i :: 0 <= i < |bs| ==> bs[i].days != []
    ensures NonEmptyCount(bs) == |bs|
    decreases |bs|
  {
    if bs != [] {
      OneCurrentRowEach(bs[..|bs| - 1]);
    }
  }

  /** The row-building loop of `process_weather_data` and of the legacy
      `process_current_weather` / `process_forecast_weather`: for each block,
      its first day only (`forecast[:1]`) or all its days, appended in
      order. */
  method Flatten<H, D>(bs: seq<Block<H, D>>, onlyFirst: bool) returns (rows: seq<Row<H, D>>)
    ensures onlyFirst ==> rows == FirstDays(bs)
    ensures !onlyFirst ==> rows == AllDays(bs)
  {
    rows := [];
    var n := 0;
    while n < |bs|
      invariant 0 <= n <= |bs|
      invariant onlyFirst ==> rows == FirstDays(bs[..n])
      invariant !onlyFirst ==> rows == AllDays(bs[..n])
    {
      var b := bs[n];
      var days := if onlyFirst && b.days != [] then b.days[..1] else if onlyFirst then [] else b.days;
      assert bs[..n + 1][..n] == bs[..n] && bs[..n + 1][n] == b;
      rows := rows + DayRows(b, days);
      n := n + 1;
    }
    assert bs[..n] == bs;
  }

  // ---------------------------------------------------------------------------
  // Forecast dates
  // ---------------------------------------------------------------------------

  /** A calendar date. */
  datatype Date = Date(year: nat, month: nat, day: nat)

  predicate AllDigits(t: string) {
    forall i :: 0 <= i < |t| ==> IsDigit(t[i])
  }

  /** `%d`: a digit from 1, a space and a digit from 1, or two digits from
      01 to 31. */
  predicate DayText(t: string) {
    (|t| == 1 && IsDigit(t[0]) && t[0] != '0')
    || (|t| == 2 && t[0] == ' ' && IsDigit(t[1]) && t[1] != '0')
    || (|t| == 2 && AllDigits(t) && 1 <= DigitsValue(t) <= 31)
  }

  /** `%m`: a digit from 1, or two digits from 01 to 12. */
  predicate MonthText(t: string) {
    (|t| == 1 && IsDigit(t[0]) && t[0] != '0') || (|t| == 2 && AllDigits(t) && 1 <= DigitsValue(t) <= 12)
  }

  /** `%Y`: four digits. */
  predicate YearText(t: string) {
    |t| == 4 && AllDigits(t)
  }

  /** The number a day field stands for. */
  function DayValue(t: string): nat
    requires DayText(t)
  {
    if t[0] == ' ' then DigitsValue(t[1..]) else DigitsValue(t)
  }

  /** `datetime.strptime(s, '%d/%m/%Y')`: a day, a month and a year
      separated by '/', with nothing before or after, naming a calendar
      date; `None` where it raises `ValueError`. */
  function ParseDate(s: string): (r: Option<Date>)
    ensures r.Some? ==> ValidDate(r.value.year, r.value.month, r.value.day)
  {
    match Find(s, "/")
    case None => None
    case Some(i) =>
      var rest := s[i + 1..];
      match Find(rest, "/")
      case None => None
      case Some(j) =>
        var d, m, y := s[..i], rest[..j], rest[j + 1..];
        if DayText(d) && MonthText(m) && YearText(y) && ValidDate(DigitsValue(y), DigitsValue(m), DayValue(d))
        then Some(Date(DigitsValue(y), DigitsValue(m), DayValue(d)))
        else None
  }

  /** A number below 100 as two digits. */
  function Pad2(n: nat): (t: string)
    requires n < 100
    ensures |t| == 2 && AllDigits(t) && DigitsValue(t) == n
  {
    var t := [DigitChar(n / 10), DigitChar(n % 10)];
    assert t[..1][..0] == [];
    assert DigitsValue(t[..1]) == n / 10;
    t
  }

  /** Day, month and year written as the API writes them, `dd/mm/yyyy`. */
  function DateText(day: nat, month: nat, year: nat): (t: string)
    requires day < 100 && month < 100 && year < 10000
    ensures |t| == 10
  {
    Pad2(day) + "/" + Pad2(month) + "/" + Pad2(year / 100) + Pad2(year % 100)
  }

  /** Four digits are read as a year. */
  lemma YearDigits(hi: nat, lo: nat)
    requires hi < 100 && lo < 100
    ensures var t := Pad2(hi) + Pad2(lo); AllDigits(t) && DigitsValue(t) == 100 * hi + lo
  {
    var a, b := Pad2(hi), Pad2(lo);
    var t := a + b;
    assert t[..3] == a + b[..1];
    assert (a + b[..1])[..2] == a;
    assert b[..1][..0] == [];
  }

  /** The first '/' of a text whose first two characters are digits and
      whose third is '/'. */
  lemma SlashAtTwo(s: string)
    requires |s| >= 3 && IsDigit(s[0]) && IsDigit(s[1]) && s[2] == '/'
    ensures Find(s, "/") == Some(2)
  {
    assert OccursAt(s, "/", 2) by { assert s[2..3] == "/"; }
    assert !OccursAt(s, "/", 0) by { assert s[0..1][0] == s[0]; }
    assert !OccursAt(s, "/", 1) by { assert s[1..2][0] == s[1]; }
  }

  /** A text written `dd/mm/yyyy` parses back into its day, month and year
      exactly when they name a calendar date: `31/02/2024` and
      `29/02/2023` raise, `29/02/2024` does not. */
  lemma DateRoundTrip(day: nat, month: nat, year: nat)
    requires day < 100 && month < 100 && year < 10000
    ensures ParseDate(DateText(day, month, year)) == if ValidDate(year, month, day) then Some(Date(year, month, day)) else None
  {
    var s := DateText(day, month, year);
    var d, m, y := Pad2(day), Pad2(month), Pad2(year / 100) + Pad2(year % 100);
    assert s == d + "/" + m + "/" + y;
    SlashAtTwo(s);
    var rest := s[3..];
    assert rest == m + "/" + y;
    SlashAtTwo(rest);
    assert s[..2] == d && rest[..2] == m && rest[3..] == y;
    YearDigits(year / 100, year % 100);
  }

  /** Every row's day has a full date that parses. */
  predicate Dated<H, D>(rows: seq<Row<H, D>>, fullDate: D -> string) {
    forall j :: 0 <= j < |rows| ==> ParseDate(fullDate(rows[j].day)).Some?
  }

  /** A date that breaks the first-day rows breaks the all-day rows too:
      every first day is among all the days. */
  lemma {:induction false} FirstDatedWhenAllDated<H, D>(bs: seq<Block<H, D>>, fullDate: D -> string)
    requires Dated(AllDays(bs), fullDate)
    ensures Dated(FirstDays(bs), fullDate)
    decreases |bs|
  {
    if bs != [] {
      var init, last := bs[..|bs| - 1], bs[|bs| - 1];
      var before := AllDays(init);
      assert AllDays(bs) == before + DayRows(last, last.days);
      assert forall j :: 0 <= j < |before| ==> before[j] == AllDays(bs)[j];
      FirstDatedWhenAllDated(init, fullDate);
      if last.days != [] {
        assert AllDays(bs)[|before|] == Row(last.head, last.days[0]);
      }
      var first := FirstDays(bs);
      forall j | 0 <= j < |first| ensures ParseDate(fullDate(first[j].day)).Some? {
        if j < |FirstDays(init)| {
          assert first[j] == FirstDays(init)[j];
        }
      }
    }
  }

  // ---------------------------------------------------------------------------
  // Collecting the cities
  // ---------------------------------------------------------------------------

  /** The answers of the cities that answered, in city order; none at all
      exactly when no city answers. */
  function Kept<C, X>(cities: seq<C>, fetch: C -> Option<X>): (xs: seq<X>)
    ensures |xs| <= |cities|
    ensures xs == [] <==> forall c :: c in cities ==> fetch(c).None?
    decreases |cities|
  {
    if cities == [] then []
    else
      var front := Kept(cities[..|cities| - 1], fetch);
      var last := cities[|cities| - 1];
      assert forall c :: c in cities ==> c in cities[..|cities| - 1] || c == last;
      assert forall c :: c in cities[..|cities| - 1] ==> c in cities;
      front + (if fetch(last).Some? then [fetch(last).value] else [])
  }

  /** What is kept is exactly the answers given. */
  lemma {:induction false} KeptAnswers<C, X>(cities: seq<C>, fetch: C -> Option<X>)
    ensures forall x :: x in Kept(cities, fetch) <==> exists c :: c in cities && fetch(c) == Some(x)
    decreases |cities|
  {
    if cities != [] {
      var front := cities[..|cities| - 1];
      var last := cities[|cities| - 1];
      KeptAnswers(front, fetch);
      assert forall c :: c in cities <==> c in front || c == last;
    }
  }

  lemma {:induction false} KeptAppend<C, X>(a: seq<C>, b: seq<C>, fetch: C -> Option<X>)
    ensures Kept(a + b, fetch) == Kept(a, fetch) + Kept(b, fetch)
    decreases |b|
  {
    if b == [] {
      assert a + b == a;
    } else {
      var b' := b[..|b| - 1];
      assert (a + b)[..|a + b| - 1] == a + b' && (a + b)[|a + b| - 1] == b[|b| - 1];
      KeptAppend(a, b', fetch);
    }
  }

  /** A city whose fetch gives nothing is skipped, as if it were not
      configured. */
  lemma FailedCityIsSkipped<C, X>(a: seq<C>, c: C, b: seq<C>, fetch: C -> Option<X>)
    requires fetch(c).None?
    ensures Kept(a + [c] + b, fetch) == Kept(a + b, fetch)
  {
    KeptAppend(a + [c], b, fetch);
    KeptAppend(a, [c], fetch);
    KeptAppend(a, b, fetch);
    assert [c][..0] == [];
  }

  /** The collecting loop of both flows: each city in turn, its answer kept
      when there is one; no answer at all raises. */
  method CollectCities<C, X>(cities: seq<C>, fetch: C -> Option<X>) returns (r: Result<seq<X>, string>)
    ensures r.Failure? <==> forall c :: c in cities ==> fetch(c).None?
    ensures r.Success? ==> r.value == Kept(cities, fetch) && r.value != []
  {
    var list: seq<X> := [];
    var n := 0;
    while n < |cities|
      invariant 0 <= n <= |cities|
      invariant list == Kept(cities[..n], fetch)
    {
      var answer := fetch(cities[n]);
      assert cities[..n + 1][..n] == cities[..n] && cities[..n + 1][n] == cities[n];
      if answer.Some? {
        list := list + [answer.value];
      }
      n := n + 1;
    }
    assert cities[..n] == cities;
    if list == [] {
      r := Failure("Falha ao coletar dados climáticos de todas as cidades");
    } else {
      r := Success(list);
    }
  }

  // ---------------------------------------------------------------------------
  // The current flow
  // ---------------------------------------------------------------------------

  /** A validated API answer paired with its city's id: the current
      conditions and the forecast days. */
  datatype Response<R, D> = Response(cityId: nat, results: R, forecast: seq<D>)

  function Blocks<R, D>(rs: seq<Response<R, D>>): (bs: seq<Block<(nat, R), D>>)
    ensures |bs| == |rs|
    ensures forall i :: 0 <= i < |rs| ==> bs[i] == Block((rs[i].cityId, rs[i].results), rs[i].forecast)
  {
    seq(|rs|, i requires 0 <= i < |rs| => Block((rs[i].cityId, rs[i].results), rs[i].forecast))
  }

  /** `process_weather_data`: with `onlyFirst`, one row per response that
      has a forecast, from its first day; otherwise one row per forecast
      day; responses in order, then days in order. Each row's full date is
      parsed, and one that does not parse raises. */
  method ProcessWeather<R, D>(rs: seq<Response<R, D>>, onlyFirst: bool, fullDate: D -> string) returns (r: Result<seq<Row<(nat, R), D>>, string>)
    ensures r.Failure? <==> !Dated(if onlyFirst then FirstDays(Blocks(rs)) else AllDays(Blocks(rs)), fullDate)
    ensures r.Success? && onlyFirst ==> |r.value| == NonEmptyCount(Blocks(rs))
    ensures r.Success? && !onlyFirst ==> |r.value| == DayCount(Blocks(rs))
    ensures r.Success? && onlyFirst ==> forall i :: 0 <= i < |rs| && rs[i].forecast != [] ==>
      NonEmptyCount(Blocks(rs)[..i]) < |r.value| && r.value[NonEmptyCount(Blocks(rs)[..i])] == Row((rs[i].cityId, rs[i].results), rs[i].forecast[0])
    ensures r.Success? && !onlyFirst ==> forall i :: 0 <= i < |rs| ==>
      DayCount(Blocks(rs)[..i]) + |rs[i].forecast| <= |r.value| &&
      r.value[DayCount(Blocks(rs)[..i])..DayCount(Blocks(rs)[..i]) + |rs[i].forecast|] == DayRows(Blocks(rs)[i], rs[i].forecast)
  {
    var bs := Blocks(rs);
    var rows := Flatten(bs, onlyFirst);
    if !Dated(rows, fullDate) {
      return Failure("time data does not match format '%d/%m/%Y'");
    }
    if onlyFirst {
      forall i | 0 <= i < |rs| && rs[i].forecast != []
        ensures NonEmptyCount(bs[..i]) < |rows| && rows[NonEmptyCount(bs[..i])] == Row((rs[i].cityId, rs[i].results), rs[i].forecast[0])
      {
        FirstDaysPlace(bs, i);
      }
    } else {
      forall i | 0 <= i < |rs|
        ensures DayCount(bs[..i]) + |rs[i].forecast| <= |rows| &&
          rows[DayCount(bs[..i])..DayCount(bs[..i]) + |rs[i].forecast|] == DayRows(bs[i], rs[i].forecast)
      {
        AllDaysBlock(bs, i);
      }
    }
    r := Success(rows);
  }

  /** How `main` ends: no city answered (it raises); a full date failed to
      parse while the current rows were built (it raises with nothing
      loaded) or while the forecast rows were built (it raises after the
      current rows were loaded); or both tables were loaded. */
  datatype WeatherRun<X> = NoCity | BadCurrentDate | BadForecastDate(current: seq<X>) | Loaded(current: seq<X>, forecast: seq<X>)

  /** `main`: collect every configured city, raising when none answers;
      then build and load the current rows, then build and load the
      forecast rows of the cities that answered. `fetch` stands for
      `fetch_weather_data`, `None` covering both a missing answer and an
      exception. */
  method RunWeather<R, D>(fetch: City -> Option<Response<R, D>>, fullDate: D -> string) returns (run: WeatherRun<Row<(nat, R), D>>)
    ensures run.NoCity? <==> forall c :: c in Cities ==> fetch(c).None?
    ensures var bs := Blocks(Kept(Cities, fetch));
            && (run.BadCurrentDate? <==> !run.NoCity? && !Dated(FirstDays(bs), fullDate))
            && (run.BadForecastDate? <==> !run.NoCity? && Dated(FirstDays(bs), fullDate) && !Dated(AllDays(bs), fullDate))
            && (run.Loaded? <==> !run.NoCity? && Dated(AllDays(bs), fullDate))
            && (run.BadForecastDate? ==> run.current == FirstDays(bs))
            && (run.Loaded? ==> run.current == FirstDays(bs) && run.forecast == AllDays(bs))
    ensures run.Loaded? ==> |run.current| <= |run.forecast| && |run.current| <= |Cities|
  {
    var collected := CollectCities(Cities, fetch);
    if collected.Failure? {
      return NoCity;
    }
    var bs := Blocks(collected.value);
    var current := Flatten(bs, true);
    if !Dated(current, fullDate) {
      if Dated(AllDays(bs), fullDate) {
        FirstDatedWhenAllDated(bs, fullDate);
      }
      return BadCurrentDate;
    }
    var forecast := Flatten(bs, false);
    if !Dated(forecast, fullDate) {
      return BadForecastDate(current);
    }
    FirstNeverOutnumbers(bs);
    run := Loaded(current, forecast);
  }

  // ---------------------------------------------------------------------------
  // The legacy flow
  // ---------------------------------------------------------------------------

  /** A coordinate as the API gives it: null, a number (with its `str`), or
      a string. */
  datatype Coord = CNull | CNum(x: real, text: string) | CStr(s: string)

  /** Python truthiness: a zero and an empty string are false. */
  predicate Truthy(c: Coord) {
    match c
    case CNull => false
    case CNum(x, _) => x != 0.0
    case CStr(s) => s != ""
  }

  /** `str(v) if v else None`. */
  function Stringify(c: Coord): (s: Option<string>)
    ensures s.Some? <==> Truthy(c)
    ensures c.CNum? && s.Some? ==> s.value == c.text
    ensures c.CStr? && s.Some? ==> s.value == c.s
  {
    match c
    case CNull => None
    case CNum(x, text) => if x != 0.0 then Some(text) else None
    case CStr(s) => if s != "" then Some(s) else None
  }

  /** A coordinate lies at zero latitude or longitude only on the equator or
      the prime meridian; there the legacy rows lose it. */
  lemma ZeroCoordinateIsDropped(text: string)
    ensures Stringify(CNum(0.0, text)) == None
    ensures Stringify(CStr("0")) == Some("0")
  {
  }

  /** `dict.get(key, dict.get(alias, None))`: the key when present, else
      the alias, else null. */
  function GetEither(key: Option<Coord>, alias: Option<Coord>): Coord {
    if key.Some? then key.value else if alias.Some? then alias.value else CNull
  }

  /** The `results` object of an answer; a missing key is `None`, and
      `forecast` may also be present and null. The city, temperature and
      humidity are carried as they are. */
  datatype Results<T, D> = Results(current: T, latitude: Option<Coord>, lat: Option<Coord>,
                                    longitude: Option<Coord>, lon: Option<Coord>, forecast: Option<Option<seq<D>>>)

  /** The decoded body: `valid_key` (false when missing) and `results`. */
  datatype Body<T, D> = Body(validKey: bool, results: Option<Results<T, D>>)

  /** What the request came to: an exception, or a status and a body that
      may fail to decode. */
  datatype Http<T, D> = Threw | Answered(status: int, body: Option<Body<T, D>>)

  /** The dictionary `fetch_weather_data` returns. */
  datatype Collected<T, D> = Collected(cityId: nat, latitude: Coord, longitude: Coord, current: T, collectedAt: string, forecast: seq<D>)

  /** Whether the answer makes it through: status 200, a decodable body, a
      valid key, a `results` object and a forecast that is not null (its
      length is logged). */
  predicate Usable<T, D>(reply: Http<T, D>) {
    reply.Answered? && reply.status == 200 && reply.body.Some? && reply.body.value.validKey
    && reply.body.value.results.Some? && reply.body.value.results.value.forecast != Some(None)
  }

  /** The legacy `fetch_weather_data`: `None` unless the answer is usable;
      otherwise the city's id, the coordinates under either spelling, the
      current conditions, the time of collection and the forecast (empty
      when absent). */
  function FetchLegacy<T, D>(city: City, reply: Http<T, D>, now: string): (c: Option<Collected<T, D>>)
    ensures c.Some? <==> Usable(reply)
    ensures c.Some? ==> c.value.cityId == city.id && c.value.collectedAt == now
    ensures c.Some? ==> var res := reply.body.value.results.value;
      c.value.current == res.current &&
      c.value.latitude == GetEither(res.latitude, res.lat) &&
      c.value.longitude == GetEither(res.longitude, res.lon) &&
      c.value.forecast == (if res.forecast.Some? then res.forecast.value.value else [])
  {
    if !Usable(reply) then None
    else
      var res := reply.body.value.results.value;
      Some(Collected(city.id, GetEither(res.latitude, res.lat), GetEither(res.longitude, res.lon),
                     res.current, now, if res.forecast.Some? then res.forecast.value.value else []))
  }

  /** What every legacy row of a city repeats. */
  datatype LegacyHead<T> = LegacyHead(cityId: nat, latitude: Option<string>, longitude: Option<string>, current: T)

  function LegacyBlocks<T, D>(list: seq<Collected<T, D>>): (bs: seq<Block<LegacyHead<T>, D>>)
    ensures |bs| == |list|
    ensures forall i :: 0 <= i < |list| ==> bs[i].days == list[i].forecast && bs[i].head.cityId == list[i].cityId
    ensures forall i :: 0 <= i < |list| ==> (bs[i].head.latitude.Some? <==> Truthy(list[i].latitude))
    ensures forall i :: 0 <= i < |list| ==> (bs[i].head.longitude.Some? <==> Truthy(list[i].longitude))
    ensures forall i :: 0 <= i < |list| ==> bs[i].head.current == list[i].current
  {
    seq(|list|, i requires 0 <= i < |list| =>
      Block(LegacyHead(list[i].cityId, Stringify(list[i].latitude), Stringify(list[i].longitude), list[i].current), list[i].forecast))
  }

  /** `process_current_weather`: entries without a forecast are skipped;
      every other entry gives exactly one row, from its first day, whose
      full date must parse. */
  method ProcessCurrent<T, D>(list: seq<Collected<T, D>>, fullDate: D -> string) returns (r: Result<seq<Row<LegacyHead<T>, D>>, string>)
    ensures r.Failure? <==> !Dated(FirstDays(LegacyBlocks(list)), fullDate)
    ensures r.Success? ==> |r.value| == NonEmptyCount(LegacyBlocks(list)) <= |list|
    ensures r.Success? ==> forall i :: 0 <= i < |list| && list[i].forecast != [] ==>
      NonEmptyCount(LegacyBlocks(list)[..i]) < |r.value| && r.value[NonEmptyCount(LegacyBlocks(list)[..i])] == Row(LegacyBlocks(list)[i].head, list[i].forecast[0])
  {
    var rows := Flatten(LegacyBlocks(list), true);
    if !Dated(rows, fullDate) {
      return Failure("time data does not match format '%d/%m/%Y'");
    }
    FirstNeverOutnumbers(LegacyBlocks(list));
    var bs := LegacyBlocks(list);
    forall i | 0 <= i < |list| && list[i].forecast != []
      ensures NonEmptyCount(bs[..i]) < |rows| && rows[NonEmptyCount(bs[..i])] == Row(bs[i].head, list[i].forecast[0])
    {
      FirstDaysPlace(bs, i);
    }
    r := Success(rows);
  }

  /** `process_forecast_weather`: every day of every entry, entries in
      order, then days in order; every full date must parse. */
  method ProcessForecast<T, D>(list: seq<Collected<T, D>>, fullDate: D -> string) returns (r: Result<seq<Row<LegacyHead<T>, D>>, string>)
    ensures r.Failure? <==> !Dated(AllDays(LegacyBlocks(list)), fullDate)
    ensures r.Success? ==> |r.value| == DayCount(LegacyBlocks(list))
    ensures r.Success? ==> forall i :: 0 <= i < |list| ==>
      DayCount(LegacyBlocks(list)[..i]) + |list[i].forecast| <= |r.value| &&
      r.value[DayCount(LegacyBlocks(list)[..i])..DayCount(LegacyBlocks(list)[..i]) + |list[i].forecast|] == DayRows(LegacyBlocks(list)[i], list[i].forecast)
  {
    var rows := Flatten(LegacyBlocks(list), false);
    if !Dated(rows, fullDate) {
      return Failure("time data does not match format '%d/%m/%Y'");
    }
    var bs := LegacyBlocks(list);
    forall i | 0 <= i < |list|
      ensures DayCount(bs[..i]) + |list[i].forecast| <= |rows| &&
        rows[DayCount(bs[..i])..DayCount(bs[..i]) + |list[i].forecast|] == DayRows(bs[i], list[i].forecast)
    {
      AllDaysBlock(bs, i);
    }
    r := Success(rows);
  }
}
