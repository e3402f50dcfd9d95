/** The FIPE price lookup: brand codes, the catalogue client's fallbacks,
    the keyword matcher that picks a model, the year token that picks a
    model year, the search through model variants when the chosen model
    lacks the year, and the split of a year code into year and fuel.

    The catalogue is an oracle for one reference table: a listing call
    answers with a 200 and its decoded list, with another status, or raises;
    the price call answers with a decoded JSON object, or raises (`None`). */
module Fipe {
  import opened Wrappers
  import opened Text
  import opened PlateApi
  import opened Schemas

  // ---------------------------------------------------------------------------
  // Catalogue replies
  // ---------------------------------------------------------------------------

  /** A listing entry, `{"Label": ..., "Value": ...}`. */
  datatype Entry = Entry(name: string, code: string)

  /** One catalogue call as the client sees it. */
  datatype Reply<+T> = Ok(body: T) | NotOk(code: int) | Raises

  /** The catalogue for one reference table. `models(brand)` is the
      `Modelos` list of a brand, `years(brand, model)` the years of a model,
      `value(brand, model, year, fuel)` the price body. */
  datatype Catalog = Catalog(
    models: string -> Reply<seq<Entry>>,
    years: (string, string) -> Reply<seq<Entry>>,
    value: (string, string, string, string) -> Option<map<string, Json>>)

  /** The reference table used when the catalogue cannot name the current one. */
  const DEFAULT_TABLE: string := "327"

  /** A JSON value that is not a list or an object. */
  type Scalar = j: Json | !j.JArr? && !j.JObj? witness JNull

  /** Python's `str()` of a decoded scalar: `None`, `True`/`False`, the
      decimal text of a number, a text as it is. */
  function PyStr(j: Scalar): (s: string)
    ensures j.JStr? ==> s == j.s
    ensures j.JNum? ==> ParseInt(s) == Some(j.n)
    ensures j.JNull? ==> s == "None"
  {
    match j
    case JNull => "None"
    case JBool(b) => if b then "True" else "False"
    case JNum(n) => ParseIntOfIntToString(n); IntToString(n)
    case JStr(t) => t
  }

  /** `get_reference_table` (the catalogue client): `str()` of the first
      table's `Codigo`; the default on another status, an empty list or an
      exception, which a table without `Codigo` raises. */
  function ReferenceTable(r: Reply<seq<map<string, Scalar>>>): (code: string)
    ensures !(r.Ok? && |r.body| > 0 && "Codigo" in r.body[0]) ==> code == DEFAULT_TABLE
    ensures r.Ok? && |r.body| > 0 && "Codigo" in r.body[0] ==> code == PyStr(r.body[0]["Codigo"])
  {
    if r.Ok? && |r.body| > 0 && "Codigo" in r.body[0] then PyStr(r.body[0]["Codigo"])
    else DEFAULT_TABLE
  }

  /** `get_current_fipe_reference_table` (the legacy flow): the same, except
      that it also reads the first table's `Mes` for its log line, so a table
      without `Mes` raises too and gives the default. */
  function LegacyReferenceTable(r: Reply<seq<map<string, Scalar>>>): (code: string)
  {
    if r.Ok? && |r.body| > 0 && "Codigo" in r.body[0] && "Mes" in r.body[0] then PyStr(r.body[0]["Codigo"])
    else DEFAULT_TABLE
  }

  /** The two lookups agree except on a first table without `Mes`, where
      the legacy one falls back to the default. */
  lemma LegacyReferenceTableAgrees(r: Reply<seq<map<string, Scalar>>>)
    ensures r.Ok? && |r.body| > 0 && "Mes" in r.body[0] ==> LegacyReferenceTable(r) == ReferenceTable(r)
    ensures r.Ok? && |r.body| > 0 && "Mes" !in r.body[0] ==> LegacyReferenceTable(r) == DEFAULT_TABLE
    ensures !(r.Ok? && |r.body| > 0) ==> LegacyReferenceTable(r) == ReferenceTable(r) == DEFAULT_TABLE
  {
  }

  /** When the catalogue's first table has a numeric `Codigo`, or none, or
      does not answer, both lookups give numeric text. */
  lemma ReferenceTableIsNumber(r: Reply<seq<map<string, Scalar>>>)
    requires r.Ok? && |r.body| > 0 && "Codigo" in r.body[0] ==> r.body[0]["Codigo"].JNum?
    ensures ParseInt(ReferenceTable(r)).Some?
    ensures ParseInt(LegacyReferenceTable(r)).Some?
  {
    DefaultTableIsNumber();
  }

  /** The default table's code reads as 327. */
  lemma DefaultTableIsNumber()
    ensures ParseInt(DEFAULT_TABLE) == Some(327)
  {
    assert IntToString(327) == DEFAULT_TABLE by {
      assert NatToString(3) == "3";
      assert NatToString(32) == "32";
    }
    ParseIntOfIntToString(327);
  }

  /** A null `Codigo` becomes the text `None`, and a text one is kept as it
      is, so neither need be a number. */
  lemma ReferenceTableKeepsText()
    ensures ReferenceTable(Ok([map["Codigo" := JNull]])) == "None"
    ensures ReferenceTable(Ok([map["Codigo" := JStr("abc")]])) == "abc"
    ensures ParseInt(ReferenceTable(Ok([map["Codigo" := JNull]]))).None?
  {
    assert Strip("None") == "None";
    assert !Grouped("None");
  }

  /** `get_models` / `get_years`: the list on a 200 and the empty list on
      another status; an exception reaches the caller (`None`). */
  function Listing(r: Reply<seq<Entry>>): (l: Option<seq<Entry>>)
    ensures l.None? <==> r.Raises?
    ensures l.Some? && l.value != [] ==> r.Ok? && l.value == r.body
  {
    match r
    case Ok(body) => Some(body)
    case NotOk(_) => Some([])
    case Raises => None
  }

  /** The catalogue's "invalid parameters" answer. */
  predicate Refusal(body: map<string, Json>) {
    Get(body, "codigo") == JStr("2")
  }

  /** `get_value`: the body unless it is the refusal answer. */
  function PriceBody(r: Option<map<string, Json>>): (p: Option<map<string, Json>>)
    ensures p.Some? <==> r.Some? && !Refusal(r.value)
    ensures p.Some? ==> p.value == r.value
  {
    if r.Some? && !Refusal(r.value) then r else None
  }

  // ---------------------------------------------------------------------------
  // Brand codes
  // ---------------------------------------------------------------------------

  /** `FipeAPIClient.BRAND_CODES`, keyed by the upper-cased brand. */
  const BRAND_CODES: map<string, string> := map[
    "ACURA" := "1", "AGRALE" := "2", "ALFA ROMEO" := "3", "AUDI" := "6", "BMW" := "7",
    "BYD" := "238", "CAOA CHERY" := "245", "CHERY" := "245", "CHEVROLET" := "23", "GM" := "23",
    "CITRO\U{CB}N" := "13", "CITROEN" := "13", "FIAT" := "21", "FORD" := "22", "HONDA" := "25",
    "HYUNDAI" := "26", "JEEP" := "29", "KIA" := "31", "MERCEDES-BENZ" := "39", "MERCEDES" := "39",
    "MITSUBISHI" := "41", "NISSAN" := "43", "PEUGEOT" := "44", "PORSCHE" := "47", "RAM" := "185",
    "RENAULT" := "48", "TOYOTA" := "56", "VOLKSWAGEN" := "59", "VW" := "59", "VOLVO" := "58"
  ]

  /** The legacy flow's table, keyed by the brand exactly as stored, written
      as six consecutive parts of the source's literal. The literal lists
      "ROVER" twice. */
  const LEGACY_CODES_1: map<string, string> := map[
    "ACURA" := "1", "AGRALE" := "2", "ALFA ROMEO" := "3", "ALFA" := "3", "ROMEO" := "3",
    "AM GEN" := "4", "AM" := "4", "GEN" := "4", "ASIA MOTORS" := "5", "ASIA" := "5",
    "MOTORS" := "5", "ASTON MARTIN" := "189", "ASTON" := "189", "MARTIN" := "189", "AUDI" := "6",
    "BABY" := "207", "BMW" := "7", "BRM" := "8", "BUGRE" := "123", "BYD" := "238",
    "CAB MOTORS" := "236", "CAB" := "236", "CADILLAC" := "10", "CAOA CHERY" := "245", "CAOA" := "245"
  ]
  const LEGACY_CODES_2: map<string, string> := map[
    "CHERY" := "245", "CAOA CHERY/CHERY" := "161", "CBT JIPE" := "11", "CBT" := "11", "JIPE" := "11",
    "CHANA" := "136", "CHANGAN" := "182", "CHRYSLER" := "12", "CITRO\U{CB}N" := "13", "CITROEN" := "13",
    "CROSS LANDER" := "14", "CROSS" := "14", "LANDER" := "14", "D2D MOTORS" := "241", "D2D" := "241",
    "DAEWOO" := "15", "DAIHATSU" := "16", "DFSK" := "246", "DODGE" := "17", "EFFA" := "147",
    "ENGESA" := "18", "ENVEMO" := "19", "FERRARI" := "20", "FEVER" := "249", "FIAT" := "21"
  ]
  const LEGACY_CODES_3: map<string, string> := map[
    "FIBRAVAN" := "149", "FORD" := "22", "FOTON" := "190", "FYBER" := "170", "GAC" := "254",
    "GEELY" := "199", "GM - CHEVROLET" := "23", "GM" := "23", "CHEVROLET" := "23", "GREAT WALL" := "153",
    "GREAT" := "153", "WALL" := "153", "GURGEL" := "24", "GWM" := "240", "HAFEI" := "152",
    "HITECH ELECTRIC" := "214", "HITECH" := "214", "ELECTRIC" := "214", "HONDA" := "25", "HYUNDAI" := "26",
    "ISUZU" := "27", "IVECO" := "208", "JAC" := "177", "JAECOO" := "251", "JAGUAR" := "28"
  ]
  const LEGACY_CODES_4: map<string, string> := map[
    "JEEP" := "29", "JINBEI" := "154", "JPX" := "30", "KIA MOTORS" := "31", "KIA" := "31",
    "LADA" := "32", "LAMBORGHINI" := "171", "LAND ROVER" := "33", "LAND" := "33", "ROVER" := "33",
    "LEXUS" := "34", "LIFAN" := "168", "LOBINI" := "127", "LOTUS" := "35", "MAHINDRA" := "140",
    "MASERATI" := "36", "MATRA" := "37", "MAZDA" := "38", "MCLAREN" := "211", "MERCEDES-BENZ" := "39",
    "MERCEDES" := "39", "BENZ" := "39", "MERCURY" := "40", "MG" := "167", "MINI" := "156"
  ]
  const LEGACY_CODES_5: map<string, string> := map[
    "MITSUBISHI" := "41", "MIURA" := "42", "NETA" := "250", "NISSAN" := "43", "OMODA" := "252",
    "PEUGEOT" := "44", "PLYMOUTH" := "45", "PONTIAC" := "46", "PORSCHE" := "47", "RAM" := "185",
    "RELY" := "186", "RENAULT" := "48", "ROLLS-ROYCE" := "195", "ROLLS" := "195", "ROYCE" := "195",
    "ROVER" := "49", "SAAB" := "50", "SATURN" := "51", "SEAT" := "52", "SERES" := "247",
    "SHINERAY" := "183", "SMART" := "157", "SSANGYONG" := "125", "SUBARU" := "54", "SUZUKI" := "55"
  ]
  const LEGACY_CODES_6: map<string, string> := map[
    "TAC" := "165", "TOYOTA" := "56", "TROLLER" := "57", "VOLVO" := "58", "VW - VOLKSWAGEN" := "59",
    "VW" := "59", "VOLKSWAGEN" := "59", "WAKE" := "163", "WALK" := "120", "ZEEKR" := "253"
  ]
  /** The parts of a literal merged in order: later parts win on a
      repeated key, like later entries of a dict literal. */
  function Merged(parts: seq<map<string, string>>): map<string, string> {
    if parts == [] then map[] else Merged(parts[..|parts| - 1]) + parts[|parts| - 1]
  }

  /** The whole legacy table. */
  const LEGACY_BRAND_CODES: map<string, string> :=
    Merged([LEGACY_CODES_1, LEGACY_CODES_2, LEGACY_CODES_3, LEGACY_CODES_4, LEGACY_CODES_5, LEGACY_CODES_6])

  /** The legacy table is its six parts merged in order. */
  lemma LegacyParts()
    ensures LEGACY_BRAND_CODES == LEGACY_CODES_1 + LEGACY_CODES_2 + LEGACY_CODES_3 + LEGACY_CODES_4 + LEGACY_CODES_5 + LEGACY_CODES_6
  {
    MergedSix(LEGACY_CODES_1, LEGACY_CODES_2, LEGACY_CODES_3, LEGACY_CODES_4, LEGACY_CODES_5, LEGACY_CODES_6);
  }

  lemma MergedSix(a: map<string, string>, b: map<string, string>, c: map<string, string>,
                  d: map<string, string>, e: map<string, string>, f: map<string, string>)
    ensures Merged([a, b, c, d, e, f]) == a + b + c + d + e + f
  {
    assert Merged([a]) == a by {
      MergedSnoc([], a);
      assert [] + [a] == [a];
      assert map[] + a == a;
    }
    MergedSnoc([a], b);
    assert [a] + [b] == [a, b];
    MergedSnoc([a, b], c);
    assert [a, b] + [c] == [a, b, c];
    MergedSnoc([a, b, c], d);
    assert [a, b, c] + [d] == [a, b, c, d];
    MergedSnoc([a, b, c, d], e);
    assert [a, b, c, d] + [e] == [a, b, c, d, e];
    MergedSnoc([a, b, c, d, e], f);
    assert [a, b, c, d, e] + [f] == [a, b, c, d, e, f];
  }

  /** Merging one part more. */
  lemma MergedSnoc(ps: seq<map<string, string>>, p: map<string, string>)
    ensures Merged(ps + [p]) == Merged(ps) + p
  {
    assert (ps + [p])[..|ps|] == ps;
  }

  /** `codes.get(brand)` followed by the source's falsy test: a brand is
      mapped when it is a key with a non-empty code. */
  function BrandCode(codes: map<string, string>, brand: string): (r: Option<string>)
    ensures r.Some? <==> brand in codes && codes[brand] != ""
    ensures r.Some? ==> r.value == codes[brand]
  {
    if brand in codes && codes[brand] != "" then Some(codes[brand]) else None
  }

  lemma LegacyRoverPart()
    ensures "ROVER" in LEGACY_CODES_5 && LEGACY_CODES_5["ROVER"] == "49" && "LAND ROVER" !in LEGACY_CODES_5
  {
  }

  lemma LegacyLastPart()
    ensures "ROVER" !in LEGACY_CODES_6 && "LAND ROVER" !in LEGACY_CODES_6
  {
  }

  lemma LegacyLandRoverPart()
    ensures "LAND ROVER" in LEGACY_CODES_4 && LEGACY_CODES_4["LAND ROVER"] == "33"
  {
  }

  lemma ModernLacksRover()
    ensures "ROVER" !in BRAND_CODES && "LAND ROVER" !in BRAND_CODES
  {
  }

  /** The duplicated "ROVER" key resolves to the later code "49", "LAND
      ROVER" keeps "33", and the modern table maps neither. */
  lemma RoverResolvesToLaterCode()
    ensures BrandCode(LEGACY_BRAND_CODES, "ROVER") == Some("49")
    ensures BrandCode(LEGACY_BRAND_CODES, "LAND ROVER") == Some("33")
    ensures BrandCode(BRAND_CODES, "ROVER").None? && BrandCode(BRAND_CODES, "LAND ROVER").None?
  {
    LegacyParts();
    LegacyLandRoverPart();
    LegacyRoverPart();
    LegacyLastPart();
    ModernLacksRover();
  }

  /** The modern table's aliases share a code. */
  lemma ModernAliasesShareCodes()
    ensures BrandCode(BRAND_CODES, "GM") == BrandCode(BRAND_CODES, "CHEVROLET") == Some("23")
    ensures BrandCode(BRAND_CODES, "CITRO\U{CB}N") == BrandCode(BRAND_CODES, "CITROEN") == Some("13")
    ensures BrandCode(BRAND_CODES, "VW") == BrandCode(BRAND_CODES, "VOLKSWAGEN") == Some("59")
    ensures BrandCode(BRAND_CODES, "CAOA CHERY") == BrandCode(BRAND_CODES, "CHERY") == Some("245")
  {
    AliasCode("GM", "CHEVROLET", "23");
    AliasCode("CITRO\U{CB}N", "CITROEN", "13");
    AliasCode("VW", "VOLKSWAGEN", "59");
    AliasCode("CAOA CHERY", "CHERY", "245");
  }

  lemma AliasCode(a: string, b: string, code: string)
    requires a in BRAND_CODES && b in BRAND_CODES && BRAND_CODES[a] == code && BRAND_CODES[b] == code && code != ""
    ensures BrandCode(BRAND_CODES, a) == BrandCode(BRAND_CODES, b) == Some(code)
  {
  }

  // ---------------------------------------------------------------------------
  // Keyword matching
  // ---------------------------------------------------------------------------

  /** `keyword in label.upper()`. */
  predicate Mentions(name: string, keyword: string) {
    Contains(Upper(name), keyword)
  }

  /** `all(k in label.upper() for k in keywords)`. */
  predicate MentionsAll(name: string, keywords: seq<string>) {
    forall i :: 0 <= i < |keywords| ==> Mentions(name, keywords[i])
  }

  /** `[m for m in ms if keep(m)]`. */
  function Filter(ms: seq<Entry>, keep: Entry -> bool): (r: seq<Entry>)
    ensures |r| <= |ms|
    ensures forall e :: e in r <==> e in ms && keep(e)
  {
    if ms == [] then []
    else
      var rest := Filter(ms[1..], keep);
      if keep(ms[0]) then [ms[0]] + rest else rest
  }

  /** `ms[i]` passes `keep` and nothing after it does. */
  ghost predicate LastKept(ms: seq<Entry>, keep: Entry -> bool, i: int) {
    0 <= i < |ms| && keep(ms[i]) && forall j :: i < j < |ms| ==> !keep(ms[j])
  }

  /** The last element a filter keeps is the last element of the input it
      accepts: nothing after it in the input passes. */
  lemma {:induction false} FilterLast(ms: seq<Entry>, keep: Entry -> bool)
    requires Filter(ms, keep) != []
    ensures exists i :: LastKept(ms, keep, i) && ms[i] == Filter(ms, keep)[|Filter(ms, keep)| - 1]
  {
    var f := Filter(ms, keep);
    var rest := Filter(ms[1..], keep);
    if rest == [] {
      FilterLastHead(ms, keep);
    } else {
      FilterLast(ms[1..], keep);
      var i :| LastKept(ms[1..], keep, i) && ms[1..][i] == rest[|rest| - 1];
      ShiftLastKept(ms, keep, i);
      assert f[|f| - 1] == rest[|rest| - 1];
    }
  }

  /** When the tail keeps nothing, the head is the one element kept. */
  lemma FilterLastHead(ms: seq<Entry>, keep: Entry -> bool)
    requires Filter(ms, keep) != [] && Filter(ms[1..], keep) == []
    ensures LastKept(ms, keep, 0) && ms[0] == Filter(ms, keep)[|Filter(ms, keep)| - 1]
  {
    forall j | 1 <= j < |ms| ensures !keep(ms[j]) {
      assert ms[j] == ms[1..][j - 1];
      assert ms[j] in ms[1..];
    }
  }

  /** An index last kept in the tail is last kept in the whole. */
  lemma ShiftLastKept(ms: seq<Entry>, keep: Entry -> bool, i: int)
    requires ms != [] && LastKept(ms[1..], keep, i)
    ensures LastKept(ms, keep, i + 1) && ms[i + 1] == ms[1..][i]
  {
    forall j | i + 1 < j < |ms| ensures !keep(ms[j]) {
      assert ms[j] == ms[1..][j - 1];
    }
  }


  /** A filter that keeps everything is the identity. */
  lemma {:induction false} FilterKeepsAll(ms: seq<Entry>, keep: Entry -> bool)
    requires forall e :: e in ms ==> keep(e)
    ensures Filter(ms, keep) == ms
  {
    if ms != [] {
      FilterKeepsAll(ms[1..], keep);
    }
  }

  function AllOf(keywords: seq<string>): (keep: Entry -> bool)
    ensures forall e :: keep(e) == MentionsAll(e.name, keywords)
  {
    (e: Entry) => MentionsAll(e.name, keywords)
  }

  function OneOf(keyword: string): (keep: Entry -> bool)
    ensures forall e :: keep(e) == Mentions(e.name, keyword)
  {
    (e: Entry) => Mentions(e.name, keyword)
  }

  /** The model keywords: the upper-cased model name split on whitespace. */
  function Keywords(model: string): (kws: seq<string>)
    ensures forall i :: 0 <= i < |kws| ==> |kws[i]| > 0
  {
    Words(Upper(model))
  }

  /** `query_fipe`'s candidates: the models mentioning every keyword, or,
      when none does, the models mentioning the first keyword. */
  function Candidates(ms: seq<Entry>, kws: seq<string>): (r: seq<Entry>)
    ensures forall e :: e in r ==> e in ms
    ensures (exists e :: e in ms && MentionsAll(e.name, kws)) ==> r == Filter(ms, AllOf(kws))
    ensures r == [] <==> if kws == [] then ms == [] else forall e :: e in ms ==> !Mentions(e.name, kws[0])
  {
    var all := Filter(ms, AllOf(kws));
    if kws == [] then FilterKeepsAll(ms, AllOf(kws)); all
    else if all == [] then
      var one := Filter(ms, OneOf(kws[0]));
      assert one != [] ==> one[0] in one;
      one
    else
      assert all[0] in all && MentionsAll(all[0].name, kws);
      all
  }

  /** The legacy progressive fallback: the models mentioning the first
      keyword, in order, that any model mentions. */
  function Progressive(ms: seq<Entry>, kws: seq<string>): (r: seq<Entry>)
    ensures forall e :: e in r ==> e in ms
    ensures r == [] <==> forall i, e :: 0 <= i < |kws| && e in ms ==> !Mentions(e.name, kws[i])
    ensures r != [] ==> exists i :: 0 <= i < |kws| && r == Filter(ms, OneOf(kws[i]))
                                    && forall j :: 0 <= j < i ==> Filter(ms, OneOf(kws[j])) == []
  {
    if kws == [] then []
    else
      var hit := Filter(ms, OneOf(kws[0]));
      if hit != [] then
        assert hit[0] in hit;
        hit
      else
        var r := Progressive(ms, kws[1..]);
        assert forall i :: 1 <= i < |kws| ==> kws[i] == kws[1..][i - 1];
        r
  }

  /** `query_fipe_value`'s candidates: every-keyword filter, then the
      progressive fallback. */
  function LegacyCandidates(ms: seq<Entry>, kws: seq<string>): (r: seq<Entry>)
    ensures forall e :: e in r ==> e in ms
    ensures (exists e :: e in ms && MentionsAll(e.name, kws)) ==> r == Filter(ms, AllOf(kws))
    ensures r == [] <==> if kws == [] then ms == [] else forall i, e :: 0 <= i < |kws| && e in ms ==> !Mentions(e.name, kws[i])
  {
    var all := Filter(ms, AllOf(kws));
    if kws == [] then FilterKeepsAll(ms, AllOf(kws)); all
    else if all != [] then
      assert all[0] in all && MentionsAll(all[0].name, kws) && Mentions(all[0].name, kws[0]);
      all
    else Progressive(ms, kws)
  }

  /** The two generations pick the same candidates whenever some model
      mentions the first keyword; the legacy one finds candidates whenever
      the modern one does. */
  lemma CandidatesAgreeOnFirstKeyword(ms: seq<Entry>, kws: seq<string>)
    ensures kws != [] && (exists e :: e in ms && Mentions(e.name, kws[0]))
            ==> Candidates(ms, kws) == LegacyCandidates(ms, kws)
    ensures Candidates(ms, kws) != [] ==> LegacyCandidates(ms, kws) != []
  {
  }

  /** The primary model is the last candidate: the last catalogue model
      that the winning filter accepts. */
  lemma PrimaryIsLastAccepted(ms: seq<Entry>, kws: seq<string>)
    requires exists e :: e in ms && MentionsAll(e.name, kws)
    ensures var c := Candidates(ms, kws);
            exists i :: LastKept(ms, AllOf(kws), i) && ms[i] == c[|c| - 1]
  {
    var e :| e in ms && MentionsAll(e.name, kws);
    var c := Candidates(ms, kws);
    assert e in c;
    LastOfFilter(ms, AllOf(kws), c);
  }

  lemma LastOfFilter(ms: seq<Entry>, keep: Entry -> bool, c: seq<Entry>)
    requires c == Filter(ms, keep) && c != []
    ensures exists i :: LastKept(ms, keep, i) && ms[i] == c[|c| - 1]
  {
    FilterLast(ms, keep);
  }

  /** `search_model_by_year`'s acceptance test, as written: a model is
      skipped when it misses some keyword and the first keyword too. */
  predicate Accepts(name: string, kws: seq<string>) {
    !(!MentionsAll(name, kws) && |kws| > 0 && !Mentions(name, kws[0]))
  }

  /** The acceptance test reduces to the first keyword alone. */
  lemma AcceptsFirstKeyword(name: string, kws: seq<string>)
    ensures Accepts(name, kws) <==> kws == [] || Mentions(name, kws[0])
  {
  }

  function Accepted(kws: seq<string>): (keep: Entry -> bool)
    ensures forall e :: keep(e) == Accepts(e.name, kws)
  {
    (e: Entry) => Accepts(e.name, kws)
  }

  // ---------------------------------------------------------------------------
  // Year token and year-fuel code
  // ---------------------------------------------------------------------------

  /** `s.split(c)[0]`: the text before the first `c`. */
  function Before(s: string, c: char): (r: string)
    ensures |r| <= |s| && r == s[..|r|] && Lacks(r, c)
    ensures |r| < |s| ==> s[|r|] == c
    ensures c !in s ==> r == s
  {
    if |s| == 0 || s[0] == c then "" else [s[0]] + Before(s[1..], c)
  }

  /** The text after the first `c`. */
  function After(s: string, c: char): (r: string)
    requires c in s
    ensures s == Before(s, c) + [c] + r
  {
    var b := Before(s, c);
    assert |b| < |s|;
    assert s == b + [c] + s[|b| + 1..];
    s[|b| + 1..]
  }

  lemma {:induction false} BeforeSeparator(a: string, c: char, b: string)
    requires Lacks(a, c)
    ensures Before(a + [c] + b, c) == a
  {
    if a != [] {
      assert (a + [c] + b)[1..] == a[1..] + [c] + b;
      BeforeSeparator(a[1..], c, b);
    } else {
      assert (a + [c] + b)[0] == c;
    }
  }

  /** The year an entry stands for: the part of `Value` before the first
      '-', or else the first word of `Label`; `None` where the source's
      `Label.split()[0]` raises (a label of whitespace only). */
  function YearToken(e: Entry): (t: Option<string>)
    ensures t.None? <==> '-' !in e.code && forall i :: 0 <= i < |e.name| ==> IsSpace(e.name[i])
    ensures '-' in e.code ==> t == Some(Before(e.code, '-'))
  {
    if '-' in e.code then Some(Before(e.code, '-'))
    else
      var ws := Words(e.name);
      if ws == [] then None else Some(ws[0])
  }

  /** The `(year, fuel)` pair a year code stands for: the first two
      '-'-separated parts, or the whole code with fuel "1". */
  function YearFuel(code: string): (yf: (string, string))
    ensures '-' !in code ==> yf == (code, "1")
    ensures Lacks(yf.0, '-') || '-' !in code
  {
    if '-' in code then (Before(code, '-'), Before(After(code, '-'), '-')) else (code, "1")
  }

  /** Splitting the code the catalogue builds from a year and a fuel gives
      them back. */
  lemma YearFuelRoundTrip(y: string, f: string)
    requires Lacks(y, '-') && Lacks(f, '-')
    ensures YearFuel(y + "-" + f) == (y, f)
  {
    var code := y + "-" + f;
    assert code == y + ['-'] + f;
    assert code[|y|] == '-';
    BeforeSeparator(y, '-', f);
    assert After(code, '-') == f;
  }

  /** For a hyphenated code, the year that matched the vehicle is the year
      that is priced. */
  lemma TokenIsPricedYear(e: Entry)
    requires '-' in e.code
    ensures YearToken(e) == Some(YearFuel(e.code).0)
  {
  }

  // ---------------------------------------------------------------------------
  // Year scans
  // ---------------------------------------------------------------------------

  /** Result of looking for the vehicle's year in a year listing. */
  datatype Scan = Hit(at: nat) | Miss | Raised

  /** The variant loops: entries are examined in order and the loop stops at
      the first one whose token is the year; an entry without a token raises. */
  function ScanFirst(ys: seq<Entry>, year: string): (s: Scan)
    ensures s.Hit? ==> s.at < |ys| && YearToken(ys[s.at]) == Some(year)
    ensures s.Hit? || s.Miss? ==> forall j :: 0 <= j < (if s.Hit? then s.at else |ys|) ==>
                                    YearToken(ys[j]).Some? && YearToken(ys[j]) != Some(year)
    ensures s.Raised? ==> exists j :: 0 <= j < |ys| && YearToken(ys[j]).None?
  {
    if ys == [] then Miss
    else
      match YearToken(ys[0])
      case None => Raised
      case Some(t) =>
        if t == year then Hit(0)
        else
          var rest := ScanFirst(ys[1..], year);
          assert forall j :: 1 <= j < |ys| ==> ys[j] == ys[1..][j - 1];
          match rest
          case Hit(i) => Hit(i + 1)
          case Miss => Miss
          case Raised => Raised
  }

  /** The primary loop: every entry's token is computed (so any tokenless
      entry raises), and the first matching entry is used. */
  function ScanAll(ys: seq<Entry>, year: string): (s: Scan)
    ensures s.Raised? <==> exists j :: 0 <= j < |ys| && YearToken(ys[j]).None?
    ensures s.Hit? ==> s.at < |ys| && YearToken(ys[s.at]) == Some(year)
  {
    if ys == [] then Miss
    else
      var rest := ScanAll(ys[1..], year);
      assert forall j :: 1 <= j < |ys| ==> ys[j] == ys[1..][j - 1];
      match YearToken(ys[0])
      case None => Raised
      case Some(t) =>
        if rest.Raised? then Raised
        else if t == year then Hit(0)
        else if rest.Hit? then Hit(rest.at + 1) else Miss
  }

  /** The full scan agrees with the stopping one unless some entry lacks a
      token; the stopping one raises only when the full one does. */
  lemma {:induction false} ScansAgree(ys: seq<Entry>, year: string)
    ensures !ScanAll(ys, year).Raised? ==> ScanAll(ys, year) == ScanFirst(ys, year)
    ensures ScanFirst(ys, year).Raised? ==> ScanAll(ys, year).Raised?
  {
    if ys != [] {
      ScansAgree(ys[1..], year);
    }
  }

  /** `", ".join(y["Label"] for y in years[:10])`. */
  function AvailableYears(ys: seq<Entry>): string {
    Join(", ", Labels(if |ys| <= 10 then ys else ys[..10]))
  }

  function Labels(ys: seq<Entry>): (ls: seq<string>)
    ensures |ls| == |ys| && forall i :: 0 <= i < |ys| ==> ls[i] == ys[i].name
  {
    if ys == [] then [] else [ys[0].name] + Labels(ys[1..])
  }

  // ---------------------------------------------------------------------------
  // Variant search
  // ---------------------------------------------------------------------------

  /** A model and year entry for the vehicle's year, no such model, or an
      exception that ends the query. */
  datatype Search = Match(model: Entry, year: Entry) | NoMatch | Crashed

  /** The model's year listing answers with a 200 and lists the year before
      any entry without a token. */
  predicate HasYear(cat: Catalog, brand: string, m: Entry, year: string) {
    var r := cat.years(brand, m.code);
    r.Ok? && ScanFirst(r.body, year).Hit?
  }

  /** `query_fipe`'s loop over the candidates: the first one listing the
      year wins; a listing call that raises, or an entry without a token
      before the match, ends the whole query. */
  function Variants(cat: Catalog, brand: string, vs: seq<Entry>, year: string): (s: Search)
    ensures s.Match? ==> s.model in vs && HasYear(cat, brand, s.model, year) && YearToken(s.year) == Some(year)
    ensures s.NoMatch? ==> forall m :: m in vs ==> !HasYear(cat, brand, m, year)
  {
    if vs == [] then NoMatch
    else
      match Listing(cat.years(brand, vs[0].code))
      case None => Crashed
      case Some(ys) =>
        match ScanFirst(ys, year)
        case Raised => Crashed
        case Hit(i) => Match(vs[0], ys[i])
        case Miss => Variants(cat, brand, vs[1..], year)
  }

  /** `query_fipe_value`'s loop over the candidates: another status, an
      exception or a tokenless entry only skips that candidate. */
  function LegacyVariants(cat: Catalog, brand: string, vs: seq<Entry>, year: string): (s: Search)
    ensures !s.Crashed?
    ensures s.Match? ==> YearToken(s.year) == Some(year)
    ensures s.Match? ==> exists i :: 0 <= i < |vs| && vs[i] == s.model && HasYear(cat, brand, vs[i], year)
                                     && forall j :: 0 <= j < i ==> !HasYear(cat, brand, vs[j], year)
    ensures s.NoMatch? <==> forall m :: m in vs ==> !HasYear(cat, brand, m, year)
  {
    if vs == [] then NoMatch
    else
      var r := cat.years(brand, vs[0].code);
      if r.Ok? && ScanFirst(r.body, year).Hit? then
        Match(vs[0], r.body[ScanFirst(r.body, year).at])
      else
        var rest := LegacyVariants(cat, brand, vs[1..], year);
        assert forall j :: 1 <= j < |vs| ==> vs[j] == vs[1..][j - 1];
        rest
  }

  /** Where the modern loop does not end the query, both loops pick the
      same model and year entry. */
  lemma {:induction false} VariantLoopsAgree(cat: Catalog, brand: string, vs: seq<Entry>, year: string)
    requires !Variants(cat, brand, vs, year).Crashed?
    ensures Variants(cat, brand, vs, year) == LegacyVariants(cat, brand, vs, year)
  {
    if vs != [] {
      var r := cat.years(brand, vs[0].code);
      if !(r.Ok? && ScanFirst(r.body, year).Hit?) {
        VariantLoopsAgree(cat, brand, vs[1..], year);
      }
    }
  }

  /** `search_model_by_year` over the models from `ms` on: each accepted
      model's years are scanned, and the first year match is returned. */
  function SearchFrom(cat: Catalog, brand: string, kws: seq<string>, year: string, ms: seq<Entry>): (s: Search)
    ensures !s.Crashed?
    ensures s.Match? ==> s.model in ms && Accepts(s.model.name, kws) && HasYear(cat, brand, s.model, year)
                         && YearToken(s.year) == Some(year)
  {
    if ms == [] then NoMatch
    else if !Accepts(ms[0].name, kws) then SearchFrom(cat, brand, kws, year, ms[1..])
    else
      var r := cat.years(brand, ms[0].code);
      if r.Ok? && ScanFirst(r.body, year).Hit? then Match(ms[0], r.body[ScanFirst(r.body, year).at])
      else SearchFrom(cat, brand, kws, year, ms[1..])
  }

  /** `search_model_by_year(brand, name, year, models)`. */
  function SearchModelByYear(cat: Catalog, brand: string, name: string, year: int, ms: seq<Entry>): (s: Search)
    ensures !s.Crashed?
    ensures s.Match? ==> s.model in ms && HasYear(cat, brand, s.model, IntToString(year))
                         && YearToken(s.year) == Some(IntToString(year))
    ensures s.Match? && Keywords(name) != [] ==> Mentions(s.model.name, Keywords(name)[0])
  {
    SearchFrom(cat, brand, Keywords(name), IntToString(year), ms)
  }

  /** Searching with the acceptance test is the legacy variant loop over the
      accepted models. */
  lemma {:induction false} SearchIsVariantsOverAccepted(cat: Catalog, brand: string, kws: seq<string>, year: string, ms: seq<Entry>)
    ensures SearchFrom(cat, brand, kws, year, ms) == LegacyVariants(cat, brand, Filter(ms, Accepted(kws)), year)
  {
    if ms != [] {
      SearchIsVariantsOverAccepted(cat, brand, kws, year, ms[1..]);
    }
  }

  // ---------------------------------------------------------------------------
  // Price queries
  // ---------------------------------------------------------------------------

  /** What a price query gives the batch: the price body with the search
      metadata, a permanent refusal (status I) with its reason, or nothing
      (which the batch records as an error). */
  datatype Answer = Priced(body: map<string, Json>, meta: FipeMetadata) | Unusable(reason: string) | NoPrice

  function BrandMissing(brand: string): string { "Marca '" + brand + "' n\U{E3}o mapeada" }
  function ModelMissing(model: string): string { "Modelo '" + model + "' n\U{E3}o encontrado" }
  function LegacyBrandMissing(brand: string): string { "Marca '" + brand + "' n\U{E3}o mapeada em BRAND_CODES" }
  function LegacyModelMissing(model: string): string { "Modelo '" + model + "' n\U{E3}o encontrado na base FIPE" }

  /** A brand refusal and a model refusal are never the same text. */
  lemma RefusalsDiffer(brand: string, model: string)
    ensures BrandMissing(brand) != ModelMissing(model)
    ensures LegacyBrandMissing(brand) != LegacyModelMissing(model)
  {
    assert BrandMissing(brand)[1] == LegacyBrandMissing(brand)[1] == 'a';
    assert ModelMissing(model)[1] == LegacyModelMissing(model)[1] == 'o';
  }

  /** The final price call for a model and year code: the year and fuel are
      split out of the code; the refusal answer gives nothing, and so does an
      empty body where the caller treats it as falsy. */
  function Price(cat: Catalog, brand: string, model: string, meta: FipeMetadata, emptyIsNone: bool): (a: Answer)
    ensures !a.Unusable?
    ensures a.Priced? ==> a.meta == meta && !Refusal(a.body) && (emptyIsNone ==> a.body != map[])
    ensures a.Priced? ==> cat.value(brand, model, YearFuel(meta.yearFuelCode).0, YearFuel(meta.yearFuelCode).1) == Some(a.body)
  {
    var yf := YearFuel(meta.yearFuelCode);
    match PriceBody(cat.value(brand, model, yf.0, yf.1))
    case None => NoPrice
    case Some(b) => if emptyIsNone && b == map[] then NoPrice else Priced(b, meta)
  }

  /** `query_fipe`: brand code of the upper-cased brand, model candidates,
      the last candidate's years, the variant search on a miss, the price. */
  function QueryFipe(brand: string, model: string, yearModel: int, cat: Catalog): (r: Answer)
    ensures BrandCode(BRAND_CODES, Upper(brand)).None? <==> r == Unusable(BrandMissing(brand))
    ensures r.Unusable? ==> r.reason == BrandMissing(brand) || r.reason == ModelMissing(model)
    ensures r.Priced? ==> !Refusal(r.body) && r.body != map[]
    ensures r.Priced? ==> BrandCode(BRAND_CODES, Upper(brand)) == Some(r.meta.brandCode)
    ensures r.Priced? ==> (r.meta.alternativeSearch <==> r.meta.originalModel.Some?)
                          && (r.meta.alternativeSearch <==> r.meta.availableYears.Some?)
    ensures r.Priced? ==> exists e :: YearToken(e) == Some(IntToString(yearModel)) && e.code == r.meta.yearFuelCode
  {
    var bc := BrandCode(BRAND_CODES, Upper(brand));
    if bc.None? then Unusable(BrandMissing(brand))
    else
      var code := bc.value;
      match Listing(cat.models(code))
      case None => NoPrice
      case Some(models) =>
        var cs := Candidates(models, Keywords(model));
        if models == [] then NoPrice
        else if cs == [] then RefusalsDiffer(brand, model); Unusable(ModelMissing(model))
        else
          var found := cs[|cs| - 1];
          var year := IntToString(yearModel);
          match Listing(cat.years(code, found.code))
          case None => NoPrice
          case Some(ys) =>
            match ScanAll(ys, year)
            case Raised => NoPrice
            case Hit(i) =>
              Price(cat, code, found.code, FipeMetadata(false, None, None, code, found.code, ys[i].code), true)
            case Miss =>
              match Variants(cat, code, cs, year)
              case Match(m, y) =>
                Price(cat, code, m.code, FipeMetadata(true, Some(found.name), Some(AvailableYears(ys)), code, m.code, y.code), true)
              case _ => NoPrice
  }

  /** `query_fipe_value`: the same search with the exact brand, the
      progressive keyword fallback, and the legacy failure rules (another
      status on a listing gives nothing; an empty model list is a refusal). */
  function LegacyQueryFipeValue(brand: string, model: string, yearModel: int, cat: Catalog): (r: Answer)
    ensures BrandCode(LEGACY_BRAND_CODES, brand).None? <==> r == Unusable(LegacyBrandMissing(brand))
    ensures r.Unusable? ==> r.reason == LegacyBrandMissing(brand) || r.reason == LegacyModelMissing(model)
    ensures r.Priced? ==> !Refusal(r.body)
    ensures r.Priced? ==> BrandCode(LEGACY_BRAND_CODES, brand) == Some(r.meta.brandCode)
    ensures r.Priced? ==> (r.meta.alternativeSearch <==> r.meta.originalModel.Some?)
                          && (r.meta.alternativeSearch <==> r.meta.availableYears.Some?)
    ensures r.Priced? ==> exists e :: YearToken(e) == Some(IntToString(yearModel)) && e.code == r.meta.yearFuelCode
  {
    LegacyQueryOfCode(BrandCode(LEGACY_BRAND_CODES, brand), brand, model, yearModel, cat)
  }

  /** `query_fipe_value` once the brand has been looked up: `bc` is the
      brand's code in the legacy table, if any. */
  function LegacyQueryOfCode(bc: Option<string>, brand: string, model: string, yearModel: int, cat: Catalog): (r: Answer)
    ensures bc.None? <==> r == Unusable(LegacyBrandMissing(brand))
    ensures r.Unusable? ==> r.reason == LegacyBrandMissing(brand) || r.reason == LegacyModelMissing(model)
    ensures r.Priced? ==> !Refusal(r.body)
    ensures r.Priced? ==> bc == Some(r.meta.brandCode)
    ensures r.Priced? ==> (r.meta.alternativeSearch <==> r.meta.originalModel.Some?)
                          && (r.meta.alternativeSearch <==> r.meta.availableYears.Some?)
    ensures r.Priced? ==> exists e :: YearToken(e) == Some(IntToString(yearModel)) && e.code == r.meta.yearFuelCode
  {
    if bc.None? then Unusable(LegacyBrandMissing(brand))
    else
      var code := bc.value;
      var mr := cat.models(code);
      if !mr.Ok? then NoPrice
      else
        var cs := LegacyCandidates(mr.body, Keywords(model));
        if cs == [] then RefusalsDiffer(brand, model); Unusable(LegacyModelMissing(model))
        else
          LegacyPriceOfYear(cat, code, cs, IntToString(yearModel))
  }

  /** The tail of `query_fipe_value` once the candidates are known: the last
      candidate's years, the variant loop on a miss, the price. */
  function LegacyPriceOfYear(cat: Catalog, code: string, cs: seq<Entry>, year: string): (r: Answer)
    requires cs != []
    ensures !r.Unusable?
    ensures r.Priced? ==> !Refusal(r.body) && r.meta.brandCode == code
    ensures r.Priced? ==> (r.meta.alternativeSearch <==> r.meta.originalModel.Some?)
                          && (r.meta.alternativeSearch <==> r.meta.availableYears.Some?)
    ensures r.Priced? ==> exists e :: YearToken(e) == Some(year) && e.code == r.meta.yearFuelCode
  {
    var found := cs[|cs| - 1];
    var yr := cat.years(code, found.code);
    if !yr.Ok? then NoPrice
    else
      match ScanAll(yr.body, year)
      case Raised => NoPrice
      case Hit(i) =>
        Price(cat, code, found.code, FipeMetadata(false, None, None, code, found.code, yr.body[i].code), false)
      case Miss =>
        match LegacyVariants(cat, code, cs, year)
        case Match(m, y) =>
          Price(cat, code, m.code, FipeMetadata(true, Some(found.name), Some(AvailableYears(yr.body)), code, m.code, y.code), false)
        case _ => NoPrice
  }
}
