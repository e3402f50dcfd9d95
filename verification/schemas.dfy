/** The row shapes of the vehicle pipeline: the year sanitiser applied to
    provider years, the FIPE row (fuel abbreviation, reference month, title
    case), and the plate row. */
module Schemas {
  import opened Wrappers
  import opened Text
  import opened PlateApi

  // ---------------------------------------------------------------------------
  // Python's int() on text
  // ---------------------------------------------------------------------------

  /** `[0-9](_?[0-9])*`: the digits `int()` accepts, with single
      underscores between digits. */
  predicate Grouped(s: string)
    decreases |s|
  {
    if |s| == 0 || !IsDigit(s[0]) then false
    else if |s| == 1 then true
    else if s[1] == '_' then |s| > 2 && Grouped(s[2..])
    else Grouped(s[1..])
  }

  predicate DigitsOrUnderscores(s: string) {
    forall i :: 0 <= i < |s| ==> IsDigit(s[i]) || s[i] == '_'
  }

  lemma {:induction false} GroupedChars(s: string)
    requires Grouped(s)
    ensures DigitsOrUnderscores(s)
    decreases |s|
  {
    if |s| > 1 {
      if s[1] == '_' {
        GroupedChars(s[2..]);
        assert forall i :: 2 <= i < |s| ==> s[i] == s[2..][i - 2];
      } else {
        GroupedChars(s[1..]);
        assert forall i :: 1 <= i < |s| ==> s[i] == s[1..][i - 1];
      }
    }
  }

  /** The value of digits with underscores ignored. */
  function GroupedValue(s: string): nat
    requires DigitsOrUnderscores(s)
  {
    if |s| == 0 then 0
    else
      var init := s[..|s| - 1];
      assert DigitsOrUnderscores(init) by {
        assert forall i :: 0 <= i < |init| ==> init[i] == s[i];
      }
      if s[|s| - 1] == '_' then GroupedValue(init)
      else 10 * GroupedValue(init) + (s[|s| - 1] as int - '0' as int)
  }

  /** `int(s)` for a string: surrounding whitespace, an optional sign, then
      grouped digits; `None` where Python raises `ValueError`. */
  function ParseInt(s: string): (r: Option<int>)
    ensures r.Some? ==> |Strip(s)| > 0
  {
    ParseTrimmed(Strip(s))
  }

  /** `int()` after the whitespace is gone. */
  function ParseTrimmed(t: string): (r: Option<int>)
    ensures r.Some? ==> |t| > 0
  {
    if |t| > 0 && (t[0] == '+' || t[0] == '-') then
      var body := t[1..];
      if Grouped(body) then
        GroupedChars(body);
        var v: int := GroupedValue(body);
        Some(if t[0] == '-' then -v else v)
      else None
    else if Grouped(t) then
      GroupedChars(t);
      Some(GroupedValue(t))
    else None
  }

  lemma {:induction false} DigitsAreGrouped(s: string)
    requires |s| > 0 && forall i :: 0 <= i < |s| ==> IsDigit(s[i])
    ensures Grouped(s)
    decreases |s|
  {
    if |s| > 1 {
      DigitsAreGrouped(s[1..]);
    }
  }

  lemma {:induction false} GroupedValueOfDigits(s: string)
    requires forall i :: 0 <= i < |s| ==> IsDigit(s[i])
    ensures DigitsOrUnderscores(s) && GroupedValue(s) == DigitsValue(s)
    decreases |s|
  {
    if |s| > 0 {
      GroupedValueOfDigits(s[..|s| - 1]);
    }
  }

  lemma DigitsStripped(d: string)
    requires |d| > 0 && forall i :: 0 <= i < |d| ==> IsDigit(d[i])
    ensures Strip(d) == d
  {
    assert !IsSpace(d[0]) && !IsSpace(d[|d| - 1]) by { assert IsDigit(d[0]) && IsDigit(d[|d| - 1]); }
  }

  lemma ParseTrimmedOfDigits(d: string)
    requires |d| > 0 && forall i :: 0 <= i < |d| ==> IsDigit(d[i])
    ensures ParseTrimmed(d) == Some(DigitsValue(d))
    ensures ParseTrimmed("-" + d) == Some(-(DigitsValue(d) as int))
  {
    DigitsAreGrouped(d);
    GroupedValueOfDigits(d);
    assert ("-" + d)[1..] == d;
  }

  lemma ParseIntOfDigits(d: string)
    requires |d| > 0 && forall i :: 0 <= i < |d| ==> IsDigit(d[i])
    ensures ParseInt(d) == Some(DigitsValue(d))
  {
    DigitsStripped(d);
    ParseTrimmedOfDigits(d);
  }

  lemma ParseIntOfNegatedDigits(d: string)
    requires |d| > 0 && forall i :: 0 <= i < |d| ==> IsDigit(d[i])
    ensures ParseInt("-" + d) == Some(-(DigitsValue(d) as int))
  {
    var s := "-" + d;
    assert !IsSpace(s[0]) && !IsSpace(s[|s| - 1]) by { assert s[|s| - 1] == d[|d| - 1]; }
    assert Strip(s) == s;
    ParseTrimmedOfDigits(d);
  }

  /** `int(str(n)) == n`: the parser reads back what `str` writes. */
  lemma ParseIntOfIntToString(i: int)
    ensures ParseInt(IntToString(i)) == Some(i)
  {
    var n: nat := if i < 0 then -i else i;
    var d := NatToString(n);
    assert DigitsValue(d) == n by { DigitsValueOfNatToString(n); }
    if i < 0 {
      assert IntToString(i) == "-" + d;
      ParseIntOfNegatedDigits(d);
    } else {
      assert IntToString(i) == d;
      ParseIntOfDigits(d);
    }
  }

  // ---------------------------------------------------------------------------
  // _safe_int
  // ---------------------------------------------------------------------------

  const INT32_MIN: int := -2147483648
  const INT32_MAX: int := 2147483647
  const YEAR_MIN: int := 1900
  const YEAR_MAX: int := 2100

  /** A string with nothing left once `*`, `-` and surrounding whitespace go. */
  predicate Masked(s: string) {
    Strip(RemoveChar(RemoveChar(s, '*'), '-')) == ""
  }

  function InYearRange(n: int): (r: Option<int>)
    ensures r.Some? <==> YEAR_MIN <= n <= YEAR_MAX
    ensures r.Some? ==> r.value == n
  {
    if n < INT32_MIN || n > INT32_MAX then None
    else if n < YEAR_MIN || n > YEAR_MAX then None
    else Some(n)
  }

  /** `_safe_int`: a year from a provider value, or `None` when the value is
      missing, masked, unparseable or outside 1900..2100 (booleans are
      integers in Python, and 0 and 1 are outside the range). */
  function SafeInt(v: Json): (r: Option<int>)
    ensures v.JNull? ==> r == None
    ensures r.Some? ==> YEAR_MIN <= r.value <= YEAR_MAX
    ensures v.JStr? && Masked(v.s) ==> r == None
    ensures v.JStr? && r.Some? ==> ParseInt(v.s) == r
    ensures v.JNum? ==> (r.Some? <==> YEAR_MIN <= v.n <= YEAR_MAX)
    ensures v.JArr? || v.JObj? || v.JBool? ==> r == None
  {
    match v
    case JNull => None
    case JStr(s) =>
      if Masked(s) then None
      else (
        match ParseInt(s)
        case None => None
        case Some(n) => InYearRange(n))
    case JNum(n) => InYearRange(n)
    case JBool(b) => InYearRange(if b then 1 else 0)
    case _ => None
  }

  /** A year in range comes through unchanged, as a number or as its text. */
  lemma SafeIntKeepsYears(y: int)
    requires YEAR_MIN <= y <= YEAR_MAX
    ensures SafeInt(JNum(y)) == Some(y)
    ensures SafeInt(JStr(IntToString(y))) == Some(y)
  {
    var s := IntToString(y);
    ParseIntOfIntToString(y);
    assert !Masked(s) by {
      assert s == NatToString(y);
      assert IsDigit(s[0]);
      RemoveCharKeepsDigit(s, 0);
    }
  }

  /** A digit survives the removal of `*` and `-` and the strip, so the
      cleaned text is not empty. */
  lemma RemoveCharKeepsDigit(s: string, i: nat)
    requires i < |s| && IsDigit(s[i])
    ensures !Masked(s)
  {
    var a := RemoveChar(s, '*');
    var ia := KeptDigit(s, '*', i);
    var ib := KeptDigit(a, '-', ia);
    StripKeepsNonSpace(RemoveChar(a, '-'), ib);
  }

  /** Removing another character keeps a digit at some position. */
  lemma {:induction false} KeptDigit(s: string, c: char, i: nat) returns (j: nat)
    requires i < |s| && IsDigit(s[i]) && !IsDigit(c)
    ensures j < |RemoveChar(s, c)| && IsDigit(RemoveChar(s, c)[j])
    decreases |s|
  {
    if i == 0 {
      j := 0;
    } else {
      var k := KeptDigit(s[1..], c, i - 1);
      j := if s[0] == c then k else k + 1;
    }
  }

  /** Stripping never empties a string with a non-whitespace character. */
  lemma StripKeepsNonSpace(s: string, i: nat)
    requires i < |s| && !IsSpace(s[i])
    ensures Strip(s) != ""
  {
    StripIsSlice(s);
  }

  // ---------------------------------------------------------------------------
  // FIPE row
  // ---------------------------------------------------------------------------

  /** `VehicleRecord`: a catalogue vehicle to price. */
  datatype VehicleRecord = VehicleRecord(brand: string, model: string, yearManuf: int, yearModel: int, key: string)

  /** `brand_upper`. */
  function BrandUpper(v: VehicleRecord): (r: string)
    ensures |r| == |v.brand| && NoLower(r)
    ensures forall i :: 0 <= i < |r| ==> (IsLetter(r[i]) <==> IsLetter(v.brand[i]))
  {
    UpperHasNoLower(v.brand);
    Upper(v.brand)
  }

  /** `model_upper`. */
  function ModelUpper(v: VehicleRecord): (r: string)
    ensures |r| == |v.model| && NoLower(r)
    ensures forall i :: 0 <= i < |r| ==> (IsLetter(r[i]) <==> IsLetter(v.model[i]))
  {
    UpperHasNoLower(v.model);
    Upper(v.model)
  }

  /** `FipeMetadata`: how the catalogue entry was found. */
  datatype FipeMetadata = FipeMetadata(alternativeSearch: bool, originalModel: Option<string>, availableYears: Option<string>,
                                       brandCode: string, modelCode: string, yearFuelCode: string)

  /** The catalogue's price body, each field as decoded; `None` stands for
      a key that is absent. */
  datatype FipeValue = FipeValue(modelo: Option<Json>, anoModelo: Json, combustivel: Option<Json>, codigoFipe: Json,
                                 valor: Option<Json>, mesReferencia: Option<Json>, autenticacao: Json)

  /** `str.title()`: a cased letter after a cased letter is lowered, any
      other cased letter is raised; other characters are kept. */
  function TitleFrom(s: string, afterCased: bool): (r: string)
    ensures |r| == |s|
    ensures forall i :: 0 <= i < |s| ==> (IsCased(r[i]) <==> IsCased(s[i]))
    ensures forall i :: 0 <= i < |s| && !IsCased(s[i]) ==> r[i] == s[i]
  {
    if |s| == 0 then ""
    else
      var c := s[0];
      var d := if !IsCased(c) then c else if afterCased then LowerChar(c) else CapitalChar(c);
      [d] + TitleFrom(s[1..], IsCased(c))
  }

  function Title(s: string): (r: string)
    ensures |r| == |s|
  {
    TitleFrom(s, false)
  }

  /** Title case is idempotent. */
  lemma {:induction false} TitleFromIdempotent(s: string, afterCased: bool)
    ensures TitleFrom(TitleFrom(s, afterCased), afterCased) == TitleFrom(s, afterCased)
    decreases |s|
  {
    if |s| > 0 {
      var t := TitleFrom(s, afterCased);
      assert t[1..] == TitleFrom(s[1..], IsCased(s[0]));
      assert IsCased(t[0]) == IsCased(s[0]);
      TitleFromIdempotent(s[1..], IsCased(s[0]));
    }
  }

  /** A word starts with a capital and continues in small letters. */
  lemma TitleShape(s: string, i: nat)
    requires i < |s| && IsCased(s[i])
    ensures i == 0 || !IsCased(s[i - 1]) ==> IsCapital(Title(s)[i])
    ensures i > 0 && IsCased(s[i - 1]) ==> IsSmall(Title(s)[i])
  {
    TitleFromShape(s, false, i);
  }

  lemma {:induction false} TitleFromShape(s: string, afterCased: bool, i: nat)
    requires i < |s| && IsCased(s[i])
    ensures (if i == 0 then afterCased else IsCased(s[i - 1])) ==> IsSmall(TitleFrom(s, afterCased)[i])
    ensures !(if i == 0 then afterCased else IsCased(s[i - 1])) ==> IsCapital(TitleFrom(s, afterCased)[i])
    decreases |s|
  {
    if i > 0 {
      TitleFromShape(s[1..], IsCased(s[0]), i - 1);
      assert TitleFrom(s, afterCased)[i] == TitleFrom(s[1..], IsCased(s[0]))[i - 1];
    }
  }

  /** "EL\U{C9}TRICO" title-cases to "El\U{E9}trico": the Latin-1 capital
      inside the word is lowered. */
  lemma TitleLowersLatinCapital()
    ensures Title("EL\U{C9}TRICO") == "El\U{E9}trico"
  {
    var s := "EL\U{C9}TRICO";
    assert TitleFrom(s[7..], true) == "o";
    assert TitleFrom(s[6..], true) == "co";
    assert TitleFrom(s[5..], true) == "ico";
    assert TitleFrom(s[4..], true) == "rico";
    assert TitleFrom(s[3..], true) == "trico";
    assert TitleFrom(s[2..], true) == "\U{E9}trico";
    assert TitleFrom(s[1..], true) == "l\U{E9}trico";
  }

  /** `DS_MODELO_API`, `fipe_data.get("Modelo", "").title()`: an absent model
      reads as empty text; `None` where `.title()` raises because the model
      is present but not text. */
  function ModelTitle(modelo: Option<Json>): (r: Option<string>)
    ensures r.None? <==> modelo.Some? && !modelo.value.JStr?
    ensures modelo.None? ==> r == Some("")
    ensures r.Some? && modelo.Some? ==> r.value == Title(modelo.value.s)
  {
    match modelo
    case None => Some("")
    case Some(JStr(t)) => Some(Title(t))
    case Some(_) => None
  }

  /** `fuel[0] if fuel else None`: `Some(None)` for a falsy fuel, the first
      character of a text and the first item of a list otherwise; `None`
      where indexing raises, for a truthy number, boolean or object. */
  function FuelAbbr(fuel: Json): (r: Option<Option<Json>>)
    ensures r.None? <==> Truthy(fuel) && !fuel.JStr? && !fuel.JArr?
    ensures r == Some(None) <==> !Truthy(fuel)
    ensures r.Some? && r.value.Some? && fuel.JStr? ==>
              r.value.value.JStr? && |r.value.value.s| == 1 && StartsWith(fuel.s, r.value.value.s)
    ensures r.Some? && r.value.Some? && fuel.JArr? ==> r.value.value == fuel.items[0]
  {
    if !Truthy(fuel) then Some(None)
    else match fuel
      case JStr(t) => Some(Some(JStr(t[..1])))
      case JArr(items) => Some(Some(items[0]))
      case _ => None
  }

  /** The Portuguese month names. */
  function MonthNumber(name: string): (r: Option<int>)
    ensures r.Some? ==> 1 <= r.value <= 12
  {
    if name == "janeiro" then Some(1) else if name == "fevereiro" then Some(2)
    else if name == "mar\U{e7}o" then Some(3) else if name == "abril" then Some(4)
    else if name == "maio" then Some(5) else if name == "junho" then Some(6)
    else if name == "julho" then Some(7) else if name == "agosto" then Some(8)
    else if name == "setembro" then Some(9) else if name == "outubro" then Some(10)
    else if name == "novembro" then Some(11) else if name == "dezembro" then Some(12)
    else None
  }

  /** The reference month and year of `MesReferencia`, e.g. "novembro de
      2025": the text is lower-cased and split on " de "; exactly two pieces
      are needed; the month comes from the month names, the year from
      `int()`, and a month already found is kept when the year fails. */
  function ReferenceMonth(text: string): (r: (Option<int>, Option<int>))
    ensures text == "" ==> r == (None, None)
    ensures r.0.Some? ==> 1 <= r.0.value <= 12
    ensures |Split(Lower(text), " de ")| != 2 ==> r == (None, None)
  {
    if text == "" then (None, None)
    else
      var parts := Split(Lower(text), " de ");
      if |parts| != 2 then (None, None)
      else
        var name := Strip(parts[0]);
        (MonthNumber(name), ParseInt(Strip(parts[1])))
  }

  /** Splitting on a separator that starts with a space finds the one
      place it occurs when neither side holds a space. */
  lemma SplitAroundSpaces(a: string, sep: string, b: string)
    requires |sep| > 0 && sep[0] == ' ' && Lacks(a, ' ') && Lacks(b, ' ')
    ensures Split(a + sep + b, sep) == [a, b]
  {
    var s := a + sep + b;
    assert OccursAt(s, sep, |a|) by { assert s[|a|..|a| + |sep|] == sep; }
    forall j | 0 <= j < |a| ensures !OccursAt(s, sep, j) {
      assert s[j] == a[j];
      if j + |sep| <= |s| {
        assert s[j..j + |sep|][0] == s[j];
      }
    }
    assert Find(s, sep) == Some(|a|);
    assert s[|a| + |sep|..] == b;
    assert !Contains(b, sep) by {
      forall j | 0 <= j <= |b| - |sep| ensures !OccursAt(b, sep, j) {
        assert b[j..j + |sep|][0] == b[j];
      }
    }
  }

  lemma LowerOfLowercase(s: string)
    requires NoUpper(s)
    ensures Lower(s) == s
  {
    LowerOfNoUpper(s);
  }

  /** The digits of a number hold neither a space nor a capital. */
  lemma DigitsPlain(y: string)
    requires forall i | 0 <= i < |y| :: IsDigit(y[i])
    ensures Lacks(y, ' ') && NoUpper(y)
  {
  }

  lemma NoUpperJoin(a: string, b: string)
    requires NoUpper(a) && NoUpper(b)
    ensures NoUpper(a + b)
  {
    forall i | 0 <= i < |a + b| ensures !IsUpper((a + b)[i]) {
      if i >= |a| { assert (a + b)[i] == b[i - |a|]; }
    }
  }

  /** "<month> de <digits>" splits back into the month and the digits. */
  lemma {:induction false} MonthTextSplits(name: string, y: string)
    requires Lacks(name, ' ') && NoUpper(name) && Lacks(y, ' ') && NoUpper(y)
    ensures Split(Lower(name + " de " + y), " de ") == [name, y]
  {
    NoUpperJoin(name, " de ");
    NoUpperJoin(name + " de ", y);
    LowerOfLowercase(name + " de " + y);
    SplitAroundSpaces(name, " de ", y);
  }

  /** A word of lower-case letters (and the c with cedilla) has no blank
      and no capital. */
  lemma LowerWord(w: string)
    requires |w| > 0 && forall i :: 0 <= i < |w| ==> 'a' <= w[i] <= 'z' || w[i] == '\U{e7}'
    ensures !IsSpace(w[0]) && !IsSpace(w[|w| - 1])
    ensures Lacks(w, ' ') && NoUpper(w)
  {
  }

  /** Every month name is a lower-case word without blanks. */
  lemma MonthNamesPlain(name: string)
    requires MonthNumber(name).Some?
    ensures |name| > 0 && !IsSpace(name[0]) && !IsSpace(name[|name| - 1])
    ensures Lacks(name, ' ') && NoUpper(name)
  {
    LowerWord(name);
  }

  /** "<month> de <year>" parses to the month's number and the year. */
  lemma ReferenceMonthReadsBack(name: string, year: nat)
    requires MonthNumber(name).Some?
    ensures ReferenceMonth(name + " de " + NatToString(year)) == (MonthNumber(name), Some(year))
  {
    MonthNamesPlain(name);
    var y := NatToString(year);
    var text := name + " de " + y;
    DigitsPlain(y);
    MonthTextSplits(name, y);
    DigitsStripped(y);
    DigitsValueOfNatToString(year);
    ParseIntOfDigits(y);
    assert Strip(name) == name;
    assert text != "" by { assert |text| >= 4; }
  }

  /** The reference month and year of a `MesReferencia` field: only a
      non-empty text is parsed, and the `try` around the parse turns a value
      that is not text into neither. */
  function ReferenceOf(field: Option<Json>): (r: (Option<int>, Option<int>))
    ensures !(field.Some? && field.value.JStr?) ==> r == (None, None)
    ensures field.Some? && field.value.JStr? ==> r == ReferenceMonth(field.value.s)
  {
    if field.Some? && field.value.JStr? then ReferenceMonth(field.value.s) else (None, None)
  }

  /** `transform_to_snowflake_row`. */
  datatype FipeRow = FipeRow(
    brand: string, model: string, yearModel: int,
    modelApi: string, yearModelApi: Json,
    alternativeSearch: bool, originalModel: Option<string>, availableYears: Option<string>,
    brandCode: string, modelCode: string, yearFuelCode: string,
    fuel: Json, fuelAbbr: Option<Json>, fipeCode: Json,
    value: Json, referenceText: Json, referenceMonth: Option<int>, referenceYear: Option<int>,
    authentication: Json, vehicleType: int, key: string)

  /** The price row of a vehicle; `None` where building it raises: a model
      that is present but not text, or a truthy fuel that cannot be indexed.
      Absent fields read as their defaults and present ones are stored as
      decoded, null included. */
  function TransformFipeRow(v: VehicleRecord, f: FipeValue, m: FipeMetadata): (r: Option<FipeRow>)
    ensures r.None? <==> ModelTitle(f.modelo).None? || FuelAbbr(f.combustivel.GetOr(JStr(""))).None?
    ensures r.Some? ==> r.value.brand == v.brand && r.value.model == v.model && r.value.yearModel == v.yearModel && r.value.key == v.key
    ensures r.Some? ==> r.value.alternativeSearch == m.alternativeSearch && r.value.vehicleType == 1
    ensures r.Some? ==> r.value.brandCode == m.brandCode && r.value.modelCode == m.modelCode && r.value.yearFuelCode == m.yearFuelCode
    ensures r.Some? ==> r.value.fuel == f.combustivel.GetOr(JStr("")) && (r.value.fuelAbbr.Some? <==> Truthy(r.value.fuel))
    ensures r.Some? ==> (r.value.originalModel.Some? <==> m.originalModel.Some? && m.originalModel.value != "")
    ensures r.Some? ==> r.value.value == f.valor.GetOr(JStr("R$ 0,00"))
    ensures r.Some? ==> r.value.referenceText == f.mesReferencia.GetOr(JStr(""))
    ensures r.Some? ==> (r.value.referenceMonth, r.value.referenceYear) == ReferenceOf(f.mesReferencia)
    ensures r.Some? ==> r.value.modelApi == ModelTitle(f.modelo).value
  {
    var fuel := f.combustivel.GetOr(JStr(""));
    var (month, year) := ReferenceOf(f.mesReferencia);
    match (ModelTitle(f.modelo), FuelAbbr(fuel))
    case (Some(model), Some(abbr)) =>
      Some(FipeRow(
        v.brand, v.model, v.yearModel,
        model, f.anoModelo,
        m.alternativeSearch,
        if m.originalModel.Some? && m.originalModel.value != "" then Some(Title(m.originalModel.value)) else None,
        m.availableYears,
        m.brandCode, m.modelCode, m.yearFuelCode,
        fuel, abbr, f.codigoFipe,
        f.valor.GetOr(JStr("R$ 0,00")), f.mesReferencia.GetOr(JStr("")), month, year,
        f.autenticacao, 1, v.key))
    case _ => None
  }

  // ---------------------------------------------------------------------------
  // Plate row
  // ---------------------------------------------------------------------------

  /** `transform_plate_to_snowflake_row`. */
  datatype PlateRow = PlateRow(plate: string, brand: Json, model: Json, yearManuf: Option<int>, yearModel: Option<int>, color: Option<string>)

  /** The plate row of a provider record: both years sanitised, the colour
      upper-cased when present; `None` where `.upper()` would raise because a
      truthy colour is not text. */
  function TransformPlateRow(plate: string, data: map<string, Json>): (r: Option<PlateRow>)
    ensures r.None? <==> Truthy(Get(data, "cor")) && !Get(data, "cor").JStr?
    ensures r.Some? ==> r.value.plate == plate
    ensures r.Some? ==> r.value.yearManuf == SafeInt(Get(data, "ano")) && r.value.yearModel == SafeInt(Get(data, "anoModelo"))
    ensures r.Some? ==> (r.value.color.Some? <==> Truthy(Get(data, "cor")))
    ensures r.Some? && r.value.color.Some? ==> NoLower(r.value.color.value) && |r.value.color.value| == |Get(data, "cor").s|
  {
    var color := Get(data, "cor");
    if Truthy(color) && !color.JStr? then None
    else
      var c := if Truthy(color) then UpperHasNoLower(color.s); Some(Upper(color.s)) else None;
      Some(PlateRow(plate, Get(data, "marca"), Get(data, "modelo"), SafeInt(Get(data, "ano")), SafeInt(Get(data, "anoModelo")), c))
  }
}
