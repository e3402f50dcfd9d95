/** The file bookkeeping of the BeSistemas loader: category and metadata
    read from a file name, the S3 listing grouped by category, the manifest
    split into loaded and to-retry files, the set of files still to load,
    the target table and column names, and the chunks files are loaded in. */
module BeSistemas {
  import opened Wrappers
  import opened Text
  import opened Calendar

  /** `CHUNK_SIZE`. */
  const CHUNK_SIZE: nat := 50

  // ---------------------------------------------------------------------------
  // Paths
  // ---------------------------------------------------------------------------

  /** `key.split('/')[-1]`: the text after the last '/'. */
  function Basename(s: string): (r: string)
    ensures Lacks(r, '/') && EndsWith(s, r)
    ensures |r| < |s| ==> s[|s| - |r| - 1] == '/'
  {
    if s == [] then []
    else if s[|s| - 1] == '/' then []
    else Basename(s[..|s| - 1]) + [s[|s| - 1]]
  }

  /** The base name of a path is the name after its directory. */
  lemma {:induction false} BasenameOfPath(dir: string, name: string)
    requires Lacks(name, '/')
    ensures Basename(dir + "/" + name) == name
  {
    var s := dir + "/" + name;
    if name != [] {
      var init := name[..|name| - 1];
      BasenameOfPath(dir, init);
      assert s[..|s| - 1] == dir + "/" + init;
      assert name == init + [name[|name| - 1]];
    }
  }

  // ---------------------------------------------------------------------------
  // Category of a file name
  // ---------------------------------------------------------------------------

  predicate DigitsAt(s: string, i: nat, n: nat) {
    i + n <= |s| && forall j :: i <= j < i + n ==> IsDigit(s[j])
  }

  /** `_\d{4}_\d{2}_\d{2}` starts at index `i`. */
  predicate DateAt(s: string, i: nat) {
    i + 11 <= |s| && s[i] == '_' && DigitsAt(s, i + 1, 4) && s[i + 5] == '_' && DigitsAt(s, i + 6, 2)
    && s[i + 8] == '_' && DigitsAt(s, i + 9, 2)
  }

  /** No newline before index `i` (a regex `.` never matches one). */
  predicate OneLine(s: string, i: nat) {
    forall k :: 0 <= k < i && k < |s| ==> s[k] != '\n'
  }

  /** The lazy `^(.+?)_(\d{4}_\d{2}_\d{2})` searched from length `i`: the
      least length, at least `i`, of a newline-free prefix followed by a
      date. */
  function DatedPrefix(s: string, i: nat): (r: Option<nat>)
    requires 1 <= i && OneLine(s, i - 1)
    ensures r.Some? ==> i <= r.value && DateAt(s, r.value) && OneLine(s, r.value)
    ensures r.Some? ==> forall j :: i <= j < r.value ==> !DateAt(s, j)
    ensures r.None? ==> forall j :: i <= j && OneLine(s, j) ==> !DateAt(s, j)
    decreases |s| - i
  {
    if i + 11 > |s| then None
    else if s[i - 1] == '\n' then None
    else if DateAt(s, i) then Some(i)
    else DatedPrefix(s, i + 1)
  }

  /** The first two `_`-separated fields joined again are a prefix. */
  lemma FirstTwoFields(s: string)
    requires |Split(s, "_")| >= 2
    ensures StartsWith(s, Split(s, "_")[0] + "_" + Split(s, "_")[1])
  {
    var parts := Split(s, "_");
    assert s == parts[0] + "_" + Join("_", parts[1..]);
    var rest := parts[1..];
    if |rest| > 1 {
      assert Join("_", rest) == rest[0] + "_" + Join("_", rest[1..]);
    }
  }

  /** The category of an undated name: the first two `_`-separated fields
      of the name without `.csv`, or "outros" when it has no `_`. */
  function UndatedCategory(b: string): (r: string)
    ensures r == "outros" <==> !Contains(RemoveAll(b, ".csv"), "_")
    ensures r != "outros" ==> StartsWith(RemoveAll(b, ".csv"), r) && Contains(r, "_")
  {
    var cleaned := RemoveAll(b, ".csv");
    var parts := Split(cleaned, "_");
    if |parts| >= 2 then
      FirstTwoFields(cleaned);
      var r := parts[0] + "_" + parts[1];
      assert OccursAt(r, "_", |parts[0]|);
      assert r != "outros" by {
        assert |r| == 6 ==> r[|parts[0]|] == '_';
      }
      r
    else
      assert Join("_", parts) == parts[0];
      "outros"
  }

  /** `extract_category_from_filename`. */
  function Category(filename: string): (r: string)
    ensures var b := Basename(filename);
            DatedPrefix(b, 1).Some? ==>
              (r == b[..DatedPrefix(b, 1).value] && |r| >= 1 && DateAt(b, |r|) && forall j :: 1 <= j < |r| ==> !DateAt(b, j))
    ensures var b := Basename(filename);
            DatedPrefix(b, 1).None? ==> r == UndatedCategory(b)
  {
    var b := Basename(filename);
    match DatedPrefix(b, 1)
    case Some(i) => b[..i]
    case None => UndatedCategory(b)
  }

  // ---------------------------------------------------------------------------
  // Name metadata
  // ---------------------------------------------------------------------------

  /** A `%Y_%m_%d_%H_%M_%S` stamp as its six fields. */
  datatype Stamp = Stamp(year: nat, month: nat, day: nat, hour: nat, minute: nat, second: nat)

  predicate Fits(st: Stamp) {
    st.year < 10000 && st.month < 100 && st.day < 100 && st.hour < 100 && st.minute < 100 && st.second < 100
  }

  function DigitValue(c: char): int {
    c as int - '0' as int
  }

  lemma MulAtLeast(k: int, d: int)
    requires d > 0
    ensures k >= 1 ==> k * d >= d
    ensures k <= -1 ==> k * d <= -d
  {
  }

  /** Division by `d` recovers quotient and remainder. */
  lemma DivMod(q: nat, r: nat, d: nat)
    requires 0 <= r < d
    ensures (q * d + r) / d == q && (q * d + r) % d == r
  {
    var x := q * d + r;
    var q' := x / d;
    assert (q' - q) * d == r - x % d;
    MulAtLeast(q' - q, d);
  }

  /** Character `k` of the written stamp: `_` between fields, otherwise a
      digit of the year's hundreds, the year's rest or one of the other
      fields, each written as two zero-padded digits. */
  function StampChar(st: Stamp, k: nat): char
    requires Fits(st) && k < 19
  {
    if k == 4 || k == 7 || k == 10 || k == 13 || k == 16 then '_'
    else
      var n := if k < 2 then st.year / 100 else if k < 4 then st.year % 100 else if k < 7 then st.month
               else if k < 10 then st.day else if k < 13 then st.hour else if k < 16 then st.minute else st.second;
      if k == 0 || k == 2 || k == 5 || k == 8 || k == 11 || k == 14 || k == 17 then DigitChar(n / 10) else DigitChar(n % 10)
  }

  /** The stamp as the file name writes it, `%Y_%m_%d_%H_%M_%S`. */
  function StampText(st: Stamp): (r: string)
    requires Fits(st)
    ensures |r| == 19 && forall k :: 0 <= k < 19 ==> r[k] == StampChar(st, k)
  {
    seq(19, k requires 0 <= k < 19 => StampChar(st, k))
  }

  /** `\d{4}_\d{2}_\d{2}_\d{2}_\d{2}_\d{2}` starts at index `i`. */
  predicate IsStampAt(s: string, i: nat) {
    i + 19 <= |s|
    && IsDigit(s[i]) && IsDigit(s[i + 1]) && IsDigit(s[i + 2]) && IsDigit(s[i + 3]) && s[i + 4] == '_'
    && IsDigit(s[i + 5]) && IsDigit(s[i + 6]) && s[i + 7] == '_' && IsDigit(s[i + 8]) && IsDigit(s[i + 9]) && s[i + 10] == '_'
    && IsDigit(s[i + 11]) && IsDigit(s[i + 12]) && s[i + 13] == '_' && IsDigit(s[i + 14]) && IsDigit(s[i + 15]) && s[i + 16] == '_'
    && IsDigit(s[i + 17]) && IsDigit(s[i + 18])
  }

  function Two(s: string, i: nat): nat
    requires i + 2 <= |s| && IsDigit(s[i]) && IsDigit(s[i + 1])
  {
    10 * DigitValue(s[i]) + DigitValue(s[i + 1])
  }

  /** The stamp starting at index `i`. */
  function ParseStampAt(s: string, i: nat): (st: Stamp)
    requires IsStampAt(s, i)
  {
    Stamp(100 * Two(s, i) + Two(s, i + 2), Two(s, i + 5), Two(s, i + 8), Two(s, i + 11), Two(s, i + 14), Two(s, i + 17))
  }

  lemma TwoDigits(n: nat)
    requires n < 100
    ensures n / 10 < 10 && 10 * (n / 10) + n % 10 == n
  {
  }

  lemma SplitTwo(a: nat, b: nat)
    requires a < 10 && b < 10
    ensures (10 * a + b) / 10 == a && (10 * a + b) % 10 == b
  {
    DivMod(a, b, 10);
  }

  /** The characters of a written stamp. */
  lemma StampChars(st: Stamp, s: string, i: nat)
    requires Fits(st) && i + 19 <= |s| && s[i..i + 19] == StampText(st)
    ensures s[i] == DigitChar(st.year / 100 / 10) && s[i + 1] == DigitChar(st.year / 100 % 10)
    ensures s[i + 2] == DigitChar(st.year % 100 / 10) && s[i + 3] == DigitChar(st.year % 100 % 10)
    ensures s[i + 5] == DigitChar(st.month / 10) && s[i + 6] == DigitChar(st.month % 10)
    ensures s[i + 8] == DigitChar(st.day / 10) && s[i + 9] == DigitChar(st.day % 10)
    ensures s[i + 11] == DigitChar(st.hour / 10) && s[i + 12] == DigitChar(st.hour % 10)
    ensures s[i + 14] == DigitChar(st.minute / 10) && s[i + 15] == DigitChar(st.minute % 10)
    ensures s[i + 17] == DigitChar(st.second / 10) && s[i + 18] == DigitChar(st.second % 10)
    ensures s[i + 4] == '_' && s[i + 7] == '_' && s[i + 10] == '_' && s[i + 13] == '_' && s[i + 16] == '_'
  {
    forall k | 0 <= k < 19 ensures s[i + k] == StampChar(st, k) {
      assert s[i..i + 19][k] == StampText(st)[k];
    }
  }

  /** Writing a stamp and reading it back gives the stamp. */
  lemma StampRoundTrip(st: Stamp, s: string, i: nat)
    requires Fits(st) && i + 19 <= |s| && s[i..i + 19] == StampText(st)
    ensures IsStampAt(s, i) && ParseStampAt(s, i) == st
  {
    StampChars(st, s, i);
    TwoOf(s, i, st.year / 100);
    TwoOf(s, i + 2, st.year % 100);
    TwoOf(s, i + 5, st.month);
    TwoOf(s, i + 8, st.day);
    TwoOf(s, i + 11, st.hour);
    TwoOf(s, i + 14, st.minute);
    TwoOf(s, i + 17, st.second);
  }

  /** Two digits written for `n` read back as `n`. */
  lemma TwoOf(s: string, j: nat, n: nat)
    requires n < 100 && j + 2 <= |s| && s[j] == DigitChar(n / 10) && s[j + 1] == DigitChar(n % 10)
    ensures IsDigit(s[j]) && IsDigit(s[j + 1]) && Two(s, j) == n
  {
  }

  /** Two digits read back as `n` are the digits written for `n`. */
  lemma DigitsOfTwo(s: string, j: nat)
    requires j + 2 <= |s| && IsDigit(s[j]) && IsDigit(s[j + 1])
    ensures Two(s, j) < 100 && s[j] == DigitChar(Two(s, j) / 10) && s[j + 1] == DigitChar(Two(s, j) % 10)
  {
    SplitTwo(DigitValue(s[j]), DigitValue(s[j + 1]));
  }

  /** Reading a stamp and writing it back gives the text. */
  lemma StampTextOfParse(s: string, i: nat)
    requires IsStampAt(s, i)
    ensures Fits(ParseStampAt(s, i)) && s[i..i + 19] == StampText(ParseStampAt(s, i))
  {
    var st := ParseStampAt(s, i);
    var hi := Two(s, i);
    var lo := Two(s, i + 2);
    DigitsOfTwo(s, i);
    DigitsOfTwo(s, i + 2);
    DivMod(hi, lo, 100);
    DigitsOfTwo(s, i + 5);
    DigitsOfTwo(s, i + 8);
    DigitsOfTwo(s, i + 11);
    DigitsOfTwo(s, i + 14);
    DigitsOfTwo(s, i + 17);
    var t := StampText(st);
    forall k | 0 <= k < 19 ensures s[i + k] == t[k] {
    }
  }

  /** What `parse_name_meta` returns. */
  datatype NameMeta = NameMeta(category: string, start: Stamp, end: Stamp, filename: string)

  /** `.+?` can stand for it: non-empty, no newline. */
  predicate CategoryOk(c: string) {
    |c| > 0 && Lacks(c, '\n')
  }

  /** The file name `<category>_<start>_<end>[.csv]`. */
  function Name(c: string, a: Stamp, e: Stamp, csv: bool): (r: string)
    requires Fits(a) && Fits(e)
    ensures |r| == |c| + 40 + (if csv then 4 else 0)
  {
    c + "_" + StampText(a) + "_" + StampText(e) + (if csv then ".csv" else "")
  }

  /** `_<stamp>_<stamp>` starts at index `i`. */
  predicate StampsAt(s: string, i: nat) {
    i + 40 <= |s| && s[i] == '_' && IsStampAt(s, i + 1) && s[i + 20] == '_' && IsStampAt(s, i + 21)
  }

  /** `s` is `n` characters, two stamps, and `.csv` when `csv` holds. */
  predicate Shaped(s: string, n: nat, csv: bool) {
    StampsAt(s, n) && |s| == n + 40 + (if csv then 4 else 0) && (csv ==> s[n + 40..] == ".csv")
  }

  /** `s` is the file name of the category and stamps of `m`, with or
      without the extension. */
  predicate Spells(s: string, m: NameMeta) {
    Fits(m.start) && Fits(m.end) && (s == Name(m.category, m.start, m.end, true) || s == Name(m.category, m.start, m.end, false))
  }

  /** A shaped text is spelled by the metadata read from it. */
  lemma Reassemble(s: string, n: nat, csv: bool, filename: string)
    requires Shaped(s, n, csv)
    ensures Spells(s, MetaAt(s, n, csv, filename))
  {
    var m := MetaAt(s, n, csv, filename);
    StampTextOfParse(s, n + 1);
    StampTextOfParse(s, n + 21);
    var a := s[n + 1..n + 20];
    var e := s[n + 21..n + 40];
    var ext := if csv then ".csv" else "";
    assert s[..n + 20] == s[..n] + "_" + a;
    assert s[..n + 40] == s[..n + 20] + "_" + e;
    assert s == s[..n + 40] + ext;
    assert s == Name(m.category, m.start, m.end, csv);
  }

  /** The text `$` anchors against: a final newline is allowed after it. */
  function DropNewline(b: string): (r: string)
    ensures |r| <= |b| && r == b[..|r|]
  {
    if |b| > 0 && b[|b| - 1] == '\n' then b[..|b| - 1] else b
  }

  /** `PAT_NAME.match` on a base name: it must be a category, two stamps
      and an optional `.csv`, and nothing else. */
  function MatchBase(b: string): (r: Option<NameMeta>)
    ensures r.Some? ==> r.value.filename == b && CategoryOk(r.value.category)
    ensures r.Some? ==> Spells(DropNewline(b), r.value)
  {
    var s := DropNewline(b);
    if |s| >= 45 && Shaped(s, |s| - 44, true) && CategoryOk(s[..|s| - 44]) then
      ParsedAt(s, |s| - 44, true, b);
      Some(MetaAt(s, |s| - 44, true, b))
    else if |s| >= 41 && Shaped(s, |s| - 40, false) && CategoryOk(s[..|s| - 40]) then
      ParsedAt(s, |s| - 40, false, b);
      Some(MetaAt(s, |s| - 40, false, b))
    else None
  }

  lemma ParsedAt(s: string, n: nat, csv: bool, filename: string)
    requires Shaped(s, n, csv) && CategoryOk(s[..n])
    ensures var m := MetaAt(s, n, csv, filename);
      m.filename == filename && CategoryOk(m.category) && Spells(s, m)
  {
    Reassemble(s, n, csv, filename);
  }

  /** A stamp `datetime.strptime` turns into a `datetime`: a year from 1, a
      month of the year, a day of that month, and a time of day without leap
      seconds. */
  predicate ValidStamp(st: Stamp) {
    Fits(st) && ValidDate(st.year, st.month, st.day) && st.hour < 24 && st.minute < 60 && st.second < 60
  }

  /** `parse_name_meta` on a base name: no metadata when the name does not
      match, and a failure (the `ValueError` of `strptime`) when it matches
      but a stamp is not a calendar date and time. */
  function ParseBase(b: string): (r: Result<Option<NameMeta>, string>)
    ensures r.Failure? <==> MatchBase(b).Some? && !(ValidStamp(MatchBase(b).value.start) && ValidStamp(MatchBase(b).value.end))
    ensures r == Success(None) <==> MatchBase(b).None?
    ensures r.Success? && r.value.Some? ==> r.value == MatchBase(b) && ValidStamp(r.value.value.start) && ValidStamp(r.value.value.end)
  {
    match MatchBase(b)
    case None => Success(None)
    case Some(m) => if ValidStamp(m.start) && ValidStamp(m.end) then Success(Some(m)) else Failure("time data does not match format")
  }

  /** `parse_name_meta`: the metadata of the key's base name. */
  function ParseNameMeta(key: string): (r: Result<Option<NameMeta>, string>)
    ensures r == ParseBase(Basename(key))
  {
    ParseBase(Basename(key))
  }

  /** The metadata of a shaped name: its first `n` characters as the
      category and the two stamps after them. */
  function MetaAt(s: string, n: nat, csv: bool, filename: string): (m: NameMeta)
    requires Shaped(s, n, csv)
    ensures m.category == s[..n] && m.filename == filename && Fits(m.start) && Fits(m.end)
  {
    StampTextOfParse(s, n + 1);
    StampTextOfParse(s, n + 21);
    NameMeta(s[..n], ParseStampAt(s, n + 1), ParseStampAt(s, n + 21), filename)
  }

  /** A file name has its category, the two stamps and the extension
      where the parser looks for them. */
  lemma NameShaped(c: string, a: Stamp, e: Stamp, csv: bool)
    requires Fits(a) && Fits(e)
    ensures Shaped(Name(c, a, e, csv), |c|, csv) && Name(c, a, e, csv)[..|c|] == c
    ensures ParseStampAt(Name(c, a, e, csv), |c| + 1) == a && ParseStampAt(Name(c, a, e, csv), |c| + 21) == e
  {
    var name := Name(c, a, e, csv);
    var n := |c|;
    assert name[..n] == c;
    assert name[n + 1..n + 20] == StampText(a);
    assert name[n + 21..n + 40] == StampText(e);
    StampRoundTrip(a, name, n + 1);
    StampRoundTrip(e, name, n + 21);
    if csv {
      assert name[n + 40..] == ".csv";
    }
  }

  /** A file name ends in a digit or in `.csv`, never in a newline. */
  lemma NameEnd(c: string, a: Stamp, e: Stamp, csv: bool)
    requires Fits(a) && Fits(e)
    ensures var name := Name(c, a, e, csv);
            DropNewline(name) == name && (!csv ==> IsDigit(name[|name| - 1]))
  {
    var name := Name(c, a, e, csv);
    if csv {
      assert name[|name| - 1] == 'v';
    } else {
      assert name[|name| - 1] == StampText(e)[18];
    }
  }

  /** A text shaped with `n` leading characters is read at `n`. */
  lemma ParseShaped(s: string, n: nat, csv: bool)
    requires Shaped(s, n, csv) && CategoryOk(s[..n]) && DropNewline(s) == s
    requires !csv ==> IsDigit(s[|s| - 1])
    ensures MatchBase(s) == Some(MetaAt(s, n, csv, s))
  {
    if !csv && |s| >= 45 {
      assert !Shaped(s, |s| - 44, true) by {
        assert s[|s| - 1] != 'v';
        assert s[|s| - 44 + 40..][3] == s[|s| - 1];
      }
    }
  }

  /** A well-formed base name matches with its category and stamps, whether
      or not the stamps are calendar dates. */
  lemma BaseRoundTrip(c: string, a: Stamp, e: Stamp, csv: bool)
    requires CategoryOk(c) && Fits(a) && Fits(e)
    ensures MatchBase(Name(c, a, e, csv)) == Some(NameMeta(c, a, e, Name(c, a, e, csv)))
  {
    NameShaped(c, a, e, csv);
    NameEnd(c, a, e, csv);
    ParseShaped(Name(c, a, e, csv), |c|, csv);
  }

  /** A file name has a '/' only where its category has one. */
  lemma NameLacksSlash(c: string, a: Stamp, e: Stamp, csv: bool)
    requires Lacks(c, '/') && Fits(a) && Fits(e)
    ensures Lacks(Name(c, a, e, csv), '/')
  {
    var name := Name(c, a, e, csv);
    var n := |c|;
    forall k | 0 <= k < |name| ensures name[k] != '/' {
      if k >= n + 1 && k < n + 20 {
        assert name[k] == StampText(a)[k - n - 1];
      } else if k >= n + 21 && k < n + 40 {
        assert name[k] == StampText(e)[k - n - 21];
      }
    }
  }

  /** A file name with calendar stamps under any directory parses back into
      its category, stamps and name; one whose stamps match the pattern but
      not the calendar raises. */
  lemma NameMetaRoundTrip(dir: string, c: string, a: Stamp, e: Stamp, csv: bool)
    requires CategoryOk(c) && Lacks(c, '/') && Fits(a) && Fits(e)
    ensures ValidStamp(a) && ValidStamp(e) ==> ParseNameMeta(dir + "/" + Name(c, a, e, csv)) == Success(Some(NameMeta(c, a, e, Name(c, a, e, csv))))
    ensures !(ValidStamp(a) && ValidStamp(e)) ==> ParseNameMeta(dir + "/" + Name(c, a, e, csv)).Failure?
  {
    NameLacksSlash(c, a, e, csv);
    BasenameOfPath(dir, Name(c, a, e, csv));
    BaseRoundTrip(c, a, e, csv);
  }

  /** The last second of a leap day is a stamp; the 29th of February of a
      common year, hour 24 and second 60 are not. */
  lemma StampLimits()
    ensures ValidStamp(Stamp(2024, 2, 29, 23, 59, 59))
    ensures !ValidStamp(Stamp(2023, 2, 29, 0, 0, 0)) && !ValidStamp(Stamp(2024, 3, 1, 24, 0, 0))
    ensures !ValidStamp(Stamp(2024, 3, 1, 0, 0, 60)) && !ValidStamp(Stamp(0, 1, 1, 0, 0, 0))
  {
  }

  // ---------------------------------------------------------------------------
  // Listing grouped by category
  // ---------------------------------------------------------------------------

  /** The listing keeps CSV objects and skips folder markers. */
  predicate Listed(key: string) {
    !EndsWith(key, "/") && EndsWith(key, ".csv")
  }

  /** The listed keys of category `c` under the naming `cat`, in listing
      order. */
  function InCategory(keys: seq<string>, cat: string -> string, c: string): (r: seq<string>)
    ensures forall k :: k in r <==> k in keys && Listed(k) && cat(k) == c
  {
    if keys == [] then []
    else
      var last := keys[|keys| - 1];
      assert keys == keys[..|keys| - 1] + [last];
      InCategory(keys[..|keys| - 1], cat, c) + (if Listed(last) && cat(last) == c then [last] else [])
  }

  /** Each listed key appended to its category's list, in listing order. */
  function Group(keys: seq<string>, cat: string -> string): (m: map<string, seq<string>>)
    ensures forall c :: c in m <==> InCategory(keys, cat, c) != []
    ensures forall c :: c in m ==> m[c] == InCategory(keys, cat, c)
  {
    if keys == [] then map[]
    else
      var g := Group(keys[..|keys| - 1], cat);
      var last := keys[|keys| - 1];
      if Listed(last) then
        var c := cat(last);
        g[c := (if c in g then g[c] else []) + [last]]
      else g
  }

  /** `list_all_files_by_category`. */
  function ListByCategory(keys: seq<string>): (m: map<string, seq<string>>)
    ensures forall c :: c in m <==> InCategory(keys, Category, c) != []
    ensures forall c :: c in m ==> m[c] == InCategory(keys, Category, c)
  {
    Group(keys, Category)
  }

  /** Every listed key is in its own category's list and no other. */
  lemma GroupPlacesEachKey(keys: seq<string>, k: string)
    requires k in keys && Listed(k)
    ensures Category(k) in ListByCategory(keys) && k in ListByCategory(keys)[Category(k)]
    ensures forall c :: c in ListByCategory(keys) && c != Category(k) ==> k !in ListByCategory(keys)[c]
  {
    assert k in InCategory(keys, Category, Category(k));
  }

  // ---------------------------------------------------------------------------
  // Manifest and the files still to load
  // ---------------------------------------------------------------------------

  /** A manifest row as the window query returns it. */
  datatype ManifestRow = ManifestRow(key: string, status: Option<string>)

  /** `status and status.lower() == 'success'`. */
  predicate Succeeded(status: Option<string>) {
    status.Some? && Lower(status.value) == "success"
  }

  /** `load_manifest_recent_ok_retry`: a row with a successful status puts
      its key in `ok`, every other row (a null status included) in `retry`. */
  method LoadOkRetry(rows: seq<ManifestRow>) returns (ok: set<string>, retry: set<string>)
    ensures ok == set i | 0 <= i < |rows| && Succeeded(rows[i].status) :: rows[i].key
    ensures retry == set i | 0 <= i < |rows| && !Succeeded(rows[i].status) :: rows[i].key
    ensures ok + retry == set i | 0 <= i < |rows| :: rows[i].key
  {
    ok := {};
    retry := {};
    var n := 0;
    while n < |rows|
      invariant 0 <= n <= |rows|
      invariant ok == set i | 0 <= i < n && Succeeded(rows[i].status) :: rows[i].key
      invariant retry == set i | 0 <= i < n && !Succeeded(rows[i].status) :: rows[i].key
      invariant ok + retry == set i | 0 <= i < n :: rows[i].key
    {
      if Succeeded(rows[n].status) {
        ok := ok + {rows[n].key};
      } else {
        retry := retry + {rows[n].key};
      }
      n := n + 1;
    }
  }

  /** `compute_todo_from_manifest`: the recent keys not yet loaded, plus
      the recent keys marked for retry, sorted and without repeats. */
  method ComputeTodo(recent: seq<string>, ok: set<string>, retry: set<string>) returns (todo: seq<string>)
    ensures StrictlySorted(todo)
    ensures forall k :: k in todo <==> k in recent && (k !in ok || k in retry)
  {
    var r := set k | k in recent;
    todo := SortSet((r - ok) + (r * retry));
  }

  /** A recent file loaded once and not marked for retry is never loaded
      again; every other recent file is. */
  lemma TodoSkipsOnlyLoaded(recent: seq<string>, ok: set<string>, retry: set<string>, todo: seq<string>, k: string)
    requires forall x :: x in todo <==> x in recent && (x !in ok || x in retry)
    requires k in recent
    ensures k !in todo <==> k in ok && k !in retry
  {
  }

  // ---------------------------------------------------------------------------
  // Names and chunks
  // ---------------------------------------------------------------------------

  /** `f"BRZ_BESISTEMAS_{category}".upper().replace('-', '_')`. */
  function TableName(category: string): (r: string)
    ensures |r| == 15 + |category| && StartsWith(r, "BRZ_BESISTEMAS_")
    ensures NoLower(r) && Lacks(r, '-')
  {
    var u := Upper("BRZ_BESISTEMAS_" + category);
    UpperHasNoLower("BRZ_BESISTEMAS_" + category);
    var r := ReplaceChar(u, '-', '_');
    assert r[..15] == "BRZ_BESISTEMAS_";
    r
  }

  /** `col.upper().replace(' ', '_').replace('-', '_').replace('.', '_')`. */
  function ColumnName(col: string): (r: string)
    ensures |r| == |col|
    ensures forall i :: 0 <= i < |col| ==> r[i] == (if col[i] == ' ' || col[i] == '-' || col[i] == '.' then '_' else UpperChar(col[i]))
  {
    ReplaceChar(ReplaceChar(ReplaceChar(Upper(col), ' ', '_'), '-', '_'), '.', '_')
  }

  /** Column names come out upper-case, without blanks, dashes or dots, and
      normalising twice changes nothing. */
  lemma ColumnNameIsNormal(col: string)
    ensures NoLower(ColumnName(col)) && Lacks(ColumnName(col), ' ') && Lacks(ColumnName(col), '-') && Lacks(ColumnName(col), '.')
    ensures ColumnName(ColumnName(col)) == ColumnName(col)
  {
  }

  function Flatten<T>(cs: seq<seq<T>>): seq<T> {
    if cs == [] then [] else cs[0] + Flatten(cs[1..])
  }

  /** `range(0, len(keys), size)` slices: consecutive, covering every key
      once and in order, all full but the last. */
  function Chunks<T>(keys: seq<T>, size: nat): (cs: seq<seq<T>>)
    requires size > 0
    ensures |cs| == (|keys| + size - 1) / size
    ensures forall i :: 0 <= i < |cs| ==> 0 < |cs[i]| <= size
    ensures forall i :: 0 <= i < |cs| - 1 ==> |cs[i]| == size
    decreases |keys|
  {
    if keys == [] then []
    else if |keys| <= size then
      ChunkCount(|keys|, size);
      [keys]
    else
      var rest := Chunks(keys[size..], size);
      assert keys == keys[..size] + keys[size..];
      ChunkCount(|keys|, size);
      [keys[..size]] + rest
  }

  /** The chunks, put back together, are the keys in their order. */
  lemma {:induction false} ChunksCover<T>(keys: seq<T>, size: nat)
    requires size > 0
    ensures Flatten(Chunks(keys, size)) == keys
    decreases |keys|
  {
    var cs := Chunks(keys, size);
    if keys == [] {
    } else if |keys| <= size {
      assert cs == [keys];
      assert Flatten(cs) == keys + Flatten(cs[1..]);
    } else {
      ChunksCover(keys[size..], size);
      assert cs == [keys[..size]] + Chunks(keys[size..], size);
      assert cs[1..] == Chunks(keys[size..], size);
      assert Flatten(cs) == keys[..size] + Flatten(cs[1..]);
      assert keys == keys[..size] + keys[size..];
    }
  }

  /** One chunk of `size` accounts for one in the count of chunks. */
  lemma ChunkCount(n: nat, size: nat)
    requires size > 0 && n > 0
    ensures n <= size ==> (n + size - 1) / size == 1
    ensures n > size ==> (n + size - 1) / size == (n - size + size - 1) / size + 1
  {
    var x := n - 1;
    var q := x / size;
    assert x == q * size + x % size;
    assert (q + 1) * size == q * size + size;
    DivMod(q + 1, x % size, size);
    assert n + size - 1 == (q + 1) * size + x % size;
  }

  /** The loader's chunks: at most `CHUNK_SIZE` keys each. */
  lemma LoaderChunks(keys: seq<string>)
    ensures |Chunks(keys, CHUNK_SIZE)| == (|keys| + 49) / 50
    ensures forall i :: 0 <= i < |Chunks(keys, CHUNK_SIZE)| ==> |Chunks(keys, CHUNK_SIZE)[i]| <= 50
  {
  }
}
