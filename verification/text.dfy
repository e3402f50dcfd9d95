/** Python string primitives the pipelines rely on, restricted to the
    behaviour the model needs: case mapping (ASCII, plus the Latin-1
    capitals for `lower`), `strip`, `replace`, `split`, `join`, substring
    search, `str(int)` and code-point ordering. */
module Text {
  import opened Wrappers

  // ---------------------------------------------------------------------------
  // Character classes
  // ---------------------------------------------------------------------------

  predicate IsUpper(c: char) { 'A' <= c <= 'Z' }
  predicate IsLower(c: char) { 'a' <= c <= 'z' }
  predicate IsDigit(c: char) { '0' <= c <= '9' }
  predicate IsLetter(c: char) { IsUpper(c) || IsLower(c) }

  /** The ASCII characters Python's `str.isspace` accepts. */
  predicate IsSpace(c: char) {
    c == ' ' || c == '\t' || c == '\n' || c == '\r' || c == '\U{B}' || c == '\U{C}'
    || ('\U{1C}' <= c <= '\U{1F}')
  }

  function UpperChar(c: char): char {
    if IsLower(c) then (c as int - 32) as char else c
  }

  /** The Latin-1 capitals (À to Þ, except ×), which `str.lower()` maps 32
      code points up, like the ASCII ones. */
  predicate IsLatinCapital(c: char) { '\U{C0}' <= c <= '\U{DE}' && c != '\U{D7}' }
  predicate IsCapital(c: char) { IsUpper(c) || IsLatinCapital(c) }

  function LowerChar(c: char): char {
    if IsCapital(c) then (c as int + 32) as char else c
  }

  /** The Latin-1 small letters with a Latin-1 capital (à to þ, except ÷),
      which `str.upper()` maps 32 code points down. */
  predicate IsLatinSmall(c: char) { '\U{E0}' <= c <= '\U{FE}' && c != '\U{F7}' }
  predicate IsSmall(c: char) { IsLower(c) || IsLatinSmall(c) }

  /** The letters whose case the model knows: ASCII and Latin-1 pairs. */
  predicate IsCased(c: char) { IsCapital(c) || IsSmall(c) }

  /** The capital of an ASCII or Latin-1 small letter; anything else is kept. */
  function CapitalChar(c: char): char {
    if IsSmall(c) then (c as int - 32) as char else c
  }

  // ---------------------------------------------------------------------------
  // Case mapping
  // ---------------------------------------------------------------------------

  /** `str.upper()` on ASCII letters. */
  function Upper(s: string): (r: string)
    ensures |r| == |s|
    ensures forall i :: 0 <= i < |s| ==> r[i] == UpperChar(s[i])
  {
    if |s| == 0 then "" else [UpperChar(s[0])] + Upper(s[1..])
  }

  /** `str.lower()` on ASCII and Latin-1 letters. */
  function Lower(s: string): (r: string)
    ensures |r| == |s|
    ensures forall i :: 0 <= i < |s| ==> r[i] == LowerChar(s[i])
  {
    if |s| == 0 then "" else [LowerChar(s[0])] + Lower(s[1..])
  }

  predicate NoLower(s: string) { forall i :: 0 <= i < |s| ==> !IsLower(s[i]) }
  predicate NoUpper(s: string) { forall i :: 0 <= i < |s| ==> !IsCapital(s[i]) }

  lemma UpperKeepsLacks(s: string, c: char)
    requires Lacks(s, c) && !IsLetter(c)
    ensures Lacks(Upper(s), c)
  {
  }

  lemma UpperHasNoLower(s: string)
    ensures NoLower(Upper(s))
  {
  }

  lemma LowerHasNoUpper(s: string)
    ensures NoUpper(Lower(s))
  {
  }

  lemma UpperOfNoLower(s: string)
    requires NoLower(s)
    ensures Upper(s) == s
  {
  }

  lemma LowerOfNoUpper(s: string)
    requires NoUpper(s)
    ensures Lower(s) == s
  {
  }

  // ---------------------------------------------------------------------------
  // Character-level rewriting
  // ---------------------------------------------------------------------------

  /** No character of `s` is `c`. */
  predicate Lacks(s: string, c: char) {
    forall i :: 0 <= i < |s| ==> s[i] != c
  }

  /** `s.replace(c, "")` for a single character `c`. */
  function RemoveChar(s: string, c: char): (r: string)
    ensures Lacks(r, c)
    ensures |r| <= |s|
    ensures Lacks(s, c) ==> r == s
  {
    if |s| == 0 then "" else if s[0] == c then RemoveChar(s[1..], c) else [s[0]] + RemoveChar(s[1..], c)
  }

  lemma {:induction false} RemoveCharKeepsLacks(s: string, c: char, d: char)
    requires Lacks(s, d)
    ensures Lacks(RemoveChar(s, c), d)
  {
    if |s| > 0 {
      RemoveCharKeepsLacks(s[1..], c, d);
    }
  }

  /** `s.replace(a, b)` for single characters `a` and `b`. */
  function ReplaceChar(s: string, a: char, b: char): (r: string)
    ensures |r| == |s|
    ensures forall i :: 0 <= i < |s| ==> r[i] == (if s[i] == a then b else s[i])
  {
    if |s| == 0 then "" else [if s[0] == a then b else s[0]] + ReplaceChar(s[1..], a, b)
  }

  // ---------------------------------------------------------------------------
  // Stripping
  // ---------------------------------------------------------------------------

  /** The number of leading whitespace characters. */
  function LeadingSpaces(s: string): (n: nat)
    ensures n <= |s|
    ensures forall i :: 0 <= i < n ==> IsSpace(s[i])
    ensures n < |s| ==> !IsSpace(s[n])
  {
    if |s| > 0 && IsSpace(s[0]) then 1 + LeadingSpaces(s[1..]) else 0
  }

  /** The number of trailing whitespace characters. */
  function TrailingSpaces(s: string): (n: nat)
    ensures n <= |s|
    ensures forall i :: |s| - n <= i < |s| ==> IsSpace(s[i])
    ensures n < |s| ==> !IsSpace(s[|s| - n - 1])
  {
    if |s| > 0 && IsSpace(s[|s| - 1]) then 1 + TrailingSpaces(s[..|s| - 1]) else 0
  }

  /** `str.strip()`: drop leading and trailing whitespace. */
  function Strip(s: string): (r: string)
    ensures |r| <= |s|
    ensures |r| > 0 ==> !IsSpace(r[0]) && !IsSpace(r[|r| - 1])
    ensures (|s| == 0 || (!IsSpace(s[0]) && !IsSpace(s[|s| - 1]))) ==> r == s
  {
    var a := LeadingSpaces(s);
    var rest := s[a..];
    var b := TrailingSpaces(rest);
    rest[..|rest| - b]
  }

  /** What stripping keeps is the slice after the leading whitespace, and
      everything it drops is whitespace. */
  lemma StripIsSlice(s: string)
    ensures LeadingSpaces(s) + |Strip(s)| <= |s|
    ensures Strip(s) == s[LeadingSpaces(s)..LeadingSpaces(s) + |Strip(s)|]
    ensures forall i :: 0 <= i < LeadingSpaces(s) ==> IsSpace(s[i])
    ensures forall i :: LeadingSpaces(s) + |Strip(s)| <= i < |s| ==> IsSpace(s[i])
  {
  }

  lemma StripKeepsNoLower(s: string)
    requires NoLower(s)
    ensures NoLower(Strip(s))
  {
    var r := Strip(s);
    StripIsSlice(s);
    forall i | 0 <= i < |r| ensures !IsLower(r[i]) {
      assert r[i] == s[LeadingSpaces(s) + i];
    }
  }

  lemma StripKeepsLacks(s: string, c: char)
    requires Lacks(s, c)
    ensures Lacks(Strip(s), c)
  {
    var r := Strip(s);
    StripIsSlice(s);
    forall i | 0 <= i < |r| ensures r[i] != c {
      assert r[i] == s[LeadingSpaces(s) + i];
    }
  }

  /** The number of leading blanks (spaces only). */
  function LeadingBlanks(s: string): (n: nat)
    ensures n <= |s|
  {
    if |s| > 0 && s[0] == ' ' then 1 + LeadingBlanks(s[1..]) else 0
  }

  /** The leading blanks are blanks, and the character after them is not. */
  lemma {:induction false} LeadingBlanksAreBlank(s: string)
    ensures forall i :: 0 <= i < LeadingBlanks(s) ==> s[i] == ' '
    ensures LeadingBlanks(s) < |s| ==> s[LeadingBlanks(s)] != ' '
    decreases |s|
  {
    if |s| > 0 && s[0] == ' ' {
      LeadingBlanksAreBlank(s[1..]);
      forall i | 1 <= i < LeadingBlanks(s) ensures s[i] == ' ' {
        assert s[i] == s[1..][i - 1];
      }
    }
  }

  /** SQL `TRIM(x)`: drop leading and trailing blanks (spaces only). What
      remains is the slice after the leading blanks, and everything after
      it is blank. */
  function TrimBlanks(s: string): (r: string)
    ensures |r| <= |s|
    ensures |r| > 0 ==> r[0] != ' ' && r[|r| - 1] != ' '
    decreases |s|
  {
    if |s| > 0 && s[0] == ' ' then TrimBlanks(s[1..])
    else if |s| > 0 && s[|s| - 1] == ' ' then TrimBlanks(s[..|s| - 1])
    else s
  }

  /** The text between the leading and the trailing blanks of `s` is `r`. */
  ghost predicate Between(s: string, r: string) {
    && LeadingBlanks(s) + |r| <= |s|
    && r == s[LeadingBlanks(s)..LeadingBlanks(s) + |r|]
    && forall i :: LeadingBlanks(s) + |r| <= i < |s| ==> s[i] == ' '
  }

  lemma FrontBlankBetween(s: string, r: string)
    requires |s| > 0 && s[0] == ' ' && Between(s[1..], r)
    ensures Between(s, r)
  {
    var t := s[1..];
    var n := LeadingBlanks(t);
    assert LeadingBlanks(s) == n + 1;
    assert t[n..n + |r|] == s[n + 1..n + 1 + |r|];
    forall i | n + 1 + |r| <= i < |s| ensures s[i] == ' ' {
      assert s[i] == t[i - 1];
    }
  }

  lemma BackBlankBetween(s: string, r: string)
    requires |s| > 0 && s[0] != ' ' && s[|s| - 1] == ' ' && Between(s[..|s| - 1], r)
    ensures Between(s, r)
  {
    var t := s[..|s| - 1];
    assert LeadingBlanks(s) == 0;
    assert |t| == 0 || t[0] == s[0];
    assert LeadingBlanks(t) == 0;
    assert t[..|r|] == s[..|r|];
    forall i | |r| <= i < |s| ensures s[i] == ' ' {
      if i < |s| - 1 {
        assert s[i] == t[i];
      }
    }
  }

  /** Trimming keeps the text between the leading and the trailing blanks
      as it is. */
  lemma {:induction false} TrimBlanksKeeps(s: string)
    ensures LeadingBlanks(s) + |TrimBlanks(s)| <= |s|
    ensures TrimBlanks(s) == s[LeadingBlanks(s)..LeadingBlanks(s) + |TrimBlanks(s)|]
    ensures forall i :: LeadingBlanks(s) + |TrimBlanks(s)| <= i < |s| ==> s[i] == ' '
    decreases |s|
  {
    var r := TrimBlanks(s);
    if |s| > 0 && s[0] == ' ' {
      TrimBlanksKeeps(s[1..]);
      FrontBlankBetween(s, r);
    } else if |s| > 0 && s[|s| - 1] == ' ' {
      TrimBlanksKeeps(s[..|s| - 1]);
      BackBlankBetween(s, r);
    } else {
      assert LeadingBlanks(s) == 0;
      assert s[0..|s|] == s;
    }
  }



  // ---------------------------------------------------------------------------
  // Substrings
  // ---------------------------------------------------------------------------

  predicate OccursAt(s: string, p: string, i: int) {
    0 <= i && i + |p| <= |s| && s[i..i + |p|] == p
  }

  /** `p in s` for strings. */
  predicate Contains(s: string, p: string) {
    exists i :: 0 <= i <= |s| - |p| && OccursAt(s, p, i)
  }

  predicate StartsWith(s: string, p: string) { |p| <= |s| && s[..|p|] == p }
  predicate EndsWith(s: string, p: string) { |p| <= |s| && s[|s| - |p|..] == p }

  /** `s.find(p)`, as an option: the first index where `p` occurs. */
  function FindFrom(s: string, p: string, from: nat): (r: Option<nat>)
    requires from <= |s|
    ensures r.Some? ==> from <= r.value && OccursAt(s, p, r.value)
    ensures r.Some? ==> forall j :: from <= j < r.value ==> !OccursAt(s, p, j)
    ensures r.None? ==> forall j :: from <= j ==> !OccursAt(s, p, j)
    decreases |s| - from
  {
    if OccursAt(s, p, from) then Some(from)
    else if from == |s| then None
    else FindFrom(s, p, from + 1)
  }

  function Find(s: string, p: string): (r: Option<nat>)
    ensures r.Some? ==> OccursAt(s, p, r.value) && forall j :: 0 <= j < r.value ==> !OccursAt(s, p, j)
    ensures r.None? <==> !Contains(s, p)
  {
    FindFrom(s, p, 0)
  }

  lemma ContainsSelf(s: string)
    ensures Contains(s, s)
  {
    assert OccursAt(s, s, 0);
  }

  /** `s.replace(p, "")` for a non-empty pattern, left to right without overlap. */
  function RemoveAll(s: string, p: string): (r: string)
    requires |p| > 0
    ensures |r| <= |s|
    ensures !Contains(s, p) ==> r == s
    decreases |s|
  {
    match Find(s, p)
    case None => s
    case Some(i) => s[..i] + RemoveAll(s[i + |p|..], p)
  }

  // ---------------------------------------------------------------------------
  // Split and join
  // ---------------------------------------------------------------------------

  /** `sep.join(parts)`. */
  function Join(sep: string, parts: seq<string>): string {
    if |parts| == 0 then ""
    else if |parts| == 1 then parts[0]
    else parts[0] + sep + Join(sep, parts[1..])
  }

  /** `s.split(sep)` for a non-empty separator: the pieces between the
      left-to-right, non-overlapping occurrences of `sep`. */
  function Split(s: string, sep: string): (r: seq<string>)
    requires |sep| > 0
    ensures |r| >= 1
    ensures Join(sep, r) == s
    ensures forall k :: 0 <= k < |r| ==> !Contains(r[k], sep)
    ensures |r| == 1 <==> !Contains(s, sep)
    decreases |s|
  {
    match Find(s, sep)
    case None => [s]
    case Some(i) =>
      var head := s[..i];
      HeadBeforeFirst(s, sep, i);
      var rest := Split(s[i + |sep|..], sep);
      SplitsAround(s, sep, i);
      [head] + rest
  }

  /** Every cut `Split` makes is at the leftmost separator of what is left. */
  lemma {:induction false} SplitLeftmost(s: string, sep: string)
    requires |sep| > 0
    ensures LeftmostCuts(sep, Split(s, sep))
    decreases |s|
  {
    var r := Split(s, sep);
    match Find(s, sep)
    case None =>
    case Some(i) =>
      var rest := Split(s[i + |sep|..], sep);
      SplitLeftmost(s[i + |sep|..], sep);
      assert r == [s[..i]] + rest;
      forall k | 0 <= k < |r| - 1 ensures Find(Join(sep, r[k..]), sep) == Some(|r[k]|) {
        if k == 0 {
          assert r[k..] == r;
        } else {
          assert r[k..] == rest[k - 1..];
        }
      }
  }

  /** Every cut of `parts` but the last is at the first occurrence of `sep`
      in the text that remains from that part on. */
  predicate LeftmostCuts(sep: string, parts: seq<string>) {
    forall k :: 0 <= k < |parts| - 1 ==> Find(Join(sep, parts[k..]), sep) == Some(|parts[k]|)
  }

  /** `Split` is the only way to cut `s` at leftmost occurrences of `sep`
      so that the last piece holds no occurrence. */
  lemma {:induction false} SplitUnique(s: string, sep: string, parts: seq<string>)
    requires |sep| > 0 && |parts| >= 1 && Join(sep, parts) == s
    requires LeftmostCuts(sep, parts) && !Contains(parts[|parts| - 1], sep)
    ensures parts == Split(s, sep)
    decreases |parts|
  {
    if |parts| == 1 {
      assert s == parts[0];
    } else {
      var i := |parts[0]|;
      var tail := parts[1..];
      var rest := Join(sep, tail);
      assert parts[0..] == parts;
      assert Find(s, sep) == Some(i);
      assert s == parts[0] + sep + rest;
      assert s[..i] == parts[0];
      assert s[i + |sep|..] == rest;
      LeftmostCutsTail(sep, parts);
      assert tail[|tail| - 1] == parts[|parts| - 1];
      SplitUnique(rest, sep, tail);
    }
  }

  lemma LeftmostCutsTail(sep: string, parts: seq<string>)
    requires |parts| > 1 && LeftmostCuts(sep, parts)
    ensures LeftmostCuts(sep, parts[1..])
  {
    var tail := parts[1..];
    forall k | 0 <= k < |tail| - 1
      ensures Find(Join(sep, tail[k..]), sep) == Some(|tail[k]|)
    {
      assert tail[k..] == parts[k + 1..];
    }
  }

  /** The text before the first occurrence of `p` does not contain `p`. */
  lemma HeadBeforeFirst(s: string, p: string, i: nat)
    requires |p| > 0 && i <= |s| && forall j :: 0 <= j < i ==> !OccursAt(s, p, j)
    ensures !Contains(s[..i], p)
  {
    var head := s[..i];
    forall j | 0 <= j <= |head| - |p| ensures !OccursAt(head, p, j) {
      assert !OccursAt(s, p, j);
      assert head[j..j + |p|] == s[j..j + |p|];
    }
  }

  /** An occurrence of `p` cuts `s` into the text before, `p`, and the text after. */
  lemma SplitsAround(s: string, p: string, i: int)
    requires OccursAt(s, p, i)
    ensures s == s[..i] + p + s[i + |p|..]
  {
    assert s == s[..i] + s[i..i + |p|] + s[i + |p|..];
  }

  /** Length of the leading run of non-whitespace characters. */
  function WordLen(s: string): (n: nat)
    ensures n <= |s|
    ensures forall i :: 0 <= i < n ==> !IsSpace(s[i])
    ensures n < |s| ==> IsSpace(s[n])
  {
    if |s| == 0 || IsSpace(s[0]) then 0 else 1 + WordLen(s[1..])
  }

  /** `s.split()`: the maximal runs of non-whitespace characters. */
  function Words(s: string): (r: seq<string>)
    ensures forall k :: 0 <= k < |r| ==> |r[k]| > 0
    ensures forall k, i :: 0 <= k < |r| && 0 <= i < |r[k]| ==> !IsSpace(r[k][i])
    ensures |r| == 0 <==> forall i :: 0 <= i < |s| ==> IsSpace(s[i])
    decreases |s|
  {
    if |s| == 0 then []
    else if IsSpace(s[0]) then Words(s[1..])
    else
      var n := WordLen(s);
      [s[..n]] + Words(s[n..])
  }

  // ---------------------------------------------------------------------------
  // Integers as text
  // ---------------------------------------------------------------------------

  function DigitChar(d: nat): (c: char)
    requires d < 10
    ensures IsDigit(c) && c as int - '0' as int == d
  {
    ('0' as int + d) as char
  }

  /** `str(n)` for a natural number. */
  function NatToString(n: nat): (r: string)
    ensures |r| > 0
    ensures forall i :: 0 <= i < |r| ==> IsDigit(r[i])
    ensures |r| > 1 ==> r[0] != '0'
    decreases n
  {
    if n < 10 then [DigitChar(n)] else NatToString(n / 10) + [DigitChar(n % 10)]
  }

  /** `str(i)` for an integer. */
  function IntToString(i: int): (r: string)
    ensures |r| > 0
    ensures (r[0] == '-') <==> i < 0
  {
    if i < 0 then "-" + NatToString(-i) else NatToString(i)
  }

  /** The value of a string of decimal digits. */
  function DigitsValue(s: string): nat
    requires forall i :: 0 <= i < |s| ==> IsDigit(s[i])
  {
    if |s| == 0 then 0
    else
      assert IsDigit(s[|s| - 1]);
      10 * DigitsValue(s[..|s| - 1]) + (s[|s| - 1] as int - '0' as int)
  }

  lemma {:induction false} DigitsValueOfNatToString(n: nat)
    ensures DigitsValue(NatToString(n)) == n
    decreases n
  {
    if n >= 10 {
      DigitsValueOfNatToString(n / 10);
      var s := NatToString(n);
      assert s[..|s| - 1] == NatToString(n / 10);
    }
  }

  // ---------------------------------------------------------------------------
  // Code-point order and sorting
  // ---------------------------------------------------------------------------

  /** Python's `<` on strings: lexicographic on code points. */
  predicate Less(a: string, b: string)
    decreases |a|
  {
    |b| > 0 && (|a| == 0 || a[0] < b[0] || (a[0] == b[0] && Less(a[1..], b[1..])))
  }

  lemma LessIrreflexive(a: string)
    ensures !Less(a, a)
  {
  }

  lemma LessTransitive(a: string, b: string, c: string)
    requires Less(a, b) && Less(b, c)
    ensures Less(a, c)
  {
  }

  lemma {:induction false} LessTotal(a: string, b: string)
    ensures a == b || Less(a, b) || Less(b, a)
    decreases |a|
  {
    if |a| > 0 && |b| > 0 && a[0] == b[0] {
      LessTotal(a[1..], b[1..]);
      if a[1..] == b[1..] {
        assert a == [a[0]] + a[1..] && b == [b[0]] + b[1..];
      }
    }
  }

  predicate StrictlySorted(s: seq<string>) {
    forall i, j :: 0 <= i < j < |s| ==> Less(s[i], s[j])
  }

  /** The least element of a non-empty set of strings. */
  method Least(s: set<string>) returns (m: string)
    requires s != {}
    ensures m in s
    ensures forall x :: x in s && x != m ==> Less(m, x)
  {
    var rest := s;
    m :| m in rest;
    rest := rest - {m};
    while rest != {}
      invariant m in s && rest <= s
      invariant forall x :: x in s && x !in rest && x != m ==> Less(m, x)
      decreases |rest|
    {
      var y :| y in rest;
      rest := rest - {y};
      LessTotal(m, y);
      if Less(y, m) {
        forall x | x in s && x !in rest && x != y
          ensures Less(y, x)
        {
          if x != m { LessTransitive(y, m, x); }
        }
        m := y;
      }
    }
  }

  /** `sorted(s)` for a set of strings. */
  method SortSet(s: set<string>) returns (r: seq<string>)
    ensures StrictlySorted(r)
    ensures forall x :: x in r <==> x in s
    ensures |r| == |s|
  {
    r := [];
    var rest := s;
    while rest != {}
      invariant rest <= s
      invariant forall x :: x in r <==> x in s && x !in rest
      invariant |r| + |rest| == |s|
      invariant StrictlySorted(r)
      invariant forall i, x :: 0 <= i < |r| && x in rest ==> Less(r[i], x)
      decreases |rest|
    {
      var m := Least(rest);
      forall i, x | 0 <= i < |r| && x in rest - {m}
        ensures Less(r[i], x)
      {
        LessTransitive(r[i], m, x);
      }
      r := r + [m];
      rest := rest - {m};
    }
  }
}
