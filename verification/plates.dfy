/** Brazilian licence plates: the normalisation every plate goes through
    before a lookup, the two accepted shapes (old `ABC1234` and Mercosul
    `ABC1D23`), and the hyphenated form one provider expects. */
module Plates {
  import opened Wrappers
  import opened Text

  /** `plate.replace("-", "").replace(" ", "").upper().strip()`. */
  function Clean(p: string): (c: string)
    ensures Lacks(c, '-') && Lacks(c, ' ')
    ensures NoLower(c)
    ensures |c| <= |p|
  {
    var d := RemoveChar(RemoveChar(p, '-'), ' ');
    var u := Upper(d);
    RemoveCharKeepsLacks(RemoveChar(p, '-'), ' ', '-');
    UpperKeepsLacks(d, '-');
    UpperKeepsLacks(d, ' ');
    UpperHasNoLower(d);
    StripKeepsLacks(u, '-');
    StripKeepsLacks(u, ' ');
    StripKeepsNoLower(u);
    Strip(u)
  }

  /** The characters of a plate that the cleaning keeps, in order: every
      one but '-' and ' ', upper-cased. */
  function CleanChars(p: string): (c: string)
    ensures |c| <= |p|
  {
    if |p| == 0 then ""
    else if p[0] == '-' || p[0] == ' ' then CleanChars(p[1..])
    else [UpperChar(p[0])] + CleanChars(p[1..])
  }

  /** Removing the hyphens and the spaces and then upper-casing keeps the
      other characters, in order. */
  lemma {:induction false} UpperOfRemovedIsCleanChars(p: string)
    ensures Upper(RemoveChar(RemoveChar(p, '-'), ' ')) == CleanChars(p)
    decreases |p|
  {
    if |p| > 0 {
      UpperOfRemovedIsCleanChars(p[1..]);
      var d := RemoveChar(p[1..], '-');
      if p[0] != '-' {
        assert RemoveChar(p, '-') == [p[0]] + d;
        assert ([p[0]] + d)[1..] == d;
        if p[0] != ' ' {
          assert Upper([p[0]] + RemoveChar(d, ' '))[1..] == Upper(RemoveChar(d, ' '));
        }
      }
    }
  }

  /** The cleaning is the stripped sequence of kept characters; when the
      plate holds no whitespace other than ' ', nothing is stripped. */
  lemma CleanKeepsCharsInOrder(p: string)
    ensures Clean(p) == Strip(CleanChars(p))
    ensures (forall i :: 0 <= i < |p| && IsSpace(p[i]) ==> p[i] == ' ') ==> Clean(p) == CleanChars(p)
  {
    UpperOfRemovedIsCleanChars(p);
    if forall i :: 0 <= i < |p| && IsSpace(p[i]) ==> p[i] == ' ' {
      CleanCharsHasNoSpace(p);
    }
  }

  lemma {:induction false} CleanCharsHasNoSpace(p: string)
    requires forall i :: 0 <= i < |p| && IsSpace(p[i]) ==> p[i] == ' '
    ensures forall i :: 0 <= i < |CleanChars(p)| ==> !IsSpace(CleanChars(p)[i])
    decreases |p|
  {
    if |p| > 0 {
      CleanCharsHasNoSpace(p[1..]);
    }
  }

  /** `^[A-Z]{3}\d{4}$`. */
  predicate IsOldFormat(s: string) {
    |s| == 7 && IsUpper(s[0]) && IsUpper(s[1]) && IsUpper(s[2])
    && IsDigit(s[3]) && IsDigit(s[4]) && IsDigit(s[5]) && IsDigit(s[6])
  }

  /** `^[A-Z]{3}\d[A-Z]\d{2}$`. */
  predicate IsMercosulFormat(s: string) {
    |s| == 7 && IsUpper(s[0]) && IsUpper(s[1]) && IsUpper(s[2])
    && IsDigit(s[3]) && IsUpper(s[4]) && IsDigit(s[5]) && IsDigit(s[6])
  }

  predicate WellFormed(s: string) {
    IsOldFormat(s) || IsMercosulFormat(s)
  }

  /** `validate_and_normalize_plate` / `validate_plate`: the cleaned plate
      when it has one of the two shapes, `None` otherwise (and for ""). */
  function Normalize(p: string): (r: Option<string>)
    ensures r.Some? <==> p != "" && WellFormed(Clean(p))
    ensures r.Some? ==> r.value == Clean(p) && |r.value| == 7
  {
    if p == "" then None
    else
      var c := Clean(p);
      if IsOldFormat(c) || IsMercosulFormat(c) then Some(c) else None
  }

  /** A well-formed plate is left alone by the cleaning. */
  lemma CleanFixesWellFormed(s: string)
    requires WellFormed(s)
    ensures Clean(s) == s
  {
    assert Lacks(s, '-') && Lacks(s, ' ');
    assert RemoveChar(RemoveChar(s, '-'), ' ') == s;
    UpperOfNoLower(s);
    assert !IsSpace(s[0]) && !IsSpace(s[|s| - 1]);
    assert Strip(s) == s;
  }

  /** Normalising is idempotent: the result of a successful normalisation
      normalises to itself. */
  lemma NormalizeIdempotent(p: string)
    requires Normalize(p).Some?
    ensures Normalize(Normalize(p).value) == Normalize(p)
  {
    CleanFixesWellFormed(Normalize(p).value);
  }

  /** Exactly the well-formed plates are fixed points of the normalisation. */
  lemma NormalizeFixedPoints(s: string)
    ensures Normalize(s) == Some(s) <==> WellFormed(s)
  {
    if WellFormed(s) { CleanFixesWellFormed(s); }
  }

  /** `_format_plate_with_hyphen`: `ABC-1234` for a 7-character plate,
      anything else unchanged. */
  function WithHyphen(p: string): (r: string)
    ensures |p| == 7 ==> |r| == 8 && r[3] == '-' && r[..3] == p[..3] && r[4..] == p[3..]
    ensures |p| != 7 ==> r == p
  {
    if |p| == 7 then p[..3] + "-" + p[3..] else p
  }

  /** Hyphenating a valid plate is undone by the normalisation, so the
      provider receives the same plate the pipeline stores. */
  lemma {:induction false} HyphenRoundTrip(s: string)
    requires WellFormed(s)
    ensures Normalize(WithHyphen(s)) == Some(s)
  {
    var h := WithHyphen(s);
    assert h == s[..3] + "-" + s[3..];
    assert Lacks(s, '-') && Lacks(s, ' ');
    RemoveOneHyphen(s[..3], s[3..]);
    assert s[..3] + s[3..] == s;
    CleanFixesWellFormed(s);
  }

  /** Dropping the hyphen between two hyphen-free parts joins them. */
  lemma {:induction false} RemoveOneHyphen(a: string, b: string)
    requires Lacks(a, '-') && Lacks(b, '-')
    ensures RemoveChar(a + "-" + b, '-') == a + b
  {
    if a == [] {
      assert a + "-" + b == ['-'] + b;
      assert (['-'] + b)[1..] == b;
    } else {
      assert (a + "-" + b)[1..] == a[1..] + "-" + b;
      RemoveOneHyphen(a[1..], b);
      assert [a[0]] + (a[1..] + b) == a + b;
    }
  }
}
