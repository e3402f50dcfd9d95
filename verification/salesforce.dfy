/** The column names of the Salesforce Marketing Cloud exports
    (`salesforce_to_snowflake.py`): CamelCase headers become snake_case by
    two regular-expression substitutions and a lower-casing, and the loader
    maps every non-empty header to its normalised name. */
module Salesforce {
  import opened Text
  import opened WorkStatus

  // ---------------------------------------------------------------------------
  // The two substitutions
  // ---------------------------------------------------------------------------

  /** A match of the first pattern starts at `i`: a character other than a
      newline, a capital, a lower-case letter. */
  predicate MatchAt(s: string, i: int) {
    0 <= i && i + 2 < |s| && s[i] != '\n' && IsUpper(s[i + 1]) && IsLower(s[i + 2])
  }

  /** The end of the run of lower-case letters starting at `j`. */
  function RunEnd(s: string, j: nat): (n: nat)
    requires j <= |s|
    ensures j <= n <= |s|
    ensures forall k :: j <= k < n ==> IsLower(s[k])
    ensures n < |s| ==> !IsLower(s[n])
    decreases |s| - j
  {
    if j == |s| || !IsLower(s[j]) then j else RunEnd(s, j + 1)
  }

  /** `re.sub('(.)([A-Z][a-z]+)', r'\1_\2', s)` from position `i` on: where
      a match starts, its first character gets an underscore after it and
      the scan resumes after the run of lower-case letters; elsewhere the
      character is copied and the scan moves one on. */
  function WordsFrom(s: string, i: nat): (r: string)
    requires i <= |s|
    ensures |r| >= |s| - i
    decreases |s| - i
  {
    if i + 2 >= |s| then s[i..]
    else if MatchAt(s, i) then
      var n := RunEnd(s, i + 2);
      [s[i]] + "_" + s[i + 1..n] + WordsFrom(s, n)
    else [s[i]] + WordsFrom(s, i + 1)
  }

  function SplitWords(s: string): (r: string)
    ensures |r| >= |s|
  {
    WordsFrom(s, 0)
  }

  /** A lower-case letter or digit directly followed by a capital. */
  predicate Boundary(a: char, b: char) {
    (IsLower(a) || IsDigit(a)) && IsUpper(b)
  }

  /** A lower-case letter or digit at `i` meets a capital at `i + 1`. */
  predicate BoundaryAt(s: string, i: int) {
    0 <= i && i + 1 < |s| && Boundary(s[i], s[i + 1])
  }

  /** No lower-case letter or digit in `s` is directly followed by a capital. */
  predicate NoBoundary(s: string) {
    forall i :: 0 <= i < |s| ==> !BoundaryAt(s, i)
  }

  /** A character that forms no boundary with the head keeps a text free of
      boundaries. */
  lemma NoBoundaryCons(x: char, s: string)
    requires NoBoundary(s) && (|s| > 0 ==> !Boundary(x, s[0]))
    ensures NoBoundary([x] + s)
  {
    var r := [x] + s;
    forall i | 0 <= i < |r| ensures !BoundaryAt(r, i) {
      if i > 0 {
        assert !BoundaryAt(s, i - 1);
      }
    }
  }

  /** `re.sub('([a-z0-9])([A-Z])', r'\1_\2', s)` from position `i` on: each
      lower-case letter or digit followed by a capital gets an underscore
      between them, so no such pair is left. */
  function CapsFrom(s: string, i: nat): (r: string)
    requires i <= |s|
    ensures |r| >= |s| - i
    ensures NoBoundary(r)
    ensures i < |s| ==> |r| > 0 && r[0] == s[i]
    decreases |s| - i
  {
    if i + 1 >= |s| then
      assert |s[i..]| <= 1 ==> !BoundaryAt(s[i..], 0);
      s[i..]
    else if Boundary(s[i], s[i + 1]) then
      var rest := CapsFrom(s, i + 2);
      NoBoundaryCons(s[i + 1], rest);
      NoBoundaryCons('_', [s[i + 1]] + rest);
      NoBoundaryCons(s[i], ['_'] + ([s[i + 1]] + rest));
      assert [s[i], '_', s[i + 1]] + rest == [s[i]] + (['_'] + ([s[i + 1]] + rest));
      [s[i], '_', s[i + 1]] + rest
    else
      var rest := CapsFrom(s, i + 1);
      NoBoundaryCons(s[i], rest);
      [s[i]] + rest
  }

  function SplitCaps(s: string): (r: string)
    ensures |r| >= |s| && NoBoundary(r)
  {
    CapsFrom(s, 0)
  }

  /** `normalize_column_name`: the two substitutions, then `lower()`. The
      result holds no capital letter. */
  function NormalizeColumnName(text: string): (r: string)
    ensures NoUpper(r)
    ensures |r| >= |text|
  {
    var s := SplitCaps(SplitWords(text));
    LowerHasNoUpper(s);
    Lower(s)
  }

  // ---------------------------------------------------------------------------
  // Properties of the normalisation
  // ---------------------------------------------------------------------------

  /** Without capitals the first substitution finds nothing to split. */
  lemma {:induction false} WordsFromOfNoUpper(s: string, i: nat)
    requires i <= |s| && NoUpper(s)
    ensures WordsFrom(s, i) == s[i..]
    decreases |s| - i
  {
    if i + 2 < |s| {
      assert !IsUpper(s[i + 1]);
      WordsFromOfNoUpper(s, i + 1);
      assert [s[i]] + s[i + 1..] == s[i..];
    }
  }

  /** Without capitals the second substitution finds nothing to split. */
  lemma {:induction false} CapsFromOfNoUpper(s: string, i: nat)
    requires i <= |s| && NoUpper(s)
    ensures CapsFrom(s, i) == s[i..]
    decreases |s| - i
  {
    if i + 1 < |s| {
      assert !IsUpper(s[i + 1]);
      CapsFromOfNoUpper(s, i + 1);
      assert [s[i]] + s[i + 1..] == s[i..];
    }
  }

  /** A name already in lower case comes back unchanged. */
  lemma LowercaseIsFixed(text: string)
    requires NoUpper(text)
    ensures NormalizeColumnName(text) == text
  {
    WordsFromOfNoUpper(text, 0);
    assert text[0..] == text;
    CapsFromOfNoUpper(text, 0);
    LowerOfNoUpper(text);
  }

  /** Normalising twice is normalising once. */
  lemma NormalizeIdempotent(text: string)
    ensures NormalizeColumnName(NormalizeColumnName(text)) == NormalizeColumnName(text)
  {
    LowercaseIsFixed(NormalizeColumnName(text));
  }

  /** `replace(c, "")` distributes over concatenation. */
  lemma {:induction false} RemoveCharAppend(a: string, b: string, c: char)
    ensures RemoveChar(a + b, c) == RemoveChar(a, c) + RemoveChar(b, c)
  {
    if |a| == 0 {
      assert a + b == b;
    } else {
      var t := a + b;
      assert t[0] == a[0];
      assert t[1..] == a[1..] + b;
      RemoveCharAppend(a[1..], b, c);
      if a[0] == c {
        assert RemoveChar(t, c) == RemoveChar(t[1..], c);
        assert RemoveChar(a, c) == RemoveChar(a[1..], c);
      } else {
        assert RemoveChar(t, c) == [a[0]] + RemoveChar(t[1..], c);
        assert RemoveChar(a, c) == [a[0]] + RemoveChar(a[1..], c);
      }
    }
  }

  /** Dropping underscores from one character followed by more text. */
  lemma RemoveUnderscoreCons(x: char, t: string)
    ensures RemoveChar([x] + t, '_') == RemoveChar([x], '_') + RemoveChar(t, '_')
  {
    RemoveCharAppend([x], t, '_');
  }

  /** Underscores aside, prefixing one character keeps two texts equal. */
  lemma ConsUnderscores(x: char, r1: string, r2: string)
    requires RemoveChar(r1, '_') == RemoveChar(r2, '_')
    ensures RemoveChar([x] + r1, '_') == RemoveChar([x] + r2, '_')
  {
    RemoveCharAppend([x], r1, '_');
    RemoveCharAppend([x], r2, '_');
  }

  /** Underscores aside, an underscore inserted after the first character
      changes nothing. */
  lemma InsertedUnderscore(x: char, w: string, r1: string, r2: string)
    requires RemoveChar(r1, '_') == RemoveChar(r2, '_')
    ensures RemoveChar([x] + "_" + w + r1, '_') == RemoveChar([x] + (w + r2), '_')
  {
    var u := "_" + (w + r1);
    assert RemoveChar(u, '_') == RemoveChar(w + r2, '_') by {
      LeadingUnderscore(w + r1);
      RemoveCharAppend(w, r1, '_');
      RemoveCharAppend(w, r2, '_');
    }
    ConsUnderscores(x, u, w + r2);
    assert [x] + "_" + w + r1 == [x] + u;
  }

  lemma LeadingUnderscore(t: string)
    ensures RemoveChar("_" + t, '_') == RemoveChar(t, '_')
  {
    assert ("_" + t)[1..] == t;
  }

  /** A substitution step at a match keeps the letters, given that the
      rest of the scan does. */
  lemma MatchKeepsLetters(s: string, i: nat, n: nat)
    requires i < n <= |s| && WordsFrom(s, i) == [s[i]] + "_" + s[i + 1..n] + WordsFrom(s, n)
    requires RemoveChar(WordsFrom(s, n), '_') == RemoveChar(s[n..], '_')
    ensures RemoveChar(WordsFrom(s, i), '_') == RemoveChar(s[i..], '_')
  {
    SplitTwice(s, i, n);
    MatchStep(s[i], s[i + 1..n], WordsFrom(s, n), s[n..], WordsFrom(s, i), s[i..]);
  }

  /** A suffix is its first character, a middle run and the rest. */
  lemma SplitTwice(s: string, i: nat, n: nat)
    requires i < n <= |s|
    ensures s[i..] == [s[i]] + (s[i + 1..n] + s[n..])
  {
    assert s[i + 1..n] + s[n..] == s[i + 1..];
    assert [s[i]] + s[i + 1..] == s[i..];
  }

  /** `InsertedUnderscore` with the two sides named. */
  lemma MatchStep(x: char, w: string, r1: string, r2: string, u: string, v: string)
    requires RemoveChar(r1, '_') == RemoveChar(r2, '_')
    requires u == [x] + "_" + w + r1 && v == [x] + (w + r2)
    ensures RemoveChar(u, '_') == RemoveChar(v, '_')
  {
    InsertedUnderscore(x, w, r1, r2);
  }

  /** A copying step keeps the letters, given that the rest of the scan
      does. */
  lemma CopyKeepsLetters(s: string, i: nat)
    requires i + 2 < |s| && !MatchAt(s, i)
    requires RemoveChar(WordsFrom(s, i + 1), '_') == RemoveChar(s[i + 1..], '_')
    ensures RemoveChar(WordsFrom(s, i), '_') == RemoveChar(s[i..], '_')
  {
    ConsUnderscores(s[i], WordsFrom(s, i + 1), s[i + 1..]);
    assert [s[i]] + s[i + 1..] == s[i..];
  }

  /** The first substitution only inserts underscores. */
  lemma {:induction false} WordsFromInsertsUnderscores(s: string, i: nat)
    requires i <= |s|
    ensures RemoveChar(WordsFrom(s, i), '_') == RemoveChar(s[i..], '_')
    decreases |s| - i
  {
    if i + 2 < |s| {
      if MatchAt(s, i) {
        var n := RunEnd(s, i + 2);
        WordsFromInsertsUnderscores(s, n);
        assert WordsFrom(s, i) == [s[i]] + "_" + s[i + 1..n] + WordsFrom(s, n);
        MatchKeepsLetters(s, i, n);
      } else {
        WordsFromInsertsUnderscores(s, i + 1);
        CopyKeepsLetters(s, i);
      }
    }
  }

  /** The second substitution only inserts underscores. */
  lemma {:induction false} CapsFromInsertsUnderscores(s: string, i: nat)
    requires i <= |s|
    ensures RemoveChar(CapsFrom(s, i), '_') == RemoveChar(s[i..], '_')
    decreases |s| - i
  {
    if i + 1 < |s| {
      if Boundary(s[i], s[i + 1]) {
        var rest := CapsFrom(s, i + 2);
        CapsFromInsertsUnderscores(s, i + 2);
        RemoveCharAppend([s[i], '_', s[i + 1]], rest, '_');
        RemoveCharAppend([s[i], s[i + 1]], s[i + 2..], '_');
        assert RemoveChar([s[i], '_', s[i + 1]], '_') == [s[i], s[i + 1]] by {
          assert [s[i], '_', s[i + 1]][1..] == ['_', s[i + 1]];
          assert ['_', s[i + 1]][1..] == [s[i + 1]];
          assert [s[i], s[i + 1]][1..] == [s[i + 1]];
        }
        assert [s[i], s[i + 1]] + s[i + 2..] == s[i..];
      } else {
        CapsFromInsertsUnderscores(s, i + 1);
        RemoveUnderscoreCons(s[i], CapsFrom(s, i + 1));
        RemoveUnderscoreCons(s[i], s[i + 1..]);
        assert [s[i]] + s[i + 1..] == s[i..];
      }
    }
  }

  /** Lower-casing and dropping underscores commute. */
  lemma {:induction false} LowerRemoveUnderscores(s: string)
    ensures RemoveChar(Lower(s), '_') == Lower(RemoveChar(s, '_'))
  {
    if |s| > 0 {
      assert Lower(s)[1..] == Lower(s[1..]);
      LowerRemoveUnderscores(s[1..]);
    }
  }

  /** Apart from the underscores it inserts, the normalisation only lower-cases:
      dropping every underscore from the result gives the lower-cased input
      without its underscores. */
  lemma OnlyUnderscoresAndCase(text: string)
    ensures RemoveChar(NormalizeColumnName(text), '_') == Lower(RemoveChar(text, '_'))
  {
    var w := SplitWords(text);
    WordsFromInsertsUnderscores(text, 0);
    assert text[0..] == text;
    CapsFromInsertsUnderscores(w, 0);
    assert w[0..] == w;
    LowerRemoveUnderscores(SplitCaps(w));
  }

  // ---------------------------------------------------------------------------
  // Position-by-position checks, for concrete names
  // ---------------------------------------------------------------------------

  /** `s[a..a + len]` and `t[b..b + len]` agree, checked one position at a time. */
  predicate SameSpan(s: string, a: nat, t: string, b: nat, len: nat)
    requires a + len <= |s| && b + len <= |t|
    decreases len
  {
    len == 0 || (s[a] == t[b] && SameSpan(s, a + 1, t, b + 1, len - 1))
  }

  lemma {:induction false} SameSpanSlices(s: string, a: nat, t: string, b: nat, len: nat)
    requires a + len <= |s| && b + len <= |t| && SameSpan(s, a, t, b, len)
    ensures s[a..a + len] == t[b..b + len]
    decreases len
  {
    if len > 0 {
      SameSpanSlices(s, a + 1, t, b + 1, len - 1);
      assert s[a..a + len] == [s[a]] + s[a + 1..a + len];
      assert t[b..b + len] == [t[b]] + t[b + 1..b + len];
    }
  }

  /** `t[j..]` is what the first substitution makes of `s[i..]`, checked
      without building it. */
  predicate WordsGive(s: string, i: nat, t: string, j: nat)
    requires i <= |s| && j <= |t|
    decreases |s| - i
  {
    if i + 2 >= |s| then |t| - j == |s| - i && SameSpan(s, i, t, j, |s| - i)
    else if MatchAt(s, i) then
      var n := RunEnd(s, i + 2);
      var m := j + 2 + (n - i - 1);
      m <= |t| && t[j] == s[i] && t[j + 1] == '_' && SameSpan(s, i + 1, t, j + 2, n - i - 1) && WordsGive(s, n, t, m)
    else j < |t| && t[j] == s[i] && WordsGive(s, i + 1, t, j + 1)
  }

  lemma {:induction false} WordsGiveSound(s: string, i: nat, t: string, j: nat)
    requires i <= |s| && j <= |t| && WordsGive(s, i, t, j)
    ensures WordsFrom(s, i) == t[j..]
    decreases |s| - i
  {
    if i + 2 >= |s| {
      SameSpanTails(s, i, t, j);
    } else if MatchAt(s, i) {
      var n := RunEnd(s, i + 2);
      var m := j + 2 + (n - i - 1);
      WordsGiveSound(s, n, t, m);
      SameSpanSlices(s, i + 1, t, j + 2, n - i - 1);
      WordsMatchStep(s, i, t, j, n, m);
    } else {
      WordsGiveSound(s, i + 1, t, j + 1);
      WordsCopyStep(s, i, t, j);
    }
  }

  /** Agreeing to the end of both strings makes the tails equal. */
  lemma SameSpanTails(s: string, i: nat, t: string, j: nat)
    requires i <= |s| && |t| - j == |s| - i && SameSpan(s, i, t, j, |s| - i)
    ensures s[i..] == t[j..]
  {
    SameSpanSlices(s, i, t, j, |s| - i);
    assert s[i..|s|] == s[i..] && t[j..j + (|s| - i)] == t[j..];
  }

  /** One copying step of `WordsGiveSound`. */
  lemma WordsCopyStep(s: string, i: nat, t: string, j: nat)
    requires i + 2 < |s| && !MatchAt(s, i) && j < |t| && t[j] == s[i] && WordsFrom(s, i + 1) == t[j + 1..]
    ensures WordsFrom(s, i) == t[j..]
  {
    assert t[j..] == [t[j]] + t[j + 1..];
  }

  /** One substitution step of `WordsGiveSound`: a match at `i` whose pieces
      reappear in `t` gives `t[j..]`. */
  lemma WordsMatchStep(s: string, i: nat, t: string, j: nat, n: nat, m: nat)
    requires MatchAt(s, i) && n == RunEnd(s, i + 2) && m == j + 2 + (n - i - 1) && m <= |t|
    requires t[j] == s[i] && t[j + 1] == '_' && s[i + 1..n] == t[j + 2..m] && WordsFrom(s, n) == t[m..]
    ensures WordsFrom(s, i) == t[j..]
  {
    assert t[j..] == [t[j]] + [t[j + 1]] + t[j + 2..m] + t[m..];
  }

  /** `t[j..]` is what the second substitution makes of `s[i..]`, checked
      without building it. */
  predicate CapsGive(s: string, i: nat, t: string, j: nat)
    requires i <= |s| && j <= |t|
    decreases |s| - i
  {
    if i + 1 >= |s| then |t| - j == |s| - i && SameSpan(s, i, t, j, |s| - i)
    else if Boundary(s[i], s[i + 1]) then
      j + 3 <= |t| && t[j] == s[i] && t[j + 1] == '_' && t[j + 2] == s[i + 1] && CapsGive(s, i + 2, t, j + 3)
    else j < |t| && t[j] == s[i] && CapsGive(s, i + 1, t, j + 1)
  }

  lemma {:induction false} CapsGiveSound(s: string, i: nat, t: string, j: nat)
    requires i <= |s| && j <= |t| && CapsGive(s, i, t, j)
    ensures CapsFrom(s, i) == t[j..]
    decreases |s| - i
  {
    if i + 1 >= |s| {
      SameSpanTails(s, i, t, j);
    } else if Boundary(s[i], s[i + 1]) {
      CapsGiveSound(s, i + 2, t, j + 3);
      assert t[j..] == [t[j], t[j + 1], t[j + 2]] + t[j + 3..];
    } else {
      CapsGiveSound(s, i + 1, t, j + 1);
      assert t[j..] == [t[j]] + t[j + 1..];
    }
  }

  /** `t` is `s` lower-cased from position `i` on, checked one position at a
      time. */
  predicate LowersFrom(s: string, t: string, i: nat)
    requires |s| == |t|
    decreases |s| - i
  {
    i >= |s| || (t[i] == LowerChar(s[i]) && LowersFrom(s, t, i + 1))
  }

  lemma {:induction false} LowersFromAll(s: string, t: string, i: nat)
    requires |s| == |t| && LowersFrom(s, t, i)
    ensures forall k :: i <= k < |s| ==> t[k] == LowerChar(s[k])
    decreases |s| - i
  {
    if i < |s| {
      LowersFromAll(s, t, i + 1);
    }
  }

  /** The normalisation of `text` is `out`, by way of `words` and `caps`, each
      step checked position by position. */
  lemma NormalizeByPositions(text: string, words: string, caps: string, out: string)
    requires WordsGive(text, 0, words, 0) && CapsGive(words, 0, caps, 0)
    requires |caps| == |out| && LowersFrom(caps, out, 0)
    ensures NormalizeColumnName(text) == out
  {
    WordsGiveSound(text, 0, words, 0);
    CapsGiveSound(words, 0, caps, 0);
    LowersFromAll(caps, out, 0);
    assert words[0..] == words && caps[0..] == caps;
  }

  lemma SubscriberWords() ensures WordsGive("SubscriberID", 0, "SubscriberID", 0) {
    var s := "SubscriberID";
    assert WordsGive(s, 10, s, 10);
    assert WordsGive(s, 9, s, 9);
    assert WordsGive(s, 8, s, 8);
    assert WordsGive(s, 7, s, 7);
    assert WordsGive(s, 6, s, 6);
    assert WordsGive(s, 5, s, 5);
    assert WordsGive(s, 4, s, 4);
    assert WordsGive(s, 3, s, 3);
    assert WordsGive(s, 2, s, 2);
    assert WordsGive(s, 1, s, 1);
  }
  lemma SubscriberCaps() ensures CapsGive("SubscriberID", 0, "Subscriber_ID", 0) { }
  lemma SubscriberLower() ensures LowersFrom("Subscriber_ID", "subscriber_id", 0) { }

  /** The docstring's first example: no word to split, one boundary. */
  lemma SubscriberExample()
    ensures NormalizeColumnName("SubscriberID") == "subscriber_id"
  {
    SubscriberWords();
    SubscriberCaps();
    SubscriberLower();
    NormalizeByPositions("SubscriberID", "SubscriberID", "Subscriber_ID", "subscriber_id");
  }

  lemma DateRun() ensures RunEnd("DateUndeliverable", 5) == 17 {
    assert RunEnd("DateUndeliverable", 11) == 17;
  }
  lemma DateSpan() ensures SameSpan("DateUndeliverable", 4, "Date_Undeliverable", 5, 13) {
    assert SameSpan("DateUndeliverable", 10, "Date_Undeliverable", 11, 7);
  }
  lemma DateWords() ensures WordsGive("DateUndeliverable", 0, "Date_Undeliverable", 0) {
    DateRun();
    DateSpan();
  }
  lemma DateCaps() ensures CapsGive("Date_Undeliverable", 0, "Date_Undeliverable", 0) {
    assert SameSpan("Date_Undeliverable", 17, "Date_Undeliverable", 17, 1);
    assert CapsGive("Date_Undeliverable", 17, "Date_Undeliverable", 17);
    assert CapsGive("Date_Undeliverable", 16, "Date_Undeliverable", 16);
    assert CapsGive("Date_Undeliverable", 14, "Date_Undeliverable", 14);
    assert CapsGive("Date_Undeliverable", 7, "Date_Undeliverable", 7);
  }
  lemma DateLower() ensures LowersFrom("Date_Undeliverable", "date_undeliverable", 0) {
    assert LowersFrom("Date_Undeliverable", "date_undeliverable", 9);
  }

  /** The docstring's second example: one word split, no boundary left. */
  lemma DateExample()
    ensures NormalizeColumnName("DateUndeliverable") == "date_undeliverable"
  {
    DateWords();
    DateCaps();
    DateLower();
    NormalizeByPositions("DateUndeliverable", "Date_Undeliverable", "Date_Undeliverable", "date_undeliverable");
  }

  lemma EmailWords() ensures WordsGive("EmailAddress", 0, "Email_Address", 0) { }
  lemma EmailCaps() ensures CapsGive("Email_Address", 0, "Email_Address", 0) { }
  lemma EmailLower() ensures LowersFrom("Email_Address", "email_address", 0) { }

  /** The docstring's third example. */
  lemma EmailExample()
    ensures NormalizeColumnName("EmailAddress") == "email_address"
  {
    EmailWords();
    EmailCaps();
    EmailLower();
    NormalizeByPositions("EmailAddress", "Email_Address", "Email_Address", "email_address");
  }

  // ---------------------------------------------------------------------------
  // Column mapping
  // ---------------------------------------------------------------------------

  /** Index of the first occurrence of `x` in `s`. */
  function FirstIndex(s: seq<string>, x: string): (i: nat)
    requires x in s
    ensures i < |s| && s[i] == x && x !in s[..i]
  {
    if s[0] == x then 0 else 1 + FirstIndex(s[1..], x)
  }

  /** `column_mapping` and `normalized_columns`: each non-empty header, on
      its first occurrence, with its normalised name; a repeated header
      rewrites the same entry with the same value, keeping its position. */
  method ColumnMapping(headers: seq<string>) returns (keys: seq<string>, columns: seq<string>)
    ensures |keys| == |columns|
    ensures forall i :: 0 <= i < |keys| ==> columns[i] == NormalizeColumnName(keys[i])
    ensures Distinct(keys)
    ensures forall h :: h in keys <==> h in headers && h != ""
    ensures forall i, j :: 0 <= i < j < |keys| ==> FirstIndex(headers, keys[i]) < FirstIndex(headers, keys[j])
  {
    keys, columns := [], [];
    var n := 0;
    while n < |headers|
      invariant MappingInv(headers, n, keys, columns)
    {
      var h := headers[n];
      if h != "" && h !in keys {
        MappingAdd(headers, n, keys, columns);
        keys := keys + [h];
        columns := columns + [NormalizeColumnName(h)];
      } else {
        MappingSkip(headers, n, keys, columns);
      }
      n := n + 1;
    }
    assert headers[..n] == headers;
  }

  /** What the mapping loop keeps after the first `n` headers. */
  ghost predicate MappingInv(headers: seq<string>, n: int, keys: seq<string>, columns: seq<string>) {
    && 0 <= n <= |headers|
    && |keys| == |columns|
    && (forall i :: 0 <= i < |keys| ==> columns[i] == NormalizeColumnName(keys[i]))
    && Distinct(keys)
    && (forall h :: h in keys <==> h in headers[..n] && h != "")
    && (forall i :: 0 <= i < |keys| ==> keys[i] in headers)
    && (forall i :: 0 <= i < |keys| ==> FirstIndex(headers, keys[i]) < n)
    && (forall i, j :: 0 <= i < j < |keys| ==> FirstIndex(headers, keys[i]) < FirstIndex(headers, keys[j]))
  }

  /** A header not met before and not empty is added with its normalised
      name. */
  lemma MappingAdd(headers: seq<string>, n: int, keys: seq<string>, columns: seq<string>)
    requires MappingInv(headers, n, keys, columns) && n < |headers|
    requires headers[n] != "" && headers[n] !in keys
    ensures MappingInv(headers, n + 1, keys + [headers[n]], columns + [NormalizeColumnName(headers[n])])
  {
    var h := headers[n];
    assert headers[..n + 1] == headers[..n] + [h];
    assert h !in headers[..n];
    FirstIndexAt(headers, n);
  }

  /** An empty or repeated header leaves the mapping as it is. */
  lemma MappingSkip(headers: seq<string>, n: int, keys: seq<string>, columns: seq<string>)
    requires MappingInv(headers, n, keys, columns) && n < |headers|
    requires headers[n] == "" || headers[n] in keys
    ensures MappingInv(headers, n + 1, keys, columns)
  {
    assert headers[..n + 1] == headers[..n] + [headers[n]];
  }

  /** A header met for the first time at `n` has its first occurrence there. */
  lemma FirstIndexAt(s: seq<string>, n: nat)
    requires n < |s| && s[n] !in s[..n]
    ensures FirstIndex(s, s[n]) == n
  {
    var i := FirstIndex(s, s[n]);
    assert s[i] == s[n];
  }
}
