/** The monitoring alerts every flow sends: how a duration and a record
    count are written, and which lines the success and error messages hold,
    in which order. A message is modelled as its list of lines; `Render`
    gives the text. Sending it is left to the caller. */
module Alerts {
  import opened Wrappers
  import opened Text

  // ---------------------------------------------------------------------------
  // Durations
  // ---------------------------------------------------------------------------

  /** `format_duration` on a whole number of seconds: seconds alone under a
      minute, minutes and seconds under an hour, otherwise hours and minutes
      with the seconds dropped. */
  function FormatDuration(seconds: int): (r: string)
  {
    if seconds < 60 then IntToString(seconds) + " sec"
    else
      var minutes := seconds / 60;
      if minutes < 60 then NatToString(minutes) + " min " + NatToString(seconds % 60) + " sec"
      else NatToString(minutes / 60) + "h " + NatToString(minutes % 60) + "min"
  }

  /** The parts a duration is written with. */
  datatype DurationParts = Secs(secs: int) | MinSecs(mins: nat, rest: nat) | HoursMins(hours: nat, restMins: nat)

  function PartsOf(seconds: int): (p: DurationParts)
    ensures p.Secs? <==> seconds < 60
    ensures p.Secs? ==> p.secs == seconds
    ensures p.MinSecs? ==> 1 <= p.mins < 60 && p.rest < 60 && 60 * p.mins + p.rest == seconds
    ensures p.HoursMins? ==> (1 <= p.hours && p.restMins < 60
      && 3600 * p.hours + 60 * p.restMins <= seconds < 3600 * p.hours + 60 * p.restMins + 60)
  {
    if seconds < 60 then Secs(seconds)
    else if seconds / 60 < 60 then MinSecs(seconds / 60, seconds % 60)
    else HoursMins(seconds / 60 / 60, seconds / 60 % 60)
  }

  function RenderParts(p: DurationParts): string {
    match p
    case Secs(s) => IntToString(s) + " sec"
    case MinSecs(m, s) => NatToString(m) + " min " + NatToString(s) + " sec"
    case HoursMins(h, m) => NatToString(h) + "h " + NatToString(m) + "min"
  }

  /** The text is that of the duration's parts: under a minute the seconds,
      under an hour whole minutes and the remaining seconds, beyond that
      whole hours and the remaining whole minutes. */
  lemma DurationByParts(seconds: int)
    ensures FormatDuration(seconds) == RenderParts(PartsOf(seconds))
  {
  }

  /** Beyond an hour, the seconds do not show: two durations in the same
      minute read the same. */
  lemma HoursDropSeconds(a: int, b: int)
    requires 3600 <= a && a / 60 == b / 60
    ensures FormatDuration(a) == FormatDuration(b)
  {
  }

  /** The module's own test call: 99 seconds. */
  lemma NinetyNineSeconds()
    ensures FormatDuration(99) == "1 min 39 sec"
  {
    assert NatToString(39) == "39" by {
      assert NatToString(3) == "3";
    }
  }

  // ---------------------------------------------------------------------------
  // Record counts
  // ---------------------------------------------------------------------------

  /** The three digits of a group, zero-padded. */
  function Group3(k: nat): (r: string)
    requires k < 1000
    ensures |r| == 3
  {
    [DigitChar(k / 100), DigitChar(k / 10 % 10), DigitChar(k % 10)]
  }

  /** `f"{n:_}".replace('_', '.')` for a count: the digits in groups of
      three from the right, separated by dots. */
  function Grouped(n: nat): (r: string)
    ensures |r| > 0
    decreases n
  {
    if n < 1000 then NatToString(n) else Grouped(n / 1000) + "." + Group3(n % 1000)
  }

  /** The same for any integer: the sign, then the grouped magnitude. */
  function Thousands(n: int): (r: string)
    ensures |r| > 0
  {
    if n < 0 then "-" + Grouped(-n) else Grouped(n)
  }

  /** Writing a number in full is writing its thousands and its last group. */
  lemma NatToStringSplit(n: nat)
    requires n >= 1000
    ensures NatToString(n) == NatToString(n / 1000) + Group3(n % 1000)
  {
    ThousandsDigits(n);
    var a := n / 10;
    var b := n / 100;
    assert NatToString(n) == NatToString(a) + [DigitChar(n % 10)];
    assert NatToString(a) == NatToString(b) + [DigitChar(a % 10)];
    assert NatToString(b) == NatToString(n / 1000) + [DigitChar(b % 10)];
  }

  /** The last three digits of a number are its last group's. */
  lemma ThousandsDigits(n: nat)
    ensures n / 100 / 10 == n / 1000 && n / 10 / 10 == n / 100
    ensures n / 100 % 10 == n % 1000 / 100
    ensures n / 10 % 10 == n % 1000 / 10 % 10
    ensures n % 10 == n % 1000 % 10
  {
  }

  /** The separators are the only thing added: without the dots the digits
      are `str(n)`. */
  lemma {:induction false} GroupedDropsToDigits(n: nat)
    ensures RemoveChar(Grouped(n), '.') == NatToString(n)
    decreases n
  {
    if n >= 1000 {
      GroupedDropsToDigits(n / 1000);
      NatToStringSplit(n);
      var g := Group3(n % 1000);
      var dg := "." + g;
      assert Lacks(g, '.');
      assert dg[0] == '.' && dg[1..] == g;
      assert RemoveChar(dg, '.') == g;
      assert Grouped(n) == Grouped(n / 1000) + dg;
      RemoveCharAppendDot(Grouped(n / 1000), dg);
    } else {
      assert Lacks(NatToString(n), '.');
    }
  }

  /** Dropping a character from two joined strings drops it from each. */
  lemma {:induction false} RemoveCharAppendDot(a: string, b: string)
    ensures RemoveChar(a + b, '.') == RemoveChar(a, '.') + RemoveChar(b, '.')
  {
    if |a| == 0 {
      assert a + b == b;
    } else {
      var t := a + b;
      assert t[0] == a[0] && t[1..] == a[1..] + b;
      RemoveCharAppendDot(a[1..], b);
    }
  }

  /** The grouped text reads back as the count. */
  lemma GroupedReadsBack(n: nat)
    ensures var d := RemoveChar(Grouped(n), '.'); (forall i :: 0 <= i < |d| ==> IsDigit(d[i])) && DigitsValue(d) == n
  {
    GroupedDropsToDigits(n);
    DigitsValueOfNatToString(n);
  }

  /** The module's own test counts. */
  lemma GroupedExamples()
    ensures Grouped(470) == "470"
    ensures Grouped(1234567) == "1.234.567"
  {
    assert NatToString(470) == "470" by {
      assert NatToString(47) == "47";
    }
    assert Grouped(1234) == "1.234";
  }

  // ---------------------------------------------------------------------------
  // Messages
  // ---------------------------------------------------------------------------

  /** The summary keys the messages read; `others` says whether the
      dictionary holds any other key. */
  datatype Summary = Summary(extracted: Option<int>, loaded: Option<int>, bytes: Option<int>, streams: Option<int>, others: bool)

  const EmptySummary := Summary(None, None, None, None, false)

  /** A dictionary is truthy when it has a key. */
  predicate NonEmpty(s: Summary) {
    s.extracted.Some? || s.loaded.Some? || s.bytes.Some? || s.streams.Some? || s.others
  }

  /** Who the alert is about: the flow, where its data comes from and
      where it goes. */
  datatype Heading = Heading(flow: string, source: string, destination: string)

  /** One line of a message. `BytesLine` holds the byte count, written by
      `format_bytes` when rendered. */
  datatype Line =
    | Title(ok: bool, heading: Heading)
    | ErrorText(text: string)
    | PartialTitle
    | Extracted(n: int)
    | Loaded(n: int)
    | BytesLine(bytes: int)
    | Streams(n: int)
    | Duration(ok: bool, text: string)
    | Job(id: string)
    | Date(text: string)

  /** The position each kind of line has in a message. */
  function Rank(l: Line): nat {
    match l
    case Title(_, _) => 0
    case ErrorText(_) => 1
    case PartialTitle => 2
    case Extracted(_) => 3
    case Loaded(_) => 4
    case BytesLine(_) => 5
    case Streams(_) => 6
    case Duration(_, _) => 7
    case Job(_) => 8
    case Date(_) => 9
  }

  /** Lines in their fixed order, no kind twice. */
  predicate Ranked(ls: seq<Line>) {
    forall i, j :: 0 <= i < j < |ls| ==> Rank(ls[i]) < Rank(ls[j])
  }

  /** A message laid out by kind: slot `k` holds the line of rank `k`, if
      the message has one. */
  predicate WellSlotted(slots: seq<Option<Line>>) {
    forall k :: 0 <= k < |slots| && slots[k].Some? ==> Rank(slots[k].value) == k
  }

  /** The lines of the filled slots from `k` on, in slot order. */
  function Compact(slots: seq<Option<Line>>, k: nat): (ls: seq<Line>)
    requires k <= |slots| && WellSlotted(slots)
    ensures forall l :: l in ls <==> k <= Rank(l) < |slots| && slots[Rank(l)] == Some(l)
    ensures forall i :: 0 <= i < |ls| ==> k <= Rank(ls[i])
    ensures Ranked(ls)
    decreases |slots| - k
  {
    if k == |slots| then []
    else
      var rest := Compact(slots, k + 1);
      if slots[k].Some? then
        var l := slots[k].value;
        assert Rank(l) == k;
        ConsRanked(l, rest);
        [l] + rest
      else rest
  }

  /** A line ranked before every line of a ranked list can go in front. */
  lemma ConsRanked(l: Line, rest: seq<Line>)
    requires Ranked(rest) && forall i :: 0 <= i < |rest| ==> Rank(l) < Rank(rest[i])
    ensures Ranked([l] + rest)
  {
  }

  /** `error_message[:300]`. */
  function Truncate(e: string): (t: string)
    ensures |t| == if |e| <= 300 then |e| else 300
    ensures t == e[..|t|]
  {
    if |e| <= 300 then e else e[..300]
  }

  /** A job id is shown when it is given and not empty. */
  predicate ShowsJob(job: Option<string>) {
    job.Some? && job.value != ""
  }

  /** What a success alert is built from. */
  datatype SuccessInput = SuccessInput(heading: Heading, summary: Summary, seconds: int, job: Option<string>, date: string)

  /** The success message's line of rank `k`, if it has one. */
  function SuccessSlot(a: SuccessInput, k: nat): (l: Option<Line>)
    ensures l.Some? ==> Rank(l.value) == k
  {
    var s := a.summary;
    if k == 0 then Some(Title(true, a.heading))
    else if k == 3 then (if s.extracted.Some? then Some(Extracted(s.extracted.value)) else None)
    else if k == 4 then (if s.loaded.Some? then Some(Loaded(s.loaded.value)) else None)
    else if k == 5 then (if s.bytes.Some? then Some(BytesLine(s.bytes.value)) else None)
    else if k == 6 then (if s.streams.Some? then Some(Streams(s.streams.value)) else None)
    else if k == 7 then Some(Duration(true, FormatDuration(a.seconds)))
    else if k == 8 then (if ShowsJob(a.job) then Some(Job(a.job.value)) else None)
    else if k == 9 then Some(Date(a.date))
    else None
  }

  /** The lines of `send_flow_success_alert`, in their fixed order: the
      title, a line for each summary key present, the duration, the job
      when given, the date. */
  function SuccessLines(a: SuccessInput): (ls: seq<Line>)
    ensures Ranked(ls)
    ensures forall l :: l in ls <==> Rank(l) < 10 && SuccessSlot(a, Rank(l)) == Some(l)
  {
    Compact(seq(10, k requires 0 <= k < 10 => SuccessSlot(a, k)), 0)
  }

  /** The title, the duration and the date are always there; the error
      lines never are. */
  lemma SuccessAlwaysHas(a: SuccessInput)
    ensures Title(true, a.heading) in SuccessLines(a) && Date(a.date) in SuccessLines(a)
    ensures Duration(true, FormatDuration(a.seconds)) in SuccessLines(a)
    ensures forall l :: l in SuccessLines(a) ==> !l.ErrorText? && !l.PartialTitle?
  {
    assert SuccessSlot(a, 0) == Some(Title(true, a.heading));
    assert SuccessSlot(a, 7) == Some(Duration(true, FormatDuration(a.seconds)));
    assert SuccessSlot(a, 9) == Some(Date(a.date));
    assert SuccessSlot(a, 1) == None && SuccessSlot(a, 2) == None;
  }

  /** The extracted-records line is there exactly when the summary has that
      count, and shows it. */
  lemma SuccessExtracted(a: SuccessInput)
    ensures forall n :: Extracted(n) in SuccessLines(a) <==> a.summary.extracted == Some(n)
  {
    forall n ensures Extracted(n) in SuccessLines(a) <==> SuccessSlot(a, 3) == Some(Extracted(n)) {}
  }

  /** Likewise the loaded-records line. */
  lemma SuccessLoaded(a: SuccessInput)
    ensures forall n :: Loaded(n) in SuccessLines(a) <==> a.summary.loaded == Some(n)
  {
    forall n ensures Loaded(n) in SuccessLines(a) <==> SuccessSlot(a, 4) == Some(Loaded(n)) {}
  }

  /** Likewise the bytes line. */
  lemma SuccessBytes(a: SuccessInput)
    ensures forall n :: BytesLine(n) in SuccessLines(a) <==> a.summary.bytes == Some(n)
  {
    forall n ensures BytesLine(n) in SuccessLines(a) <==> SuccessSlot(a, 5) == Some(BytesLine(n)) {}
  }

  /** Likewise the streams line. */
  lemma SuccessStreams(a: SuccessInput)
    ensures forall n :: Streams(n) in SuccessLines(a) <==> a.summary.streams == Some(n)
  {
    forall n ensures Streams(n) in SuccessLines(a) <==> SuccessSlot(a, 6) == Some(Streams(n)) {}
  }

  /** The job line is there exactly when a non-empty job id is given. */
  lemma SuccessJob(a: SuccessInput)
    ensures forall id :: Job(id) in SuccessLines(a) <==> ShowsJob(a.job) && id == a.job.value
  {
  }

  /** What an error alert is built from. */
  datatype ErrorInput = ErrorInput(heading: Heading, error: string, seconds: int, job: Option<string>, partial: Option<Summary>, date: string)

  /** A partial summary is shown when given and not empty. */
  predicate ShowsPartial(a: ErrorInput) {
    a.partial.Some? && NonEmpty(a.partial.value)
  }

  /** The error message's line of rank `k`, if it has one. */
  function ErrorSlot(a: ErrorInput, k: nat): (l: Option<Line>)
    ensures l.Some? ==> Rank(l.value) == k
  {
    var p := ShowsPartial(a);
    if k == 0 then Some(Title(false, a.heading))
    else if k == 1 then Some(ErrorText(Truncate(a.error)))
    else if k == 2 then (if p then Some(PartialTitle) else None)
    else if k == 3 then (if p && a.partial.value.extracted.Some? then Some(Extracted(a.partial.value.extracted.value)) else None)
    else if k == 4 then (if p && a.partial.value.loaded.Some? then Some(Loaded(a.partial.value.loaded.value)) else None)
    else if k == 7 then Some(Duration(false, FormatDuration(a.seconds)))
    else if k == 8 then (if ShowsJob(a.job) then Some(Job(a.job.value)) else None)
    else if k == 9 then Some(Date(a.date))
    else None
  }

  /** The lines of `send_flow_error_alert`, in their fixed order: the
      title, the error cut to 300 characters, for a non-empty partial
      summary its heading and the record counts it has, the duration, the
      job when given, the date. */
  function ErrorLines(a: ErrorInput): (ls: seq<Line>)
    ensures Ranked(ls)
    ensures forall l :: l in ls <==> Rank(l) < 10 && ErrorSlot(a, Rank(l)) == Some(l)
  {
    Compact(seq(10, k requires 0 <= k < 10 => ErrorSlot(a, k)), 0)
  }

  /** The error text is the first 300 characters of the error. */
  lemma ErrorIsTruncated(a: ErrorInput)
    ensures forall t :: ErrorText(t) in ErrorLines(a) <==> t == Truncate(a.error)
  {
    forall t ensures ErrorText(t) in ErrorLines(a) <==> ErrorSlot(a, 1) == Some(ErrorText(t)) {}
  }

  /** The title, duration and date are always there; size and stream lines
      never are. */
  lemma ErrorAlwaysHas(a: ErrorInput)
    ensures Title(false, a.heading) in ErrorLines(a) && Date(a.date) in ErrorLines(a)
    ensures Duration(false, FormatDuration(a.seconds)) in ErrorLines(a)
    ensures forall l :: l in ErrorLines(a) ==> !l.BytesLine? && !l.Streams?
  {
    var ls := ErrorLines(a);
    assert Title(false, a.heading) in ls by {
      assert ErrorSlot(a, 0) == Some(Title(false, a.heading));
    }
    assert Duration(false, FormatDuration(a.seconds)) in ls by {
      assert ErrorSlot(a, 7) == Some(Duration(false, FormatDuration(a.seconds)));
    }
    assert Date(a.date) in ls by {
      assert ErrorSlot(a, 9) == Some(Date(a.date));
    }
    forall l | l in ls ensures !l.BytesLine? && !l.Streams? {
      NoSizeSlot(a, l);
    }
  }

  lemma NoSizeSlot(a: ErrorInput, l: Line)
    requires ErrorSlot(a, Rank(l)) == Some(l)
    ensures !l.BytesLine? && !l.Streams?
  {
  }

  /** The partial block is there only for a non-empty partial summary, and
      then holds the counts it has. */
  lemma ErrorPartial(a: ErrorInput)
    ensures PartialTitle in ErrorLines(a) <==> ShowsPartial(a)
    ensures forall n :: Extracted(n) in ErrorLines(a) <==> ShowsPartial(a) && a.partial.value.extracted == Some(n)
    ensures forall n :: Loaded(n) in ErrorLines(a) <==> ShowsPartial(a) && a.partial.value.loaded == Some(n)
  {
    assert PartialTitle in ErrorLines(a) <==> ErrorSlot(a, 2) == Some(PartialTitle);
    forall n ensures Extracted(n) in ErrorLines(a) <==> ErrorSlot(a, 3) == Some(Extracted(n)) {}
    forall n ensures Loaded(n) in ErrorLines(a) <==> ErrorSlot(a, 4) == Some(Loaded(n)) {}
  }

  /** The job line is there exactly when a non-empty job id is given. */
  lemma ErrorJob(a: ErrorInput)
    ensures forall id :: Job(id) in ErrorLines(a) <==> ShowsJob(a.job) && id == a.job.value
  {
    forall id ensures Job(id) in ErrorLines(a) <==> ErrorSlot(a, 8) == Some(Job(id)) {}
  }

  /** The text of one line, with the line breaks that precede it;
      `formatBytes` stands for `format_bytes`. */
  function RenderLine(l: Line, formatBytes: int -> string): string {
    match l
    case Title(ok, h) =>
      (if ok then "\U{2705} SUCESSO - " else "\U{274C} ERRO - ") + h.flow
      + "\n\n\U{1F504} " + h.source + " \U{2192} " + h.destination
      + (if ok then "\n\nResumo:" else "")
    case ErrorText(text) => "\n\n\U{26A0}\U{FE0F} Erro:\n" + text
    case PartialTitle => "\n\nProcessado até o erro:"
    case Extracted(n) => "\n- " + Thousands(n) + " registros extraídos"
    case Loaded(n) => "\n- " + Thousands(n) + " registros carregados"
    case BytesLine(n) => "\n- " + formatBytes(n) + " processados"
    case Streams(n) => "\n- " + IntToString(n) + " stream(s) processados"
    case Duration(ok, text) => (if ok then "\n- Duração: " else "\n\nDuração até erro: ") + text
    case Job(id) => "\n\n\U{1F194} Job: " + id
    case Date(text) => "\n\U{1F4C5} " + text
  }

  /** The message text: its lines' texts, in order. */
  function Render(ls: seq<Line>, formatBytes: int -> string): string {
    if ls == [] then "" else RenderLine(ls[0], formatBytes) + Render(ls[1..], formatBytes)
  }
}
