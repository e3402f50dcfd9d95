/** The alert decorator: it runs a flow, then tries to send a success alert
    (with a summary taken from the flow's result) or an error alert (with
    the exception's text), and hands back what the flow did whatever
    happened to the alert. The clock and the alert service are parameters. */
module Decorators {
  import opened Wrappers
  import opened Alerts

  /** How the wrapped flow ends: it returns (`None` being Python's `None`),
      raises an `Exception` with that text, or is stopped by a
      `BaseException` that is not an `Exception`, which the wrapper does not
      catch. */
  datatype Run<V> = Returned(result: Option<V>) | Raised(error: string) | Interrupted

  /** The decorator's arguments. The extractor gives a result's summary, or
      `None` when it raises. */
  datatype Config<!V> = Config(heading: Heading, extract: Option<V -> Option<Summary>>, group: Option<string>)

  /** The group alerts go to when none is configured. */
  const DefaultGroup: string := "120363421261712366"

  /** An alert the wrapper tries to send, and the group it goes to. */
  datatype Alert = SuccessAlert(success: SuccessInput, group: string) | ErrorAlert(failure: ErrorInput, group: string)

  /** What became of a sending attempt: delivered, refused (the service
      answered with an error, so the call returns `False`), or an exception
      from the call itself. */
  datatype Delivery = Sent | Refused | Threw

  /** What the wrapper logs as a warning. */
  datatype Warning = ExtractFailed | SendFailed

  /** What a call of the wrapped flow comes to: the flow's own outcome as
      the caller sees it, the alert attempted, the warnings logged. */
  datatype Wrapped<V> = Wrapped(outcome: Run<V>, alert: Option<Alert>, warnings: seq<Warning>)

  function GroupOf(group: Option<string>): (g: string)
    ensures group.Some? ==> g == group.value
    ensures group.None? ==> g == DefaultGroup
  {
    if group.Some? then group.value else DefaultGroup
  }

  /** Whether the extractor is asked at all: there is one and the result is
      not `None`. */
  predicate Extracts<V>(c: Config<V>, result: Option<V>) {
    c.extract.Some? && result.Some?
  }

  /** The summary of a returned result: the extractor's answer, or the empty
      summary when there is no extractor, the result is `None`, or the
      extractor raises. */
  function SummaryOf<V>(c: Config<V>, result: Option<V>): (s: Summary)
    ensures s != EmptySummary ==> Extracts(c, result) && c.extract.value(result.value) == Some(s)
    ensures Extracts(c, result) && c.extract.value(result.value).Some? ==> s == c.extract.value(result.value).value
  {
    if Extracts(c, result) && c.extract.value(result.value).Some? then c.extract.value(result.value).value
    else EmptySummary
  }

  /** `flow_alerts(...)(func)` called once: `run` is how `func` ends,
      `seconds` the time it took, `date` the time of the alert, `deliver`
      the fate of a sending attempt. The caller gets the flow's result back
      unchanged, or its exception re-raised; the alert is a success alert
      with the summary for a return, an error alert with the exception's
      text and no job or partial summary for an exception, none for an
      interruption; a failing extractor and a send that throws are logged
      and nothing more. */
  function Wrap<V>(c: Config<V>, run: Run<V>, seconds: int, date: string, deliver: Alert -> Delivery): (w: Wrapped<V>)
    ensures w.outcome == run
    ensures w.alert.None? <==> run.Interrupted?
    ensures run.Returned? ==> w.alert == Some(SuccessAlert(SuccessInput(c.heading, SummaryOf(c, run.result), seconds, None, date), GroupOf(c.group)))
    ensures run.Raised? ==> w.alert == Some(ErrorAlert(ErrorInput(c.heading, run.error, seconds, None, None, date), GroupOf(c.group)))
    ensures ExtractFailed in w.warnings <==> run.Returned? && Extracts(c, run.result) && c.extract.value(run.result.value).None?
    ensures SendFailed in w.warnings <==> w.alert.Some? && deliver(w.alert.value) == Threw
    ensures |w.warnings| <= 2
  {
    match run
    case Interrupted => Wrapped(run, None, [])
    case Returned(result) =>
      var extractWarnings := if Extracts(c, result) && c.extract.value(result.value).None? then [ExtractFailed] else [];
      var alert := SuccessAlert(SuccessInput(c.heading, SummaryOf(c, result), seconds, None, date), GroupOf(c.group));
      var sendWarnings := if deliver(alert) == Threw then [SendFailed] else [];
      Wrapped(run, Some(alert), extractWarnings + sendWarnings)
    case Raised(error) =>
      var alert := ErrorAlert(ErrorInput(c.heading, error, seconds, None, None, date), GroupOf(c.group));
      Wrapped(run, Some(alert), if deliver(alert) == Threw then [SendFailed] else [])
  }

  /** Whatever becomes of the alert, the caller sees the same outcome and
      the same alert is attempted. */
  lemma DeliveryNeverChangesOutcome<V>(c: Config<V>, run: Run<V>, seconds: int, date: string, d1: Alert -> Delivery, d2: Alert -> Delivery)
    ensures Wrap(c, run, seconds, date, d1).outcome == Wrap(c, run, seconds, date, d2).outcome == run
    ensures Wrap(c, run, seconds, date, d1).alert == Wrap(c, run, seconds, date, d2).alert
  {
  }

  /** An alert refused by the service leaves no trace in the log. */
  lemma RefusalIsSilent<V>(c: Config<V>, run: Run<V>, seconds: int, date: string, deliver: Alert -> Delivery)
    requires forall a :: deliver(a) != Threw
    requires c.extract.None?
    ensures Wrap(c, run, seconds, date, deliver).warnings == []
  {
  }

  /** The error alert of a wrapped flow shows the first 300 characters of
      the exception's text and never a partial-summary block or a job. */
  lemma ErrorAlertShowsError<V>(c: Config<V>, error: string, seconds: int, date: string, deliver: Alert -> Delivery)
    ensures var a := Wrap(c, Raised(error), seconds, date, deliver).alert.value;
      a.ErrorAlert? &&
      (forall t :: ErrorText(t) in ErrorLines(a.failure) <==> t == Truncate(error)) &&
      PartialTitle !in ErrorLines(a.failure) &&
      (forall id :: Job(id) !in ErrorLines(a.failure))
  {
    var a := Wrap(c, Raised(error), seconds, date, deliver).alert.value;
    ErrorIsTruncated(a.failure);
    ErrorPartial(a.failure);
    ErrorJob(a.failure);
  }

  /** `flow_alerts_simple`: the decorator with no extractor and the default
      group. */
  function Simple<V>(heading: Heading): (c: Config<V>)
    ensures c.heading == heading && c.extract.None? && c.group.None?
  {
    Config(heading, None, None)
  }

  /** Without an extractor every success alert carries the empty summary,
      so it shows none of the count lines, and nothing is ever logged for
      the summary. */
  lemma SimpleSendsEmptySummary<V>(heading: Heading, result: Option<V>, seconds: int, date: string, deliver: Alert -> Delivery)
    ensures var w := Wrap(Simple<V>(heading), Returned(result), seconds, date, deliver);
      w.alert.value.SuccessAlert? && w.alert.value.success.summary == EmptySummary &&
      w.alert.value.group == DefaultGroup &&
      ExtractFailed !in w.warnings &&
      (forall n :: Extracted(n) !in SuccessLines(w.alert.value.success)) &&
      (forall n :: Loaded(n) !in SuccessLines(w.alert.value.success))
  {
    var w := Wrap(Simple<V>(heading), Returned(result), seconds, date, deliver);
    SuccessExtracted(w.alert.value.success);
    SuccessLoaded(w.alert.value.success);
  }

  /** The simple decorator behaves as the full one given an extractor that
      always yields the empty summary. */
  lemma SimpleIsEmptyExtractor<V>(heading: Heading, run: Run<V>, seconds: int, date: string, deliver: Alert -> Delivery)
    ensures Wrap(Simple<V>(heading), run, seconds, date, deliver) ==
      Wrap(Config(heading, Some((v: V) => Some(EmptySummary)), None), run, seconds, date, deliver)
  {
  }
}
