/** The decision made by `main` on one run: fetch the page, extract the
    dates, and alert when there are more of them than the threshold. */
module Monitor {
  import opened Text
  import opened Extract
  import Notification

  /** `DATE_THRESHOLD`: alert when strictly more dates than this are found. */
  const DateThreshold: int := 7

  /** How a run ends. */
  datatype Decision =
    | NoPage                      // the fetch failed or gave an empty page: nothing else happens
    | NoDates                     // no date was extracted: logged as an error, early return
    | WithinThreshold(count: nat) // dates found, but not more than the threshold
    | Notify(dates: seq<string>)  // the webhook alert is sent with these dates

  /** The page is usable: the fetch returned a non-empty text. */
  predicate Fetched(page: Option<Document>) {
    page.Some? && page.value.text != []
  }

  /** The branch of `main` taken for a fetch outcome (None is a failed
      fetch), the dates extracted from it and the threshold. An alert is
      sent exactly when the page was fetched, at least one date was found
      and there are strictly more dates than the threshold; it carries
      the extracted list unchanged. */
  function Decide(page: Option<Document>, dates: seq<string>, threshold: int): (d: Decision)
    ensures d.Notify? <==> Fetched(page) && dates != [] && |dates| > threshold
    ensures d.Notify? ==> d.dates == dates
    ensures d.WithinThreshold? ==> Fetched(page) && 0 < d.count == |dates| && |dates| <= threshold
    ensures d.NoPage? <==> !Fetched(page)
    ensures d.NoDates? <==> Fetched(page) && dates == []
  {
    if !Fetched(page) then NoPage
    else if dates == [] then NoDates
    else if |dates| > threshold then Notify(dates)
    else WithinThreshold(|dates|)
  }

  /** One run of `main`: fetch outcome in, decision out. The dates are
      extracted only from a usable page. An alert always carries more
      dates than the threshold, each a trimmed non-empty text with a digit. */
  method RunOnce(page: Option<Document>, threshold: int) returns (d: Decision)
    ensures d == Decide(page, ExtractedDates(page), threshold)
    ensures d.Notify? ==> |d.dates| > threshold && forall i :: 0 <= i < |d.dates| ==> IsDate(d.dates[i])
  {
    if !Fetched(page) {
      return NoPage;
    }
    var dates := ExtractTestDates(page);
    if dates == [] {
      return NoDates;
    }
    if |dates| > threshold {
      d := Notify(dates);
    } else {
      d := WithinThreshold(|dates|);
    }
  }

  /** The threshold is exclusive: exactly `threshold` dates do not alert,
      one more does. */
  lemma ThresholdBoundary(page: Option<Document>, dates: seq<string>, threshold: int)
    requires Fetched(page) && dates != []
    ensures |dates| == threshold ==> Decide(page, dates, threshold) == WithinThreshold(|dates|)
    ensures |dates| == threshold + 1 ==> Decide(page, dates, threshold) == Notify(dates)
  {
  }

  /** With the configured threshold of 7, eight dates alert and seven do
      not; the same eight dates against a threshold of 8 do not. */
  lemma EightDatesExample(page: Option<Document>, dates: seq<string>)
    requires Fetched(page)
    ensures |dates| == 8 ==> Decide(page, dates, DateThreshold).Notify?
    ensures |dates| == 8 ==> !Decide(page, dates, 8).Notify?
    ensures |dates| == 7 ==> !Decide(page, dates, DateThreshold).Notify?
  {
  }

  /** Whatever the page and the threshold, a run alerts only if the page
      holds the dates table with more body rows than the threshold: the
      header row never counts, and a failed fetch, an empty page, a
      missing table or a parser failure never alert. */
  lemma AlertNeedsTable(page: Option<Document>, threshold: int)
    ensures Decide(page, ExtractedDates(page), threshold).Notify? ==>
              Fetched(page) && page.value.lookup.Table? &&
              |page.value.lookup.rows| - 1 > threshold &&
              |page.value.lookup.rows| >= 2
  {
  }

  /** The alert's date field lists every alerted date on its own line, in
      order, when no date has a line break inside it. */
  lemma AlertFieldLines(page: Option<Document>, threshold: int)
    requires var d := Decide(page, ExtractedDates(page), threshold);
             d.Notify? && forall i :: 0 <= i < |d.dates| ==> '\n' !in d.dates[i]
    ensures var d := Decide(page, ExtractedDates(page), threshold);
            var lines := Notification.SplitLines(Notification.BulletField(d.dates));
            |lines| == |d.dates| &&
            forall i :: 0 <= i < |lines| ==> lines[i] == Notification.BulletPrefix + d.dates[i]
  {
    var d := Decide(page, ExtractedDates(page), threshold);
    Notification.BulletFieldLines(d.dates);
  }

  /** The alert's date field ends with the last date, which is trimmed:
      the field never ends with a newline or any other whitespace. */
  lemma AlertFieldEnd(dates: seq<string>)
    requires |dates| >= 1 && IsDate(dates[|dates| - 1])
    ensures var f := Notification.BulletField(dates);
            f != [] && !IsSpace(f[|f| - 1]) && f[|f| - 1] != '\n'
  {
  }
}
