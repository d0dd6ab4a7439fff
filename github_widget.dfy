/** The contribution calendar: the intensity level of a day, its colour, the
    English ordinal of a day of the month, the weekday labels, and the
    month header, which is built from the days week by week and then
    run-length encoded into spans. */
module GitHubWidget {
  import opened Wrappers
  import opened JsText

  /** One day of contributions; `date` is the text the API sends. */
  datatype ContributionDay = ContributionDay(date: string, count: int)

  // ---------------------------------------------------------------------
  // Levels and colours
  // ---------------------------------------------------------------------

  /** The five cell colours, from no contributions to the most. */
  const Colors: seq<string> :=
    ["bg-[#ebedf0]", "bg-[#9be9a8]", "bg-[#40c463]", "bg-[#30a14e]", "bg-[#216e39]"]

  /** `getLevel`. The thresholds on `count / max` (a quarter, a half, three
      quarters) are compared by cross-multiplication, which is exact. */
  function Level(count: int, max: int): (r: nat)
    ensures r <= 4
  {
    if count <= 0 then 0
    else if max <= 0 then 1
    else if 4 * count <= max then 1
    else if 2 * count <= max then 2
    else if 4 * count <= 3 * max then 3
    else 4
  }

  /** The level is 0 exactly for no contributions, and 1 for any
      contribution when there is no positive maximum. */
  lemma LevelZero(count: int, max: int)
    ensures Level(count, max) == 0 <==> count <= 0
    ensures count > 0 && max <= 0 ==> Level(count, max) == 1
  {
  }

  /** With a positive count and maximum the level is the band of the ratio
      `count / max`: at most a quarter, a half, three quarters, or above. */
  lemma LevelBands(count: int, max: int)
    requires count > 0 && max > 0
    ensures var ratio := count as real / max as real;
      (Level(count, max) == 1 <==> ratio <= 0.25) &&
      (Level(count, max) == 2 <==> 0.25 < ratio <= 0.5) &&
      (Level(count, max) == 3 <==> 0.5 < ratio <= 0.75) &&
      (Level(count, max) == 4 <==> 0.75 < ratio)
  {
    var ratio := count as real / max as real;
    assert ratio * max as real == count as real;
    RatioAtMost(count, max, 1, 4);
    RatioAtMost(count, max, 1, 2);
    RatioAtMost(count, max, 3, 4);
    assert 0.25 == 1.0 / 4.0 && 0.5 == 1.0 / 2.0 && 0.75 == 3.0 / 4.0;
  }

  /** `count / max <= a / b` is `b * count <= a * max` for a positive `max`
      and `b`. */
  lemma RatioAtMost(count: int, max: int, a: nat, b: nat)
    requires max > 0 && b > 0
    ensures count as real / max as real <= a as real / b as real <==> b * count <= a * max
  {
    var x := count as real / max as real;
    var y := a as real / b as real;
    assert x * max as real == count as real;
    assert y * b as real == a as real;
    if x <= y {
      assert x * (max as real * b as real) <= y * (max as real * b as real);
      assert (b * count) as real == x * (max as real * b as real);
      assert (a * max) as real == y * (max as real * b as real);
    } else {
      assert x * (max as real * b as real) > y * (max as real * b as real);
      assert (b * count) as real == x * (max as real * b as real);
      assert (a * max) as real == y * (max as real * b as real);
    }
  }

  /** More contributions never give a lower level. */
  lemma LevelMonotone(count: int, more: int, max: int)
    requires count <= more
    ensures Level(count, max) <= Level(more, max)
  {
  }

  /** The busiest day has the top level. */
  lemma LevelAtMax(max: int)
    requires max > 0
    ensures Level(max, max) == 4
  {
  }

  /** `COLORS[level] ?? COLORS[0]`. */
  function CellColor(count: int, max: int): string {
    var level := Level(count, max);
    if level < |Colors| then Colors[level] else Colors[0]
  }

  /** The level always indexes the table, so the fallback is never taken
      and distinct levels give distinct colours. */
  lemma CellColorIsLevel(count: int, max: int, other: int)
    ensures CellColor(count, max) == Colors[Level(count, max)]
    ensures CellColor(count, max) == CellColor(other, max) <==> Level(count, max) == Level(other, max)
  {
  }

  // ---------------------------------------------------------------------
  // The largest count
  // ---------------------------------------------------------------------

  /** `days.reduce((max, day) => Math.max(max, day.count), acc)`. */
  function MaxFrom(acc: int, days: seq<ContributionDay>): (r: int)
    decreases |days|
    ensures r >= acc
    ensures forall i :: 0 <= i < |days| ==> days[i].count <= r
    ensures r == acc || exists i :: 0 <= i < |days| && days[i].count == r
  {
    if days == [] then acc
    else
      var r := MaxFrom(if days[0].count > acc then days[0].count else acc, days[1..]);
      assert forall i :: 1 <= i < |days| ==> days[i] == days[1..][i - 1];
      r
  }

  /** `maxCount`: never negative, at least every count, and either 0 or one
      of the counts. */
  function MaxCount(days: seq<ContributionDay>): (r: int)
    ensures r >= 0
    ensures forall i :: 0 <= i < |days| ==> days[i].count <= r
    ensures r == 0 || exists i :: 0 <= i < |days| && days[i].count == r
  {
    MaxFrom(0, days)
  }

  /** Every day with contributions is shaded at a level from 1 to 4 against
      the largest count. */
  lemma LevelOfDay(days: seq<ContributionDay>, i: nat)
    requires i < |days| && days[i].count > 0
    ensures 1 <= Level(days[i].count, MaxCount(days)) <= 4
  {
  }

  // ---------------------------------------------------------------------
  // Ordinals and weekday labels
  // ---------------------------------------------------------------------

  /** Division that truncates toward zero, as a JavaScript integer quotient
      `Math.trunc(a / b)` does. */
  function TruncDiv(a: int, b: int): int
    requires b > 0
  {
    if a >= 0 then a / b else -((-a) / b)
  }

  /** JavaScript's `%`, whose remainder takes the sign of the dividend: it is
      `a - b * trunc(a / b)`, and it lies strictly inside `b` on the
      dividend's side of zero. */
  function JsRem(a: int, b: int): (r: int)
    requires b > 0
    ensures r == a - b * TruncDiv(a, b)
    ensures a >= 0 ==> r == a % b
    ensures a < 0 ==> -b < r <= 0
  {
    if a >= 0 then a % b else -((-a) % b)
  }

  /** The suffix `getOrdinal` puts after the number. */
  function OrdinalSuffix(day: int): string {
    var mod100 := JsRem(day, 100);
    if 11 <= mod100 <= 13 then "th"
    else
      var last := JsRem(day, 10);
      if last == 1 then "st"
      else if last == 2 then "nd"
      else if last == 3 then "rd"
      else "th"
  }

  /** `getOrdinal`. */
  function Ordinal(day: int): string {
    IntToString(day) + OrdinalSuffix(day)
  }

  /** The ordinal is the decimal number followed by two letters, and for a
      non-negative day the letters follow the English rule: "th" for 11 to
      13 past a hundred, else "st", "nd", "rd" after a last digit 1, 2, 3,
      else "th". A negative day always gets "th". */
  lemma OrdinalRule(day: int)
    ensures var s := Ordinal(day);
      |s| == |IntToString(day)| + 2 && s[..|IntToString(day)|] == IntToString(day)
    ensures day >= 0 ==> DigitsValue(Ordinal(day)[..|Ordinal(day)| - 2]) == day
    ensures day >= 0 ==> (OrdinalSuffix(day) ==
      if 11 <= day % 100 <= 13 then "th"
      else if day % 10 == 1 then "st"
      else if day % 10 == 2 then "nd"
      else if day % 10 == 3 then "rd"
      else "th")
    ensures day < 0 ==> OrdinalSuffix(day) == "th"
  {
    var s := Ordinal(day);
    assert s[..|IntToString(day)|] == IntToString(day);
    if day >= 0 {
      assert s[..|s| - 2] == NatToString(day);
      DigitsOfNat(day);
    }
  }

  /** The cases the calendar meets. */
  lemma OrdinalExamples()
    ensures OrdinalSuffix(1) == "st" && OrdinalSuffix(2) == "nd" && OrdinalSuffix(3) == "rd"
    ensures OrdinalSuffix(4) == "th" && OrdinalSuffix(11) == "th" && OrdinalSuffix(12) == "th"
    ensures OrdinalSuffix(13) == "th" && OrdinalSuffix(21) == "st" && OrdinalSuffix(22) == "nd"
    ensures OrdinalSuffix(23) == "rd" && OrdinalSuffix(31) == "st" && OrdinalSuffix(111) == "th"
    ensures OrdinalSuffix(101) == "st"
    ensures Ordinal(21) == "21st"
  {
    assert NatToString(2) == "2";
    assert NatToString(21) == NatToString(2) + [DigitChar(1)];
  }

  /** `getWeekdayLabel`. */
  function WeekdayLabel(index: int): string {
    if index == 1 then "Mon"
    else if index == 3 then "Wed"
    else if index == 5 then "Fri"
    else ""
  }

  /** Only Monday, Wednesday and Friday are labelled. */
  lemma WeekdayLabels(index: int)
    ensures WeekdayLabel(index) != "" <==> index == 1 || index == 3 || index == 5
    ensures index == 1 ==> WeekdayLabel(index) == "Mon"
    ensures index == 3 ==> WeekdayLabel(index) == "Wed"
    ensures index == 5 ==> WeekdayLabel(index) == "Fri"
  {
  }

  // ---------------------------------------------------------------------
  // Month header: weeks
  // ---------------------------------------------------------------------

  function Min(a: int, b: int): int {
    if a < b then a else b
  }

  /** `Math.ceil(n / 7)`. */
  function WeekCount(n: nat): (r: nat)
    ensures 7 * r >= n && (r == 0 || 7 * (r - 1) < n)
  {
    (n + 6) / 7
  }

  /** How one day updates its week's month: a day whose date parses writes
      its month into a week that has none yet. */
  function Step(cur: string, month: Option<string>): string {
    if month.Some? && cur == "" then month.value else cur
  }

  /** The month a run of days gives its week when the days are visited in
      order. `monthOf` is the short month name of a date, `None` when the
      date does not parse. */
  function FirstMonth(ds: seq<ContributionDay>, monthOf: string -> Option<string>): string {
    if ds == [] then ""
    else Step(FirstMonth(ds[..|ds| - 1], monthOf), monthOf(ds[|ds| - 1].date))
  }

  /** A week's month is the month of its first day with a non-empty month,
      or "" when there is none. */
  lemma {:induction false} FirstMonthIsFirst(ds: seq<ContributionDay>, monthOf: string -> Option<string>)
    ensures var r := FirstMonth(ds, monthOf);
      (r == "" <==> forall j :: 0 <= j < |ds| ==> monthOf(ds[j].date).GetOr("") == "") &&
      (r != "" ==> exists j :: (0 <= j < |ds| && monthOf(ds[j].date) == Some(r) &&
         forall k :: 0 <= k < j ==> monthOf(ds[k].date).GetOr("") == ""))
  {
    if ds != [] {
      var init := ds[..|ds| - 1];
      FirstMonthIsFirst(init, monthOf);
      assert forall j :: 0 <= j < |init| ==> init[j] == ds[j];
    }
  }

  /** The days of week `w`: indices `7w` to `7w + 6`, cut at the end. */
  function Week(days: seq<ContributionDay>, w: nat): seq<ContributionDay>
    requires w < WeekCount(|days|)
  {
    days[7 * w..Min(7 * w + 7, |days|)]
  }

  /** The month of every week. */
  function WeekMonths(days: seq<ContributionDay>, monthOf: string -> Option<string>): (r: seq<string>)
    ensures |r| == WeekCount(|days|)
  {
    seq(WeekCount(|days|), w requires 0 <= w < WeekCount(|days|) => FirstMonth(Week(days, w), monthOf))
  }

  /** What week `w` holds once the first `k` days have been visited. */
  function Visited(days: seq<ContributionDay>, monthOf: string -> Option<string>, w: nat, k: nat): string
    requires k <= |days|
  {
    FirstMonth(days[Min(7 * w, k)..Min(7 * w + 7, k)], monthOf)
  }

  /** Every week's month once the first `k` days have been visited. */
  function VisitedWeeks(days: seq<ContributionDay>, monthOf: string -> Option<string>, k: nat): (r: seq<string>)
    requires k <= |days|
    ensures |r| == WeekCount(|days|)
  {
    seq(WeekCount(|days|), w requires 0 <= w < WeekCount(|days|) => Visited(days, monthOf, w, k))
  }

  /** Visiting day `k` updates its own week only. */
  lemma VisitStep(days: seq<ContributionDay>, monthOf: string -> Option<string>, k: nat)
    requires k < |days|
    ensures k / 7 < WeekCount(|days|)
    ensures var before := VisitedWeeks(days, monthOf, k);
      VisitedWeeks(days, monthOf, k + 1) == before[k / 7 := Step(before[k / 7], monthOf(days[k].date))]
  {
    var before := VisitedWeeks(days, monthOf, k);
    var after := VisitedWeeks(days, monthOf, k + 1);
    forall w | 0 <= w < |after|
      ensures after[w] == if w == k / 7 then Step(before[w], monthOf(days[k].date)) else before[w]
    {
      if w == k / 7 {
        var ds := days[7 * w..k + 1];
        assert ds[..|ds| - 1] == days[7 * w..k];
      } else if w < k / 7 {
        assert Min(7 * w + 7, k) == 7 * w + 7 == Min(7 * w + 7, k + 1);
      } else {
        assert Min(7 * w, k) == k && Min(7 * w + 7, k) == k;
        assert Min(7 * w, k + 1) == k + 1 && Min(7 * w + 7, k + 1) == k + 1;
      }
    }
  }

  /** Before any day is visited every week is ""; after all of them each
      week holds its month. */
  lemma VisitEnds(days: seq<ContributionDay>, monthOf: string -> Option<string>)
    ensures VisitedWeeks(days, monthOf, 0) == seq(WeekCount(|days|), _ => "")
    ensures VisitedWeeks(days, monthOf, |days|) == WeekMonths(days, monthOf)
  {
    var last := VisitedWeeks(days, monthOf, |days|);
    forall w | 0 <= w < |last|
      ensures last[w] == WeekMonths(days, monthOf)[w]
    {
      assert Min(7 * w, |days|) == 7 * w;
    }
  }

  /** The first pass of the header: a week array of "" in which every day
      whose date parses writes its month into its week if the week has none
      yet. */
  method FillWeekMonths(days: seq<ContributionDay>, monthOf: string -> Option<string>)
    returns (weekMonths: array<string>)
    ensures fresh(weekMonths)
    ensures weekMonths[..] == WeekMonths(days, monthOf)
  {
    var n := WeekCount(|days|);
    weekMonths := new string[n](_ => "");
    VisitEnds(days, monthOf);
    var index := 0;
    while index < |days|
      invariant 0 <= index <= |days|
      invariant weekMonths[..] == VisitedWeeks(days, monthOf, index)
    {
      var month := monthOf(days[index].date);
      var w := index / 7;
      VisitStep(days, monthOf, index);
      ghost var before := weekMonths[..];
      if month.Some? && weekMonths[w] == "" {
        weekMonths[w] := month.value;
      }
      assert weekMonths[..] == before[w := Step(before[w], month)];
      index := index + 1;
    }
  }

  // ---------------------------------------------------------------------
  // Month header: spans
  // ---------------------------------------------------------------------

  /** One header cell: a month label spanning `span` weeks. */
  datatype Span = Span(month: string, span: nat)

  function Repeat(x: string, n: nat): (r: seq<string>)
    ensures |r| == n && forall i :: 0 <= i < n ==> r[i] == x
  {
    seq(n, _ => x)
  }

  /** The weeks a list of spans stands for. */
  function Expand(spans: seq<Span>): seq<string> {
    if spans == [] then [] else Repeat(spans[0].month, spans[0].span) + Expand(spans[1..])
  }

  /** The number of weeks a list of spans covers. */
  function TotalSpan(spans: seq<Span>): nat {
    if spans == [] then 0 else spans[0].span + TotalSpan(spans[1..])
  }

  /** A run-length encoding: every span covers a week, and neighbours carry
      different labels. */
  predicate Runs(spans: seq<Span>) {
    (forall i :: 0 <= i < |spans| ==> spans[i].span >= 1) &&
    (forall i :: 1 <= i < |spans| ==> spans[i - 1].month != spans[i].month)
  }

  lemma {:induction false} ExpandAppend(spans: seq<Span>, s: Span)
    ensures Expand(spans + [s]) == Expand(spans) + Repeat(s.month, s.span)
  {
    if spans != [] {
      assert (spans + [s])[1..] == spans[1..] + [s];
      ExpandAppend(spans[1..], s);
    } else {
      assert Expand([s]) == Repeat(s.month, s.span) + Expand([]);
    }
  }

  /** The spans cover as many weeks as they expand to. */
  lemma {:induction false} TotalSpanIsLength(spans: seq<Span>)
    ensures TotalSpan(spans) == |Expand(spans)|
  {
    if spans != [] {
      TotalSpanIsLength(spans[1..]);
    }
  }

  lemma RepeatSnoc(x: string, n: nat)
    ensures Repeat(x, n + 1) == Repeat(x, n) + [x]
  {
  }

  /** Extending the current span by one week of its own label. */
  lemma ExtendSpan(spans: seq<Span>, current: string, span: nat, prefix: seq<string>)
    requires Expand(spans) + Repeat(current, span) == prefix
    ensures Expand(spans) + Repeat(current, span + 1) == prefix + [current]
  {
    RepeatSnoc(current, span);
  }

  lemma PrefixSnoc<T>(s: seq<T>, i: nat)
    requires i < |s|
    ensures s[..i + 1] == s[..i] + [s[i]]
  {
  }

  /** Closing a span keeps the encoding a run-length encoding. */
  lemma RunsPush(spans: seq<Span>, s: Span)
    requires Runs(spans) && s.span >= 1
    requires spans != [] ==> spans[|spans| - 1].month != s.month
    ensures Runs(spans + [s])
  {
    var t := spans + [s];
    forall i | 1 <= i < |t| ensures t[i - 1].month != t[i].month {
      if i < |spans| {
        assert t[i - 1] == spans[i - 1] && t[i] == spans[i];
      }
    }
  }

  /** Closing the current span at a different label: the encoding stays a
      run-length encoding and the new label starts a span of one week. */
  lemma CloseSpan(spans: seq<Span>, current: string, span: nat, month: string, prefix: seq<string>)
    requires Runs(spans) && span >= 1 && month != current
    requires spans != [] ==> spans[|spans| - 1].month != current
    requires Expand(spans) + Repeat(current, span) == prefix
    ensures Runs(spans + [Span(current, span)])
    ensures Expand(spans + [Span(current, span)]) + Repeat(month, 1) == prefix + [month]
  {
    ExpandAppend(spans, Span(current, span));
    RunsPush(spans, Span(current, span));
    assert Repeat(month, 1) == [month];
  }

  /** The second pass of the header: walk the weeks, extend the current span
      while the label repeats and close it when the label changes; close the
      last one at the end. */
  method BuildSpans(weekMonths: seq<string>) returns (spans: seq<Span>)
    ensures Runs(spans)
    ensures Expand(spans) == weekMonths
    ensures TotalSpan(spans) == |weekMonths|
  {
    spans := [];
    var current := if weekMonths != [] then weekMonths[0] else "";
    var span := 0;
    var i := 0;
    while i < |weekMonths|
      invariant 0 <= i <= |weekMonths|
      invariant Runs(spans)
      invariant Expand(spans) + Repeat(current, span) == weekMonths[..i]
      invariant i == 0 ==> span == 0 && spans == [] && (weekMonths != [] ==> current == weekMonths[0])
      invariant i > 0 ==> span >= 1
      invariant spans != [] ==> spans[|spans| - 1].month != current
    {
      var month := weekMonths[i];
      PrefixSnoc(weekMonths, i);
      ghost var next := weekMonths[..i + 1];
      if month == current {
        ExtendSpan(spans, current, span, weekMonths[..i]);
        span := span + 1;
      } else {
        CloseSpan(spans, current, span, month, weekMonths[..i]);
        spans := spans + [Span(current, span)];
        current := month;
        span := 1;
      }
      assert Expand(spans) + Repeat(current, span) == next;
      i := i + 1;
    }
    if span > 0 {
      ExpandAppend(spans, Span(current, span));
      RunsPush(spans, Span(current, span));
      spans := spans + [Span(current, span)];
    } else {
      assert Repeat(current, span) == [];
    }
    assert weekMonths[..i] == weekMonths;
    TotalSpanIsLength(spans);
  }

  /** The month header (`monthLabels`, `weekCount`): one label per run of
      weeks with the same month, covering every week; no days give no
      labels and no weeks. */
  method MonthLabels(days: seq<ContributionDay>, monthOf: string -> Option<string>)
    returns (labels: seq<Span>, weekCount: nat)
    ensures weekCount == WeekCount(|days|)
    ensures days == [] ==> labels == [] && weekCount == 0
    ensures Runs(labels)
    ensures Expand(labels) == WeekMonths(days, monthOf)
    ensures TotalSpan(labels) == weekCount
  {
    if |days| == 0 {
      return [], 0;
    }
    var weekMonths := FillWeekMonths(days, monthOf);
    labels := BuildSpans(weekMonths[..]);
    weekCount := weekMonths.Length;
  }
}
