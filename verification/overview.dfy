/**
 * `GET /api/overview`: how the `range` query parameter becomes a number of
 * days, how the two SQL aggregations read the stores, and how the funnel
 * conversion ratios are computed from per-page views. Views and ratios are
 * exact rationals (`real`); the window start `NOW() - days` is an abstract
 * cut-off instant.
 */
module Overview {
  import opened Wrappers
  import opened JsValue
  import opened SalesLedger

  // ---- Range parsing ----

  /** `s.replace("d", "")`: a string pattern removes only its first occurrence. */
  function RemoveFirst(s: string, c: char): (r: string)
    ensures c !in s ==> r == s
    ensures c in s ==> |r| == |s| - 1
    decreases |s|
  {
    if s == [] then []
    else if s[0] == c then s[1..]
    else [s[0]] + RemoveFirst(s[1..], c)
  }

  /** Only the first occurrence goes: what precedes it is kept and so is all that follows. */
  lemma {:induction false} RemoveFirstOccurrence(before: string, c: char, after: string)
    requires c !in before
    ensures RemoveFirst(before + [c] + after, c) == before + after
    decreases |before|
  {
    if before == [] {
      assert before + [c] + after == [c] + after;
    } else {
      var tail := before[1..] + [c] + after;
      assert before + [c] + after == [before[0]] + tail;
      assert before[0] != c by { assert before[0] in before; }
      RemoveFirstOccurrence(before[1..], c, after);
      assert before + after == [before[0]] + (before[1..] + after);
    }
  }

  predicate IsDigit(c: char) {
    '0' <= c <= '9'
  }

  predicate IsDigits(s: string) {
    forall k :: 0 <= k < |s| ==> IsDigit(s[k])
  }

  /** The value of a string of decimal digits, most significant first. */
  function DigitsValue(ds: string): nat
    requires IsDigits(ds)
    decreases |ds|
  {
    if ds == [] then 0 else DigitsValue(ds[..|ds| - 1]) * 10 + (ds[|ds| - 1] as int - '0' as int)
  }

  /** The decimal text of a natural number, without leading zeros. */
  function NatToDecimal(n: nat): (s: string)
    ensures |s| > 0 && IsDigits(s)
    ensures n > 0 ==> s[0] != '0'
    decreases n
  {
    if n < 10 then [('0' as int + n) as char] else NatToDecimal(n / 10) + [('0' as int + n % 10) as char]
  }

  lemma {:induction false} DecimalRoundTrip(n: nat)
    ensures DigitsValue(NatToDecimal(n)) == n
    decreases n
  {
    var s := NatToDecimal(n);
    if n >= 10 {
      DecimalRoundTrip(n / 10);
      assert s[..|s| - 1] == NatToDecimal(n / 10);
    }
  }

  /** 2^53: every integer up to it is a double, so `Number` reads it exactly. */
  const MaxExactInteger: nat := 0x20_0000_0000_0000

  /**
   * The literal reader reads plain decimal digit strings as their value, as
   * far as doubles represent integers exactly; above 2^53 `Number` rounds.
   */
  ghost predicate ReadsDecimalIntegers(lit: LiteralReader) {
    forall ds :: |ds| > 0 && IsDigits(ds) && DigitsValue(ds) <= MaxExactInteger ==>
      lit(ds) == Finite(DigitsValue(ds) as real)
  }

  /** `String(range)` after the destructuring default `range = "7d"`. */
  function RangeText(range: Option<string>): string {
    if range.None? then "7d" else range.value
  }

  /**
   * `Number(String(range).replace("d", "")) || 7`: a truthy number (non-zero,
   * not NaN, possibly infinite or negative) is kept, anything else gives 7.
   */
  function ParseDays(range: Option<string>, lit: LiteralReader): (days: Numeric)
    ensures NumTruthy(days)
    ensures var x := StringToNumber(RemoveFirst(RangeText(range), 'd'), lit);
            (NumTruthy(x) ==> days == x) && (!NumTruthy(x) ==> days == Finite(7.0))
  {
    var x := StringToNumber(RemoveFirst(RangeText(range), 'd'), lit);
    if NumTruthy(x) then x else Finite(7.0)
  }

  lemma TrimKeepsDigits(s: string)
    requires |s| > 0 && IsDigits(s)
    ensures TrimEnd(TrimStart(s)) == s
  {
    assert !IsJsSpace(s[0]) && !IsJsSpace(s[|s| - 1]);
  }

  /** A range of `<n>d` with `n` a positive decimal gives `n` days. */
  lemma PositiveRangeParses(n: nat, lit: LiteralReader)
    requires 0 < n <= MaxExactInteger
    requires ReadsDecimalIntegers(lit)
    ensures ParseDays(Some(NatToDecimal(n) + "d"), lit) == Finite(n as real)
  {
    var ds := NatToDecimal(n);
    assert 'd' !in ds by {
      forall k | 0 <= k < |ds| ensures ds[k] != 'd' { assert IsDigit(ds[k]); }
    }
    RemoveFirstOccurrence(ds, 'd', "");
    assert ds + ['d'] + "" == ds + "d" && ds + "" == ds;
    TrimKeepsDigits(ds);
    DecimalRoundTrip(n);
    assert lit(ds) == Finite(n as real);
  }

  /** Without a `range` parameter the default "7d" gives 7 days. */
  lemma DefaultRangeIsSevenDays(lit: LiteralReader)
    requires ReadsDecimalIntegers(lit)
    ensures ParseDays(None, lit) == Finite(7.0)
  {
    PositiveRangeParses(7, lit);
    assert NatToDecimal(7) + "d" == "7d";
  }

  /** "0d" parses to 0, which is falsy, so 7 days. */
  lemma ZeroRangeIsSevenDays(lit: LiteralReader)
    requires ReadsDecimalIntegers(lit)
    ensures ParseDays(Some("0d"), lit) == Finite(7.0)
  {
    RemoveFirstOccurrence("0", 'd', "");
    assert "0" + ['d'] + "" == "0d" && "0" + "" == "0";
    TrimKeepsDigits("0");
    assert DigitsValue("0") == 0;
    assert lit("0") == Finite(0.0);
  }

  /** An empty or blank range, with or without its "d", reads as 0 and gives 7 days. */
  lemma BlankRangeIsSevenDays(s: string, lit: LiteralReader)
    requires forall k :: 0 <= k < |s| ==> IsJsSpace(s[k])
    ensures ParseDays(Some(s), lit) == Finite(7.0)
    ensures ParseDays(Some(s + "d"), lit) == Finite(7.0)
  {
    assert 'd' !in s by {
      forall k | 0 <= k < |s| ensures s[k] != 'd' { assert IsJsSpace(s[k]); }
    }
    RemoveFirstOccurrence(s, 'd', "");
    assert s + ['d'] + "" == s + "d" && s + "" == s;
  }

  /** Integral and of magnitude below 10^21: the numbers `String(n)` writes in plain decimal. */
  predicate PlainInteger(r: real) {
    r == r.Floor as real && -1000000000000000000000.0 < r < 1000000000000000000000.0
  }

  /** `String(n)` for the values `days` can take: integers below 10^21 in plain decimal. */
  function NumberText(x: Numeric, showOther: real -> string): (t: string)
    ensures x == NaN ==> t == "NaN"
    ensures x.Finite? && PlainInteger(x.r) && x.r >= 0.0 ==>
              |t| > 0 && IsDigits(t) && DigitsValue(t) == x.r.Floor
    ensures x.Finite? && PlainInteger(x.r) && x.r < 0.0 ==>
              |t| > 1 && t[0] == '-' && IsDigits(t[1..]) && DigitsValue(t[1..]) == -x.r.Floor
  {
    match x
    case NaN => "NaN"
    case Infinity(negative) => if negative then "-Infinity" else "Infinity"
    case Finite(r) =>
      if PlainInteger(r) then
        if r < 0.0 then
          DecimalRoundTrip(-r.Floor);
          var ds := NatToDecimal(-r.Floor);
          assert ("-" + ds)[1..] == ds;
          "-" + ds
        else
          DecimalRoundTrip(r.Floor);
          NatToDecimal(r.Floor)
      else showOther(r)
  }

  /**
   * The echoed `range` field, `${days}d`: for integral days its first `d`
   * is the suffix, so parsing the label again strips exactly that suffix.
   */
  function RangeLabel(days: Numeric, showOther: real -> string): (echo: string)
    ensures |echo| > 0 && echo[|echo| - 1] == 'd'
    ensures days.Finite? && PlainInteger(days.r) ==> RemoveFirst(echo, 'd') == echo[..|echo| - 1]
  {
    var t := NumberText(days, showOther);
    if days.Finite? && PlainInteger(days.r) then
      assert 'd' !in t by {
        if days.r >= 0.0 {
          forall k | 0 <= k < |t| ensures t[k] != 'd' { assert IsDigit(t[k]); }
        } else {
          forall k | 1 <= k < |t| ensures t[k] != 'd' { assert IsDigit(t[1..][k - 1]); }
        }
      }
      RemoveFirstOccurrence(t, 'd', "");
      assert t + ['d'] + "" == t + "d" && t + "" == t && (t + "d")[..|t|] == t;
      t + "d"
    else t + "d"
  }

  /** A well-formed range is echoed back unchanged, and the default echoes "7d". */
  lemma RangeEchoRoundTrip(n: nat, lit: LiteralReader, showOther: real -> string)
    requires 0 < n <= MaxExactInteger
    requires ReadsDecimalIntegers(lit)
    ensures RangeLabel(ParseDays(Some(NatToDecimal(n) + "d"), lit), showOther) == NatToDecimal(n) + "d"
    ensures RangeLabel(ParseDays(None, lit), showOther) == "7d"
  {
    PositiveRangeParses(n, lit);
    assert (n as real).Floor == n;
    DefaultRangeIsSevenDays(lit);
    assert (7.0).Floor == 7;
  }

  // ---- Funnel conversions ----

  /** One element of the `pages` array: a tracked page with its aggregated metrics. */
  datatype PageRow = PageRow(slug: string, pageLabel: string, url: string, pagePath: string,
                             sortOrder: int, views: real, avgEngagement: real)

  /** `pages.find(p => p.slug === slug)?.views ?? 0`. */
  function FindViews(pages: seq<PageRow>, slug: string): (v: real)
    ensures (forall i :: 0 <= i < |pages| ==> pages[i].slug != slug) ==> v == 0.0
    ensures forall i :: (0 <= i < |pages| && pages[i].slug == slug &&
                         (forall j :: 0 <= j < i ==> pages[j].slug != slug)) ==> v == pages[i].views
    decreases |pages|
  {
    if pages == [] then 0.0
    else if pages[0].slug == slug then pages[0].views
    else FindViews(pages[1..], slug)
  }

  /** `reference ? (stage / reference) * 100 : 0`. */
  function Ratio(stage: real, reference: real): (r: real)
    ensures reference == 0.0 ==> r == 0.0
    ensures reference != 0.0 ==> r * reference == stage * 100.0
  {
    if reference != 0.0 then (stage / reference) * 100.0 else 0.0
  }

  datatype Conversions = Conversions(
    signupVsVsl: real,
    confirmationVsVsl: real,
    aula1VsConfirmation: real,
    aula2VsConfirmation: real,
    aula3VsConfirmation: real)

  /**
   * Signup and confirmation are measured against the VSL page; the three
   * lessons against the confirmation page.
   */
  function ComputeConversions(pages: seq<PageRow>): (c: Conversions)
    ensures var vsl := FindViews(pages, "vsl");
            c.signupVsVsl == Ratio(FindViews(pages, "signup"), vsl) &&
            c.confirmationVsVsl == Ratio(FindViews(pages, "confirmation"), vsl)
    ensures var confirmation := FindViews(pages, "confirmation");
            c.aula1VsConfirmation == Ratio(FindViews(pages, "aula1"), confirmation) &&
            c.aula2VsConfirmation == Ratio(FindViews(pages, "aula2"), confirmation) &&
            c.aula3VsConfirmation == Ratio(FindViews(pages, "aula3"), confirmation)
  {
    var vsl := FindViews(pages, "vsl");
    var confirmation := FindViews(pages, "confirmation");
    Conversions(
      Ratio(FindViews(pages, "signup"), vsl),
      Ratio(FindViews(pages, "confirmation"), vsl),
      Ratio(FindViews(pages, "aula1"), confirmation),
      Ratio(FindViews(pages, "aula2"), confirmation),
      Ratio(FindViews(pages, "aula3"), confirmation))
  }

  /** Every ratio keyed off a reference page that is missing or has no views is 0. */
  lemma ZeroReferenceGivesZero(pages: seq<PageRow>)
    ensures FindViews(pages, "vsl") == 0.0 ==>
              ComputeConversions(pages).signupVsVsl == 0.0 && ComputeConversions(pages).confirmationVsVsl == 0.0
    ensures FindViews(pages, "confirmation") == 0.0 ==>
              ComputeConversions(pages).aula1VsConfirmation == 0.0 &&
              ComputeConversions(pages).aula2VsConfirmation == 0.0 &&
              ComputeConversions(pages).aula3VsConfirmation == 0.0
  {
  }

  /** 200 VSL views and 50 signup views give a signup conversion of 25. */
  lemma SignupConversionExample(vsl: PageRow, signup: PageRow)
    requires vsl.slug == "vsl" && vsl.views == 200.0
    requires signup.slug == "signup" && signup.views == 50.0
    ensures ComputeConversions([vsl, signup]).signupVsVsl == 25.0
  {
    assert FindViews([vsl, signup], "vsl") == 200.0;
    assert FindViews([vsl, signup], "signup") == FindViews([signup], "signup") == 50.0;
  }

  // ---- The two aggregation queries ----

  /** A row of `metrics_timeseries`. */
  datatype MetricFact = MetricFact(source: string, metric: string, dimensionType: string,
                                   dimensionValue: string, ts: Time, value: real)

  /** The LEFT JOIN condition: a page fact for this path inside the window. */
  predicate Joins(f: MetricFact, pagePath: string, cutoff: Time) {
    f.dimensionType == "page" && f.dimensionValue == pagePath && f.ts >= cutoff
  }

  /** A fact whose `CASE WHEN mt.metric = m THEN mt.value END` is not NULL for this page. */
  predicate Selected(f: MetricFact, metric: string, pagePath: string, cutoff: Time) {
    Joins(f, pagePath, cutoff) && f.metric == metric
  }

  /** No fact is selected for this metric and page. */
  predicate NoneSelected(facts: seq<MetricFact>, metric: string, pagePath: string, cutoff: Time) {
    forall i :: 0 <= i < |facts| ==> !Selected(facts[i], metric, pagePath, cutoff)
  }

  /** Every fact is selected for this metric and page. */
  predicate AllSelected(facts: seq<MetricFact>, metric: string, pagePath: string, cutoff: Time) {
    forall i :: 0 <= i < |facts| ==> Selected(facts[i], metric, pagePath, cutoff)
  }

  /** `SUM(CASE WHEN mt.metric = m THEN mt.value END)`, with an empty sum read as 0. */
  function MetricSum(facts: seq<MetricFact>, metric: string, pagePath: string, cutoff: Time): (total: real)
    ensures NoneSelected(facts, metric, pagePath, cutoff) ==> total == 0.0
    decreases |facts|
  {
    if facts == [] then 0.0
    else
      assert forall i :: 0 <= i < |facts[1..]| ==> facts[1..][i] == facts[i + 1];
      (if Selected(facts[0], metric, pagePath, cutoff) then facts[0].value else 0.0)
      + MetricSum(facts[1..], metric, pagePath, cutoff)
  }

  /** How many joined facts carry the metric: the number of non-NULL CASE values. */
  function MetricCount(facts: seq<MetricFact>, metric: string, pagePath: string, cutoff: Time): (n: nat)
    ensures n <= |facts|
    ensures n == 0 <==> NoneSelected(facts, metric, pagePath, cutoff)
    ensures AllSelected(facts, metric, pagePath, cutoff) ==> n == |facts|
    decreases |facts|
  {
    if facts == [] then 0
    else
      assert forall i :: 0 <= i < |facts[1..]| ==> facts[1..][i] == facts[i + 1];
      (if Selected(facts[0], metric, pagePath, cutoff) then 1 else 0)
      + MetricCount(facts[1..], metric, pagePath, cutoff)
  }

  /** A single fact counts once, with its value, exactly when it is selected. */
  lemma MetricOfOneFact(f: MetricFact, metric: string, pagePath: string, cutoff: Time)
    ensures MetricCount([f], metric, pagePath, cutoff) == if Selected(f, metric, pagePath, cutoff) then 1 else 0
    ensures MetricSum([f], metric, pagePath, cutoff) == if Selected(f, metric, pagePath, cutoff) then f.value else 0.0
  {
    assert [f][1..] == [];
  }

  /** Both metric aggregates split over a concatenation of facts. */
  lemma {:induction false} MetricSplit(a: seq<MetricFact>, b: seq<MetricFact>, metric: string, pagePath: string, cutoff: Time)
    ensures MetricCount(a + b, metric, pagePath, cutoff) == MetricCount(a, metric, pagePath, cutoff) + MetricCount(b, metric, pagePath, cutoff)
    ensures MetricSum(a + b, metric, pagePath, cutoff) == MetricSum(a, metric, pagePath, cutoff) + MetricSum(b, metric, pagePath, cutoff)
    decreases |a|
  {
    if a == [] {
      assert a + b == b;
    } else {
      assert (a + b)[0] == a[0] && (a + b)[1..] == a[1..] + b;
      MetricSplit(a[1..], b, metric, pagePath, cutoff);
    }
  }

  /** `COALESCE(AVG(...), 0)`: the mean of the joined engagement facts, 0 when there are none. */
  function AvgEngagement(facts: seq<MetricFact>, pagePath: string, cutoff: Time): (avg: real)
    ensures MetricCount(facts, "engagement", pagePath, cutoff) == 0 ==> avg == 0.0
    ensures MetricCount(facts, "engagement", pagePath, cutoff) > 0 ==>
              avg * MetricCount(facts, "engagement", pagePath, cutoff) as real ==
              MetricSum(facts, "engagement", pagePath, cutoff)
  {
    var n := MetricCount(facts, "engagement", pagePath, cutoff);
    if n == 0 then 0.0 else MetricSum(facts, "engagement", pagePath, cutoff) / n as real
  }

  /** `n` copies of `x` added up: `n * x` without multiplication. */
  function Repeat(n: nat, x: real): real
    decreases n
  {
    if n == 0 then 0.0 else x + Repeat(n - 1, x)
  }

  lemma {:induction false} RepeatIsProduct(n: nat, x: real)
    ensures Repeat(n, x) == n as real * x
    decreases n
  {
    if n > 0 {
      RepeatIsProduct(n - 1, x);
      assert (n - 1) as real * x + x == n as real * x;
    }
  }

  /** The joined facts' values bound their sum by their count. */
  lemma {:induction false} MetricSumBounds(facts: seq<MetricFact>, metric: string, pagePath: string,
                                           cutoff: Time, lo: real, hi: real)
    requires forall i :: 0 <= i < |facts| && Selected(facts[i], metric, pagePath, cutoff) ==>
               lo <= facts[i].value <= hi
    ensures var n := MetricCount(facts, metric, pagePath, cutoff);
            Repeat(n, lo) <= MetricSum(facts, metric, pagePath, cutoff) <= Repeat(n, hi)
    decreases |facts|
  {
    if facts != [] {
      var rest := facts[1..];
      assert forall i :: 0 <= i < |rest| ==> rest[i] == facts[i + 1];
      MetricSumBounds(rest, metric, pagePath, cutoff, lo, hi);
      if Selected(facts[0], metric, pagePath, cutoff) {
        assert lo <= facts[0].value <= hi;
      }
    }
  }

  /** The average engagement lies within any bounds that hold for every joined value. */
  lemma AvgEngagementWithinBounds(facts: seq<MetricFact>, pagePath: string, cutoff: Time, lo: real, hi: real)
    requires forall i :: 0 <= i < |facts| && Selected(facts[i], "engagement", pagePath, cutoff) ==>
               lo <= facts[i].value <= hi
    requires MetricCount(facts, "engagement", pagePath, cutoff) > 0
    ensures lo <= AvgEngagement(facts, pagePath, cutoff) <= hi
  {
    var n := MetricCount(facts, "engagement", pagePath, cutoff);
    var s := MetricSum(facts, "engagement", pagePath, cutoff);
    MetricSumBounds(facts, "engagement", pagePath, cutoff, lo, hi);
    QuotientBounds(s, n, lo, hi);
    assert AvgEngagement(facts, pagePath, cutoff) == s / n as real;
  }

  /** A sum of n terms bounded by n copies of `lo` and of `hi` has its mean between them. */
  lemma QuotientBounds(s: real, n: nat, lo: real, hi: real)
    requires n > 0 && Repeat(n, lo) <= s <= Repeat(n, hi)
    ensures lo <= s / n as real <= hi
  {
    RepeatIsProduct(n, lo);
    RepeatIsProduct(n, hi);
    var m := n as real;
    var q := s / m;
    assert s == m * q;
    assert m * (q - lo) >= 0.0 && m * (hi - q) >= 0.0;
  }

  /** A row of `config_tracked_pages`. */
  datatype TrackedPage = TrackedPage(slug: string, pageLabel: string, url: string, pagePath: string,
                                     sortOrder: int, isActive: bool)

  predicate SortedBySortOrder(tracked: seq<TrackedPage>) {
    forall i, j :: 0 <= i < j < |tracked| ==> tracked[i].sortOrder <= tracked[j].sortOrder
  }

  /** The grouped row of one tracked page: its columns and its window aggregates. */
  function RowOf(tp: TrackedPage, facts: seq<MetricFact>, cutoff: Time): (row: PageRow)
    ensures row.slug == tp.slug && row.pageLabel == tp.pageLabel && row.url == tp.url &&
            row.pagePath == tp.pagePath && row.sortOrder == tp.sortOrder
    ensures row.views == MetricSum(facts, "views", tp.pagePath, cutoff)
    ensures row.avgEngagement == AvgEngagement(facts, tp.pagePath, cutoff)
  {
    PageRow(tp.slug, tp.pageLabel, tp.url, tp.pagePath, tp.sortOrder,
            MetricSum(facts, "views", tp.pagePath, cutoff), AvgEngagement(facts, tp.pagePath, cutoff))
  }

  /** `WHERE tp.is_active = TRUE`: the active tracked pages, in their order. */
  function ActivePages(tracked: seq<TrackedPage>): (active: seq<TrackedPage>)
    ensures |active| <= |tracked|
    ensures forall tp :: tp in active ==> tp in tracked && tp.isActive
    ensures forall tp :: tp in tracked && tp.isActive ==> tp in active
    decreases |tracked|
  {
    if tracked == [] then []
    else
      assert forall tp :: tp in tracked ==> tp == tracked[0] || tp in tracked[1..];
      if tracked[0].isActive then [tracked[0]] + ActivePages(tracked[1..])
      else ActivePages(tracked[1..])
  }

  /**
   * The first query: one row per active tracked page in `sort_order`, with
   * its summed views and averaged engagement inside the window.
   */
  function PageRows(tracked: seq<TrackedPage>, facts: seq<MetricFact>, cutoff: Time): (rows: seq<PageRow>)
    ensures |rows| <= |tracked|
    ensures forall i :: 0 <= i < |rows| ==>
              rows[i].views == MetricSum(facts, "views", rows[i].pagePath, cutoff) &&
              rows[i].avgEngagement == AvgEngagement(facts, rows[i].pagePath, cutoff)
    decreases |tracked|
  {
    if tracked == [] then []
    else
      var rest := PageRows(tracked[1..], facts, cutoff);
      if tracked[0].isActive then [RowOf(tracked[0], facts, cutoff)] + rest else rest
  }

  /** The rows are exactly the active tracked pages, in order, each grouped with its facts. */
  lemma {:induction false} PageRowsAreActivePages(tracked: seq<TrackedPage>, facts: seq<MetricFact>, cutoff: Time)
    ensures |PageRows(tracked, facts, cutoff)| == |ActivePages(tracked)|
    ensures forall i :: 0 <= i < |ActivePages(tracked)| ==>
              PageRows(tracked, facts, cutoff)[i] == RowOf(ActivePages(tracked)[i], facts, cutoff)
    decreases |tracked|
  {
    if tracked != [] {
      PageRowsAreActivePages(tracked[1..], facts, cutoff);
      var rows := PageRows(tracked, facts, cutoff);
      var rest := PageRows(tracked[1..], facts, cutoff);
      var active := ActivePages(tracked);
      var restActive := ActivePages(tracked[1..]);
      if tracked[0].isActive {
        assert rows == [RowOf(tracked[0], facts, cutoff)] + rest;
        assert active == [tracked[0]] + restActive;
        forall i | 0 <= i < |active| ensures rows[i] == RowOf(active[i], facts, cutoff) {
          if i > 0 {
            assert rows[i] == rest[i - 1] && active[i] == restActive[i - 1];
          }
        }
      } else {
        assert rows == rest && active == restActive;
      }
    }
  }

  /** No row comes from an inactive or untracked page: each is the grouped row of an active tracked page. */
  lemma RowsComeFromActivePages(tracked: seq<TrackedPage>, facts: seq<MetricFact>, cutoff: Time, i: nat)
    requires i < |PageRows(tracked, facts, cutoff)|
    ensures exists tp :: tp in tracked && tp.isActive && PageRows(tracked, facts, cutoff)[i] == RowOf(tp, facts, cutoff)
  {
    PageRowsAreActivePages(tracked, facts, cutoff);
    var tp := ActivePages(tracked)[i];
    assert tp in ActivePages(tracked);
  }

  lemma {:induction false} RowsBoundedBelow(tracked: seq<TrackedPage>, facts: seq<MetricFact>, cutoff: Time, lower: int)
    requires forall j :: 0 <= j < |tracked| ==> lower <= tracked[j].sortOrder
    ensures forall i :: 0 <= i < |PageRows(tracked, facts, cutoff)| ==> lower <= PageRows(tracked, facts, cutoff)[i].sortOrder
    decreases |tracked|
  {
    if tracked != [] {
      RowsBoundedBelow(tracked[1..], facts, cutoff, lower);
    }
  }

  predicate RowsSorted(rows: seq<PageRow>) {
    forall i, k :: 0 <= i < k < |rows| ==> rows[i].sortOrder <= rows[k].sortOrder
  }

  /** The rows keep the `ORDER BY sort_order` of the tracked pages. */
  lemma {:induction false} PageRowsSorted(tracked: seq<TrackedPage>, facts: seq<MetricFact>, cutoff: Time)
    ensures SortedBySortOrder(tracked) ==> RowsSorted(PageRows(tracked, facts, cutoff))
    decreases |tracked|
  {
    if tracked != [] && SortedBySortOrder(tracked) {
      PageRowsSorted(tracked[1..], facts, cutoff);
      RowsBoundedBelow(tracked[1..], facts, cutoff, tracked[0].sortOrder);
      var rows := PageRows(tracked, facts, cutoff);
      var rest := PageRows(tracked[1..], facts, cutoff);
      if tracked[0].isActive {
        assert rows[0] == RowOf(tracked[0], facts, cutoff) && rows[1..] == rest;
        forall i, k | 0 <= i < k < |rows| ensures rows[i].sortOrder <= rows[k].sortOrder {
          assert rows[k] == rest[k - 1];
          if i > 0 {
            assert rows[i] == rest[i - 1];
          }
        }
      } else {
        assert rows == rest;
      }
    }
  }

  /** Every active tracked page appears among the rows, even one without any facts (LEFT JOIN). */
  lemma EveryActivePageListed(tracked: seq<TrackedPage>, facts: seq<MetricFact>, cutoff: Time, j: nat)
    requires j < |tracked| && tracked[j].isActive
    ensures exists i :: 0 <= i < |PageRows(tracked, facts, cutoff)| &&
                        PageRows(tracked, facts, cutoff)[i] == RowOf(tracked[j], facts, cutoff)
  {
    PageRowsAreActivePages(tracked, facts, cutoff);
    assert tracked[j] in tracked;
    var active := ActivePages(tracked);
    var i :| 0 <= i < |active| && active[i] == tracked[j];
    assert PageRows(tracked, facts, cutoff)[i] == RowOf(tracked[j], facts, cutoff);
  }

  /** The second query: `COUNT(*)` and `COALESCE(SUM(amount), 0)` over the sales
      whose `COALESCE(occurred_at, received_at)` is inside the window. */
  predicate SaleInWindow(r: Row, cutoff: Time) {
    (if r.occurredAt.Some? then r.occurredAt.value else r.receivedAt) >= cutoff
  }

  function SalesCount(rows: seq<Row>, cutoff: Time): (n: nat)
    ensures n <= |rows|
    ensures n == 0 <==> forall i :: 0 <= i < |rows| ==> !SaleInWindow(rows[i], cutoff)
    ensures (forall i :: 0 <= i < |rows| ==> SaleInWindow(rows[i], cutoff)) ==> n == |rows|
    decreases |rows|
  {
    if rows == [] then 0
    else
      assert forall i :: 0 <= i < |rows[1..]| ==> rows[1..][i] == rows[i + 1];
      (if SaleInWindow(rows[0], cutoff) then 1 else 0) + SalesCount(rows[1..], cutoff)
  }

  /** `SUM` skips NULL amounts; a window with no amounts sums to 0. */
  function SalesRevenue(rows: seq<Row>, cutoff: Time): (revenue: real)
    ensures (forall i :: 0 <= i < |rows| ==> !SaleInWindow(rows[i], cutoff) || rows[i].amount.None?) ==>
              revenue == 0.0
    decreases |rows|
  {
    if rows == [] then 0.0
    else
      assert forall i :: 0 <= i < |rows[1..]| ==> rows[1..][i] == rows[i + 1];
      (if SaleInWindow(rows[0], cutoff) && rows[0].amount.Some? then rows[0].amount.value else 0.0)
      + SalesRevenue(rows[1..], cutoff)
  }

  /** A single sale counts once, with its amount if it has one, exactly when it is in the window. */
  lemma SalesOfOneRow(r: Row, cutoff: Time)
    ensures SalesCount([r], cutoff) == if SaleInWindow(r, cutoff) then 1 else 0
    ensures SalesRevenue([r], cutoff) == if SaleInWindow(r, cutoff) && r.amount.Some? then r.amount.value else 0.0
  {
    assert [r][1..] == [];
  }

  /** Both sales aggregates split over a concatenation of scanned rows. */
  lemma {:induction false} SalesSplit(a: seq<Row>, b: seq<Row>, cutoff: Time)
    ensures SalesCount(a + b, cutoff) == SalesCount(a, cutoff) + SalesCount(b, cutoff)
    ensures SalesRevenue(a + b, cutoff) == SalesRevenue(a, cutoff) + SalesRevenue(b, cutoff)
    decreases |a|
  {
    if a == [] {
      assert a + b == b;
    } else {
      assert (a + b)[0] == a[0] && (a + b)[1..] == a[1..] + b;
      SalesSplit(a[1..], b, cutoff);
    }
  }

  /** The response: echoed range, the funnel and the sales summary. */
  datatype OverviewReply = OverviewReply(range: string, pages: seq<PageRow>, conversions: Conversions,
                                         salesCount: nat, revenue: real)

  /**
   * The whole endpoint, given the tracked pages in `sort_order`, the metric
   * facts, the scanned sales rows and the window start for the parsed days.
   */
  function GetOverview(range: Option<string>, lit: LiteralReader, showOther: real -> string,
                       tracked: seq<TrackedPage>, facts: seq<MetricFact>, sales: seq<Row>,
                       cutoff: Time): (r: OverviewReply)
    ensures r.range == RangeLabel(ParseDays(range, lit), showOther)
    ensures r.pages == PageRows(tracked, facts, cutoff)
    ensures SortedBySortOrder(tracked) ==> RowsSorted(r.pages)
    ensures r.conversions == ComputeConversions(r.pages)
    ensures r.salesCount == SalesCount(sales, cutoff) && r.revenue == SalesRevenue(sales, cutoff)
  {
    var pages := PageRows(tracked, facts, cutoff);
    PageRowsSorted(tracked, facts, cutoff);
    OverviewReply(RangeLabel(ParseDays(range, lit), showOther), pages, ComputeConversions(pages),
                  SalesCount(sales, cutoff), SalesRevenue(sales, cutoff))
  }
}
