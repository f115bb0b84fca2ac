/** The data computations of the dashboard (ppe-dashboard/src/App.js): the chart
    counters, the site compliance score, the per-day trend, the filter chain and the
    lists of distinct values. Rendering, state hooks and the HTTP fetch are not part of
    this model. */
module Dashboard {
  import opened Wrappers
  import opened Seqs
  import opened Dicts
  import opened SiteStore

  /** The fields of a `/violations` row the computations read; a JSON null is `Null`. */
  datatype Violation = Violation(date: Cell, siteName: Cell, riskLevel: Cell)

  /** The property key a value becomes when it indexes an object (`String(v)`). */
  function KeyOf(c: Cell): string {
    match c
    case Null => "null"
    case Text(s) => s
  }

  // ---------------------------------------------------------------- bar chart

  /** `{ compliant: 0, medium: 0, high: 0 }`. */
  function BarInitial(): Dict<string, nat> {
    Dict([("compliant", 0), ("medium", 0), ("high", 0)])
  }

  lemma BarInitialZero(k: string)
    ensures ValueOr(BarInitial(), k, 0) == 0
    ensures SumValues(BarInitial()) == 0
  {
    var d := BarInitial();
    var d1 := Dict([("compliant", 0)]);
    assert d1.items[..0] == [];
    assert SumValues(d1) == 0;
    var d2 := Dict([("compliant", 0), ("medium", 0)]);
    assert d2.items[..1] == d1.items;
    assert SumValues(d2) == 0;
    assert d.items[..2] == d2.items;
    if k in Keys(d) {
      assert d.items[FirstIndex(Keys(d), k)].1 == 0;
    }
  }

  /** The risk level of every row as an object key. */
  function RiskKeys(vs: seq<Violation>): (ks: seq<string>)
    ensures |ks| == |vs|
    ensures forall i :: 0 <= i < |vs| ==> ks[i] == KeyOf(vs[i].riskLevel)
  {
    if vs == [] then [] else RiskKeys(vs[..|vs| - 1]) + [KeyOf(vs[|vs| - 1].riskLevel)]
  }

  /** The counts after the `forEach` of `ViolationBarChart` (App.js:32-35). */
  function BarSpec(vs: seq<Violation>): Dict<string, nat> {
    if vs == [] then BarInitial() else AddTo(BarSpec(vs[..|vs| - 1]), KeyOf(vs[|vs| - 1].riskLevel), 1)
  }

  method BarCounts(violations: seq<Violation>) returns (counts: Dict<string, nat>)
    ensures counts == BarSpec(violations)
  {
    counts := BarInitial();
    for i := 0 to |violations|
      invariant counts == BarSpec(violations[..i])
    {
      assert violations[..i + 1][..i] == violations[..i];
      counts := AddTo(counts, KeyOf(violations[i].riskLevel), 1);
    }
    assert violations[..|violations|] == violations;
  }

  /** Every row is counted under its exact risk level, with no case folding (a NULL
      level under "null"): the bars show how many rows carry exactly "compliant",
      "medium" and "high". */
  lemma {:induction false} BarCountsExact(vs: seq<Violation>, k: string)
    ensures ValueOr(BarSpec(vs), k, 0) == Count(RiskKeys(vs), k)
  {
    if vs == [] {
      BarInitialZero(k);
    } else {
      var init := vs[..|vs| - 1];
      var last := KeyOf(vs[|vs| - 1].riskLevel);
      BarCountsExact(init, k);
      AddToTracks(BarSpec(init), RiskKeys(init), last, k);
      assert RiskKeys(vs) == RiskKeys(init) + [last];
    }
  }

  /** The counts add up to the number of rows. */
  lemma {:induction false} BarCountsSum(vs: seq<Violation>)
    ensures SumValues(BarSpec(vs)) == |vs|
  {
    if vs == [] {
      BarInitialZero("compliant");
    } else {
      var init := vs[..|vs| - 1];
      BarCountsSum(init);
    }
  }

  // ---------------------------------------------------------------- case folding

  function LowerChar(c: char): char {
    if 'A' <= c <= 'Z' then (c as int + 32) as char else c
  }

  predicate IsUpper(c: char) {
    'A' <= c <= 'Z'
  }

  /** `String.prototype.toLowerCase` on ASCII letters: no capital letter is left, each
      capital becomes its small letter (32 code points further on) and every other
      character stays where it was. */
  function ToLower(s: string): (r: string)
    ensures |r| == |s|
    ensures forall i :: 0 <= i < |r| ==> !IsUpper(r[i])
    ensures forall i :: 0 <= i < |s| && !IsUpper(s[i]) ==> r[i] == s[i]
    ensures forall i :: 0 <= i < |s| && IsUpper(s[i]) ==> r[i] as int == s[i] as int + 32
  {
    seq(|s|, i requires 0 <= i < |s| => LowerChar(s[i]))
  }

  /** Lowering twice is lowering once. */
  lemma ToLowerIdempotent(s: string)
    ensures ToLower(ToLower(s)) == ToLower(s)
  {
    var r := ToLower(s);
    assert forall i :: 0 <= i < |r| ==> ToLower(r)[i] == r[i];
  }

  const NullLevelMessage := "TypeError: Cannot read properties of null (reading 'toLowerCase')"

  /** The lowered risk level of every row (a NULL level stands as "null"). */
  function LoweredKeys(vs: seq<Violation>): (ks: seq<string>)
    ensures |ks| == |vs|
    ensures forall i :: 0 <= i < |vs| ==> ks[i] == ToLower(KeyOf(vs[i].riskLevel))
  {
    if vs == [] then [] else LoweredKeys(vs[..|vs| - 1]) + [ToLower(KeyOf(vs[|vs| - 1].riskLevel))]
  }

  // ---------------------------------------------------------------- pie chart

  datatype RiskCounts = RiskCounts(compliant: nat, medium: nat, high: nat)

  /** One pass of the `forEach` of `RiskDistributionPieChart` (App.js:148-155): the level
      is lowered (a NULL level throws) and only the three known levels are counted. */
  function PieStep(c: RiskCounts, v: Violation): Result<RiskCounts> {
    match v.riskLevel
    case Null => Err(NullLevelMessage)
    case Text(s) =>
      var level := ToLower(s);
      if level == "compliant" then Ok(c.(compliant := c.compliant + 1))
      else if level == "medium" then Ok(c.(medium := c.medium + 1))
      else if level == "high" then Ok(c.(high := c.high + 1))
      else Ok(c)
  }

  function PieSpec(vs: seq<Violation>): Result<RiskCounts> {
    if vs == [] then Ok(RiskCounts(0, 0, 0))
    else
      match PieSpec(vs[..|vs| - 1])
      case Err(m) => Err(m)
      case Ok(c) => PieStep(c, vs[|vs| - 1])
  }

  method PieCounts(violations: seq<Violation>) returns (r: Result<RiskCounts>)
    ensures r == PieSpec(violations)
  {
    var counts := RiskCounts(0, 0, 0);
    for i := 0 to |violations|
      invariant PieSpec(violations[..i]) == Ok(counts)
    {
      PieSpecStep(violations, i, counts);
      var v := violations[i];
      if v.riskLevel.Null? {
        PieErrSticks(violations, i + 1);
        return Err(NullLevelMessage);
      }
      var riskLevel := ToLower(v.riskLevel.s);
      if riskLevel == "compliant" {
        counts := counts.(compliant := counts.compliant + 1);
      } else if riskLevel == "medium" {
        counts := counts.(medium := counts.medium + 1);
      } else if riskLevel == "high" {
        counts := counts.(high := counts.high + 1);
      }
    }
    assert violations[..|violations|] == violations;
    r := Ok(counts);
  }

  lemma PieSpecStep(vs: seq<Violation>, i: nat, c: RiskCounts)
    requires i < |vs| && PieSpec(vs[..i]) == Ok(c)
    ensures PieSpec(vs[..i + 1]) == PieStep(c, vs[i])
  {
    assert vs[..i + 1][..i] == vs[..i];
  }

  lemma {:induction false} PieErrSticks(vs: seq<Violation>, n: nat)
    requires n <= |vs| && PieSpec(vs[..n]).Err?
    ensures PieSpec(vs) == PieSpec(vs[..n])
  {
    if n < |vs| {
      assert vs[..|vs| - 1][..n] == vs[..n];
      PieErrSticks(vs[..|vs| - 1], n);
    } else {
      assert vs[..n] == vs;
    }
  }

  /** The pie is drawn exactly when no row has a NULL risk level. */
  lemma {:induction false} PieOkIff(vs: seq<Violation>)
    ensures PieSpec(vs).Ok? <==> forall i :: 0 <= i < |vs| ==> vs[i].riskLevel.Text?
  {
    if vs != [] {
      var init := vs[..|vs| - 1];
      PieOkIff(init);
      assert forall i :: 0 <= i < |init| ==> init[i] == vs[i];
    }
  }

  /** Each slice counts the rows whose lowered risk level is its level, whatever the
      case of the stored level. */
  lemma {:induction false} PieCountsExact(vs: seq<Violation>)
    requires PieSpec(vs).Ok?
    ensures PieSpec(vs).value == RiskCounts(
      Count(LoweredKeys(vs), "compliant"), Count(LoweredKeys(vs), "medium"), Count(LoweredKeys(vs), "high"))
  {
    if vs != [] {
      var init := vs[..|vs| - 1];
      var k := ToLower(KeyOf(vs[|vs| - 1].riskLevel));
      PieCountsExact(init);
      CountSnoc(LoweredKeys(init), k, "compliant");
      CountSnoc(LoweredKeys(init), k, "medium");
      CountSnoc(LoweredKeys(init), k, "high");
    }
  }

  /** Rows at any other level are dropped: the three slices together count at most all
      rows, and all of them exactly when every lowered level is one of the three. */
  lemma PieSlicesCover(vs: seq<Violation>)
    requires PieSpec(vs).Ok?
    ensures var c := PieSpec(vs).value;
      c.compliant + c.medium + c.high == TotalCount(PieLevels(), LoweredKeys(vs))
    ensures var c := PieSpec(vs).value;
      (forall i :: 0 <= i < |vs| ==> LoweredKeys(vs)[i] in PieLevels()) <==>
      c.compliant + c.medium + c.high == |vs|
  {
    var ks := LoweredKeys(vs);
    PieCountsExact(vs);
    TotalCountOfLevels(ks);
    if forall i :: 0 <= i < |vs| ==> ks[i] in PieLevels() {
      TotalCountCovers(PieLevels(), ks);
    }
    if TotalCount(PieLevels(), ks) == |vs| {
      TotalCountAtMost(PieLevels(), ks);
      forall i | 0 <= i < |vs| ensures ks[i] in PieLevels() {
        assert ks[i] in ks;
      }
    }
  }

  /** The three levels the pie and the site scores know. */
  function PieLevels(): (ks: seq<string>)
    ensures Distinct(ks)
  {
    assert "compliant"[0] == 'c' && "medium"[0] == 'm' && "high"[0] == 'h';
    ["compliant", "medium", "high"]
  }

  lemma TotalCountOfLevels(s: seq<string>)
    ensures TotalCount(PieLevels(), s) == Count(s, "compliant") + Count(s, "medium") + Count(s, "high")
  {
    var ks := PieLevels();
    assert ks[..1][..0] == [];
    assert TotalCount(ks[..1], s) == Count(s, "compliant");
    assert ks[..2][..1] == ks[..1];
    assert TotalCount(ks[..2], s) == Count(s, "compliant") + Count(s, "medium");
    assert ks[..3][..2] == ks[..2];
    assert ks[..3] == ks;
  }

  // ---------------------------------------------------------------- site compliance scores

  /** `{ high, medium, compliant }` of one site. */
  datatype LevelCounts = LevelCounts(high: nat, medium: nat, compliant: nat)

  const NoCounts := LevelCounts(0, 0, 0)

  /** `siteData[siteName][riskLevel] += 1` when `WEIGHTS` knows the level. */
  function CountLevel(c: LevelCounts, level: string): LevelCounts {
    if level == "compliant" then c.(compliant := c.compliant + 1)
    else if level == "medium" then c.(medium := c.medium + 1)
    else if level == "high" then c.(high := c.high + 1)
    else c
  }

  /** One pass of the `forEach` of `SiteComplianceChart` (App.js:76-87): a NULL level
      throws; otherwise the site's counts are created when missing and the lowered level
      counted. */
  function SiteStep(data: Dict<string, LevelCounts>, v: Violation): Result<Dict<string, LevelCounts>> {
    match v.riskLevel
    case Null => Err(NullLevelMessage)
    case Text(s) =>
      var site := KeyOf(v.siteName);
      Ok(Put(data, site, CountLevel(ValueOr(data, site, NoCounts), ToLower(s))))
  }

  function SiteTally(vs: seq<Violation>): Result<Dict<string, LevelCounts>> {
    if vs == [] then Ok(Empty())
    else
      match SiteTally(vs[..|vs| - 1])
      case Err(m) => Err(m)
      case Ok(d) => SiteStep(d, vs[|vs| - 1])
  }

  /** The weighted score of one site before `toFixed(2)` (App.js:91-102): compliant rows
      weigh 3, medium 2, high 1, normalised by 3 per counted row; 0 without counted rows. */
  function ComplianceScore(c: LevelCounts): real {
    var total := c.high + c.medium + c.compliant;
    if total == 0 then 0.0
    else ((3 * c.compliant + 2 * c.medium + c.high) as real / (total * 3) as real) * 100.0
  }

  datatype SiteScore = SiteScore(site: string, score: real)

  /** `Object.keys(siteData).map(...)` (App.js:90-103). */
  function Scores(data: Dict<string, LevelCounts>): (ss: seq<SiteScore>)
    ensures |ss| == |data.items|
    ensures forall i :: 0 <= i < |ss| ==> ss[i] == SiteScore(data.items[i].0, ComplianceScore(data.items[i].1))
  {
    seq(|data.items|, i requires 0 <= i < |data.items| => SiteScore(data.items[i].0, ComplianceScore(data.items[i].1)))
  }

  /** What `SiteComplianceChart` lists; an empty input lists nothing (App.js:65-68). */
  function SiteScoresSpec(vs: seq<Violation>): Result<seq<SiteScore>> {
    if vs == [] then Ok([])
    else
      match SiteTally(vs)
      case Err(m) => Err(m)
      case Ok(d) => Ok(Scores(d))
  }

  method SiteComplianceScores(violations: seq<Violation>) returns (r: Result<seq<SiteScore>>)
    ensures r == SiteScoresSpec(violations)
  {
    if |violations| == 0 {
      return Ok([]);
    }
    var siteData := Empty();
    for i := 0 to |violations|
      invariant SiteTally(violations[..i]) == Ok(siteData)
    {
      SiteTallyStep(violations, i, siteData);
      var v := violations[i];
      if v.riskLevel.Null? {
        SiteErrSticks(violations, i + 1);
        return Err(NullLevelMessage);
      }
      var riskLevel := ToLower(v.riskLevel.s);
      var siteName := KeyOf(v.siteName);
      var counts := ValueOr(siteData, siteName, NoCounts);
      siteData := Put(siteData, siteName, CountLevel(counts, riskLevel));
    }
    assert violations[..|violations|] == violations;
    r := Ok(Scores(siteData));
  }

  lemma SiteTallyStep(vs: seq<Violation>, i: nat, d: Dict<string, LevelCounts>)
    requires i < |vs| && SiteTally(vs[..i]) == Ok(d)
    ensures SiteTally(vs[..i + 1]) == SiteStep(d, vs[i])
  {
    assert vs[..i + 1][..i] == vs[..i];
  }

  lemma {:induction false} SiteErrSticks(vs: seq<Violation>, n: nat)
    requires n <= |vs| && SiteTally(vs[..n]).Err?
    ensures SiteTally(vs) == SiteTally(vs[..n])
  {
    if n < |vs| {
      assert vs[..|vs| - 1][..n] == vs[..n];
      SiteErrSticks(vs[..|vs| - 1], n);
    } else {
      assert vs[..n] == vs;
    }
  }

  /** The chart lists each site once, in the order the sites first appear, and scores
      each one from its own rows at the three lowered levels. */
  lemma SiteScoresExact(vs: seq<Violation>)
    requires vs != [] && SiteScoresSpec(vs).Ok?
    ensures |SiteScoresSpec(vs).value| == |Dedup(SiteKeys(vs))|
    ensures forall i :: 0 <= i < |SiteScoresSpec(vs).value| ==>
      var site := Dedup(SiteKeys(vs))[i];
      SiteScoresSpec(vs).value[i] == SiteScore(site, ComplianceScore(LevelCounts(SiteLevelCount(vs, site, "high"),
        SiteLevelCount(vs, site, "medium"), SiteLevelCount(vs, site, "compliant"))))
  {
    var d := SiteTally(vs).value;
    SitesListed(vs);
    forall i | 0 <= i < |d.items|
      ensures d.items[i].1 == LevelCounts(SiteLevelCount(vs, d.items[i].0, "high"),
        SiteLevelCount(vs, d.items[i].0, "medium"), SiteLevelCount(vs, d.items[i].0, "compliant"))
    {
      ValueAtUniqueKey(d, i, NoCounts);
      SiteCountsExact(vs, d.items[i].0);
    }
  }

  /** A score is 0 without counted rows and otherwise lies between 100/3 (all high) and
      100 (all compliant). */
  lemma ScoreRange(c: LevelCounts)
    ensures c.high + c.medium + c.compliant == 0 ==> ComplianceScore(c) == 0.0
    ensures c.high + c.medium + c.compliant > 0 ==> 100.0 / 3.0 <= ComplianceScore(c) <= 100.0
    ensures ComplianceScore(c) == 100.0 <==> c.compliant > 0 && c.medium == 0 && c.high == 0
    ensures c.high + c.medium + c.compliant > 0 ==> (ComplianceScore(c) == 100.0 / 3.0 <==> c.medium == 0 && c.compliant == 0)
  {
    var total := c.high + c.medium + c.compliant;
    if total > 0 {
      var w := 3 * c.compliant + 2 * c.medium + c.high;
      assert (total * 3) as real == 3.0 * total as real;
      WeightedRatio(w as real, total as real);
      assert w == 3 * total <==> c.medium == 0 && c.high == 0;
      assert w == total <==> c.medium == 0 && c.compliant == 0;
    }
  }

  /** A weight between `t` and `3t`, normalised by `3t` and scaled to a percentage. */
  lemma WeightedRatio(w: real, t: real)
    requires 0.0 < t <= w <= 3.0 * t
    ensures 100.0 / 3.0 <= w / (3.0 * t) * 100.0 <= 100.0
    ensures w / (3.0 * t) * 100.0 == 100.0 <==> w == 3.0 * t
    ensures w / (3.0 * t) * 100.0 == 100.0 / 3.0 <==> w == t
  {
    var q := w / (3.0 * t);
    assert q * (3.0 * t) == w;
    assert 1.0 / 3.0 <= q <= 1.0;
    if q * 100.0 == 100.0 {
      assert q == 1.0;
    }
    if q * 100.0 == 100.0 / 3.0 {
      assert q == 1.0 / 3.0;
    }
  }

  /** The site key of every row (`String(v.Site_Name)`). */
  function SiteKeys(vs: seq<Violation>): (ks: seq<string>)
    ensures |ks| == |vs|
    ensures forall i :: 0 <= i < |vs| ==> ks[i] == KeyOf(vs[i].siteName)
  {
    if vs == [] then [] else SiteKeys(vs[..|vs| - 1]) + [KeyOf(vs[|vs| - 1].siteName)]
  }

  /** The sites are listed once each, in the order they first appear, whatever their
      levels: a site whose rows all have unknown levels is listed with score 0. */
  lemma {:induction false} SitesListed(vs: seq<Violation>)
    requires SiteTally(vs).Ok?
    ensures Keys(SiteTally(vs).value) == Dedup(SiteKeys(vs))
  {
    if vs != [] {
      var init := vs[..|vs| - 1];
      SiteTallyPrefixOk(vs);
      SitesListed(init);
      DedupSnoc(SiteKeys(init), KeyOf(vs[|vs| - 1].siteName));
    }
  }

  lemma SiteTallyPrefixOk(vs: seq<Violation>)
    requires vs != [] && SiteTally(vs).Ok?
    ensures SiteTally(vs[..|vs| - 1]).Ok?
  {
  }

  /** The rows of `site` at `level` once lowered. */
  function SiteLevelCount(vs: seq<Violation>, site: string, level: string): nat {
    if vs == [] then 0
    else
      var v := vs[|vs| - 1];
      SiteLevelCount(vs[..|vs| - 1], site, level) +
      if KeyOf(v.siteName) == site && ToLower(KeyOf(v.riskLevel)) == level then 1 else 0
  }

  /** Each site's counts are its rows at each lowered level. */
  lemma {:induction false} SiteCountsExact(vs: seq<Violation>, site: string)
    requires SiteTally(vs).Ok?
    ensures ValueOr(SiteTally(vs).value, site, NoCounts) ==
      LevelCounts(SiteLevelCount(vs, site, "high"), SiteLevelCount(vs, site, "medium"), SiteLevelCount(vs, site, "compliant"))
  {
    if vs != [] {
      SiteTallyPrefixOk(vs);
      SiteCountsExact(vs[..|vs| - 1], site);
    }
  }

  // ---------------------------------------------------------------- historical trend

  predicate Increasing(s: seq<int>) {
    forall i, j :: 0 <= i < j < |s| ==> s[i] < s[j]
  }

  function InsertAsc(x: int, s: seq<int>): (r: seq<int>)
    ensures |r| == |s| + 1
    ensures forall y :: y in r <==> y == x || y in s
  {
    if s == [] || x < s[0] then [x] + s
    else
      assert s == [s[0]] + s[1..];
      [s[0]] + InsertAsc(x, s[1..])
  }

  lemma {:induction false} InsertAscIncreasing(x: int, s: seq<int>)
    requires Increasing(s) && x !in s
    ensures Increasing(InsertAsc(x, s))
  {
    if !(s == [] || x < s[0]) {
      assert s == [s[0]] + s[1..];
      InsertAscIncreasing(x, s[1..]);
      var rest := InsertAsc(x, s[1..]);
      forall j | 0 <= j < |rest|
        ensures s[0] < rest[j]
      {
        assert rest[j] in rest;
      }
    }
  }

  /** `keys.sort((a, b) => new Date(a) - new Date(b))` on distinct days. */
  function SortAsc(s: seq<int>): (r: seq<int>)
    requires Distinct(s)
    ensures Increasing(r) && |r| == |s|
    ensures forall y :: y in r <==> y in s
  {
    if s == [] then []
    else
      assert s == [s[0]] + s[1..];
      InsertAscIncreasing(s[0], SortAsc(s[1..]));
      InsertAsc(s[0], SortAsc(s[1..]))
  }

  /** The labels and values of the line chart. Each label is the day `yyyy-MM-dd` names,
      as a day number, so that the chronological sort is the order of the numbers. */
  datatype TrendData = TrendData(labels: seq<int>, counts: seq<nat>)

  const InvalidDateMessage := "RangeError: Invalid time value"

  /** The counts after the `forEach` of `HistoricalTrendLineChart` (App.js:194-201).
      `dayOf` is `new Date(v.Date)` followed by `format(d, "yyyy-MM-dd")`; `None` is an
      invalid date, on which `format` throws. */
  function DayStep(d: Dict<int, nat>, v: Violation, dayOf: Cell -> Option<int>): Result<Dict<int, nat>> {
    match dayOf(v.date)
    case None => Err(InvalidDateMessage)
    case Some(day) => Ok(AddTo(d, day, 1))
  }

  function DayTally(vs: seq<Violation>, dayOf: Cell -> Option<int>): Result<Dict<int, nat>> {
    if vs == [] then Ok(Empty())
    else
      match DayTally(vs[..|vs| - 1], dayOf)
      case Err(m) => Err(m)
      case Ok(d) => DayStep(d, vs[|vs| - 1], dayOf)
  }

  /** Each day is counted under one key. */
  lemma {:induction false} DayKeysUnique(vs: seq<Violation>, dayOf: Cell -> Option<int>)
    requires DayTally(vs, dayOf).Ok?
    ensures UniqueKeys(DayTally(vs, dayOf).value)
  {
    if vs != [] {
      var init := vs[..|vs| - 1];
      DayKeysUnique(init, dayOf);
      var d := DayTally(init, dayOf).value;
      var day := dayOf(vs[|vs| - 1].date).value;
      AddToCount(d, day, 1, day);
    }
  }

  /** What the line chart shows (App.js:187-209); an empty input shows nothing. */
  function TrendSpec(vs: seq<Violation>, dayOf: Cell -> Option<int>): Result<TrendData> {
    if vs == [] then Ok(TrendData([], []))
    else
      match DayTally(vs, dayOf)
      case Err(m) => Err(m)
      case Ok(d) =>
        DayKeysUnique(vs, dayOf);
        Ok(TrendOf(d))
  }

  /** The sorted days and their counts (App.js:203-209). */
  function TrendOf(d: Dict<int, nat>): TrendData
    requires UniqueKeys(d)
  {
    var labels := SortAsc(Keys(d));
    TrendData(labels, seq(|labels|, i requires 0 <= i < |labels| => ValueOr(d, labels[i], 0)))
  }

  method TrendChart(violations: seq<Violation>, dayOf: Cell -> Option<int>) returns (r: Result<TrendData>)
    ensures r == TrendSpec(violations, dayOf)
  {
    if |violations| == 0 {
      return Ok(TrendData([], []));
    }
    var countsByDate := Empty();
    for i := 0 to |violations|
      invariant DayTally(violations[..i], dayOf) == Ok(countsByDate)
    {
      assert violations[..i + 1][..i] == violations[..i];
      var d := dayOf(violations[i].date);
      if d.None? {
        DayErrSticks(violations, i + 1, dayOf);
        return Err(InvalidDateMessage);
      }
      countsByDate := AddTo(countsByDate, d.value, 1);
    }
    assert violations[..|violations|] == violations;
    DayKeysUnique(violations, dayOf);
    r := Ok(TrendOf(countsByDate));
  }

  lemma {:induction false} DayErrSticks(vs: seq<Violation>, n: nat, dayOf: Cell -> Option<int>)
    requires n <= |vs| && DayTally(vs[..n], dayOf).Err?
    ensures DayTally(vs, dayOf) == DayTally(vs[..n], dayOf)
  {
    if n < |vs| {
      assert vs[..|vs| - 1][..n] == vs[..n];
      DayErrSticks(vs[..|vs| - 1], n, dayOf);
    } else {
      assert vs[..n] == vs;
    }
  }

  /** `format(new Date(v.Date), "yyyy-MM-dd")` does not throw. */
  predicate Dated(v: Violation, dayOf: Cell -> Option<int>) {
    dayOf(v.date).Some?
  }

  /** The chart is drawn exactly when every row's date is valid. */
  lemma {:induction false} TrendOkIff(vs: seq<Violation>, dayOf: Cell -> Option<int>)
    ensures DayTally(vs, dayOf).Ok? <==> forall i :: 0 <= i < |vs| ==> Dated(vs[i], dayOf)
  {
    if vs != [] {
      var init, last := vs[..|vs| - 1], vs[|vs| - 1];
      TrendOkIff(init, dayOf);
      DayTallyOkStep(vs, dayOf);
      DatedSnoc(vs, init, dayOf);
    }
  }

  lemma DatedSnoc(vs: seq<Violation>, init: seq<Violation>, dayOf: Cell -> Option<int>)
    requires vs != [] && init == vs[..|vs| - 1]
    ensures (forall i :: 0 <= i < |vs| ==> Dated(vs[i], dayOf)) <==>
      (forall i :: 0 <= i < |init| ==> Dated(init[i], dayOf)) && Dated(vs[|vs| - 1], dayOf)
  {
    assert forall i :: 0 <= i < |init| ==> init[i] == vs[i];
  }

  lemma DayTallyOkStep(vs: seq<Violation>, dayOf: Cell -> Option<int>)
    requires vs != []
    ensures DayTally(vs, dayOf).Ok? <==> DayTally(vs[..|vs| - 1], dayOf).Ok? && Dated(vs[|vs| - 1], dayOf)
  {
    var prior := DayTally(vs[..|vs| - 1], dayOf);
    if prior.Ok? {
      assert DayTally(vs, dayOf) == DayStep(prior.value, vs[|vs| - 1], dayOf);
    }
  }

  /** The day of every row (0 for an invalid date, which never reaches the chart). */
  function Days(vs: seq<Violation>, dayOf: Cell -> Option<int>): (ds: seq<int>)
    ensures |ds| == |vs|
    ensures forall i :: 0 <= i < |vs| && dayOf(vs[i].date).Some? ==> ds[i] == dayOf(vs[i].date).value
  {
    if vs == [] then []
    else
      var day := match dayOf(vs[|vs| - 1].date) { case Some(d) => d case None => 0 };
      Days(vs[..|vs| - 1], dayOf) + [day]
  }

  /** The days counted are the rows' days, each counted once per row. */
  lemma {:induction false} DayTallyExact(vs: seq<Violation>, dayOf: Cell -> Option<int>, day: int)
    requires DayTally(vs, dayOf).Ok?
    ensures ValueOr(DayTally(vs, dayOf).value, day, 0) == Count(Days(vs, dayOf), day)
    ensures day in Keys(DayTally(vs, dayOf).value) <==> day in Days(vs, dayOf)
  {
    if vs != [] {
      var init := vs[..|vs| - 1];
      var d := DayTally(init, dayOf).value;
      var last := dayOf(vs[|vs| - 1].date).value;
      assert DayTally(vs, dayOf).value == AddTo(d, last, 1);
      DaysSnoc(vs, dayOf);
      DayTallyExact(init, dayOf, day);
      AddToTracks(d, Days(init, dayOf), last, day);
    }
  }

  lemma DaysSnoc(vs: seq<Violation>, dayOf: Cell -> Option<int>)
    requires vs != [] && dayOf(vs[|vs| - 1].date).Some?
    ensures Days(vs, dayOf) == Days(vs[..|vs| - 1], dayOf) + [dayOf(vs[|vs| - 1].date).value]
  {
  }

  /** The number of occurrences in `s` of each key of `ks`, in the order of `ks`. */
  function CountsOf(ks: seq<int>, s: seq<int>): (cs: seq<nat>)
    ensures |cs| == |ks|
    ensures forall i :: 0 <= i < |ks| ==> cs[i] == Count(s, ks[i])
  {
    if ks == [] then [] else CountsOf(ks[..|ks| - 1], s) + [Count(s, ks[|ks| - 1])]
  }

  lemma {:induction false} SumCountsOf(ks: seq<int>, s: seq<int>)
    ensures Sum(CountsOf(ks, s)) == TotalCount(ks, s)
  {
    if ks != [] {
      SumCountsOf(ks[..|ks| - 1], s);
      var cs := CountsOf(ks, s);
      assert cs[..|cs| - 1] == CountsOf(ks[..|ks| - 1], s);
    }
  }

  /** The labels are the rows' days in strictly increasing order, each with the number of
      rows on that day, and the values add up to the number of rows. */
  lemma TrendExact(vs: seq<Violation>, dayOf: Cell -> Option<int>)
    requires TrendSpec(vs, dayOf).Ok?
    ensures var t := TrendSpec(vs, dayOf).value;
      Increasing(t.labels) &&
      (forall day :: day in t.labels <==> day in Days(vs, dayOf)) &&
      t.counts == CountsOf(t.labels, Days(vs, dayOf)) &&
      Sum(t.counts) == |vs|
  {
    if vs != [] {
      var d := DayTally(vs, dayOf).value;
      DayKeysUnique(vs, dayOf);
      assert TrendSpec(vs, dayOf).value == TrendOf(d);
      forall day
        ensures ValueOr(d, day, 0) == Count(Days(vs, dayOf), day)
        ensures day in Keys(d) <==> day in Days(vs, dayOf)
      {
        DayTallyExact(vs, dayOf, day);
      }
      TrendOfCounts(d, Days(vs, dayOf));
    }
  }

  /** A tally that counts the days `ds` gives the chart of `ds`. */
  lemma TrendOfCounts(d: Dict<int, nat>, ds: seq<int>)
    requires UniqueKeys(d)
    requires forall day :: ValueOr(d, day, 0) == Count(ds, day)
    requires forall day :: day in Keys(d) <==> day in ds
    ensures Increasing(TrendOf(d).labels)
    ensures forall day :: day in TrendOf(d).labels <==> day in ds
    ensures TrendOf(d).counts == CountsOf(TrendOf(d).labels, ds)
    ensures Sum(TrendOf(d).counts) == |ds|
  {
    TrendCountsOf(d, ds);
    var t := TrendOf(d);
    SumCountsOf(t.labels, ds);
    TotalCountCovers(t.labels, ds);
  }

  lemma TrendCountsOf(d: Dict<int, nat>, ds: seq<int>)
    requires UniqueKeys(d)
    requires forall day :: ValueOr(d, day, 0) == Count(ds, day)
    ensures TrendOf(d).counts == CountsOf(TrendOf(d).labels, ds)
  {
    var t := TrendOf(d);
    assert forall i :: 0 <= i < |t.counts| ==> t.counts[i] == Count(ds, t.labels[i]);
  }

  // ---------------------------------------------------------------- filter chain

  /** The filter state: the date bounds as instants, the selected site names and the
      selected risk level ("" when none). */
  datatype Filters = Filters(fromDate: Option<int>, toDate: Option<int>, selectedSites: seq<string>, selectedRiskLevel: string)

  /** `(!fromDate || violationDate >= fromDate) && (!toDate || violationDate <= toDate)`;
      `instant` is `new Date(v.Date)`, `None` an invalid date, which compares false. */
  predicate WithinDates(v: Violation, f: Filters, instant: Cell -> Option<int>) {
    (f.fromDate.None? || (instant(v.date).Some? && instant(v.date).value >= f.fromDate.value)) &&
    (f.toDate.None? || (instant(v.date).Some? && instant(v.date).value <= f.toDate.value))
  }

  /** `selectedValues.includes(v.Site_Name)`: a NULL name is never selected. */
  predicate SiteSelected(v: Violation, f: Filters) {
    v.siteName.Text? && v.siteName.s in f.selectedSites
  }

  predicate RiskSelected(v: Violation, f: Filters) {
    v.riskLevel == Text(f.selectedRiskLevel)
  }

  function DateTest(f: Filters, instant: Cell -> Option<int>): Violation -> bool {
    v => WithinDates(v, f, instant)
  }

  function SiteTest(f: Filters): Violation -> bool {
    v => SiteSelected(v, f)
  }

  function RiskTest(f: Filters): Violation -> bool {
    v => RiskSelected(v, f)
  }

  /** The filter chain (App.js:268-289): each filter applies only when it is set. */
  function FilterViolations(violations: seq<Violation>, f: Filters, instant: Cell -> Option<int>): seq<Violation> {
    var byDate := if f.fromDate.Some? || f.toDate.Some? then Keep(violations, DateTest(f, instant)) else violations;
    var bySite := if |f.selectedSites| > 0 then Keep(byDate, SiteTest(f)) else byDate;
    if f.selectedRiskLevel != "" then Keep(bySite, RiskTest(f)) else bySite
  }

  /** What a row must satisfy to stay: within the set date bounds, among the selected
      sites when some are selected, at the selected level when one is selected. */
  predicate Admitted(v: Violation, f: Filters, instant: Cell -> Option<int>) {
    WithinDates(v, f, instant) &&
    (|f.selectedSites| == 0 || SiteSelected(v, f)) &&
    (f.selectedRiskLevel == "" || RiskSelected(v, f))
  }

  function AdmitTest(f: Filters, instant: Cell -> Option<int>): Violation -> bool {
    v => Admitted(v, f, instant)
  }

  function SiteOrAll(f: Filters): Violation -> bool {
    v => |f.selectedSites| == 0 || SiteSelected(v, f)
  }

  function RiskOrAll(f: Filters): Violation -> bool {
    v => f.selectedRiskLevel == "" || RiskSelected(v, f)
  }

  function DateAndSite(f: Filters, instant: Cell -> Option<int>): Violation -> bool {
    v => WithinDates(v, f, instant) && (|f.selectedSites| == 0 || SiteSelected(v, f))
  }

  /** The chain is one filter by the conjunction of the set conditions. */
  lemma FilterIsKeep(violations: seq<Violation>, f: Filters, instant: Cell -> Option<int>)
    ensures FilterViolations(violations, f, instant) == Keep(violations, AdmitTest(f, instant))
  {
    var byDate := if f.fromDate.Some? || f.toDate.Some? then Keep(violations, DateTest(f, instant)) else violations;
    if !(f.fromDate.Some? || f.toDate.Some?) {
      KeepAll(violations, DateTest(f, instant));
    }
    assert byDate == Keep(violations, DateTest(f, instant));
    var bySite := if |f.selectedSites| > 0 then Keep(byDate, SiteTest(f)) else byDate;
    if |f.selectedSites| > 0 {
      KeepSame(byDate, SiteTest(f), SiteOrAll(f));
    } else {
      KeepAll(byDate, SiteOrAll(f));
    }
    assert bySite == Keep(byDate, SiteOrAll(f));
    KeepKeep(violations, DateTest(f, instant), SiteOrAll(f), DateAndSite(f, instant));
    if f.selectedRiskLevel != "" {
      KeepSame(bySite, RiskTest(f), RiskOrAll(f));
    } else {
      KeepAll(bySite, RiskOrAll(f));
    }
    KeepKeep(violations, DateAndSite(f, instant), RiskOrAll(f), AdmitTest(f, instant));
  }

  /** Two predicates that agree everywhere filter alike. */
  lemma {:induction false} KeepSame<T(!new)>(s: seq<T>, p: T -> bool, q: T -> bool)
    requires forall x :: p(x) == q(x)
    ensures Keep(s, p) == Keep(s, q)
  {
    if s != [] {
      KeepSame(s[1..], p, q);
    }
  }

  /** The rows shown are a subsequence of the fetched rows (order kept), and a fetched row
      is shown exactly when it satisfies every set filter. */
  lemma FilterSubsequence(violations: seq<Violation>, f: Filters, instant: Cell -> Option<int>)
    ensures IsSubseq(FilterViolations(violations, f, instant), violations)
    ensures forall v :: v in FilterViolations(violations, f, instant) <==> v in violations && Admitted(v, f, instant)
  {
    FilterIsKeep(violations, f, instant);
    KeepIsSubseq(violations, AdmitTest(f, instant));
  }

  /** With no filter set, every fetched row is shown. */
  lemma NoFiltersShowAll(violations: seq<Violation>, instant: Cell -> Option<int>)
    ensures FilterViolations(violations, Filters(None, None, [], ""), instant) == violations
  {
  }

  // ---------------------------------------------------------------- distinct values

  /** `filter(Boolean)` on strings and nulls: drops NULL and the empty string. */
  predicate Truthy(c: Cell) {
    c.Text? && c.s != ""
  }

  /** `[...new Set(cells)].filter(Boolean)` (App.js:248-250). */
  function UniqueValues(cells: seq<Cell>): (r: seq<Cell>)
    ensures Distinct(r)
    ensures forall c :: c in r <==> c in cells && Truthy(c)
    ensures IsSubseq(r, Dedup(cells))
  {
    KeepDistinct(Dedup(cells), Truthy);
    KeepIsSubseq(Dedup(cells), Truthy);
    Keep(Dedup(cells), Truthy)
  }

  function RiskLevels(vs: seq<Violation>): seq<Cell> {
    UniqueValues(seq(|vs|, i requires 0 <= i < |vs| => vs[i].riskLevel))
  }

  function SiteNames(vs: seq<Violation>): seq<Cell> {
    UniqueValues(seq(|vs|, i requires 0 <= i < |vs| => vs[i].siteName))
  }

  /** The risk levels offered: each non-empty level of some row, once, in the order of
      first appearance. */
  lemma RiskLevelsListed(vs: seq<Violation>)
    ensures Distinct(RiskLevels(vs))
    ensures forall c :: c in RiskLevels(vs) <==> Truthy(c) && exists i :: 0 <= i < |vs| && vs[i].riskLevel == c
    ensures IsSubseq(RiskLevels(vs), Dedup(seq(|vs|, i requires 0 <= i < |vs| => vs[i].riskLevel)))
  {
    var cells := seq(|vs|, i requires 0 <= i < |vs| => vs[i].riskLevel);
    forall c ensures c in cells <==> exists i :: 0 <= i < |vs| && vs[i].riskLevel == c {
      if c in cells {
        var i :| 0 <= i < |cells| && cells[i] == c;
      }
      if exists i :: 0 <= i < |vs| && vs[i].riskLevel == c {
        var i :| 0 <= i < |vs| && vs[i].riskLevel == c;
        assert cells[i] == c;
      }
    }
  }

  /** The site names offered: each non-empty site name of some row, once, in the order of
      first appearance. */
  lemma SiteNamesListed(vs: seq<Violation>)
    ensures Distinct(SiteNames(vs))
    ensures forall c :: c in SiteNames(vs) <==> Truthy(c) && exists i :: 0 <= i < |vs| && vs[i].siteName == c
    ensures IsSubseq(SiteNames(vs), Dedup(seq(|vs|, i requires 0 <= i < |vs| => vs[i].siteName)))
  {
    var cells := seq(|vs|, i requires 0 <= i < |vs| => vs[i].siteName);
    forall c ensures c in cells <==> exists i :: 0 <= i < |vs| && vs[i].siteName == c {
      if c in cells {
        var i :| 0 <= i < |cells| && cells[i] == c;
      }
      if exists i :: 0 <= i < |vs| && vs[i].siteName == c {
        var i :| 0 <= i < |vs| && vs[i].siteName == c;
        assert cells[i] == c;
      }
    }
  }
}
