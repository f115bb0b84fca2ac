/** `get_high_risk_areas` (app.py:56-105): per site, the number of violation rows at each
    risk level and in total (a LEFT JOIN, so sites without rows are included), ordered
    by the number of high-risk rows, and a risk score for each site. */
module HighRiskAreas {
  import opened Seqs
  import opened SiteStore

  /** One row of the aggregate query (app.py:62-72). */
  datatype Summary = Summary(siteId: nat, siteName: Cell, compliant: nat, medium: nat, high: nat, total: nat)

  /** One entry of the response (app.py:93-103). */
  datatype Area = Area(siteId: nat, siteName: Cell, total: nat, compliant: nat, medium: nat, high: nat, riskScore: real)

  /** `COUNT(v.ID)` for one site: its rows. */
  function CountSite(rows: seq<Row>, id: nat): nat {
    if rows == [] then 0
    else CountSite(rows[..|rows| - 1], id) + if rows[|rows| - 1].siteId == id then 1 else 0
  }

  /** `SUM(CASE WHEN v.Risk_Level = level THEN 1 ELSE 0 END)` for one site. A NULL risk
      level equals nothing. */
  function CountLevel(rows: seq<Row>, id: nat, level: string): nat {
    if rows == [] then 0
    else
      var r := rows[|rows| - 1];
      CountLevel(rows[..|rows| - 1], id, level) + if r.siteId == id && r.riskLevel == Text(level) then 1 else 0
  }

  /** The three levels counted are disjoint, and rows at other levels (or NULL) count
      only in the total, so the three counts never exceed the total. */
  lemma {:induction false} LevelsWithinTotal(rows: seq<Row>, id: nat)
    ensures CountLevel(rows, id, "compliant") + CountLevel(rows, id, "medium") + CountLevel(rows, id, "high") <= CountSite(rows, id)
  {
    if rows != [] {
      LevelsWithinTotal(rows[..|rows| - 1], id);
      LevelNamesDiffer();
    }
  }

  lemma LevelNamesDiffer()
    ensures Text("compliant") != Text("medium") && Text("compliant") != Text("high") && Text("medium") != Text("high")
  {
    assert "compliant"[0] == 'c' && "medium"[0] == 'm' && "high"[0] == 'h';
  }

  /** The group of one site. */
  function Summarize(site: Site, rows: seq<Row>): Summary {
    Summary(site.id, site.name,
      CountLevel(rows, site.id, "compliant"), CountLevel(rows, site.id, "medium"),
      CountLevel(rows, site.id, "high"), CountSite(rows, site.id))
  }

  /** `GROUP BY s.Site_ID` over the LEFT JOIN: one group per site, in table order. */
  function Summaries(sites: seq<Site>, rows: seq<Row>): (ss: seq<Summary>)
    ensures |ss| == |sites|
    ensures forall i :: 0 <= i < |sites| ==> ss[i] == Summarize(sites[i], rows)
  {
    seq(|sites|, i requires 0 <= i < |sites| => Summarize(sites[i], rows))
  }

  /** The sum of the groups' totals. */
  function TotalOf(ss: seq<Summary>): nat {
    if ss == [] then 0 else TotalOf(ss[..|ss| - 1]) + ss[|ss| - 1].total
  }

  /** The site id of every row. */
  function RowSiteIds(rows: seq<Row>): (ids: seq<nat>)
    ensures |ids| == |rows|
    ensures forall k :: 0 <= k < |rows| ==> ids[k] == rows[k].siteId
  {
    if rows == [] then [] else RowSiteIds(rows[..|rows| - 1]) + [rows[|rows| - 1].siteId]
  }

  lemma {:induction false} CountSiteIsCount(rows: seq<Row>, id: nat)
    ensures CountSite(rows, id) == Count(RowSiteIds(rows), id)
  {
    if rows != [] {
      CountSiteIsCount(rows[..|rows| - 1], id);
      CountSnoc(RowSiteIds(rows[..|rows| - 1]), rows[|rows| - 1].siteId, id);
    }
  }

  lemma {:induction false} TotalOfSummaries(sites: seq<Site>, rows: seq<Row>)
    ensures TotalOf(Summaries(sites, rows)) == TotalCount(SiteIds(sites), RowSiteIds(rows))
  {
    if sites != [] {
      var p := sites[..|sites| - 1];
      TotalOfSummaries(p, rows);
      assert Summaries(sites, rows)[..|sites| - 1] == Summaries(p, rows);
      assert SiteIds(sites)[..|sites| - 1] == SiteIds(p);
      CountSiteIsCount(rows, sites[|sites| - 1].id);
    }
  }

  /** In tables the inserts keep valid, the groups together count every violation row
      once: no row is lost by the join and none is counted under two sites. */
  lemma SummariesCoverRows(t: Tables)
    requires Valid(t)
    ensures TotalOf(Summaries(t.sites, t.rows)) == |t.rows|
  {
    TotalOfSummaries(t.sites, t.rows);
    var ids := SiteIds(t.sites);
    assert Distinct(ids) by {
      forall i, j | 0 <= i < j < |ids| ensures ids[i] != ids[j] {
        assert t.sites[i].id < t.sites[j].id;
      }
    }
    forall x | x in RowSiteIds(t.rows) ensures x in ids {
      var k :| 0 <= k < |t.rows| && RowSiteIds(t.rows)[k] == x;
      assert t.rows[k].siteId in ids;
    }
    TotalCountCovers(ids, RowSiteIds(t.rows));
  }

  predicate SortedByHigh(ss: seq<Summary>) {
    forall i, j :: 0 <= i < j < |ss| ==> ss[i].high >= ss[j].high
  }

  predicate HighAtMost(ss: seq<Summary>, h: nat) {
    forall i :: 0 <= i < |ss| ==> ss[i].high <= h
  }

  /** `x` placed before the first summary with no more high-risk rows. */
  function InsertByHigh(x: Summary, ss: seq<Summary>): (r: seq<Summary>)
    ensures |r| == |ss| + 1
    ensures multiset(r) == multiset(ss) + multiset{x}
  {
    if ss == [] || ss[0].high <= x.high then [x] + ss
    else
      assert ss == [ss[0]] + ss[1..];
      [ss[0]] + InsertByHigh(x, ss[1..])
  }

  lemma {:induction false} InsertKeepsBound(x: Summary, ss: seq<Summary>, h: nat)
    requires HighAtMost(ss, h) && x.high <= h
    ensures HighAtMost(InsertByHigh(x, ss), h)
  {
    if !(ss == [] || ss[0].high <= x.high) {
      InsertKeepsBound(x, ss[1..], h);
    }
  }

  lemma {:induction false} InsertSorted(x: Summary, ss: seq<Summary>)
    requires SortedByHigh(ss)
    ensures SortedByHigh(InsertByHigh(x, ss))
  {
    if !(ss == [] || ss[0].high <= x.high) {
      InsertSorted(x, ss[1..]);
      InsertKeepsBound(x, ss[1..], ss[0].high);
    }
  }

  /** `ORDER BY high DESC`. SQLite leaves the order of ties open; this order keeps
      table order among them. */
  function SortByHigh(ss: seq<Summary>): (r: seq<Summary>)
    ensures SortedByHigh(r)
    ensures multiset(r) == multiset(ss)
  {
    if ss == [] then []
    else
      assert ss == [ss[0]] + ss[1..];
      var rest := SortByHigh(ss[1..]);
      InsertSorted(ss[0], rest);
      InsertByHigh(ss[0], rest)
  }

  /** What the query returns. */
  function Query(sites: seq<Site>, rows: seq<Row>): seq<Summary> {
    SortByHigh(Summaries(sites, rows))
  }

  /** `Risk_Score` before rounding to one decimal (app.py:88-91): medium rows weigh 50,
      high rows 100, compliant rows 0, averaged over all rows of the site. */
  function RiskScore(s: Summary): real {
    if s.total > 0 then (50 * s.medium + 100 * s.high) as real / s.total as real else 0.0
  }

  function AreaOf(s: Summary): Area {
    Area(s.siteId, s.siteName, s.total, s.compliant, s.medium, s.high, RiskScore(s))
  }

  /** `get_high_risk_areas`: the loop over the fetched groups (app.py:80-103). */
  method GetHighRiskAreas(sites: seq<Site>, rows: seq<Row>) returns (results: seq<Area>)
    ensures |results| == |sites|
    ensures forall i :: 0 <= i < |results| ==> results[i] == AreaOf(Query(sites, rows)[i])
  {
    var fetched := Query(sites, rows);
    assert |fetched| == |sites| by {
      assert |multiset(fetched)| == |multiset(Summaries(sites, rows))|;
    }
    results := [];
    for i := 0 to |fetched|
      invariant |results| == i
      invariant forall k :: 0 <= k < i ==> results[k] == AreaOf(fetched[k])
    {
      results := results + [AreaOf(fetched[i])];
    }
  }

  /** The score of a group lies between 0 and 100: 0 when it has no medium or high row,
      100 exactly when every row is high. */
  lemma RiskScoreRange(s: Summary)
    requires s.compliant + s.medium + s.high <= s.total
    ensures 0.0 <= RiskScore(s) <= 100.0
    ensures s.medium == 0 && s.high == 0 ==> RiskScore(s) == 0.0
    ensures RiskScore(s) == 100.0 <==> s.total > 0 && s.high == s.total
  {
    if s.total > 0 {
      var t := s.total as real;
      var num := (50 * s.medium + 100 * s.high) as real;
      assert num <= 100.0 * t;
      assert num == 100.0 * t <==> s.high == s.total;
    }
  }

  /** One more high-risk row never lowers a site's score: with `m` medium and `h` high
      rows among `t`, the score (50m + 100h) / t moves to (50m + 100h + 100) / (t + 1),
      which is no smaller because 50m + 100h is at most 100t. */
  lemma RiskScoreMonotoneInHigh(s: Summary)
    requires s.compliant + s.medium + s.high <= s.total
    ensures RiskScore(s) <= RiskScore(s.(high := s.high + 1, total := s.total + 1))
  {
    var n := (50 * s.medium + 100 * s.high) as real;
    var t := s.total as real;
    assert (50 * s.medium + 100 * (s.high + 1)) as real == n + 100.0;
    if s.total > 0 {
      RatioGrows(n, t);
    }
  }

  /** `n / t <= (n + 100) / (t + 1)` when `n <= 100t`. */
  lemma RatioGrows(n: real, t: real)
    requires 0.0 < t && 0.0 <= n <= 100.0 * t
    ensures n / t <= (n + 100.0) / (t + 1.0)
  {
    var a, b := n / t, (n + 100.0) / (t + 1.0);
    assert a * t == n;
    assert b * (t + 1.0) == n + 100.0;
    assert n * (t + 1.0) <= (n + 100.0) * t;
    assert a * t * (t + 1.0) <= b * (t + 1.0) * t;
  }

  /** Recording one more high-risk violation at a site never lowers its score in the
      response. */
  lemma HighRowRaisesScore(site: Site, rows: seq<Row>, r: Row)
    requires r.siteId == site.id && r.riskLevel == Text("high")
    ensures RiskScore(Summarize(site, rows)) <= RiskScore(Summarize(site, rows + [r]))
  {
    var p := rows + [r];
    assert p[..|p| - 1] == rows;
    LevelNamesDiffer();
    assert Summarize(site, p) == Summarize(site, rows).(high := Summarize(site, rows).high + 1,
      total := Summarize(site, rows).total + 1);
    LevelsWithinTotal(rows, site.id);
    RiskScoreMonotoneInHigh(Summarize(site, rows));
  }

  /** Every entry of the response has a score between 0 and 100. */
  lemma AreasScoreRange(sites: seq<Site>, rows: seq<Row>, i: nat)
    requires i < |sites|
    ensures |Query(sites, rows)| == |sites|
    ensures 0.0 <= AreaOf(Query(sites, rows)[i]).riskScore <= 100.0
  {
    var ss := Summaries(sites, rows);
    var q := Query(sites, rows);
    assert |multiset(q)| == |multiset(ss)|;
    assert q[i] in multiset(ss);
    var k :| 0 <= k < |ss| && ss[k] == q[i];
    LevelsWithinTotal(rows, sites[k].id);
    RiskScoreRange(q[i]);
  }

  /** The response has one entry per site, sites without rows included, in an order
      where the number of high-risk rows never increases. */
  lemma AreasPerSite(sites: seq<Site>, rows: seq<Row>)
    ensures multiset(Query(sites, rows)) == multiset(Summaries(sites, rows))
    ensures SortedByHigh(Query(sites, rows))
  {
  }

  /** A site without rows is listed with all counts 0 and score 0. */
  lemma SiteWithoutRows(site: Site, rows: seq<Row>)
    requires forall k :: 0 <= k < |rows| ==> rows[k].siteId != site.id
    ensures AreaOf(Summarize(site, rows)) == Area(site.id, site.name, 0, 0, 0, 0, 0.0)
  {
    NoRowsCounts(rows, site.id);
  }

  lemma {:induction false} NoRowsCounts(rows: seq<Row>, id: nat)
    requires forall k :: 0 <= k < |rows| ==> rows[k].siteId != id
    ensures CountSite(rows, id) == 0
    ensures forall level :: CountLevel(rows, id, level) == 0
  {
    if rows != [] {
      NoRowsCounts(rows[..|rows| - 1], id);
    }
  }
}
