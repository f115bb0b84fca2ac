/** `get_compliance_rates` (app.py:157-194): violation rows grouped by site and risk
    level (an inner JOIN, so only sites with rows appear), gathered per site name, with
    the share of compliant rows as a percentage. */
module ComplianceRates {
  import opened Wrappers
  import opened Seqs
  import opened Dicts
  import opened SiteStore

  /** One row of the aggregate query (app.py:163-168). */
  datatype Group = Group(siteId: nat, siteName: Cell, riskLevel: Cell, count: nat)

  /** The first site with the given Site_ID, the one a violation row joins with. */
  function SiteOf(sites: seq<Site>, id: nat): (r: Option<Site>)
    ensures r.Some? <==> exists i :: 0 <= i < |sites| && sites[i].id == id
    ensures r.Some? ==> r.value in sites && r.value.id == id
  {
    if sites == [] then None
    else if sites[0].id == id then Some(sites[0])
    else
      var r := SiteOf(sites[1..], id);
      assert forall i :: 1 <= i < |sites| ==> sites[i] == sites[1..][i - 1];
      r
  }

  predicate Joins(sites: seq<Site>, row: Row) {
    SiteOf(sites, row.siteId).Some?
  }

  /** The `(Site_ID, Risk_Level)` of every row that joins with a site, in table order. */
  function JoinKeys(sites: seq<Site>, rows: seq<Row>): (ks: seq<(nat, Cell)>)
    ensures forall k :: k in ks ==> SiteOf(sites, k.0).Some?
    ensures forall j :: 0 <= j < |rows| && Joins(sites, rows[j]) ==> (rows[j].siteId, rows[j].riskLevel) in ks
    ensures forall k :: k in ks ==> exists j :: 0 <= j < |rows| && Joins(sites, rows[j]) && k == (rows[j].siteId, rows[j].riskLevel)
  {
    if rows == [] then []
    else
      var init := rows[..|rows| - 1];
      var row := rows[|rows| - 1];
      var ks := JoinKeys(sites, init);
      assert forall j :: 0 <= j < |init| ==> init[j] == rows[j];
      if Joins(sites, row) then ks + [(row.siteId, row.riskLevel)] else ks
  }

  /** `COUNT(*)` of one group. */
  function RowCount(rows: seq<Row>, id: nat, level: Cell): nat {
    if rows == [] then 0
    else
      var row := rows[|rows| - 1];
      RowCount(rows[..|rows| - 1], id, level) + if row.siteId == id && row.riskLevel == level then 1 else 0
  }

  lemma {:induction false} RowCountPositive(rows: seq<Row>, j: nat)
    requires j < |rows|
    ensures RowCount(rows, rows[j].siteId, rows[j].riskLevel) >= 1
  {
    if j < |rows| - 1 {
      RowCountPositive(rows[..|rows| - 1], j);
    }
  }

  /** `GROUP BY S.Site_ID, S.Site_Name, V.Risk_Level` (a NULL risk level forms a group
      of its own), one group per key in the order its first row appears. Each group
      counts the rows with its key and carries the name of the site its rows join
      with, and every joining row has its group. */
  function Groups(sites: seq<Site>, rows: seq<Row>): (gs: seq<Group>)
    ensures |gs| == |Dedup(JoinKeys(sites, rows))|
    ensures forall i :: 0 <= i < |gs| ==> (gs[i].siteId, gs[i].riskLevel) == Dedup(JoinKeys(sites, rows))[i]
    ensures forall i :: 0 <= i < |gs| ==> gs[i].count == RowCount(rows, gs[i].siteId, gs[i].riskLevel) >= 1
    ensures forall i :: 0 <= i < |gs| ==> SiteOf(sites, gs[i].siteId) == Some(Site(gs[i].siteId, gs[i].siteName))
    ensures forall i :: 0 <= i < |gs| ==> Site(gs[i].siteId, gs[i].siteName) in sites
    ensures forall i, j :: 0 <= i < j < |gs| ==> (gs[i].siteId, gs[i].riskLevel) != (gs[j].siteId, gs[j].riskLevel)
    ensures forall j :: 0 <= j < |rows| && Joins(sites, rows[j]) ==>
      exists i :: 0 <= i < |gs| && (gs[i].siteId, gs[i].riskLevel) == (rows[j].siteId, rows[j].riskLevel)
  {
    var keys := Dedup(JoinKeys(sites, rows));
    seq(|keys|, i requires 0 <= i < |keys| =>
      var k := keys[i];
      assert k in JoinKeys(sites, rows);
      GroupOf(sites, rows, k))
  }

  function GroupOf(sites: seq<Site>, rows: seq<Row>, k: (nat, Cell)): (g: Group)
    requires k in JoinKeys(sites, rows)
    ensures g.count == RowCount(rows, k.0, k.1) >= 1 && Site(g.siteId, g.siteName) in sites
    ensures SiteOf(sites, k.0) == Some(Site(g.siteId, g.siteName))
    ensures (g.siteId, g.riskLevel) == k
  {
    var j :| 0 <= j < |rows| && Joins(sites, rows[j]) && k == (rows[j].siteId, rows[j].riskLevel);
    RowCountPositive(rows, j);
    var site := SiteOf(sites, k.0).value;
    Group(k.0, site.name, k.1, RowCount(rows, k.0, k.1))
  }

  function Names(gs: seq<Group>): (ns: seq<Cell>)
    ensures |ns| == |gs|
    ensures forall i :: 0 <= i < |gs| ==> ns[i] == gs[i].siteName
  {
    seq(|gs|, i requires 0 <= i < |gs| => gs[i].siteName)
  }

  lemma NamesSnoc(gs: seq<Group>)
    requires gs != []
    ensures Names(gs) == Names(gs[..|gs| - 1]) + [gs[|gs| - 1].siteName]
  {
    var ns := Names(gs[..|gs| - 1]) + [gs[|gs| - 1].siteName];
    assert forall i :: 0 <= i < |gs| ==> Names(gs)[i] == ns[i];
  }

  /** A value of `site_data` before the rate is added. `Risk_Level_Counts` keeps its
      insertion order; `site_data` itself is a map, its key order left out. */
  datatype SiteEntry = SiteEntry(siteId: nat, total: nat, levels: Dict<Cell, nat>)

  /** A value of `site_data` in the response. */
  datatype SiteRate = SiteRate(siteId: nat, total: nat, levels: Dict<Cell, nat>, rate: real)

  /** The entry of the group's site name, or the one `site_data` creates for it with
      the group's Site_ID (app.py:182-183). */
  function EntryFor(data: map<Cell, SiteEntry>, g: Group): SiteEntry {
    if g.siteName in data then data[g.siteName] else SiteEntry(g.siteId, 0, Empty())
  }

  /** The entry after the group: the count is added to the total and stored under the
      risk level, replacing what that level held (app.py:185-186). */
  function Grown(data: map<Cell, SiteEntry>, g: Group): SiteEntry {
    var e := EntryFor(data, g);
    SiteEntry(e.siteId, e.total + g.count, Put(e.levels, g.riskLevel, g.count))
  }

  /** One pass of the first loop (app.py:176-186). */
  function AddGroup(data: map<Cell, SiteEntry>, g: Group): map<Cell, SiteEntry> {
    data[g.siteName := Grown(data, g)]
  }

  function Collect(gs: seq<Group>): map<Cell, SiteEntry> {
    if gs == [] then map[] else AddGroup(Collect(gs[..|gs| - 1]), gs[|gs| - 1])
  }

  /** `counts.get("compliant", 0)`. */
  function CompliantCount(e: SiteEntry): nat {
    ValueOr<Cell, nat>(e.levels, Text("compliant"), 0)
  }

  /** `Compliance_Rate` before rounding to two decimals (app.py:189-192). */
  function Rate(e: SiteEntry): real {
    if e.total > 0 then (CompliantCount(e) as real / e.total as real) * 100.0 else 0.0
  }

  function Rated(e: SiteEntry): SiteRate {
    SiteRate(e.siteId, e.total, e.levels, Rate(e))
  }

  function RateAll(data: map<Cell, SiteEntry>): map<Cell, SiteRate> {
    map n | n in data :: Rated(data[n])
  }

  /** What the endpoint returns for the given tables. */
  function ComplianceSpec(sites: seq<Site>, rows: seq<Row>): map<Cell, SiteRate> {
    RateAll(Collect(Groups(sites, rows)))
  }

  /** `get_compliance_rates`: the first loop builds `site_data` from the fetched groups,
      the second adds a rate to each of its values. */
  method GetComplianceRates(sites: seq<Site>, rows: seq<Row>) returns (siteData: map<Cell, SiteRate>)
    ensures siteData == ComplianceSpec(sites, rows)
  {
    var data := CollectGroups(Groups(sites, rows));
    siteData := AddRates(data);
  }

  /** The first loop (app.py:176-186). */
  method CollectGroups(groups: seq<Group>) returns (data: map<Cell, SiteEntry>)
    ensures data == Collect(groups)
  {
    data := map[];
    for i := 0 to |groups|
      invariant data == Collect(groups[..i])
    {
      assert groups[..i + 1][..i] == groups[..i];
      data := AddGroup(data, groups[i]);
    }
    assert groups[..|groups|] == groups;
  }

  /** The second loop (app.py:189-192): every value gains its rate. */
  method AddRates(data: map<Cell, SiteEntry>) returns (siteData: map<Cell, SiteRate>)
    ensures siteData == RateAll(data)
  {
    siteData := map[];
    var todo := data.Keys;
    while todo != {}
      invariant todo <= data.Keys
      invariant siteData == map n | n in data && n !in todo :: Rated(data[n])
      decreases todo
    {
      var n :| n in todo;
      siteData := siteData[n := Rated(data[n])];
      todo := todo - {n};
    }
  }

  /** The keys of `site_data` are the groups' site names. */
  lemma {:induction false} CollectKeys(gs: seq<Group>, name: Cell)
    ensures name in Collect(gs) <==> name in Names(gs)
  {
    if gs != [] {
      CollectKeys(gs[..|gs| - 1], name);
      NamesSnoc(gs);
    }
  }

  /** A site name is listed exactly when a violation row joins with a site of that name:
      sites without violations do not appear. */
  lemma ListedIffViolations(sites: seq<Site>, rows: seq<Row>, name: Cell)
    ensures name in ComplianceSpec(sites, rows) <==>
      exists j :: 0 <= j < |rows| && Joins(sites, rows[j]) && SiteOf(sites, rows[j].siteId).value.name == name
  {
    CollectKeys(Groups(sites, rows), name);
    if name in Names(Groups(sites, rows)) {
      ListedOnlyWithViolations(sites, rows, name);
    }
    if exists j :: 0 <= j < |rows| && Joins(sites, rows[j]) && SiteOf(sites, rows[j].siteId).value.name == name {
      ViolationsListed(sites, rows, name);
    }
  }

  lemma ListedOnlyWithViolations(sites: seq<Site>, rows: seq<Row>, name: Cell)
    requires name in Names(Groups(sites, rows))
    ensures exists j :: 0 <= j < |rows| && Joins(sites, rows[j]) && SiteOf(sites, rows[j].siteId).value.name == name
  {
    var gs := Groups(sites, rows);
    var keys := Dedup(JoinKeys(sites, rows));
    var i :| 0 <= i < |gs| && gs[i].siteName == name;
    assert (gs[i].siteId, gs[i].riskLevel) == keys[i];
    assert keys[i] in JoinKeys(sites, rows);
    var j :| 0 <= j < |rows| && Joins(sites, rows[j]) && keys[i] == (rows[j].siteId, rows[j].riskLevel);
  }

  lemma ViolationsListed(sites: seq<Site>, rows: seq<Row>, name: Cell)
    requires exists j :: 0 <= j < |rows| && Joins(sites, rows[j]) && SiteOf(sites, rows[j].siteId).value.name == name
    ensures name in Names(Groups(sites, rows))
  {
    var gs := Groups(sites, rows);
    var j :| 0 <= j < |rows| && Joins(sites, rows[j]) && SiteOf(sites, rows[j].siteId).value.name == name;
    var k := (rows[j].siteId, rows[j].riskLevel);
    var keys := Dedup(JoinKeys(sites, rows));
    assert k in keys;
    var i :| 0 <= i < |keys| && keys[i] == k;
    assert gs[i] == GroupOf(sites, rows, k);
    assert Names(gs)[i] == name;
  }

  /** The joining row key `k` belongs to a site named `name`. */
  predicate NamedKey(sites: seq<Site>, name: Cell, k: (nat, Cell)) {
    SiteOf(sites, k.0).Some? && SiteOf(sites, k.0).value.name == name
  }

  /** The violation rows that join with a site named `name`. */
  function JoinedRows(sites: seq<Site>, rows: seq<Row>, name: Cell): nat {
    if rows == [] then 0
    else
      var row := rows[|rows| - 1];
      JoinedRows(sites, rows[..|rows| - 1], name) +
      if Joins(sites, row) && SiteOf(sites, row.siteId).value.name == name then 1 else 0
  }

  /** The sum of the counts of the groups of one site name. */
  function NameTotal(gs: seq<Group>, name: Cell): nat {
    if gs == [] then 0
    else NameTotal(gs[..|gs| - 1], name) + if gs[|gs| - 1].siteName == name then gs[|gs| - 1].count else 0
  }

  lemma {:induction false} JoinedRowsCounted(sites: seq<Site>, rows: seq<Row>, name: Cell)
    ensures JoinedRows(sites, rows, name) == CountIf(JoinKeys(sites, rows), k => NamedKey(sites, name, k))
  {
    if rows != [] {
      var init, row := rows[..|rows| - 1], rows[|rows| - 1];
      JoinedRowsCounted(sites, init, name);
      var ks := JoinKeys(sites, init);
      if Joins(sites, row) {
        assert (ks + [(row.siteId, row.riskLevel)])[..|ks|] == ks;
      }
    }
  }

  /** The count of a group is the number of its key's occurrences among the joining
      rows' keys: a key whose site exists is joined by every row that has it. */
  lemma {:induction false} RowCountJoined(sites: seq<Site>, rows: seq<Row>, k: (nat, Cell))
    requires SiteOf(sites, k.0).Some?
    ensures RowCount(rows, k.0, k.1) == Count(JoinKeys(sites, rows), k)
  {
    if rows != [] {
      var init, row := rows[..|rows| - 1], rows[|rows| - 1];
      RowCountJoined(sites, init, k);
      if Joins(sites, row) {
        CountSnoc(JoinKeys(sites, init), (row.siteId, row.riskLevel), k);
      }
    }
  }

  lemma {:induction false} GroupsNameTotal(sites: seq<Site>, rows: seq<Row>, name: Cell, n: nat)
    requires n <= |Groups(sites, rows)|
    ensures NameTotal(Groups(sites, rows)[..n], name) ==
      CountUnder(Dedup(JoinKeys(sites, rows))[..n], JoinKeys(sites, rows), k => NamedKey(sites, name, k))
  {
    var gs, keys := Groups(sites, rows), Dedup(JoinKeys(sites, rows));
    if n > 0 {
      GroupsNameTotal(sites, rows, name, n - 1);
      assert gs[..n][..n - 1] == gs[..n - 1];
      assert keys[..n][..n - 1] == keys[..n - 1];
      RowCountJoined(sites, rows, keys[n - 1]);
    }
  }

  /** `Total_Violations += count` adds up the counts of every group of the name. */
  lemma {:induction false} CollectNameTotal(gs: seq<Group>, name: Cell)
    ensures (if name in Collect(gs) then Collect(gs)[name].total else 0) == NameTotal(gs, name)
  {
    if gs != [] {
      CollectNameTotal(gs[..|gs| - 1], name);
    }
  }

  /** A listed site name's `Total_Violations` is the number of violation rows that join
      with a site of that name, whatever the levels and however many sites share the
      name. */
  lemma TotalCountsJoinedRows(sites: seq<Site>, rows: seq<Row>, name: Cell)
    requires name in ComplianceSpec(sites, rows)
    ensures ComplianceSpec(sites, rows)[name].total == JoinedRows(sites, rows, name)
  {
    var gs, keys, ks := Groups(sites, rows), Dedup(JoinKeys(sites, rows)), JoinKeys(sites, rows);
    CollectNameTotal(gs, name);
    GroupsNameTotal(sites, rows, name, |gs|);
    assert gs[..|gs|] == gs && keys[..|gs|] == keys;
    CountUnderCovers(keys, ks, k => NamedKey(sites, name, k));
    JoinedRowsCounted(sites, rows, name);
  }

  /** Every level count of an entry is at most its total. */
  predicate Bounded(e: SiteEntry) {
    forall l :: l in Keys(e.levels) ==> Get<Cell, nat>(e.levels, l).value <= e.total
  }

  lemma {:induction false} CollectBounded(gs: seq<Group>, name: Cell)
    requires name in Collect(gs)
    ensures Bounded(Collect(gs)[name])
  {
    if gs != [] {
      var init := gs[..|gs| - 1];
      if name in Collect(init) {
        CollectBounded(init, name);
      }
    }
  }

  lemma RatioPercent(c: nat, t: nat)
    requires 0 < t && c <= t
    ensures 0.0 <= (c as real / t as real) * 100.0 <= 100.0
    ensures (c as real / t as real) * 100.0 == 100.0 <==> c == t
  {
    var q := c as real / t as real;
    assert q * t as real == c as real;
    assert q <= 1.0;
    if q * 100.0 == 100.0 {
      assert q == 1.0;
    }
  }

  /** Every rate of an entry built from groups lies between 0 and 100. */
  lemma EntryRateInRange(gs: seq<Group>, name: Cell)
    requires name in Collect(gs)
    ensures 0.0 <= Rate(Collect(gs)[name]) <= 100.0
  {
    CollectBounded(gs, name);
    var e := Collect(gs)[name];
    if e.total > 0 {
      if Text("compliant") in Keys(e.levels) {
        assert CompliantCount(e) <= e.total;
      }
      RatioPercent(CompliantCount(e), e.total);
    }
  }

  /** Every rate in the response lies between 0 and 100. */
  lemma RatesInRange(sites: seq<Site>, rows: seq<Row>, name: Cell)
    requires name in ComplianceSpec(sites, rows)
    ensures 0.0 <= ComplianceSpec(sites, rows)[name].rate <= 100.0
  {
    EntryRateInRange(Groups(sites, rows), name);
  }

  function NameLevels(gs: seq<Group>): (ps: seq<(Cell, Cell)>)
    ensures |ps| == |gs|
    ensures forall i :: 0 <= i < |gs| ==> ps[i] == (gs[i].siteName, gs[i].riskLevel)
  {
    seq(|gs|, i requires 0 <= i < |gs| => (gs[i].siteName, gs[i].riskLevel))
  }

  lemma NameLevelsSnoc(gs: seq<Group>)
    requires gs != []
    ensures NameLevels(gs) == NameLevels(gs[..|gs| - 1]) + [(gs[|gs| - 1].siteName, gs[|gs| - 1].riskLevel)]
    ensures NameLevels(gs[..|gs| - 1]) == NameLevels(gs)[..|gs| - 1]
  {
    var ps := NameLevels(gs[..|gs| - 1]) + [(gs[|gs| - 1].siteName, gs[|gs| - 1].riskLevel)];
    assert forall i :: 0 <= i < |gs| ==> NameLevels(gs)[i] == ps[i];
  }

  /** With distinct site names, no two groups share a site name and a risk level. */
  lemma QueryNameLevelsDistinct(sites: seq<Site>, rows: seq<Row>)
    requires forall i, j :: 0 <= i < j < |sites| ==> sites[i].name != sites[j].name
    ensures Distinct(NameLevels(Groups(sites, rows)))
  {
  }

  /** The last element of a sequence without duplicates is not in the rest, which has
      no duplicates either. */
  lemma DistinctLast<T(!new)>(s: seq<T>)
    requires s != [] && Distinct(s)
    ensures s[|s| - 1] !in s[..|s| - 1] && Distinct(s[..|s| - 1])
  {
  }

  lemma GrownLevels(data: map<Cell, SiteEntry>, g: Group, level: Cell)
    ensures level in Keys(Grown(data, g).levels) <==>
      level == g.riskLevel || (g.siteName in data && level in Keys(data[g.siteName].levels))
  {
  }

  /** The risk levels stored under a site name are those of the groups with that name. */
  lemma {:induction false} CollectLevels(gs: seq<Group>, name: Cell, level: Cell)
    requires name in Collect(gs)
    ensures level in Keys(Collect(gs)[name].levels) <==> (name, level) in NameLevels(gs)
  {
    if gs != [] {
      var init := gs[..|gs| - 1];
      var g := gs[|gs| - 1];
      NameLevelsSnoc(gs);
      if name != g.siteName {
        CollectLevels(init, name, level);
      } else {
        GrownLevels(Collect(init), g, level);
        if name in Collect(init) {
          CollectLevels(init, name, level);
        } else {
          CollectKeys(init, name);
        }
      }
    }
  }

  /** A group whose risk level is new under its site name adds as much to the total as to
      the sum of the level counts. */
  lemma GrownTotals(data: map<Cell, SiteEntry>, g: Group)
    requires g.siteName in data ==>
      SumValues(data[g.siteName].levels) == data[g.siteName].total && g.riskLevel !in Keys(data[g.siteName].levels)
    ensures SumValues(Grown(data, g).levels) == Grown(data, g).total
  {
    PutSum(EntryFor(data, g).levels, g.riskLevel, g.count);
  }

  /** When no two groups share a site name and a risk level, each total is the sum of
      its level counts. */
  lemma {:induction false} CollectTotals(gs: seq<Group>, name: Cell)
    requires Distinct(NameLevels(gs)) && name in Collect(gs)
    ensures SumValues(Collect(gs)[name].levels) == Collect(gs)[name].total
  {
    if gs != [] {
      var init := gs[..|gs| - 1];
      var g := gs[|gs| - 1];
      NameLevelsSnoc(gs);
      DistinctLast(NameLevels(gs));
      if name != g.siteName {
        CollectTotals(init, name);
      } else {
        if name in Collect(init) {
          CollectTotals(init, name);
          CollectLevels(init, name, g.riskLevel);
        }
        GrownTotals(Collect(init), g);
      }
    }
  }

  /** A compliant group seen first under its site name gives that name rate 100. */
  lemma GrownCompliant(data: map<Cell, SiteEntry>, g: Group)
    requires g.siteName !in data && g.riskLevel == Text("compliant") && g.count >= 1
    ensures Rate(Grown(data, g)) == 100.0
  {
    RatioPercent(g.count, g.count);
  }

  /** When no two groups share a site name and a risk level, a site name all of whose
      groups are compliant has rate 100. */
  lemma AllCompliantRate(gs: seq<Group>, name: Cell)
    requires Distinct(NameLevels(gs)) && name in Collect(gs)
    requires forall i :: 0 <= i < |gs| ==> gs[i].count >= 1
    requires forall i :: 0 <= i < |gs| && gs[i].siteName == name ==> gs[i].riskLevel == Text("compliant")
    ensures Rate(Collect(gs)[name]) == 100.0
  {
    CompliantGroupsIff(gs, name);
    CollectAllCompliant(gs, name);
  }

  /** From the tables: a listed site name that is not NULL, all of whose joining rows
      are compliant, has rate 100. `Site_Name TEXT UNIQUE` keeps the groups of such a
      name to one site, so they are one group per level, here the single compliant one. */
  lemma TablesAllCompliantRate(sites: seq<Site>, rows: seq<Row>, name: Cell)
    requires NamesUnique(sites) && name.Text?
    requires name in ComplianceSpec(sites, rows)
    requires forall j :: 0 <= j < |rows| && Joins(sites, rows[j]) && SiteOf(sites, rows[j].siteId).value.name == name ==>
      rows[j].riskLevel == Text("compliant")
    ensures ComplianceSpec(sites, rows)[name].rate == 100.0
  {
    var gs := Groups(sites, rows);
    forall i | 0 <= i < |gs| && gs[i].siteName == name
      ensures gs[i].riskLevel == Text("compliant")
    {
      var k := (gs[i].siteId, gs[i].riskLevel);
      assert k in JoinKeys(sites, rows);
      var j :| 0 <= j < |rows| && Joins(sites, rows[j]) && k == (rows[j].siteId, rows[j].riskLevel);
    }
    GroupsOfNameOneSite(sites, rows, name);
    OneGroupOfName(gs, name);
    CompliantGroupsIff(gs, name);
    CollectOnlyCompliant(gs, name);
  }

  /** Groups with distinct keys whose groups of `name` belong to one site and are all
      compliant hold at most one group of `name`. */
  lemma OneGroupOfName(gs: seq<Group>, name: Cell)
    requires forall i, j :: 0 <= i < j < |gs| ==> (gs[i].siteId, gs[i].riskLevel) != (gs[j].siteId, gs[j].riskLevel)
    requires forall i :: 0 <= i < |gs| && gs[i].siteName == name ==> gs[i].riskLevel == Text("compliant")
    requires forall i, j :: 0 <= i < |gs| && 0 <= j < |gs| && gs[i].siteName == name && gs[j].siteName == name ==>
      gs[i].siteId == gs[j].siteId
    ensures forall i, j :: 0 <= i < j < |gs| && gs[i].siteName == name ==> gs[j].siteName != name
  {
  }

  /** Under `Site_Name TEXT UNIQUE`, the groups of a non-NULL name all belong to one site. */
  lemma GroupsOfNameOneSite(sites: seq<Site>, rows: seq<Row>, name: Cell)
    requires NamesUnique(sites) && name.Text?
    ensures var gs := Groups(sites, rows);
      forall i, j :: 0 <= i < |gs| && 0 <= j < |gs| && gs[i].siteName == name && gs[j].siteName == name ==>
        gs[i].siteId == gs[j].siteId
  {
    var gs := Groups(sites, rows);
    forall i, j | 0 <= i < |gs| && 0 <= j < |gs| && gs[i].siteName == name && gs[j].siteName == name
      ensures gs[i].siteId == gs[j].siteId
    {
      SameNameSameSite(sites, Site(gs[i].siteId, name), Site(gs[j].siteId, name));
    }
  }

  lemma SameNameSameSite(sites: seq<Site>, a: Site, b: Site)
    requires NamesUnique(sites) && a in sites && b in sites && a.name == b.name && a.name.Text?
    ensures a == b
  {
    var i :| 0 <= i < |sites| && sites[i] == a;
    var j :| 0 <= j < |sites| && sites[j] == b;
  }

  /** A name carried by at most one group, a compliant one, has rate 100. */
  lemma {:induction false} CollectOnlyCompliant(gs: seq<Group>, name: Cell)
    requires forall i, j :: 0 <= i < j < |gs| && gs[i].siteName == name ==> gs[j].siteName != name
    requires name in Collect(gs) && CompliantGroups(gs, name)
    ensures Rate(Collect(gs)[name]) == 100.0
  {
    if gs != [] {
      var init := gs[..|gs| - 1];
      var g := gs[|gs| - 1];
      if name != g.siteName {
        CollectOnlyCompliant(init, name);
      } else {
        forall i | 0 <= i < |init| ensures init[i].siteName != name {
          assert gs[i].siteName != name;
        }
        CollectKeys(init, name);
        GrownCompliant(Collect(init), g);
      }
    }
  }

  lemma {:induction false} CollectAllCompliant(gs: seq<Group>, name: Cell)
    requires Distinct(NameLevels(gs)) && name in Collect(gs) && CompliantGroups(gs, name)
    ensures Rate(Collect(gs)[name]) == 100.0
  {
    if gs != [] {
      var init := gs[..|gs| - 1];
      var g := gs[|gs| - 1];
      NameLevelsSnoc(gs);
      DistinctLast(NameLevels(gs));
      if name != g.siteName {
        CollectAllCompliant(init, name);
      } else {
        CompliantGroupsIff(gs, name);
        FirstOfItsName(gs);
        GrownCompliant(Collect(init), g);
      }
    }
  }

  /** When the last group is compliant and no two groups share a site name and a risk
      level, no earlier group has the last group's site name. */
  lemma FirstOfItsName(gs: seq<Group>)
    requires gs != [] && Distinct(NameLevels(gs))
    requires forall i :: 0 <= i < |gs| && gs[i].siteName == gs[|gs| - 1].siteName ==> gs[i].riskLevel == Text("compliant")
    ensures gs[|gs| - 1].siteName !in Collect(gs[..|gs| - 1])
  {
    var init := gs[..|gs| - 1];
    var name := gs[|gs| - 1].siteName;
    NameLevelsSnoc(gs);
    DistinctLast(NameLevels(gs));
    forall i | 0 <= i < |init|
      ensures init[i].siteName != name
    {
      assert NameLevels(gs)[i] != NameLevels(gs)[|gs| - 1];
    }
    CollectKeys(init, name);
  }

  /** Every group counts a row, and every group under `name` is compliant. */
  predicate CompliantGroups(gs: seq<Group>, name: Cell) {
    gs == [] ||
    (CompliantGroups(gs[..|gs| - 1], name) && gs[|gs| - 1].count >= 1 &&
     (gs[|gs| - 1].siteName == name ==> gs[|gs| - 1].riskLevel == Text("compliant")))
  }

  lemma {:induction false} CompliantGroupsIff(gs: seq<Group>, name: Cell)
    ensures CompliantGroups(gs, name) <==>
      (forall i :: 0 <= i < |gs| ==> gs[i].count >= 1) &&
      (forall i :: 0 <= i < |gs| && gs[i].siteName == name ==> gs[i].riskLevel == Text("compliant"))
  {
    if gs != [] {
      var init := gs[..|gs| - 1];
      assert forall i :: 0 <= i < |init| ==> init[i] == gs[i];
      CompliantGroupsIff(init, name);
    }
  }

  /** As written, two groups of different sites with the same site name (two sites with a
      NULL name, which `insert_violations` creates for every image whose site name is
      null) merge: the totals add up while the level count keeps only the later group's
      count, so sites whose rows are all compliant can report 25 percent. */
  lemma SharedNameUnderReports()
    ensures var gs := [Group(1, Null, Text("compliant"), 3), Group(2, Null, Text("compliant"), 1)];
      Null in Collect(gs) &&
      Collect(gs)[Null].total == 4 &&
      Rate(Collect(gs)[Null]) == 25.0
  {
    var g1 := Group(1, Null, Text("compliant"), 3);
    var g2 := Group(2, Null, Text("compliant"), 1);
    var gs := [g1, g2];
    assert gs[..1][..0] == [];
    assert gs[..1] == [g1];
    var d1 := AddGroup(map[], g1);
    assert Collect(gs[..1]) == d1;
    var levels := Put(Put(Empty<Cell, nat>(), Text("compliant"), 3), Text("compliant"), 1);
    assert Collect(gs)[Null] == SiteEntry(1, 4, levels);
    assert ValueOr<Cell, nat>(levels, Text("compliant"), 0) == 1;
  }

  /** The evidently intended entry after a group: the count is added to what the risk
      level held instead of replacing it. */
  function GrownSummed(data: map<Cell, SiteEntry>, g: Group): SiteEntry {
    var e := EntryFor(data, g);
    SiteEntry(e.siteId, e.total + g.count, AddTo(e.levels, g.riskLevel, g.count))
  }

  /** The evidently intended first loop. */
  function CollectSummed(gs: seq<Group>): map<Cell, SiteEntry> {
    if gs == [] then map[]
    else
      var data := CollectSummed(gs[..|gs| - 1]);
      var g := gs[|gs| - 1];
      data[g.siteName := GrownSummed(data, g)]
  }

  lemma GrownSummedTotals(data: map<Cell, SiteEntry>, g: Group)
    requires g.siteName in data ==> SumValues(data[g.siteName].levels) == data[g.siteName].total
    ensures SumValues(GrownSummed(data, g).levels) == GrownSummed(data, g).total
  {
    if g.siteName !in data {
      assert EntryFor(data, g).levels.items == [];
    }
  }

  /** Corrected: every total is the sum of its level counts, whatever the groups. */
  lemma {:induction false} CollectSummedTotals(gs: seq<Group>, name: Cell)
    requires name in CollectSummed(gs)
    ensures SumValues(CollectSummed(gs)[name].levels) == CollectSummed(gs)[name].total
  {
    if gs != [] {
      var init := gs[..|gs| - 1];
      var g := gs[|gs| - 1];
      if name != g.siteName {
        CollectSummedTotals(init, name);
      } else {
        if name in CollectSummed(init) {
          CollectSummedTotals(init, name);
        }
        GrownSummedTotals(CollectSummed(init), g);
      }
    }
  }

  lemma GrownSummedCompliant(data: map<Cell, SiteEntry>, g: Group)
    requires g.riskLevel == Text("compliant") && g.count >= 1
    requires g.siteName in data ==> AllCompliant(data[g.siteName])
    ensures AllCompliant(GrownSummed(data, g))
  {
    EntryForCompliant(data, g);
    var e := EntryFor(data, g);
    assert CompliantCount(GrownSummed(data, g)) == e.total + g.count;
  }

  lemma EntryForCompliant(data: map<Cell, SiteEntry>, g: Group)
    requires g.siteName in data ==> AllCompliant(data[g.siteName])
    ensures CompliantCount(EntryFor(data, g)) == EntryFor(data, g).total
  {
    if g.siteName !in data {
      assert EntryFor(data, g).levels.items == [];
    }
  }

  /** Every row counted in the entry is compliant. */
  predicate AllCompliant(e: SiteEntry) {
    0 < CompliantCount(e) == e.total
  }

  lemma FullRate(e: SiteEntry)
    requires 0 < e.total == CompliantCount(e)
    ensures Rate(e) == 100.0
  {
    RatioPercent(e.total, e.total);
  }

  /** Corrected: a site name all of whose rows are compliant has rate 100, whatever the
      groups. */
  lemma SummedAllCompliant(gs: seq<Group>, name: Cell)
    requires name in CollectSummed(gs)
    requires forall i :: 0 <= i < |gs| ==> gs[i].count >= 1
    requires forall i :: 0 <= i < |gs| && gs[i].siteName == name ==> gs[i].riskLevel == Text("compliant")
    ensures CompliantCount(CollectSummed(gs)[name]) == CollectSummed(gs)[name].total
    ensures Rate(CollectSummed(gs)[name]) == 100.0
  {
    CompliantGroupsIff(gs, name);
    SummedCompliantCount(gs, name);
    FullRate(CollectSummed(gs)[name]);
  }

  lemma {:induction false} SummedCompliantCount(gs: seq<Group>, name: Cell)
    requires name in CollectSummed(gs) && CompliantGroups(gs, name)
    ensures AllCompliant(CollectSummed(gs)[name])
  {
    if gs != [] {
      var init := gs[..|gs| - 1];
      var g := gs[|gs| - 1];
      assert CollectSummed(gs) == CollectSummed(init)[g.siteName := GrownSummed(CollectSummed(init), g)];
      if name != g.siteName {
        SummedCompliantCount(init, name);
      } else {
        if name in CollectSummed(init) {
          SummedCompliantCount(init, name);
        }
        GrownSummedCompliant(CollectSummed(init), g);
      }
    }
  }


}
