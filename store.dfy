/** `insert_violations` (test.py:324-362) and the two tables it writes (test.py:27-45).
    Each image's `site_name` is looked up in `Sites` and inserted when absent; then one
    `Violations` row is appended per detection. The whole run is one transaction,
    committed at the end: any exception leaves both tables as they were. */
module SiteStore {
  import opened Wrappers
  import opened Dicts
  import opened Json
  import opened ResponseParser

  /** A value stored in a TEXT column. */
  datatype Cell = Null | Text(s: string)

  /** A row of `Sites`. */
  datatype Site = Site(id: nat, name: Cell)

  /** A row of `Violations`. */
  datatype Row = Row(id: nat, timestamp: Cell, siteId: nat, imageReference: Cell, violationType: Cell, riskLevel: Cell)

  /** Both tables, with the AUTOINCREMENT counters (the largest id ever issued). */
  datatype Tables = Tables(sites: seq<Site>, rows: seq<Row>, lastSiteId: nat, lastRowId: nat)

  const MinInt64: int := -0x8000_0000_0000_0000
  const MaxInt64: int := 0x7fff_ffff_ffff_ffff

  function NatText(n: nat): string {
    if n < 10 then ["0123456789"[n]] else NatText(n / 10) + ["0123456789"[n % 10]]
  }

  /** The decimal text an INTEGER becomes in a column of TEXT affinity. */
  function IntText(n: int): string {
    if n < 0 then "-" + NatText(-n) else NatText(n)
  }

  /** Binding a decoded JSON value as a statement parameter for a TEXT column: strings
      are stored as they are, `None` as NULL, `True`/`False` and integers as their
      integer text; lists and dicts cannot be bound, nor integers outside 64 bits. */
  function Bind(v: Json): (r: Result<Cell>)
    ensures r.Ok? <==> !v.JArr? && !v.JObj? && (v.JNum? ==> MinInt64 <= v.n <= MaxInt64)
    ensures v.JStr? ==> r == Ok(Text(v.s))
    ensures v.JNull? <==> r == Ok(Null)
  {
    match v
    case JNull => Ok(Null)
    case JStr(s) => Ok(Text(s))
    case JBool(b) => Ok(Text(if b then "1" else "0"))
    case JNum(n) =>
      if MinInt64 <= n <= MaxInt64 then Ok(Text(IntText(n)))
      else Err("Python int too large to convert to SQLite INTEGER")
    case _ => Err("Error binding parameter: type is not supported")
  }

  /** `v[key]` on a detection: the value, a `KeyError`, or the `TypeError` of indexing
      something that is not a dict. */
  function Subscript(v: Json, key: string): (r: Result<Json>)
    ensures r.Ok? <==> v.JObj? && key in v.fields
    ensures r.Ok? ==> r.value == v.fields[key]
  {
    match v
    case JObj(m) => if key in m then Ok(m[key]) else Err("'" + key + "'")
    case JArr(_) => Err("list indices must be integers or slices, not str")
    case JStr(_) => Err("string indices must be integers")
    case JNull => Err("'NoneType' object is not subscriptable")
    case JBool(_) => Err("'bool' object is not subscriptable")
    case JNum(_) => Err("'int' object is not subscriptable")
  }

  /** `SELECT Site_ID FROM Sites WHERE site_name = ?`: the id of the site with that name.
      NULL equals nothing, not even NULL. */
  function Lookup(sites: seq<Site>, name: Cell): (r: Option<nat>)
    ensures r.None? <==> name.Null? || forall i :: 0 <= i < |sites| ==> sites[i].name != name
    ensures r.Some? ==> exists i :: 0 <= i < |sites| && sites[i].name == name && sites[i].id == r.value
  {
    if name.Null? || sites == [] then None
    else if sites[|sites| - 1].name == name then Some(sites[|sites| - 1].id)
    else
      var r := Lookup(sites[..|sites| - 1], name);
      assert forall i :: 0 <= i < |sites| - 1 ==> sites[..|sites| - 1][i] == sites[i];
      r
  }

  /** Steps 1 and 2: the existing site's id, or a new site with the next id. */
  function ResolveSite(t: Tables, name: Cell): (Tables, nat) {
    match Lookup(t.sites, name)
    case Some(id) => (t, id)
    case None =>
      var id := t.lastSiteId + 1;
      (t.(sites := t.sites + [Site(id, name)], lastSiteId := id), id)
  }

  /** The row step 3 inserts for one detection `v`, or the exception that stops it. */
  function MakeRow(id: nat, timestamp: Json, siteId: nat, filename: string, v: Json): Result<Row> {
    var reason := Subscript(v, "reason");
    var risk := Subscript(v, "risk_level");
    if reason.Err? then Err(reason.message)
    else if risk.Err? then Err(risk.message)
    else if Bind(timestamp).Err? then Err(Bind(timestamp).message)
    else if Bind(reason.value).Err? then Err(Bind(reason.value).message)
    else if Bind(risk.value).Err? then Err(Bind(risk.value).message)
    else Ok(Row(id, Bind(timestamp).value, siteId, Text(filename), Bind(reason.value).value, Bind(risk.value).value))
  }

  /** Step 3 for the detections `vs` of one image, in order. */
  function AddRows(t: Tables, timestamp: Json, siteId: nat, filename: string, vs: seq<Json>): Result<Tables> {
    if vs == [] then Ok(t)
    else
      match AddRows(t, timestamp, siteId, filename, vs[..|vs| - 1])
      case Err(e) => Err(e)
      case Ok(t1) =>
        match MakeRow(t1.lastRowId + 1, timestamp, siteId, filename, vs[|vs| - 1])
        case Err(e) => Err(e)
        case Ok(row) => Ok(t1.(rows := t1.rows + [row], lastRowId := row.id))
  }

  /** One image of the loop (test.py:332-358). */
  function ImageSpec(t: Tables, filename: string, rec: Record): Result<Tables> {
    match Bind(rec.siteName)
    case Err(e) => Err(e)
    case Ok(name) =>
      var resolved := ResolveSite(t, name);
      AddRows(resolved.0, rec.timestamp, resolved.1, filename, rec.violations)
  }

  /** The images `items`, in the dictionary's order. */
  function InsertAll(t: Tables, items: seq<(string, Record)>): Result<Tables> {
    if items == [] then Ok(t)
    else
      match InsertAll(t, items[..|items| - 1])
      case Err(e) => Err(e)
      case Ok(t1) => ImageSpec(t1, items[|items| - 1].0, items[|items| - 1].1)
  }

  /** The tables `insert_violations` commits, or the exception that ends it. The
      `{"error": message}` of a failed analysis is a dict whose value is a string, on
      which `.get` raises. */
  function InsertSpec(t: Tables, results: Result<Dict<string, Record>>): Result<Tables> {
    match results
    case Err(_) => Err("'str' object has no attribute 'get'")
    case Ok(d) => InsertAll(t, d.items)
  }

  /** The site ids, in table order. */
  function SiteIds(sites: seq<Site>): (ids: seq<nat>)
    ensures |ids| == |sites|
    ensures forall i :: 0 <= i < |sites| ==> ids[i] == sites[i].id
  {
    seq(|sites|, i requires 0 <= i < |sites| => sites[i].id)
  }

  /** Site ids grow along the table and never exceed the counter. */
  predicate SiteIdsValid(t: Tables) {
    (forall i, j :: 0 <= i < j < |t.sites| ==> t.sites[i].id < t.sites[j].id) &&
    (forall i :: 0 <= i < |t.sites| ==> t.sites[i].id <= t.lastSiteId)
  }

  /** `Site_Name TEXT UNIQUE`: no two sites share a name, NULL apart. */
  predicate NamesUnique(sites: seq<Site>) {
    forall i, j :: 0 <= i < j < |sites| && sites[i].name.Text? ==> sites[i].name != sites[j].name
  }

  /** Row ids grow along the table, never exceed the counter, and every row names an
      existing site. */
  predicate RowsValid(t: Tables) {
    (forall i, j :: 0 <= i < j < |t.rows| ==> t.rows[i].id < t.rows[j].id) &&
    (forall i :: 0 <= i < |t.rows| ==> t.rows[i].id <= t.lastRowId) &&
    (forall i :: 0 <= i < |t.rows| ==> t.rows[i].siteId in SiteIds(t.sites))
  }

  /** What the schema and the inserts keep true of the tables. */
  predicate Valid(t: Tables) {
    SiteIdsValid(t) && NamesUnique(t.sites) && RowsValid(t)
  }

  /** The database file behind the connection of one run. */
  class Database {
    var sites: seq<Site>
    var rows: seq<Row>
    var lastSiteId: nat
    var lastRowId: nat

    function State(): Tables
      reads this
    {
      Tables(sites, rows, lastSiteId, lastRowId)
    }

    /** A fresh database file: `get_db_connection` creates both tables empty. */
    constructor ()
      ensures State() == Tables([], [], 0, 0)
    {
      sites, rows, lastSiteId, lastRowId := [], [], 0, 0;
    }

    /** Rolling back the open transaction. */
    method Restore(snapshot: Tables)
      modifies this
      ensures State() == snapshot
    {
      sites, rows, lastSiteId, lastRowId := snapshot.sites, snapshot.rows, snapshot.lastSiteId, snapshot.lastRowId;
    }

    /** Steps 1 and 2 (test.py:334-344). */
    method FindOrInsertSite(name: Cell) returns (id: nat)
      modifies this
      ensures (State(), id) == ResolveSite(old(State()), name)
    {
      var row := Lookup(sites, name);
      if row.Some? {
        id := row.value;
      } else {
        id := lastSiteId + 1;
        sites, lastSiteId := sites + [Site(id, name)], id;
      }
    }

    /** Steps 1 to 3 for one image (test.py:332-358). When it fails, the tables may hold
        part of the image's inserts until the transaction is rolled back. */
    method InsertImage(filename: string, rec: Record) returns (ok: bool)
      modifies this
      ensures ok == ImageSpec(old(State()), filename, rec).Ok?
      ensures ok ==> State() == ImageSpec(old(State()), filename, rec).value
    {
      ghost var before := State();
      var name := Bind(rec.siteName);
      if name.Err? {
        return false;
      }
      var siteId := FindOrInsertSite(name.value);
      ImageSpecResolved(before, filename, rec, name.value);
      ok := AppendRows(rec.timestamp, siteId, filename, rec.violations);
    }

    /** Step 3 (test.py:347-358): one row per detection, in order. */
    method AppendRows(timestamp: Json, siteId: nat, filename: string, vs: seq<Json>) returns (ok: bool)
      modifies this
      ensures ok == AddRows(old(State()), timestamp, siteId, filename, vs).Ok?
      ensures ok ==> State() == AddRows(old(State()), timestamp, siteId, filename, vs).value
    {
      ghost var start := State();
      var j := 0;
      assert vs[..0] == [];
      while j < |vs|
        invariant j <= |vs|
        invariant AddRows(start, timestamp, siteId, filename, vs[..j]) == Ok(State())
      {
        ghost var before := State();
        var row := MakeRow(lastRowId + 1, timestamp, siteId, filename, vs[j]);
        AddRowsStep(start, timestamp, siteId, filename, vs, j, before, row);
        if row.Err? {
          AddRowsErr(start, timestamp, siteId, filename, vs, j + 1);
          return false;
        }
        rows, lastRowId := rows + [row.value], row.value.id;
        assert State() == before.(rows := before.rows + [row.value], lastRowId := row.value.id);
        j := j + 1;
      }
      assert vs[..j] == vs;
      ok := true;
    }

    /** `insert_violations`: the loop over the images, then the commit. */
    method InsertViolations(results: Result<Dict<string, Record>>) returns (committed: bool)
      modifies this
      ensures committed == InsertSpec(old(State()), results).Ok?
      ensures State() == if committed then InsertSpec(old(State()), results).value else old(State())
    {
      if results.Err? {
        return false;
      }
      var snapshot := State();
      var items := results.value.items;
      var i := 0;
      assert items[..0] == [];
      while i < |items|
        invariant i <= |items|
        invariant InsertAll(snapshot, items[..i]) == Ok(State())
      {
        InsertAllSnoc(snapshot, items, i);
        var ok := InsertImage(items[i].0, items[i].1);
        if !ok {
          InsertAllErr(snapshot, items, i + 1);
          Restore(snapshot);
          return false;
        }
        i := i + 1;
      }
      assert items[..i] == items;
      committed := true;
    }
  }

  lemma ImageSpecResolved(t: Tables, filename: string, rec: Record, name: Cell)
    requires Bind(rec.siteName) == Ok(name)
    ensures ImageSpec(t, filename, rec) ==
      AddRows(ResolveSite(t, name).0, rec.timestamp, ResolveSite(t, name).1, filename, rec.violations)
  {
  }

  lemma AddRowsSnoc(t: Tables, timestamp: Json, siteId: nat, filename: string, vs: seq<Json>, j: nat)
    requires j < |vs|
    ensures AddRows(t, timestamp, siteId, filename, vs[..j + 1]) ==
      match AddRows(t, timestamp, siteId, filename, vs[..j])
      case Err(e) => Err(e)
      case Ok(t1) =>
        match MakeRow(t1.lastRowId + 1, timestamp, siteId, filename, vs[j])
        case Err(e) => Err(e)
        case Ok(row) => Ok(t1.(rows := t1.rows + [row], lastRowId := row.id))
  {
    assert vs[..j + 1][..j] == vs[..j];
  }

  lemma AddRowsStep(t: Tables, timestamp: Json, siteId: nat, filename: string, vs: seq<Json>, j: nat, t1: Tables, row: Result<Row>)
    requires j < |vs| && AddRows(t, timestamp, siteId, filename, vs[..j]) == Ok(t1)
    requires row == MakeRow(t1.lastRowId + 1, timestamp, siteId, filename, vs[j])
    ensures row.Err? ==> AddRows(t, timestamp, siteId, filename, vs[..j + 1]).Err?
    ensures row.Ok? ==>
      AddRows(t, timestamp, siteId, filename, vs[..j + 1]) == Ok(t1.(rows := t1.rows + [row.value], lastRowId := row.value.id))
  {
    AddRowsSnoc(t, timestamp, siteId, filename, vs, j);
  }

  /** Once a detection has failed, the image fails. */
  lemma {:induction false} AddRowsErr(t: Tables, timestamp: Json, siteId: nat, filename: string, vs: seq<Json>, j: nat)
    requires j <= |vs| && AddRows(t, timestamp, siteId, filename, vs[..j]).Err?
    ensures AddRows(t, timestamp, siteId, filename, vs).Err?
    decreases |vs| - j
  {
    if j < |vs| {
      AddRowsSnoc(t, timestamp, siteId, filename, vs, j);
      AddRowsErr(t, timestamp, siteId, filename, vs, j + 1);
    } else {
      assert vs[..j] == vs;
    }
  }

  lemma InsertAllSnoc(t: Tables, items: seq<(string, Record)>, i: nat)
    requires i < |items|
    ensures InsertAll(t, items[..i + 1]) ==
      match InsertAll(t, items[..i])
      case Err(e) => Err(e)
      case Ok(t1) => ImageSpec(t1, items[i].0, items[i].1)
  {
    assert items[..i + 1][..i] == items[..i];
  }

  /** Once an image has failed, the run fails. */
  lemma {:induction false} InsertAllErr(t: Tables, items: seq<(string, Record)>, i: nat)
    requires i <= |items| && InsertAll(t, items[..i]).Err?
    ensures InsertAll(t, items).Err?
    decreases |items| - i
  {
    if i < |items| {
      InsertAllSnoc(t, items, i);
      InsertAllErr(t, items, i + 1);
    } else {
      assert items[..i] == items;
    }
  }

  /** A detection can be stored: it is a dict with both keys, and the image timestamp,
      the reason and the risk level can all be bound. */
  predicate Insertable(timestamp: Json, v: Json) {
    v.JObj? && "reason" in v.fields && "risk_level" in v.fields &&
    Bind(timestamp).Ok? && Bind(v.fields["reason"]).Ok? && Bind(v.fields["risk_level"]).Ok?
  }

  /** An image can be stored: its site name can be bound and each detection can. */
  predicate ImageInsertable(rec: Record) {
    Bind(rec.siteName).Ok? && forall j :: 0 <= j < |rec.violations| ==> Insertable(rec.timestamp, rec.violations[j])
  }

  /** The row of a detection carries the image's timestamp, the site id, the file name,
      the reason and the risk level, under the next id. */
  lemma MakeRowFields(id: nat, timestamp: Json, siteId: nat, filename: string, v: Json)
    ensures MakeRow(id, timestamp, siteId, filename, v).Ok? <==> Insertable(timestamp, v)
    ensures Insertable(timestamp, v) ==>
      var row := MakeRow(id, timestamp, siteId, filename, v).value;
      row.id == id && row.siteId == siteId && row.imageReference == Text(filename) &&
      Bind(timestamp) == Ok(row.timestamp) &&
      Bind(v.fields["reason"]) == Ok(row.violationType) &&
      Bind(v.fields["risk_level"]) == Ok(row.riskLevel)
  {
  }

  /** Step 3 succeeds exactly when every detection can be stored. */
  lemma {:induction false} AddRowsOk(t: Tables, timestamp: Json, siteId: nat, filename: string, vs: seq<Json>)
    ensures AddRows(t, timestamp, siteId, filename, vs).Ok? <==> forall j :: 0 <= j < |vs| ==> Insertable(timestamp, vs[j])
  {
    if vs != [] {
      var init := vs[..|vs| - 1];
      AddRowsOk(t, timestamp, siteId, filename, init);
      assert forall j :: 0 <= j < |init| ==> init[j] == vs[j];
      var r := AddRows(t, timestamp, siteId, filename, init);
      if r.Ok? {
        MakeRowFields(r.value.lastRowId + 1, timestamp, siteId, filename, vs[|vs| - 1]);
      }
    }
  }

  /** Step 3 appends one row per detection, with consecutive ids, and changes nothing
      else. */
  lemma {:induction false} AddRowsAppends(t: Tables, timestamp: Json, siteId: nat, filename: string, vs: seq<Json>)
    requires AddRows(t, timestamp, siteId, filename, vs).Ok?
    ensures var t' := AddRows(t, timestamp, siteId, filename, vs).value;
      t'.sites == t.sites && t'.lastSiteId == t.lastSiteId &&
      |t'.rows| == |t.rows| + |vs| && t.rows <= t'.rows && t'.lastRowId == t.lastRowId + |vs|
  {
    if vs != [] {
      var init := vs[..|vs| - 1];
      AddRowsAppends(t, timestamp, siteId, filename, init);
      var t1 := AddRows(t, timestamp, siteId, filename, init).value;
      MakeRowFields(t1.lastRowId + 1, timestamp, siteId, filename, vs[|vs| - 1]);
    }
  }

  /** The row appended for detection `j`. */
  lemma {:induction false} AddRowsRow(t: Tables, timestamp: Json, siteId: nat, filename: string, vs: seq<Json>, j: nat)
    requires j < |vs| && AddRows(t, timestamp, siteId, filename, vs).Ok?
    ensures |t.rows| + j < |AddRows(t, timestamp, siteId, filename, vs).value.rows|
    ensures MakeRow(t.lastRowId + j + 1, timestamp, siteId, filename, vs[j]) ==
      Ok(AddRows(t, timestamp, siteId, filename, vs).value.rows[|t.rows| + j])
  {
    AddRowsAppends(t, timestamp, siteId, filename, vs);
    var init := vs[..|vs| - 1];
    AddRowsAppends(t, timestamp, siteId, filename, init);
    var t1 := AddRows(t, timestamp, siteId, filename, init).value;
    var t' := AddRows(t, timestamp, siteId, filename, vs).value;
    MakeRowFields(t1.lastRowId + 1, timestamp, siteId, filename, vs[|vs| - 1]);
    assert t'.rows == t1.rows + [t'.rows[|t'.rows| - 1]];
    if j < |vs| - 1 {
      AddRowsRow(t, timestamp, siteId, filename, init, j);
      assert init[j] == vs[j];
      assert t'.rows[|t.rows| + j] == t1.rows[|t.rows| + j];
    }
  }

  /** Some site has id `id` and name `name`. */
  predicate HasSite(sites: seq<Site>, id: nat, name: Cell) {
    exists k :: 0 <= k < |sites| && sites[k] == Site(id, name)
  }

  /** A name already in the table resolves to its own site, and nothing is inserted. */
  lemma ResolveExisting(t: Tables, k: nat)
    requires NamesUnique(t.sites) && k < |t.sites| && t.sites[k].name.Text?
    ensures ResolveSite(t, t.sites[k].name) == (t, t.sites[k].id)
  {
    var name := t.sites[k].name;
    var i :| 0 <= i < |t.sites| && t.sites[i].name == name && t.sites[i].id == Lookup(t.sites, name).value;
    assert i == k;
  }

  /** NULL, or a name not in the table, gets a new site whose id is the counter's next
      value, above every id issued so far. */
  lemma ResolveFresh(t: Tables, name: Cell)
    requires name.Null? || forall i :: 0 <= i < |t.sites| ==> t.sites[i].name != name
    ensures ResolveSite(t, name) ==
      (t.(sites := t.sites + [Site(t.lastSiteId + 1, name)], lastSiteId := t.lastSiteId + 1), t.lastSiteId + 1)
    ensures SiteIdsValid(t) ==> forall i :: 0 <= i < |t.sites| ==> t.sites[i].id < t.lastSiteId + 1
  {
  }

  /** Resolving a name keeps the tables valid, keeps the rows and the existing sites,
      and yields the id of a site with that name. */
  lemma ResolveValid(t: Tables, name: Cell)
    requires Valid(t)
    ensures Valid(ResolveSite(t, name).0)
    ensures HasSite(ResolveSite(t, name).0.sites, ResolveSite(t, name).1, name)
    ensures t.sites <= ResolveSite(t, name).0.sites
    ensures ResolveSite(t, name).0.rows == t.rows && ResolveSite(t, name).0.lastRowId == t.lastRowId
    ensures t.lastSiteId <= ResolveSite(t, name).0.lastSiteId
  {
    var r := ResolveSite(t, name);
    match Lookup(t.sites, name)
    case Some(id) =>
      var k :| 0 <= k < |t.sites| && t.sites[k].name == name && t.sites[k].id == id;
      assert r.0.sites[k] == Site(r.1, name);
    case None =>
      var sites := r.0.sites;
      assert sites[|t.sites|] == Site(r.1, name);
      assert forall i :: 0 <= i < |t.sites| ==> sites[i] == t.sites[i];
      assert forall i :: 0 <= i < |t.rows| ==> t.rows[i].siteId in SiteIds(t.sites) ==> t.rows[i].siteId in SiteIds(sites);
  }

  /** Two lookups in a row, as for two images: they give the same `Site_ID` exactly
      when the two names are the same text. Distinct names get distinct ids, and a NULL
      name gets a new site every time. */
  lemma ResolveTwice(t: Tables, n1: Cell, n2: Cell)
    requires Valid(t)
    ensures ResolveSite(t, n1).1 == ResolveSite(ResolveSite(t, n1).0, n2).1 <==> n1 == n2 && n1.Text?
  {
    var r1 := ResolveSite(t, n1);
    var t1, i := r1.0, r1.1;
    ResolveValid(t, n1);
    var k1 :| 0 <= k1 < |t1.sites| && t1.sites[k1] == Site(i, n1);
    assert i <= t1.lastSiteId;
    if n1 == n2 && n1.Text? {
      ResolveExisting(t1, k1);
    } else {
      match Lookup(t1.sites, n2)
      case Some(j) =>
        var k2 :| 0 <= k2 < |t1.sites| && t1.sites[k2].name == n2 && t1.sites[k2].id == j;
        assert k1 != k2;
        assert t1.sites[k1].id != t1.sites[k2].id;
      case None =>
        ResolveFresh(t1, n2);
    }
  }

  /** Appending the rows of one image for an existing site keeps the tables valid. */
  lemma {:induction false} AddRowsValid(t: Tables, timestamp: Json, siteId: nat, filename: string, vs: seq<Json>)
    requires Valid(t) && siteId in SiteIds(t.sites)
    requires AddRows(t, timestamp, siteId, filename, vs).Ok?
    ensures Valid(AddRows(t, timestamp, siteId, filename, vs).value)
  {
    if vs != [] {
      var init := vs[..|vs| - 1];
      AddRowsValid(t, timestamp, siteId, filename, init);
      AddRowsAppends(t, timestamp, siteId, filename, init);
      var t1 := AddRows(t, timestamp, siteId, filename, init).value;
      var id := t1.lastRowId + 1;
      MakeRowFields(id, timestamp, siteId, filename, vs[|vs| - 1]);
      var row := MakeRow(id, timestamp, siteId, filename, vs[|vs| - 1]).value;
      var rows := t1.rows + [row];
      assert forall i :: 0 <= i < |t1.rows| ==> rows[i] == t1.rows[i];
    }
  }

  /** Storing one image keeps the tables valid. */
  lemma ImageValid(t: Tables, filename: string, rec: Record)
    requires Valid(t) && ImageSpec(t, filename, rec).Ok?
    ensures Valid(ImageSpec(t, filename, rec).value)
  {
    var name := Bind(rec.siteName).value;
    ResolveValid(t, name);
    var r := ResolveSite(t, name);
    var k :| 0 <= k < |r.0.sites| && r.0.sites[k] == Site(r.1, name);
    assert SiteIds(r.0.sites)[k] == r.1;
    AddRowsValid(r.0, rec.timestamp, r.1, filename, rec.violations);
  }

  /** Storing one image only appends: to `Sites` at most one site, to `Violations` one
      row per detection. */
  lemma ImageAppends(t: Tables, filename: string, rec: Record)
    requires Valid(t) && ImageSpec(t, filename, rec).Ok?
    ensures t.sites <= ImageSpec(t, filename, rec).value.sites
    ensures |ImageSpec(t, filename, rec).value.sites| <= |t.sites| + 1
    ensures t.rows <= ImageSpec(t, filename, rec).value.rows
    ensures |ImageSpec(t, filename, rec).value.rows| == |t.rows| + |rec.violations|
  {
    var name := Bind(rec.siteName).value;
    ResolveValid(t, name);
    var r := ResolveSite(t, name);
    AddRowsAppends(r.0, rec.timestamp, r.1, filename, rec.violations);
  }

  /** The rows one image stores: row `j` is detection `j`, under the image's file name,
      its timestamp and the `Site_ID` its site name resolved to. */
  lemma ImageRows(t: Tables, filename: string, rec: Record, j: nat)
    requires ImageSpec(t, filename, rec).Ok? && j < |rec.violations|
    ensures |t.rows| + j < |ImageSpec(t, filename, rec).value.rows|
    ensures Insertable(rec.timestamp, rec.violations[j])
    ensures var row := ImageSpec(t, filename, rec).value.rows[|t.rows| + j];
      row.imageReference == Text(filename) &&
      row.siteId == ResolveSite(t, Bind(rec.siteName).value).1 &&
      Bind(rec.timestamp) == Ok(row.timestamp) &&
      Bind(rec.violations[j].fields["reason"]) == Ok(row.violationType) &&
      Bind(rec.violations[j].fields["risk_level"]) == Ok(row.riskLevel)
  {
    ImageOk(t, filename, rec);
    var r := ResolveSite(t, Bind(rec.siteName).value);
    AddRowsRow(r.0, rec.timestamp, r.1, filename, rec.violations, j);
    MakeRowFields(r.0.lastRowId + j + 1, rec.timestamp, r.1, filename, rec.violations[j]);
  }

  /** An image without detections still registers its site (test.py:334-344 run before
      the detections are looked at), and adds no row. */
  lemma ImageWithoutDetections(t: Tables, filename: string, rec: Record)
    requires Bind(rec.siteName).Ok? && rec.violations == []
    ensures ImageSpec(t, filename, rec) == Ok(ResolveSite(t, Bind(rec.siteName).value).0)
    ensures Valid(t) ==> HasSite(ImageSpec(t, filename, rec).value.sites, ResolveSite(t, Bind(rec.siteName).value).1, Bind(rec.siteName).value)
    ensures ImageSpec(t, filename, rec).value.rows == t.rows
  {
    if Valid(t) {
      ResolveValid(t, Bind(rec.siteName).value);
    }
  }

  /** Storing one image succeeds exactly when it can be stored, whatever the tables. */
  lemma ImageOk(t: Tables, filename: string, rec: Record)
    ensures ImageSpec(t, filename, rec).Ok? <==> ImageInsertable(rec)
  {
    if Bind(rec.siteName).Ok? {
      var r := ResolveSite(t, Bind(rec.siteName).value);
      AddRowsOk(r.0, rec.timestamp, r.1, filename, rec.violations);
    }
  }

  /** The run commits exactly when the analysis succeeded and every image can be
      stored; otherwise nothing is committed. */
  lemma {:induction false} InsertAllOk(t: Tables, items: seq<(string, Record)>)
    ensures InsertAll(t, items).Ok? <==> forall k :: 0 <= k < |items| ==> ImageInsertable(items[k].1)
  {
    if items != [] {
      var init := items[..|items| - 1];
      InsertAllOk(t, init);
      assert forall k :: 0 <= k < |init| ==> init[k] == items[k];
      var r := InsertAll(t, init);
      if r.Ok? {
        ImageOk(r.value, items[|items| - 1].0, items[|items| - 1].1);
      }
    }
  }

  lemma InsertCommits(t: Tables, results: Result<Dict<string, Record>>)
    ensures InsertSpec(t, results).Ok? <==>
      results.Ok? && forall k :: 0 <= k < |results.value.items| ==> ImageInsertable(results.value.items[k].1)
  {
    if results.Ok? {
      InsertAllOk(t, results.value.items);
    }
  }

  /** A committed run keeps the tables valid and only appends to them: no site or row
      is updated or deleted. */
  lemma {:induction false} InsertAllValid(t: Tables, items: seq<(string, Record)>)
    requires Valid(t) && InsertAll(t, items).Ok?
    ensures Valid(InsertAll(t, items).value)
    ensures t.sites <= InsertAll(t, items).value.sites
    ensures t.rows <= InsertAll(t, items).value.rows
  {
    if items != [] {
      var init := items[..|items| - 1];
      InsertAllValid(t, init);
      var t1 := InsertAll(t, init).value;
      ImageValid(t1, items[|items| - 1].0, items[|items| - 1].1);
      ImageAppends(t1, items[|items| - 1].0, items[|items| - 1].1);
    }
  }

  lemma InsertValid(t: Tables, results: Result<Dict<string, Record>>)
    requires Valid(t) && InsertSpec(t, results).Ok?
    ensures Valid(InsertSpec(t, results).value)
    ensures t.sites <= InsertSpec(t, results).value.sites
    ensures t.rows <= InsertSpec(t, results).value.rows
  {
    InsertAllValid(t, results.value.items);
  }
}
