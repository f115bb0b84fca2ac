/** `get_violation_trends` (app.py:106-155): the violation rows counted per time of day
    and risk level. */
module ViolationTrends {
  import opened Wrappers
  import opened SiteStore

  /** What `.hour` of a parsed timestamp can be. */
  type Hour = h: int | 0 <= h < 24

  /** The four keys of `time_slots` (app.py:122-127). */
  datatype Slot = Morning | Afternoon | Evening | Night

  function SlotName(slot: Slot): string {
    match slot
    case Morning => "Morning (06:00 - 12:00)"
    case Afternoon => "Afternoon (12:00 - 18:00)"
    case Evening => "Evening (18:00 - 00:00)"
    case Night => "Night (00:00 - 06:00)"
  }

  /** The hours a slot's name announces. */
  predicate InSlot(hour: int, slot: Slot) {
    match slot
    case Morning => 6 <= hour < 12
    case Afternoon => 12 <= hour < 18
    case Evening => 18 <= hour < 24
    case Night => 0 <= hour < 6
  }

  /** The slot chosen for an hour (app.py:141-149): the slots split the day, so it is
      the one slot whose name announces that hour. */
  function SlotOf(hour: Hour): (slot: Slot)
    ensures forall s :: InSlot(hour, s) <==> s == slot
  {
    if 6 <= hour < 12 then Morning
    else if 12 <= hour < 18 then Afternoon
    else if 18 <= hour < 24 then Evening
    else Night
  }

  /** The counters of one slot. */
  datatype Counts = Counts(compliant: nat, medium: nat, high: nat, total: nat)

  const Zero := Counts(0, 0, 0, 0)

  function CountKeys(): seq<string> {
    ["compliant", "medium", "high", "total"]
  }

  /** `counts[key]` for one of the four keys. */
  function Counter(c: Counts, key: string): nat
    requires key in CountKeys()
  {
    if key == "compliant" then c.compliant
    else if key == "medium" then c.medium
    else if key == "high" then c.high
    else c.total
  }

  /** `counts[key] += 1`: the counter under `key` grows by one and the three others
      keep their values; `None` stands for the `KeyError` of a key the dictionary does
      not have. */
  function Bump(c: Counts, key: string): (r: Option<Counts>)
    ensures r.Some? <==> key in CountKeys()
    ensures r.Some? ==> Counter(r.value, key) == Counter(c, key) + 1
    ensures r.Some? ==> forall k :: k in CountKeys() && k != key ==> Counter(r.value, k) == Counter(c, k)
  {
    if key == "compliant" then Some(c.(compliant := c.compliant + 1))
    else if key == "medium" then Some(c.(medium := c.medium + 1))
    else if key == "high" then Some(c.(high := c.high + 1))
    else if key == "total" then Some(c.(total := c.total + 1))
    else None
  }

  /** `time_slots`. */
  datatype TimeSlots = TimeSlots(morning: Counts, afternoon: Counts, evening: Counts, night: Counts)
  {
    function Get(slot: Slot): Counts {
      match slot
      case Morning => morning
      case Afternoon => afternoon
      case Evening => evening
      case Night => night
    }

    function With(slot: Slot, c: Counts): (r: TimeSlots)
      ensures r.Get(slot) == c
      ensures forall s :: s != slot ==> r.Get(s) == Get(s)
    {
      match slot
      case Morning => this.(morning := c)
      case Afternoon => this.(afternoon := c)
      case Evening => this.(evening := c)
      case Night => this.(night := c)
    }
  }

  const Initial := TimeSlots(Zero, Zero, Zero, Zero)

  const NoneTimestampMessage := "TypeError: strptime() argument 1 must be str, not None"

  function KeyErrorMessage(level: Cell): string {
    match level
    case Null => "KeyError: None"
    case Text(s) => "KeyError: '" + s + "'"
  }

  /** One pass of the loop body (app.py:131-153). `parseHour` is `strptime` with the
      format `%Y-%m-%dT%H:%M:%SZ` followed by `.hour`; `None` is its `ValueError`,
      which skips the row. A NULL timestamp is not a string, and the `TypeError` it
      raises is not caught. */
  function CountRow(ts: TimeSlots, row: Row, parseHour: string -> Option<Hour>): Result<TimeSlots> {
    match row.timestamp
    case Null => Err(NoneTimestampMessage)
    case Text(stamp) =>
      match parseHour(stamp)
      case None => Ok(ts)
      case Some(hour) =>
        var slot := SlotOf(hour);
        match row.riskLevel
        case Null => Err(KeyErrorMessage(row.riskLevel))
        case Text(level) =>
          match Bump(ts.Get(slot), level)
          case None => Err(KeyErrorMessage(row.riskLevel))
          case Some(c) => Ok(ts.With(slot, c.(total := c.total + 1)))
  }

  /** The loop over all rows; the first exception ends the request. */
  function Tally(rows: seq<Row>, parseHour: string -> Option<Hour>): Result<TimeSlots> {
    if rows == [] then Ok(Initial)
    else
      match Tally(rows[..|rows| - 1], parseHour)
      case Err(m) => Err(m)
      case Ok(ts) => CountRow(ts, rows[|rows| - 1], parseHour)
  }

  /** `get_violation_trends` over the fetched rows. */
  method GetViolationTrends(violations: seq<Row>, parseHour: string -> Option<Hour>) returns (r: Result<TimeSlots>)
    ensures r == Tally(violations, parseHour)
  {
    var timeSlots := Initial;
    for i := 0 to |violations|
      invariant Tally(violations[..i], parseHour) == Ok(timeSlots)
    {
      assert violations[..i + 1][..i] == violations[..i];
      var violation := violations[i];
      if violation.timestamp.Null? {
        TallyErrSticks(violations, i + 1, parseHour);
        return Err(NoneTimestampMessage);
      }
      var hour := parseHour(violation.timestamp.s);
      if hour.None? {
        continue;
      }
      var slot := SlotOf(hour.value);
      var bumped := if violation.riskLevel.Null? then None else Bump(timeSlots.Get(slot), violation.riskLevel.s);
      if bumped.None? {
        TallyErrSticks(violations, i + 1, parseHour);
        return Err(KeyErrorMessage(violation.riskLevel));
      }
      var counts := bumped.value;
      timeSlots := timeSlots.With(slot, counts.(total := counts.total + 1));
    }
    assert violations[..|violations|] == violations;
    r := Ok(timeSlots);
  }

  lemma {:induction false} TallyErrSticks(rows: seq<Row>, n: nat, parseHour: string -> Option<Hour>)
    requires n <= |rows| && Tally(rows[..n], parseHour).Err?
    ensures Tally(rows, parseHour) == Tally(rows[..n], parseHour)
  {
    if n < |rows| {
      var m := |rows| - 1;
      assert rows[..m][..n] == rows[..n];
      TallyErrSticks(rows[..m], n, parseHour);
      assert rows[..m] == rows[..|rows| - 1];
    } else {
      assert rows[..n] == rows;
    }
  }

  /** A row the loop gets through: its timestamp is a string, and when it parses, its
      risk level is one of the counter names. */
  predicate Countable(row: Row, parseHour: string -> Option<Hour>) {
    row.timestamp.Text? &&
    (parseHour(row.timestamp.s).Some? ==> row.riskLevel.Text? && row.riskLevel.s in CountKeys())
  }

  /** The request succeeds exactly when every row is countable. */
  lemma {:induction false} TallyOkIff(rows: seq<Row>, parseHour: string -> Option<Hour>)
    ensures Tally(rows, parseHour).Ok? <==> forall k :: 0 <= k < |rows| ==> Countable(rows[k], parseHour)
  {
    if rows != [] {
      var init := rows[..|rows| - 1];
      TallyOkIff(init, parseHour);
      assert forall k :: 0 <= k < |init| ==> init[k] == rows[k];
    }
  }

  /** Rows whose timestamp parses into `slot`. */
  function InSlotCount(rows: seq<Row>, parseHour: string -> Option<Hour>, slot: Slot): nat {
    if rows == [] then 0
    else
      var row := rows[|rows| - 1];
      InSlotCount(rows[..|rows| - 1], parseHour, slot) +
      if row.timestamp.Text? && parseHour(row.timestamp.s).Some? && InSlot(parseHour(row.timestamp.s).value, slot) then 1 else 0
  }

  /** Rows whose timestamp parses into `slot` and whose risk level is `level`. */
  function LevelCount(rows: seq<Row>, parseHour: string -> Option<Hour>, slot: Slot, level: string): nat {
    if rows == [] then 0
    else
      var row := rows[|rows| - 1];
      LevelCount(rows[..|rows| - 1], parseHour, slot, level) +
      if row.timestamp.Text? && parseHour(row.timestamp.s).Some? && InSlot(parseHour(row.timestamp.s).value, slot)
        && row.riskLevel == Text(level) then 1 else 0
  }

  /** When the request succeeds, each counter of a slot counts the rows of that slot at
      that level, and the total counts every row of the slot once more, so a row whose
      risk level is "total" counts twice in it. */
  lemma {:induction false} TallyCounts(rows: seq<Row>, parseHour: string -> Option<Hour>, slot: Slot)
    requires Tally(rows, parseHour).Ok?
    ensures Tally(rows, parseHour).value.Get(slot) ==
      Counts(LevelCount(rows, parseHour, slot, "compliant"), LevelCount(rows, parseHour, slot, "medium"),
             LevelCount(rows, parseHour, slot, "high"),
             InSlotCount(rows, parseHour, slot) + LevelCount(rows, parseHour, slot, "total"))
  {
    if rows != [] {
      TallyCounts(rows[..|rows| - 1], parseHour, slot);
    }
  }

  /** Rows whose timestamp parses. */
  function ParsedCount(rows: seq<Row>, parseHour: string -> Option<Hour>): nat {
    if rows == [] then 0
    else
      var row := rows[|rows| - 1];
      ParsedCount(rows[..|rows| - 1], parseHour) +
      if row.timestamp.Text? && parseHour(row.timestamp.s).Some? then 1 else 0
  }

  /** Every parsed row lies in exactly one slot. */
  lemma {:induction false} SlotsPartitionRows(rows: seq<Row>, parseHour: string -> Option<Hour>)
    ensures InSlotCount(rows, parseHour, Morning) + InSlotCount(rows, parseHour, Afternoon)
          + InSlotCount(rows, parseHour, Evening) + InSlotCount(rows, parseHour, Night)
         == ParsedCount(rows, parseHour)
  {
    if rows != [] {
      SlotsPartitionRows(rows[..|rows| - 1], parseHour);
      var row := rows[|rows| - 1];
      if row.timestamp.Text? && parseHour(row.timestamp.s).Some? {
        var slot := SlotOf(parseHour(row.timestamp.s).value);
      }
    }
  }

  function TotalOfTotals(ts: TimeSlots): nat {
    ts.morning.total + ts.afternoon.total + ts.evening.total + ts.night.total
  }

  /** When no risk level is "total", the four totals add up to the rows whose timestamp
      parses. */
  lemma TotalsCountParsedRows(rows: seq<Row>, parseHour: string -> Option<Hour>)
    requires Tally(rows, parseHour).Ok?
    requires forall k :: 0 <= k < |rows| ==> rows[k].riskLevel != Text("total")
    ensures TotalOfTotals(Tally(rows, parseHour).value) == ParsedCount(rows, parseHour)
  {
    TallyCounts(rows, parseHour, Morning);
    TallyCounts(rows, parseHour, Afternoon);
    TallyCounts(rows, parseHour, Evening);
    TallyCounts(rows, parseHour, Night);
    NoLevelRows(rows, parseHour, "total");
    SlotsPartitionRows(rows, parseHour);
  }

  lemma {:induction false} NoLevelRows(rows: seq<Row>, parseHour: string -> Option<Hour>, level: string)
    requires forall k :: 0 <= k < |rows| ==> rows[k].riskLevel != Text(level)
    ensures forall slot :: LevelCount(rows, parseHour, slot, level) == 0
  {
    if rows != [] {
      NoLevelRows(rows[..|rows| - 1], parseHour, level);
    }
  }
}
