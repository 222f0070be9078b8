/**
 The published table of bridge candidates and the latency history. Timestamps are not
 modelled: nothing decides anything by them.
 */
module Telemetry {
  import opened Arithmetic
  import opened Wrappers

  const HISTORY_CAPACITY: nat := 120

  datatype Seen = Seen(success: bool, latency: nat)

  /** The last known status of one candidate; `last` is empty until it is first checked. */
  datatype Row = Row(index: nat, line: string, last: Option<Seen>)

  /** One reported check. */
  datatype Report = Report(index: nat, line: string, seen: Seen)

  predicate StrictlySorted(rows: seq<Row>) {
    forall i, j :: 0 <= i < j < |rows| ==> rows[i].index < rows[j].index
  }

  /** Every configured candidate, in order, none checked yet. */
  function Seeded(lines: seq<string>): (rows: seq<Row>)
    ensures |rows| == |lines| && StrictlySorted(rows)
    ensures forall i :: 0 <= i < |rows| ==> rows[i] == Row(i, lines[i], None)
  {
    seq(|lines|, i requires 0 <= i < |lines| => Row(i, lines[i], None))
  }

  /** The first row for `index`, or the number of rows. */
  function Find(rows: seq<Row>, index: nat): (i: nat)
    ensures i <= |rows| && (i < |rows| ==> rows[i].index == index)
    ensures forall j :: 0 <= j < i ==> rows[j].index != index
  {
    if rows == [] || rows[0].index == index then 0 else 1 + Find(rows[1..], index)
  }

  /** The stable sort by index. */
  function Insert(row: Row, sorted: seq<Row>): seq<Row> {
    if sorted == [] || row.index <= sorted[0].index then [row] + sorted
    else [sorted[0]] + Insert(row, sorted[1..])
  }

  function SortByIndex(rows: seq<Row>): seq<Row> {
    if rows == [] then [] else Insert(rows[0], SortByIndex(rows[1..]))
  }

  /** The table after one report: its row is updated in place and keeps its line, or a new
      row is added and the table sorted again. */
  function Record(rows: seq<Row>, r: Report): seq<Row> {
    var i := Find(rows, r.index);
    if i < |rows| then rows[i := rows[i].(last := Some(r.seen))]
    else SortByIndex(rows + [Row(r.index, r.line, Some(r.seen))])
  }

  class HealthStatus {
    var candidates: seq<Row>
    var history: seq<Seen>
    var activeIndex: Option<nat>
    var activeLine: Option<string>
    var failures: nat
    var switches: nat
    var error: bool

    constructor ()
      ensures candidates == [] && history == [] && activeIndex == None && activeLine == None
      ensures failures == 0 && switches == 0 && !error
    {
      candidates, history := [], [];
      activeIndex, activeLine := None, None;
      failures, switches, error := 0, 0, false;
    }

    method SeedCandidates(lines: seq<string>)
      modifies this`candidates
      ensures candidates == Seeded(lines)
    {
      candidates := seq(|lines|, i requires 0 <= i < |lines| => Row(i, lines[i], None));
    }

    method RecordCandidateResult(index: nat, line: string, success: bool, latency: nat)
      modifies this`candidates
      ensures candidates == Record(old(candidates), Report(index, line, Seen(success, latency)))
    {
      var i := 0;
      while i < |candidates| && candidates[i].index != index
        invariant i <= Find(candidates, index) <= |candidates|
      {
        i := i + 1;
      }
      if i < |candidates| {
        candidates := candidates[i := candidates[i].(last := Some(Seen(success, latency)))];
      } else {
        candidates := SortByIndex(candidates + [Row(index, line, Some(Seen(success, latency)))]);
      }
    }

    /** A bridge has become the active one: one update. */
    method RecordSwitch(index: nat, line: Option<string>)
      modifies this`activeIndex, this`activeLine, this`switches, this`failures
      ensures activeIndex == Some(index) && activeLine == line && failures == 0
      ensures switches == (old(switches) + 1) % 0x1_0000_0000_0000_0000
    {
      activeIndex, activeLine := Some(index), line;
      switches, failures := (switches + 1) % U64_MODULUS, 0;
    }

    method PushSample(sample: Seen)
      modifies this`history
      ensures history == Window(old(history) + [sample]) && history != [] && history[|history| - 1] == sample
    {
      history := history + [sample];
      ghost var all := history;
      while |history| > HISTORY_CAPACITY
        invariant Window(history) == Window(all)
      {
        history := history[1..];
      }
    }
  }

  // ----- the history is a window on everything pushed -----

  function Window(samples: seq<Seen>): (w: seq<Seen>)
    ensures |w| == if |samples| < 120 then |samples| else 120
    ensures forall i :: 0 <= i < |w| ==> w[i] == samples[|samples| - |w| + i]
  {
    if |samples| <= HISTORY_CAPACITY then samples else samples[|samples| - HISTORY_CAPACITY..]
  }

  lemma WindowOfWindow(samples: seq<Seen>, sample: Seen)
    ensures Window(Window(samples) + [sample]) == Window(samples + [sample])
  {
  }

  // ----- the table refines a map from index to latest report -----

  lemma {:induction false} FindUnique(rows: seq<Row>, index: nat, i: nat)
    requires StrictlySorted(rows) && i < |rows| && rows[i].index == index
    ensures Find(rows, index) == i
  {
  }

  lemma {:induction false} InsertLast(row: Row, sorted: seq<Row>)
    requires StrictlySorted(sorted) && forall r :: r in sorted ==> r.index != row.index
    ensures StrictlySorted(Insert(row, sorted))
    ensures forall r :: r in Insert(row, sorted) <==> r == row || r in sorted
  {
    if sorted != [] && row.index > sorted[0].index {
      InsertLast(row, sorted[1..]);
      var rest := Insert(row, sorted[1..]);
      forall i | 0 <= i < |rest|
        ensures sorted[0].index < rest[i].index
      {
        assert rest[i] in rest;
      }
      assert sorted == [sorted[0]] + sorted[1..];
    } else if sorted != [] {
      assert sorted[0] in sorted;
    }
  }

  predicate Different(rows: seq<Row>) {
    forall i, j :: 0 <= i < j < |rows| ==> rows[i].index != rows[j].index
  }

  lemma {:induction false} SortSorts(rows: seq<Row>)
    requires Different(rows)
    ensures StrictlySorted(SortByIndex(rows))
    ensures forall r :: r in SortByIndex(rows) <==> r in rows
  {
    if rows != [] {
      SortSorts(rows[1..]);
      assert rows == [rows[0]] + rows[1..];
      forall r | r in SortByIndex(rows[1..])
        ensures r.index != rows[0].index
      {
        assert r in rows[1..];
      }
      InsertLast(rows[0], SortByIndex(rows[1..]));
    }
  }

  /** What the table says about one index. */
  ghost predicate Shows(rows: seq<Row>, index: nat, shown: Option<Row>) {
    match shown
    case Some(row) => row in rows && row.index == index
    case None => forall row :: row in rows ==> row.index != index
  }

  /** A report leaves the table strictly sorted, changes what it says about the reported
      index to the new result (with the line it had, if it had one), and about no other. */
  lemma RecordRefinesMap(rows: seq<Row>, r: Report, index: nat, shown: Option<Row>)
    requires StrictlySorted(rows) && Shows(rows, index, shown)
    ensures StrictlySorted(Record(rows, r))
    ensures Shows(Record(rows, r), index,
      if index != r.index then shown
      else Some(Row(index, if shown.Some? then shown.value.line else r.line, Some(r.seen))))
  {
    var i := Find(rows, r.index);
    var rows' := Record(rows, r);
    if i < |rows| {
      assert rows'[i] in rows';
      assert forall j :: 0 <= j < |rows| && j != i ==> rows'[j] == rows[j];
      if shown.Some? {
        var k :| 0 <= k < |rows| && rows[k] == shown.value;
        FindUnique(rows, index, k);
        assert rows'[k] in rows';
      }
    } else {
      var extended := rows + [Row(r.index, r.line, Some(r.seen))];
      SortSorts(extended);
      assert extended[|rows|] in extended;
      if shown.Some? {
        var k :| 0 <= k < |rows| && rows[k] == shown.value;
        assert extended[k] in extended;
      }
    }
  }

  function RecordAll(rows: seq<Row>, reports: seq<Report>): seq<Row> {
    if reports == [] then rows
    else Record(RecordAll(rows, reports[..|reports| - 1]), reports[|reports| - 1])
  }

  /** The map the table stands for: last write wins for the result, first one for the line. */
  function Latest(seeds: seq<string>, reports: seq<Report>, index: nat): Option<Row> {
    if reports == [] then
      if index < |seeds| then Some(Row(index, seeds[index], None)) else None
    else
      var before, r := Latest(seeds, reports[..|reports| - 1], index), reports[|reports| - 1];
      if r.index != index then before
      else Some(Row(index, if before.Some? then before.value.line else r.line, Some(r.seen)))
  }

  /** However candidates were seeded and results reported, the table is strictly sorted and
      has, for every index, exactly the row of the last-write-wins map. */
  lemma {:induction false} TableIsLastWriteWins(seeds: seq<string>, reports: seq<Report>, index: nat)
    ensures StrictlySorted(RecordAll(Seeded(seeds), reports))
    ensures Shows(RecordAll(Seeded(seeds), reports), index, Latest(seeds, reports, index))
  {
    if reports == [] {
      var rows := Seeded(seeds);
      if index < |seeds| {
        assert rows[index] in rows;
      }
    } else {
      var rest := reports[..|reports| - 1];
      TableIsLastWriteWins(seeds, rest, index);
      RecordRefinesMap(RecordAll(Seeded(seeds), rest), reports[|reports| - 1], index, Latest(seeds, rest, index));
    }
  }
}
