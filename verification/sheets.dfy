/** The spreadsheet row store seen by the registration core: the
    "Registrations" table is a sequence of rows of string cells whose first row
    is a header. Registrations are only ever appended to it. */
module Sheets {
  import opened Optional
  import opened Text

  type Row = seq<string>
  type Sheet = seq<Row>

  /** Registration rows hold the event id in column index 1 (column B). */
  const EventIdColumn: nat := 1

  /** One registration as it is written to the store. */
  datatype Registration = Registration(
    timestamp: string,
    eventId: string,
    name: string,
    email: string,
    phone: string)

  /** The cells of one registration, columns A to E of the table. */
  function ToRow(reg: Registration): (row: Row)
    ensures |row| == 5
    ensures row[0] == reg.timestamp && row[EventIdColumn] == reg.eventId
    ensures row[2] == reg.name && row[3] == reg.email && row[4] == reg.phone
  {
    [reg.timestamp, reg.eventId, reg.name, reg.email, reg.phone]
  }

  /** Reads a five-column row back as a registration; any other width is not
      a registration row. */
  function FromRow(row: Row): (reg: Option<Registration>)
    ensures reg.Some? <==> |row| == 5
    ensures reg.Some? ==> reg.value.eventId == row[EventIdColumn]
  {
    if |row| == 5 then Some(Registration(row[0], row[1], row[2], row[3], row[4]))
    else None
  }

  /** The row layout is lossless: a registration is recovered exactly from its
      row, and every five-column row is the row of the registration read from it. */
  lemma RowRoundTrip(reg: Registration, row: Row)
    ensures FromRow(ToRow(reg)) == Some(reg)
    ensures FromRow(row).Some? ==> ToRow(FromRow(row).value) == row
  {
  }

  /** `appendRegistrationRow`: the registration's row goes after the last row
      of the table. Nothing already stored changes. */
  function AppendRegistrationRow(sheet: Sheet, reg: Registration): (sheet': Sheet)
    ensures |sheet'| == |sheet| + 1
    ensures sheet'[..|sheet|] == sheet
    ensures FromRow(sheet'[|sheet|]) == Some(reg)
  {
    RowRoundTrip(reg, ToRow(reg));
    sheet + [ToRow(reg)]
  }

  /** The filter predicate of `countRegistrationsByEvent`: column index 1 is
      present, is not the empty string, and normalises to `target`. */
  predicate RowMatches(row: Row, target: string) {
    |row| > EventIdColumn && row[EventIdColumn] != "" && Normalise(row[EventIdColumn]) == target
  }

  /** The row test of `countRegistrationsByEvent` for one normalised target,
      as the function value handed to the filter. */
  function Matcher(target: string): Row -> bool {
    row => RowMatches(row, target)
  }

  /** `xs.filter(p)`: the elements of `xs` satisfying `p`, in order. */
  function Filter<T>(xs: seq<T>, p: T -> bool): (r: seq<T>)
    ensures |r| <= |xs|
    ensures forall x :: x in r ==> p(x)
  {
    if |xs| == 0 then []
    else
      var init := Filter(xs[..|xs| - 1], p);
      var last := xs[|xs| - 1];
      if p(last) then init + [last] else init
  }

  /** `countRegistrationsByEvent` after the table has been fetched: an empty
      table counts 0; otherwise the first row is skipped as the header and the
      remaining rows matching the normalised event id are counted. */
  function CountRegistrationsByEvent(sheet: Sheet, eventId: string): (n: nat)
    ensures |sheet| == 0 ==> n == 0
    ensures |sheet| > 0 ==> n <= |sheet| - 1
  {
    if |sheet| == 0 then 0
    else |Filter(sheet[1..], Matcher(Normalise(eventId)))|
  }

  /** The positions from `lo` on whose element satisfies `p`. */
  ghost function Positions<T>(xs: seq<T>, lo: nat, p: T -> bool): set<int> {
    set i | lo <= i < |xs| && p(xs[i])
  }

  /** The filter keeps exactly one element per satisfying position. */
  lemma {:induction false} FilterCountsPositions<T>(xs: seq<T>, lo: nat, p: T -> bool)
    requires lo <= |xs|
    ensures |Filter(xs[lo..], p)| == |Positions(xs, lo, p)|
    decreases |xs|
  {
    if |xs| == lo {
      assert Positions(xs, lo, p) == {};
    } else {
      var n := |xs| - 1;
      var init := xs[..n];
      FilterCountsPositions(init, lo, p);
      assert xs[lo..][..n - lo] == init[lo..];
      assert xs[lo..][n - lo] == xs[n];
      var a := Positions(init, lo, p);
      var b := Positions(xs, lo, p);
      assert forall i :: lo <= i < n ==> init[i] == xs[i];
      if p(xs[n]) {
        assert b == a + {n};
      } else {
        assert b == a;
      }
    }
  }

  /** Nothing is kept exactly when no element satisfies `p`; everything is
      kept exactly when every element does. */
  lemma {:induction false} FilterExtremes<T>(xs: seq<T>, p: T -> bool)
    ensures |Filter(xs, p)| == 0 <==> forall i :: 0 <= i < |xs| ==> !p(xs[i])
    ensures |Filter(xs, p)| == |xs| <==> forall i :: 0 <= i < |xs| ==> p(xs[i])
    decreases |xs|
  {
    if |xs| > 0 {
      var n := |xs| - 1;
      var init := xs[..n];
      FilterExtremes(init, p);
      assert forall i :: 0 <= i < n ==> init[i] == xs[i];
    }
  }

  /** The data-row positions whose event id cell matches `target`: an
      independent statement of what is being counted. */
  ghost function MatchingDataRows(sheet: Sheet, target: string): set<int> {
    set i | 1 <= i < |sheet| && RowMatches(sheet[i], target)
  }

  /** The count is the number of data rows (every row but the first) whose
      column index 1 is a non-empty cell equal to the event id once both are
      trimmed and lower-cased. */
  lemma {:induction false} CountIsMatchingDataRows(sheet: Sheet, eventId: string)
    ensures CountRegistrationsByEvent(sheet, eventId)
         == |MatchingDataRows(sheet, Normalise(eventId))|
  {
    var target := Normalise(eventId);
    if |sheet| > 0 {
      FilterCountsPositions(sheet, 1, Matcher(target));
      assert Positions(sheet, 1, Matcher(target)) == MatchingDataRows(sheet, target);
    } else {
      assert MatchingDataRows(sheet, target) == {};
    }
  }

  /** The count is zero exactly when no data row matches the event id. */
  lemma {:induction false} CountZeroIff(sheet: Sheet, eventId: string)
    ensures CountRegistrationsByEvent(sheet, eventId) == 0
        <==> forall i :: 1 <= i < |sheet| ==> !RowMatches(sheet[i], Normalise(eventId))
  {
    if |sheet| > 0 {
      var rows := sheet[1..];
      FilterExtremes(rows, Matcher(Normalise(eventId)));
      assert forall i :: 1 <= i < |sheet| ==> sheet[i] == rows[i - 1];
    }
  }

  /** The count reaches its bound `|sheet| - 1` exactly when every data row
      matches the event id. */
  lemma {:induction false} CountFullIff(sheet: Sheet, eventId: string)
    requires |sheet| > 0
    ensures CountRegistrationsByEvent(sheet, eventId) == |sheet| - 1
        <==> forall i :: 1 <= i < |sheet| ==> RowMatches(sheet[i], Normalise(eventId))
  {
    var rows := sheet[1..];
    FilterExtremes(rows, Matcher(Normalise(eventId)));
    assert forall i :: 1 <= i < |sheet| ==> sheet[i] == rows[i - 1];
  }

  /** The first row is a header and is never counted: replacing it changes
      nothing, even when its column index 1 matches the event id. */
  lemma HeaderNeverCounted(header: Row, other: Row, rows: seq<Row>, eventId: string)
    ensures CountRegistrationsByEvent([header] + rows, eventId)
         == CountRegistrationsByEvent([other] + rows, eventId)
  {
    assert ([header] + rows)[1..] == rows;
    assert ([other] + rows)[1..] == rows;
  }

  /** Matching ignores case and surrounding space in the requested id: ids
      with the same normal form have the same count, in particular an id and
      its own normal form. */
  lemma {:induction false} CountDependsOnlyOnNormalForm(sheet: Sheet, a: string, b: string)
    requires Normalise(a) == Normalise(b)
    ensures CountRegistrationsByEvent(sheet, a) == CountRegistrationsByEvent(sheet, b)
    ensures CountRegistrationsByEvent(sheet, a) == CountRegistrationsByEvent(sheet, Normalise(a))
  {
    NormaliseIdempotent(a);
  }

  /** Appending a row to a table that has a header adds one to the count of
      every event id the row matches and leaves every other count unchanged. */
  lemma {:induction false} AppendRowCount(sheet: Sheet, row: Row, eventId: string)
    requires |sheet| > 0
    ensures CountRegistrationsByEvent(sheet + [row], eventId)
         == CountRegistrationsByEvent(sheet, eventId)
            + (if RowMatches(row, Normalise(eventId)) then 1 else 0)
  {
    var rows := (sheet + [row])[1..];
    assert rows[..|rows| - 1] == sheet[1..];
    assert rows[|rows| - 1] == row;
  }

  /** A row without a non-empty column index 1 is never counted: appending
      one leaves every count as it was. */
  lemma {:induction false} ShortOrBlankRowsNeverCount(sheet: Sheet, row: Row, eventId: string)
    requires |row| <= EventIdColumn || row[EventIdColumn] == ""
    ensures CountRegistrationsByEvent(sheet + [row], eventId)
         == CountRegistrationsByEvent(sheet, eventId)
  {
    if |sheet| > 0 {
      AppendRowCount(sheet, row, eventId);
    } else {
      assert (sheet + [row])[1..] == [];
    }
  }

  /** On a table that already has its header, appending a registration raises
      the count of its own event id by one and leaves the count of every id
      with a different normal form as it was. An empty event id is never
      counted. */
  lemma {:induction false} AppendRegistrationCount(sheet: Sheet, reg: Registration, eventId: string)
    requires |sheet| > 0
    ensures Normalise(reg.eventId) == Normalise(eventId) && reg.eventId != "" ==>
      CountRegistrationsByEvent(AppendRegistrationRow(sheet, reg), eventId)
        == CountRegistrationsByEvent(sheet, eventId) + 1
    ensures Normalise(reg.eventId) != Normalise(eventId) || reg.eventId == "" ==>
      CountRegistrationsByEvent(AppendRegistrationRow(sheet, reg), eventId)
        == CountRegistrationsByEvent(sheet, eventId)
  {
    AppendRowCount(sheet, ToRow(reg), eventId);
  }

  /** On an empty table the first registration lands in the header position,
      so it is not counted for any event id. */
  lemma FirstRowBecomesHeader(reg: Registration, eventId: string)
    ensures CountRegistrationsByEvent(AppendRegistrationRow([], reg), eventId) == 0
  {
    assert AppendRegistrationRow([], reg)[1..] == [];
  }
}
