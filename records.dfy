/** The record loop of `extract_table_records` (app.py:154-190): walk the tables in order,
    resolve each one's columns (reusing the previous table's map for a headerless
    continuation), drop blank and repeated header rows, and build one record per kept row. */
module Records {
  import opened Wrappers
  import opened Text
  import opened Amount
  import opened Columns

  /** One output row: `{"Description": …, "Amount": …}`. */
  datatype Record = Record(description: string, amount: string)

  /** What the loop carries from one table to the next: the records so far and `last_col_map`. */
  datatype Assembly = Assembly(records: seq<Record>, last: Option<ColumnMap>)

  /** The number of columns of a rectangular grid (`df.shape[1]`). */
  function Width(df: Grid): nat {
    if |df| == 0 then 0 else |df[0]|
  }

  /** `df.empty or df.shape[1] < 2`. */
  predicate Skipped(df: Grid) {
    |df| == 0 || Width(df) < 2
  }

  /** Both the activity and the description column are known. */
  predicate Complete(cm: ColumnMap) {
    cm.activity.Some? && cm.description.Some?
  }

  /** `last_col_map` only ever holds a complete map. */
  predicate Consistent(st: Assembly) {
    st.last.Some? ==> Complete(st.last.value)
  }

  /** `row.iloc[m] if m is not None and m < len(row) else ""`. */
  function AmountCell(row: seq<string>, m: Option<nat>): string {
    if m.Some? && m.value < |row| then row[m.value] else ""
  }

  /** The row repeats the header: `f"{activity} {descr}".strip().lower()` starts with
      "activity" or "description". */
  predicate IsHeaderEcho(activity: string, descr: string) {
    var joined := Lower(Strip(activity + " " + descr));
    StartsWith(joined, "activity") || StartsWith(joined, "description")
  }

  /** `s` ends with `t`. */
  predicate EndsWith(s: string, t: string) {
    |t| <= |s| && s[|s| - |t|..] == t
  }

  /** The shape every record has: a description made of two truncated parts and the plan
      period, and an amount that is "" or a canonical numeral. */
  predicate WellFormed(rec: Record, period: string) {
    EndsWith(rec.description, " - " + period)
    && |rec.description| <= 2 * DefaultTruncateLength + 6 + |period|
    && (rec.amount == "" || (IsNumeral(rec.amount) && !ZeroFraction(rec.amount)))
  }

  /** The record one data row gives, or None when the row is blank or repeats the header. */
  function RowRecord(row: seq<string>, cm: ColumnMap, period: string): (r: Option<Record>)
    requires Complete(cm)
  {
    var activity := Strip(Cell(row, cm.activity.value));
    var descr := Strip(Cell(row, cm.description.value));
    if activity == "" && descr == "" then None
    else if IsHeaderEcho(activity, descr) then None
    else
      var description := Truncate(Some(activity), DefaultTruncateLength) + " - "
                         + Truncate(Some(descr), DefaultTruncateLength) + " - " + period;
      Some(Record(description, CleanAmount(Some(AmountCell(row, cm.amount)))))
  }

  /** The record a row gives, if any, has the record shape. */
  predicate RowWellFormed(r: Option<Record>, period: string) {
    r.Some? ==> WellFormed(r.value, period)
  }

  /** A kept row's description is its two truncated cells and the plan period joined by
      " - ", and its amount is "" or a canonical numeral. */
  lemma RecordShape(row: seq<string>, cm: ColumnMap, period: string)
    requires Complete(cm)
    ensures RowWellFormed(RowRecord(row, cm, period), period)
  {
    var activity := Strip(Cell(row, cm.activity.value));
    var descr := Strip(Cell(row, cm.description.value));
    var a := Truncate(Some(activity), DefaultTruncateLength);
    var d := Truncate(Some(descr), DefaultTruncateLength);
    assert a + " - " + d + " - " + period == (a + " - " + d) + (" - " + period);
  }

  /** The record a row appends, if any. */
  function Listed(r: Option<Record>): (rs: seq<Record>)
  {
    if r.Some? then [r.value] else []
  }

  /** The records of the first `n` data rows, in row order. */
  function RowRecords(data: Grid, cm: ColumnMap, period: string, n: nat): (rs: seq<Record>)
    requires Complete(cm) && n <= |data|
    ensures |rs| <= n
  {
    if n == 0 then []
    else
      RowRecords(data, cm, period, n - 1) + Listed(RowRecord(data[n - 1], cm, period))
  }

  /** Every record of `rs` has the record shape. */
  predicate AllWellFormed(rs: seq<Record>, period: string) {
    forall k :: 0 <= k < |rs| ==> WellFormed(rs[k], period)
  }

  lemma AllWellFormedAppend(a: seq<Record>, b: seq<Record>, period: string)
    requires AllWellFormed(a, period) && AllWellFormed(b, period)
    ensures AllWellFormed(a + b, period)
  {
    forall k | 0 <= k < |a + b| ensures WellFormed((a + b)[k], period) {
      if k < |a| { assert (a + b)[k] == a[k]; } else { assert (a + b)[k] == b[k - |a|]; }
    }
  }

  lemma ListedAppendWellFormed(prev: seq<Record>, r: Option<Record>, period: string)
    requires AllWellFormed(prev, period) && RowWellFormed(r, period)
    ensures AllWellFormed(prev + Listed(r), period)
  {
    AllWellFormedAppend(prev, Listed(r), period);
  }

  /** Every record of a table has the record shape. */
  lemma {:induction false} RowRecordsWellFormed(data: Grid, cm: ColumnMap, period: string, n: nat)
    requires Complete(cm) && n <= |data|
    ensures AllWellFormed(RowRecords(data, cm, period, n), period)
  {
    if n > 0 {
      var prev := RowRecords(data, cm, period, n - 1);
      var r := RowRecord(data[n - 1], cm, period);
      assert RowRecords(data, cm, period, n) == prev + Listed(r);
      RowRecordsWellFormed(data, cm, period, n - 1);
      RecordShape(data[n - 1], cm, period);
      ListedAppendWellFormed(prev, r, period);
    }
  }

  /** The columns and rows a table is read with: its own when it names both the activity and
      the description column, otherwise the previous table's map over all of its rows;
      None when neither gives a complete map. */
  function Plan(df: Grid, last: Option<ColumnMap>): (p: Option<Resolved>)
    requires |df| > 0
    ensures p.Some? ==> Complete(p.value.columns) && |p.value.data| <= |df|
  {
    var res := Resolve(df);
    var reuse := !Complete(res.columns) && last.Some?;
    var cm := if reuse then last.value else res.columns;
    var data := if reuse then df else res.data;
    if Complete(cm) then Some(Resolved(data, cm)) else None
  }

  /** One iteration of the table loop. */
  function Step(st: Assembly, df: Grid, period: string): (next: Assembly)
  {
    if Skipped(df) then st
    else
      match Plan(df, st.last)
      case None => Assembly(st.records, None)
      case Some(p) => Assembly(st.records + RowRecords(p.data, p.columns, period, |p.data|), Some(p.columns))
  }

  /** The number of rows of the first `n` tables. */
  function TotalRows(tables: seq<Grid>, n: nat): nat
    requires n <= |tables|
  {
    if n == 0 then 0 else TotalRows(tables, n - 1) + |tables[n - 1]|
  }

  /** The loop state after the first `n` tables. */
  function Run(tables: seq<Grid>, period: string, n: nat): (st: Assembly)
    requires n <= |tables|
    ensures Consistent(st)
    ensures |st.records| <= TotalRows(tables, n)
  {
    if n == 0 then Assembly([], None)
    else Step(Run(tables, period, n - 1), tables[n - 1], period)
  }

  /** A table adds only records of the record shape. */
  lemma StepWellFormed(st: Assembly, df: Grid, period: string)
    requires AllWellFormed(st.records, period)
    ensures AllWellFormed(Step(st, df, period).records, period)
  {
    if !Skipped(df) {
      var p := Plan(df, st.last);
      if p.Some? {
        RowRecordsWellFormed(p.value.data, p.value.columns, period, |p.value.data|);
        AllWellFormedAppend(st.records, RowRecords(p.value.data, p.value.columns, period, |p.value.data|), period);
      }
    }
  }

  /** Every record the loop produces has the record shape. */
  lemma {:induction false} RunWellFormed(tables: seq<Grid>, period: string, n: nat)
    requires n <= |tables|
    ensures AllWellFormed(Run(tables, period, n).records, period)
  {
    if n > 0 {
      RunWellFormed(tables, period, n - 1);
      StepWellFormed(Run(tables, period, n - 1), tables[n - 1], period);
    }
  }

  /** The body of the row loop: None where the source `continue`s past a blank row or a
      repeated header row, otherwise the record it appends. */
  method TakeRow(row: seq<string>, cm: ColumnMap, period: string) returns (rec: Option<Record>)
    requires Complete(cm)
    ensures rec == RowRecord(row, cm, period)
  {
    var activity := Strip(Cell(row, cm.activity.value));
    var descr := Strip(Cell(row, cm.description.value));
    if activity == "" && descr == "" {
      return None;
    }
    var joined := Lower(Strip(activity + " " + descr));
    if StartsWith(joined, "activity") || StartsWith(joined, "description") {
      return None;
    }
    var description := Truncate(Some(activity), DefaultTruncateLength) + " - "
                       + Truncate(Some(descr), DefaultTruncateLength) + " - " + period;
    var amountRaw := CleanAmount(Some(AmountCell(row, cm.amount)));
    return Some(Record(description, amountRaw));
  }

  /** The row loop of one table: each data row that is not blank and does not repeat the
      header gives its record, in row order. */
  method TableRecords(data: Grid, cm: ColumnMap, period: string) returns (out: seq<Record>)
    requires Complete(cm)
    ensures out == RowRecords(data, cm, period, |data|)
  {
    out := [];
    var r := 0;
    while r < |data|
      invariant r <= |data|
      invariant out == RowRecords(data, cm, period, r)
    {
      var rec := TakeRow(data[r], cm, period);
      assert RowRecords(data, cm, period, r + 1) == RowRecords(data, cm, period, r) + Listed(rec);
      out := out + Listed(rec);
      r := r + 1;
    }
  }

  /** The map and rows the table loop settles on are the ones `Plan` describes. */
  lemma PlanTaken(df: Grid, last: Option<ColumnMap>, data: Grid, cm: ColumnMap)
    requires |df| > 0 && Complete(cm)
    requires var res := Resolve(df);
      if !Complete(res.columns) && last.Some? then cm == last.value && data == df
      else cm == res.columns && data == res.data
    ensures Plan(df, last) == Some(Resolved(data, cm))
  {
  }

  /** A table whose map cannot be completed adds nothing and clears the remembered map. */
  lemma PlanMissing(df: Grid, last: Option<ColumnMap>, a: Option<nat>, d: Option<nat>)
    requires |df| > 0 && (a.None? || d.None?)
    requires var res := Resolve(df);
      if !Complete(res.columns) && last.Some? then a == last.value.activity && d == last.value.description
      else a == res.columns.activity && d == res.columns.description
    ensures Plan(df, last).None?
  {
  }

  /** A table that is not skipped adds what its plan gives. */
  lemma StepByPlan(st: Assembly, df: Grid, period: string)
    requires !Skipped(df)
    ensures Plan(df, st.last).None? ==> Step(st, df, period) == Assembly(st.records, None)
    ensures Plan(df, st.last).Some? ==>
      var p := Plan(df, st.last).value;
      Step(st, df, period) == Assembly(st.records + RowRecords(p.data, p.columns, period, |p.data|), Some(p.columns))
  {
  }

  /** One pass of the table loop: the records a table adds and the `last_col_map` it
      leaves behind. */
  method TakeTable(records: seq<Record>, last: Option<ColumnMap>, df: Grid, period: string)
    returns (added: seq<Record>, next: Option<ColumnMap>)
    ensures Step(Assembly(records, last), df, period) == Assembly(records + added, next)
  {
    if |df| == 0 || Width(df) < 2 {
      assert records + [] == records;
      return [], last;
    }
    var data, colMap := PickColumnIndices(df);
    var a, d, m := colMap.activity, colMap.description, colMap.amount;
    if (a.None? || d.None?) && last.Some? {
      a, d, m := last.value.activity, last.value.description, last.value.amount;
      data := df;
    }
    StepByPlan(Assembly(records, last), df, period);
    if a.None? || d.None? {
      PlanMissing(df, last, a, d);
      assert records + [] == records;
      return [], None;
    }
    var cm := ColumnMap(a, d, m);
    PlanTaken(df, last, data, cm);
    added := TableRecords(data, cm, period);
    next := Some(cm);
  }

  /** The loop of `extract_table_records` over the grids the PDF engine returned (none when
      it failed). */
  method ExtractTableRecords(tables: seq<Grid>, period: string) returns (records: seq<Record>)
    ensures records == Run(tables, period, |tables|).records
  {
    records := [];
    var last: Option<ColumnMap> := None;
    var t := 0;
    while t < |tables|
      invariant t <= |tables|
      invariant Assembly(records, last) == Run(tables, period, t)
    {
      var added, next := TakeTable(records, last, tables[t], period);
      assert Run(tables, period, t + 1) == Step(Run(tables, period, t), tables[t], period);
      records, last := records + added, next;
      t := t + 1;
    }
  }

  // ---------------------------------------------------------------------------
  // Properties of the row filter

  lemma StartsWithTrans(s: string, t: string, w: string)
    requires StartsWith(s, t) && StartsWith(t, w)
    ensures StartsWith(s, w)
  {
    assert s[..|w|] == t[..|w|];
  }

  lemma StartsWithLower(s: string, t: string)
    requires StartsWith(s, t)
    ensures StartsWith(Lower(s), Lower(t))
  {
    assert forall k :: 0 <= k < |t| ==> Lower(s)[k] == Lower(t)[k];
  }

  /** With a non-blank stripped activity, the joined text begins with that activity. */
  lemma JoinedStartsWithActivity(activity: string, descr: string)
    requires activity != [] && NoOuterSpace(activity)
    ensures StartsWith(Strip(activity + " " + descr), activity)
  {
    var s := activity + " " + descr;
    assert s[0] == activity[0] && s[|activity| - 1] == activity[|activity| - 1];
    var a := SkipSpace(s, 0);
    assert a == 0;
    var b := SpaceBefore(s, a, |s|);
    assert b >= |activity|;
    assert Strip(s)[..|activity|] == s[..|activity|] == activity;
  }

  /** A row whose activity and description cells are both blank gives no record. */
  lemma BlankRowDropped(row: seq<string>, cm: ColumnMap, period: string)
    requires Complete(cm)
    requires AllSpace(Cell(row, cm.activity.value)) && AllSpace(Cell(row, cm.description.value))
    ensures RowRecord(row, cm, period).None?
  {
    StripAllSpace(Cell(row, cm.activity.value));
    StripAllSpace(Cell(row, cm.description.value));
  }

  /** A row whose activity cell begins (in any case) with "activity" or "description", as a
      header repeated on a later page does, gives no record. */
  lemma HeaderEchoDropped(row: seq<string>, cm: ColumnMap, period: string)
    requires Complete(cm)
    requires var activity := Lower(Strip(Cell(row, cm.activity.value)));
      StartsWith(activity, "activity") || StartsWith(activity, "description")
    ensures RowRecord(row, cm, period).None?
  {
    var activity := Strip(Cell(row, cm.activity.value));
    var descr := Strip(Cell(row, cm.description.value));
    var joined := Strip(activity + " " + descr);
    JoinedStartsWithActivity(activity, descr);
    StartsWithLower(joined, activity);
    if StartsWith(Lower(activity), "activity") {
      StartsWithTrans(Lower(joined), Lower(activity), "activity");
    } else {
      StartsWithTrans(Lower(joined), Lower(activity), "description");
    }
  }

  /** A row whose stripped activity starts with a letter other than "a" and "d" is kept: its
      description joins the truncated cells and the plan period, and its amount is the
      cleaned amount cell. */
  lemma RowKept(row: seq<string>, cm: ColumnMap, period: string)
    requires Complete(cm)
    requires var activity := Strip(Cell(row, cm.activity.value));
      activity != [] && ToLower(activity[0]) != 'a' && ToLower(activity[0]) != 'd'
    ensures var activity := Strip(Cell(row, cm.activity.value));
      var descr := Strip(Cell(row, cm.description.value));
      RowRecord(row, cm, period)
      == Some(Record(Truncate(Some(activity), DefaultTruncateLength) + " - "
                     + Truncate(Some(descr), DefaultTruncateLength) + " - " + period,
                     CleanAmount(Some(AmountCell(row, cm.amount)))))
  {
    var activity := Strip(Cell(row, cm.activity.value));
    var descr := Strip(Cell(row, cm.description.value));
    var joined := Strip(activity + " " + descr);
    JoinedStartsWithActivity(activity, descr);
    assert Lower(joined)[0] == ToLower(activity[0]);
    assert !IsHeaderEcho(activity, descr);
  }

  /** Without an amount column, or with one past the end of the row, the amount is "". */
  lemma AmountMissing(row: seq<string>, cm: ColumnMap, period: string)
    requires Complete(cm) && RowRecord(row, cm, period).Some?
    requires cm.amount.None? || cm.amount.value >= |row|
    ensures RowRecord(row, cm, period).value.amount == ""
  {
    assert DigitsOf(AmountCell(row, cm.amount)) == [];
  }

  // ---------------------------------------------------------------------------
  // Properties of the table loop

  /** An empty table, or one with fewer than two columns, changes nothing, not even
      `last_col_map`. */
  lemma SkippedTable(st: Assembly, df: Grid, period: string)
    requires Skipped(df)
    ensures Step(st, df, period) == st
  {
  }

  /** A table that names its activity and description columns is read with its own map
      below its header row, and that map becomes `last_col_map`. */
  lemma TableWithOwnMap(st: Assembly, df: Grid, period: string)
    requires !Skipped(df) && Complete(Resolve(df).columns)
    ensures var res := Resolve(df);
      Step(st, df, period)
      == Assembly(st.records + RowRecords(res.data, res.columns, period, |res.data|), Some(res.columns))
  {
  }

  /** A table that does not name both columns continues the previous one: the whole previous
      map, amount included, is applied to every one of its rows, and stays `last_col_map`. */
  lemma ContinuationTable(st: Assembly, df: Grid, period: string)
    requires !Skipped(df) && !Complete(Resolve(df).columns)
    requires Consistent(st) && st.last.Some?
    ensures Step(st, df, period)
      == Assembly(st.records + RowRecords(df, st.last.value, period, |df|), st.last)
  {
  }

  /** A table that cannot be resolved and has no previous map adds nothing and clears
      `last_col_map`. */
  lemma UnresolvedTable(st: Assembly, df: Grid, period: string)
    requires !Skipped(df) && !Complete(Resolve(df).columns) && st.last.None?
    ensures Step(st, df, period) == Assembly(st.records, None)
  {
  }

  /** Records keep table order: the records after `i` tables begin the records after `j`. */
  lemma {:induction false} RunPrefix(tables: seq<Grid>, period: string, i: nat, j: nat)
    requires i <= j <= |tables|
    ensures Run(tables, period, i).records <= Run(tables, period, j).records
    decreases j
  {
    if i < j {
      var st := Run(tables, period, j - 1);
      assert Run(tables, period, j) == Step(st, tables[j - 1], period);
      RunPrefix(tables, period, i, j - 1);
      StepExtends(st, tables[j - 1], period);
      PrefixTrans(Run(tables, period, i).records, st.records, Run(tables, period, j).records);
    }
  }

  lemma PrefixTrans(a: seq<Record>, b: seq<Record>, c: seq<Record>)
    requires a <= b && b <= c
    ensures a <= c
  {
    assert c[..|a|] == b[..|a|];
  }

  /** A table only appends records. */
  lemma StepExtends(st: Assembly, df: Grid, period: string)
    ensures st.records <= Step(st, df, period).records
  {
  }

  /** With no tables (the PDF engine failed or found none) there are no records. */
  lemma NoTablesNoRecords(period: string)
    ensures Run([], period, 0).records == []
  {
  }
}
