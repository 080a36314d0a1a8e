/** `extract` (app.py:192-198): the header fields and the table records of one document,
    as a composition over the header map and the table grids. */
module Extraction {
  import opened Text
  import opened Columns
  import opened HeaderFields
  import opened Records

  /** `(po, period, partner, rows)`. */
  datatype Output = Output(po: string, period: string, partner: string, rows: seq<Record>)

  /** `headers.get(key, "")`. */
  function Lookup(headers: map<string, string>, key: string): (v: string)
    ensures key in headers ==> v == headers[key]
    ensures key !in headers ==> v == ""
  {
    if key in headers then headers[key] else ""
  }

  /** `extract` as written: it looks the fields up under "po_number", "plan_period" and
      "partner", keys `extract_headers` never sets. */
  function Extract(text: string, tables: seq<Grid>): Output {
    var headers := ExtractHeaders(text);
    var period := Lookup(headers, "plan_period");
    Output(Lookup(headers, "po_number"), period, Lookup(headers, "partner"),
           Run(tables, period, |tables|).records)
  }

  /** As written, the three header fields are always "" and every record's description
      therefore ends in " - ", whatever the document says. */
  lemma ExtractDropsHeaderFields(text: string, tables: seq<Grid>)
    ensures var out := Extract(text, tables);
      out.po == "" && out.period == "" && out.partner == ""
      && forall k :: 0 <= k < |out.rows| ==> EndsWith(out.rows[k].description, " - ")
  {
    SnakeCaseKeysMissing(ExtractHeaders(text));
    RunWellFormed(tables, "", |tables|);
    assert " - " + "" == " - ";
  }

  /** A map with the keys `extract_headers` sets has none of "po_number", "plan_period" and
      "partner", so looking them up gives "". */
  lemma SnakeCaseKeysMissing(headers: map<string, string>)
    requires headers.Keys == {"Partner", "PO Number", "Plan Period"}
    ensures Lookup(headers, "po_number") == "" && Lookup(headers, "plan_period") == ""
    ensures Lookup(headers, "partner") == ""
  {
    assert "po_number"[0] != "Partner"[0] && "po_number"[0] != "PO Number"[0];
    assert "po_number"[0] != "Plan Period"[0];
    assert "plan_period"[0] != "Partner"[0] && "plan_period"[0] != "PO Number"[0];
    assert "plan_period"[0] != "Plan Period"[0];
    assert "partner"[0] != "Partner"[0] && "partner"[0] != "PO Number"[0];
    assert "partner"[0] != "Plan Period"[0];
  }

  /** `extract` with the keys `extract_headers` uses. */
  function ExtractIntended(text: string, tables: seq<Grid>): Output {
    var headers := ExtractHeaders(text);
    var period := Lookup(headers, "Plan Period");
    Output(Lookup(headers, "PO Number"), period, Lookup(headers, "Partner"),
           Run(tables, period, |tables|).records)
  }

  /** With the intended keys, each field is the first-match result of its own patterns, the
      PO number holds only digits and hyphens, and every record ends with the plan period. */
  lemma ExtractIntendedFields(text: string, tables: seq<Grid>)
    ensures var out := ExtractIntended(text, tables);
      out.po == FirstMatch(text, Matchers(PoNumberPatterns))
      && out.period == FirstMatch(text, Matchers(PlanPeriodPatterns))
      && out.partner == FirstMatch(text, Matchers(PartnerPatterns))
      && (forall k :: 0 <= k < |out.po| ==> IsPoChar(out.po[k]))
      && forall k :: 0 <= k < |out.rows| ==> EndsWith(out.rows[k].description, " - " + out.period)
  {
    PoNumberShape(text);
    var period := FirstMatch(text, Matchers(PlanPeriodPatterns));
    RunWellFormed(tables, period, |tables|);
  }
}
