/** Inspect results as objects, and their clones: cloneInspectResult and cloneEntryReport
    (internal/probe/inspect_cache.go). */
module Reports {
  import opened Wrappers
  import opened Words
  import opened Health
  import opened Inspect

  /** *uint32 */
  class Cell {
    var ledger: uint32

    constructor (ledger: uint32)
      ensures this.ledger == ledger
    {
      this.ledger := ledger;
    }
  }

  /** EntryReport: everything but the reference to the live-until ledger, and that reference. */
  datatype Entry = Entry(rest: EntryReport, live: Cell?)

  function EntryValue(e: Entry): EntryReport
    reads e.live
  {
    e.rest.(ttl := e.rest.ttl.(liveUntil := if e.live == null then None else Some(e.live.ledger)))
  }

  ghost function Cells(es: seq<Entry>): set<object> {
    set e | e in es && e.live != null :: e.live
  }

  ghost function EntryValues(es: seq<Entry>): (values: seq<EntryReport>)
    reads Cells(es)
    ensures |values| == |es| && forall i | 0 <= i < |es| :: values[i] == EntryValue(es[i])
  {
    if es == [] then [] else [EntryValue(es[0])] + EntryValues(es[1..])
  }

  /** cloneEntryReport */
  method CloneEntry(e: Entry) returns (clone: Entry)
    ensures EntryValue(clone) == EntryValue(e)
    ensures fresh(Cells([clone])) && (clone.live != null ==> fresh(clone.live))
  {
    clone := e;
    if e.live != null {
      var cell := new Cell(e.live.ledger);
      clone := e.(live := cell);
    }
  }

  lemma ValuesAreThese(es: seq<Entry>, values: seq<EntryReport>)
    requires |es| == |values| && forall i | 0 <= i < |es| :: EntryValue(es[i]) == values[i]
    ensures EntryValues(es) == values
  {
  }

  lemma CellsAreThese(es: seq<Entry>)
    ensures forall o | o in Cells(es) :: exists i | 0 <= i < |es| :: es[i].live == o
  {
  }

  const BLANK: Entry := Entry(EntryReport("", "", Absent(0), Thresholds(0, 0)), null)

  /** The data loop of cloneInspectResult. */
  method CloneEntries(data: array<Entry>) returns (clone: array<Entry>)
    ensures fresh(clone) && fresh(Cells(clone[..]))
    ensures EntryValues(clone[..]) == old(EntryValues(data[..]))
  {
    hide EntryValues, Cells;
    ghost var values := EntryValues(data[..]);
    clone := new Entry[data.Length](_ => BLANK);
    for i := 0 to data.Length
      invariant fresh(clone) && clone.Length == data.Length
      invariant forall k | 0 <= k < i :: EntryValue(clone[k]) == values[k]
      invariant forall k | 0 <= k < data.Length :: EntryValue(data[k]) == values[k]
      invariant forall k | 0 <= k < data.Length :: clone[k].live != null ==> fresh(clone[k].live)
    {
      var entry := CloneEntry(data[i]);
      clone[i] := entry;
    }
    ValuesAreThese(clone[..], values);
    CellsAreThese(clone[..]);
  }

  class CodeBox {
    var entry: Entry

    constructor (entry: Entry)
      ensures this.entry == entry
    {
      this.entry := entry;
    }
  }

  ghost function CodeCells(code: CodeBox?): set<object>
    reads code
  {
    if code == null then {} else {code as object} + Cells([code.entry])
  }

  ghost function CodeValue(code: CodeBox?): Option<EntryReport>
    reads code, CodeCells(code)
  {
    if code == null then None else Some(EntryValue(code.entry))
  }

  method CloneCode(code: CodeBox?) returns (clone: CodeBox?)
    ensures fresh(CodeCells(clone)) && CodeValue(clone) == CodeValue(code)
  {
    clone := null;
    if code != null {
      var entry := CloneEntry(code.entry);
      clone := new CodeBox(entry);
    }
  }

  /** *InspectResult: the parts behind references and slices have fields of their own, rest holds the others. */
  class Report {
    var rest: InspectResult
    var instance: Entry
    var data: array<Entry>
    var code: CodeBox?
    var estimates: array<ExtendEstimate>

    constructor (rest: InspectResult, instance: Entry, data: array<Entry>, code: CodeBox?,
                 estimates: array<ExtendEstimate>)
      ensures this.rest == rest && this.instance == instance && this.data == data
      ensures this.code == code && this.estimates == estimates
    {
      this.rest, this.instance, this.data, this.code, this.estimates := rest, instance, data, code, estimates;
    }

    /** What a caller reaches through the instance, code and data entries. */
    ghost function Owned(): set<object>
      reads this, data, code
    {
      {this, data} + Cells([instance]) + CodeCells(code) + Cells(data[..])
    }

    /** Everything the report's value depends on. */
    ghost function Frame(): set<object>
      reads this, data, code
    {
      Owned() + {estimates}
    }

    /** The report as a value. */
    ghost function Value(): InspectResult
      reads Frame()
    {
      rest.(instance := EntryValue(instance),
            code := CodeValue(code),
            data := EntryValues(data[..]),
            estimates := estimates[..])
    }

    /** cloneInspectResult: a copy equal in value that owns its entries, and shares its estimates. */
    method Clone() returns (clone: Report)
      ensures fresh(clone.Owned())
      ensures clone.Value() == old(Value())
      ensures clone.estimates == estimates
    {
      hide EntryValues, Cells;
      var instance' := CloneEntry(instance);
      var data' := CloneEntries(data);
      var code' := CloneCode(code);
      clone := new Report(rest, instance', data', code', estimates);
      assert EntryValues(clone.data[..]) == old(EntryValues(data[..]));
      assert CodeValue(clone.code) == old(CodeValue(code));
    }

    /** The report lives in repr. */
    ghost predicate Within(repr: set<object>)
      reads this, repr
    {
      && this in repr && data in repr && estimates in repr
      && (code != null ==> code in repr)
      && Owned() <= repr
    }
  }

  /** The estimates are the one part of a report that its clones share: they are no part of what it owns. */
  lemma EstimatesAreNotOwned(r: Report)
    ensures r.estimates as object !in r.Owned()
    ensures forall o | o in r.Owned() :: allocated(o)
  {
  }

  lemma OwnedIsWithin(r: Report, repr: set<object>)
    requires r.Owned() <= repr && r.estimates in repr
    ensures r in repr && r.Within(repr)
  {
  }

  /** A fresh report of this value, as inspectUncached builds it. */
  method NewEntry(value: EntryReport) returns (e: Entry)
    ensures EntryValue(e) == value && fresh(Cells([e])) && (e.live != null ==> fresh(e.live))
  {
    e := Entry(value, null);
    if value.ttl.liveUntil.Some? {
      var cell := new Cell(value.ttl.liveUntil.value);
      e := Entry(value, cell);
    }
  }

  method NewEntries(values: seq<EntryReport>) returns (data: array<Entry>)
    ensures fresh(data) && fresh(Cells(data[..])) && EntryValues(data[..]) == values
  {
    hide EntryValues, Cells;
    data := new Entry[|values|](_ => BLANK);
    for i := 0 to |values|
      invariant fresh(data) && data.Length == |values|
      invariant forall k | 0 <= k < i :: EntryValue(data[k]) == values[k]
      invariant forall k | 0 <= k < |values| :: data[k].live != null ==> fresh(data[k].live)
    {
      var entry := NewEntry(values[i]);
      data[i] := entry;
    }
    ValuesAreThese(data[..], values);
    CellsAreThese(data[..]);
  }

  method NewCode(value: Option<EntryReport>) returns (code: CodeBox?)
    ensures fresh(CodeCells(code)) && CodeValue(code) == value
  {
    code := null;
    if value.Some? {
      var entry := NewEntry(value.value);
      code := new CodeBox(entry);
    }
  }

  method NewEstimates(values: seq<ExtendEstimate>) returns (estimates: array<ExtendEstimate>)
    ensures fresh(estimates) && estimates[..] == values
  {
    estimates := new ExtendEstimate[|values|](i requires 0 <= i < |values| => values[i]);
    assert estimates[..] == values;
  }

  method NewReport(value: InspectResult) returns (r: Report)
    ensures fresh(r.Owned()) && fresh(r.estimates) && r.Value() == value
  {
    hide EntryValues, Cells;
    var instance := NewEntry(value.instance);
    var data := NewEntries(value.data);
    var code := NewCode(value.code);
    var estimates := NewEstimates(value.estimates);
    r := new Report(value, instance, data, code, estimates);
    assert EntryValues(r.data[..]) == value.data && CodeValue(r.code) == value.code;
  }
}
