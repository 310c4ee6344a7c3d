/**
 * From the wide census table to the long table of workforce observations
 * (HR_Visual.py lines 29-69): column normalisation in place, the melt of
 * the worker-count columns, the decoding of each count column's label
 * `<WorkerClass>-<Area>-<Gender>` and the numeric coercion that drops the
 * counts that do not parse.
 */
module Reshape {
  import opened Seqs
  import opened Columns

  /** One cell of the table; `None` is pandas' missing value. */
  type Cell = Option<string>

  /** Every row has one cell per column. */
  predicate Rectangular(cols: seq<string>, rows: seq<seq<Cell>>)
  {
    forall row :: row in rows ==> |row| == |cols|
  }

  /** Every name in `names` is a column of the table. */
  predicate Within(names: seq<string>, cols: seq<string>)
  {
    forall n :: n in names ==> n in cols
  }

  /** The position of the first column called `name`. */
  function IndexOf(cols: seq<string>, name: string): (k: nat)
    requires name in cols
    ensures k < |cols| && cols[k] == name
    ensures forall j :: 0 <= j < k ==> cols[j] != name
  {
    if cols[0] == name then 0 else 1 + IndexOf(cols[1..], name)
  }

  /** The cell of `row` in the column labelled `name`. */
  function Lookup(cols: seq<string>, row: seq<Cell>, name: string): Cell
    requires name in cols && |row| == |cols|
  {
    row[IndexOf(cols, name)]
  }

  /** The cells of `row` in the columns `names`, in that order. */
  function Pick(cols: seq<string>, row: seq<Cell>, names: seq<string>): (r: seq<Cell>)
    requires |row| == |cols| && Within(names, cols)
    ensures |r| == |names|
    ensures forall k :: 0 <= k < |names| ==> r[k] == Lookup(cols, row, names[k])
  {
    if names == [] then [] else [Lookup(cols, row, names[0])] + Pick(cols, row, names[1..])
  }

  // ---------------------------------------------------------------------------
  // Wide -> long (HR_Visual.py lines 40-45)
  // ---------------------------------------------------------------------------

  /** A row of the melted table: the identifier cells, the `Variable` label and the `Count` cell. */
  datatype Melted = Melted(ids: seq<Cell>, variable: string, count: Cell)

  /** The melted record of one source row and one measure column. */
  function MeltRow(cols: seq<string>, row: seq<Cell>, idVars: seq<string>, v: string): Melted
    requires |row| == |cols| && Within(idVars, cols) && v in cols
  {
    Melted(Pick(cols, row, idVars), v, Lookup(cols, row, v))
  }

  /** The block of the melt that comes from the measure column `v`: one record per row. */
  function MeltColumn(cols: seq<string>, rows: seq<seq<Cell>>, idVars: seq<string>, v: string): (r: seq<Melted>)
    requires Rectangular(cols, rows) && Within(idVars, cols) && v in cols
    ensures |r| == |rows|
    ensures forall i :: 0 <= i < |rows| ==> r[i] == MeltRow(cols, rows[i], idVars, v)
  {
    if rows == [] then [] else [MeltRow(cols, rows[0], idVars, v)] + MeltColumn(cols, rows[1..], idVars, v)
  }

  /** One block per measure column, in the order of `valueVars`. */
  function MeltBlocks(cols: seq<string>, rows: seq<seq<Cell>>, idVars: seq<string>, valueVars: seq<string>): (r: seq<seq<Melted>>)
    requires Rectangular(cols, rows) && Within(idVars, cols) && Within(valueVars, cols)
    ensures |r| == |valueVars| && Uniform(r, |rows|)
    ensures forall j :: 0 <= j < |valueVars| ==> r[j] == MeltColumn(cols, rows, idVars, valueVars[j])
  {
    seq(|valueVars|, j requires 0 <= j < |valueVars| => MeltColumn(cols, rows, idVars, valueVars[j]))
  }

  /** `data.melt(id_vars, value_vars, var_name="Variable", value_name="Count")`: column after column, row after row. */
  function Melt(cols: seq<string>, rows: seq<seq<Cell>>, idVars: seq<string>, valueVars: seq<string>): seq<Melted>
    requires Rectangular(cols, rows) && Within(idVars, cols) && Within(valueVars, cols)
  {
    Flatten(MeltBlocks(cols, rows, idVars, valueVars))
  }

  /** Every melted record carries one identifier cell per identifier column. */
  lemma MeltIds(cols: seq<string>, rows: seq<seq<Cell>>, idVars: seq<string>, valueVars: seq<string>)
    requires Rectangular(cols, rows) && Within(idVars, cols) && Within(valueVars, cols)
    ensures forall m :: m in Melt(cols, rows, idVars, valueVars) ==> |m.ids| == |idVars|
  {
    var blocks := MeltBlocks(cols, rows, idVars, valueVars);
    forall m: Melted | m in Flatten(blocks) ensures |m.ids| == |idVars| {
      FlattenMember(blocks, m);
      var j :| 0 <= j < |blocks| && m in blocks[j];
      var i :| 0 <= i < |blocks[j]| && blocks[j][i] == m;
      assert m == MeltRow(cols, rows[i], idVars, valueVars[j]);
    }
  }

  /** The melt has one record per (row, measure column). */
  lemma MeltLength(cols: seq<string>, rows: seq<seq<Cell>>, idVars: seq<string>, valueVars: seq<string>)
    requires Rectangular(cols, rows) && Within(idVars, cols) && Within(valueVars, cols)
    ensures |Melt(cols, rows, idVars, valueVars)| == |rows| * |valueVars|
  {
    FlattenLength(MeltBlocks(cols, rows, idVars, valueVars), |rows|);
  }

  /** The record at position `k = j * |rows| + i` of the melt carries row `i`'s identifiers and its cell in measure column `j`. */
  lemma MeltAt(cols: seq<string>, rows: seq<seq<Cell>>, idVars: seq<string>, valueVars: seq<string>, i: nat, j: nat, k: nat)
    requires Rectangular(cols, rows) && Within(idVars, cols) && Within(valueVars, cols)
    requires i < |rows| && j < |valueVars| && k == j * |rows| + i
    ensures k < |Melt(cols, rows, idVars, valueVars)| &&
            Melt(cols, rows, idVars, valueVars)[k] == MeltRow(cols, rows[i], idVars, valueVars[j])
  {
    var blocks := MeltBlocks(cols, rows, idVars, valueVars);
    FlattenAt(blocks, |rows|, i, j);
    assert blocks[j] == MeltColumn(cols, rows, idVars, valueVars[j]);
  }

  // ---------------------------------------------------------------------------
  // Label decoding (HR_Visual.py lines 50-63)
  // ---------------------------------------------------------------------------

  /** `str.join`: the parts with the delimiter between each two. */
  function Join(parts: seq<string>, d: char): string
    requires |parts| >= 1
  {
    if |parts| == 1 then parts[0] else parts[0] + [d] + Join(parts[1..], d)
  }

  /** `str.split(d)`: the pieces between the delimiters; rejoining them gives back the label. */
  function Split(s: string, d: char): (parts: seq<string>)
    ensures |parts| >= 1
    ensures forall p :: p in parts ==> d !in p
    ensures Join(parts, d) == s
  {
    if s == [] then [""]
    else
      var rest := Split(s[1..], d);
      if s[0] == d then
        [""] + rest
      else
        var r := [[s[0]] + rest[0]] + rest[1..];
        assert r[1..] == rest[1..];
        assert s == [s[0]] + s[1..];
        r
  }

  lemma {:induction false} SplitWhole(p: string, d: char)
    requires d !in p
    ensures Split(p, d) == [p]
  {
    if p != [] {
      SplitWhole(p[1..], d);
      assert [p[0]] + p[1..] == p;
    }
  }

  lemma {:induction false} SplitFirst(p: string, d: char, rest: string)
    requires d !in p
    ensures Split(p + [d] + rest, d) == [p] + Split(rest, d)
  {
    var s := p + [d] + rest;
    if p == [] {
      assert s[1..] == rest;
    } else {
      assert s[1..] == p[1..] + [d] + rest;
      SplitFirst(p[1..], d, rest);
      assert [p[0]] + p[1..] == p;
    }
  }

  /** Splitting the join of delimiter-free parts gives back the parts. */
  lemma {:induction false} SplitJoin(parts: seq<string>, d: char)
    requires |parts| >= 1
    requires forall p :: p in parts ==> d !in p
    ensures Split(Join(parts, d), d) == parts
  {
    if |parts| == 1 {
      SplitWhole(parts[0], d);
    } else {
      SplitJoin(parts[1..], d);
      SplitFirst(parts[0], d, Join(parts[1..], d));
    }
  }

  /** `split_cols[i]`: token `i` of a label, or null when the label has fewer tokens. */
  function Token(parts: seq<string>, i: nat): Cell
  {
    if i < |parts| then Some(parts[i]) else None
  }

  /** `.replace({"Main_Workers": "Main", "Marginal_Workers": "Marginal"})`. */
  function WorkerTypeName(t: Cell): Cell
  {
    if t == Some("Main_Workers") then Some("Main")
    else if t == Some("Marginal_Workers") then Some("Marginal")
    else t
  }

  /** `.replace({"Males": "Male", "Females": "Female", "Persons": "Total"})`. */
  function GenderName(t: Cell): Cell
  {
    if t == Some("Males") then Some("Male")
    else if t == Some("Females") then Some("Female")
    else if t == Some("Persons") then Some("Total")
    else t
  }

  /** The three columns decoded from a `Variable` label. */
  datatype Label = Label(workerType: Cell, area: Cell, gender: Cell)

  function DecodeLabel(v: string): Label
  {
    var parts := Split(v, '-');
    Label(WorkerTypeName(Token(parts, 0)), Token(parts, 1), GenderName(Token(parts, 2)))
  }

  /**
   * A label made of hyphen-free tokens decodes token by token: the worker
   * class through its table, the area as it is, the gender through its
   * table; missing tokens are null and tokens after the third are ignored.
   */
  lemma DecodeLabelTokens(parts: seq<string>)
    requires |parts| >= 1
    requires forall p :: p in parts ==> '-' !in p
    ensures DecodeLabel(Join(parts, '-')) ==
            Label(WorkerTypeName(Some(parts[0])), Token(parts, 1), GenderName(Token(parts, 2)))
  {
    SplitJoin(parts, '-');
  }

  /** `Main_Workers-Rural-Males` decodes to (Main, Rural, Male). */
  lemma DecodeExample()
    ensures DecodeLabel("Main_Workers-Rural-Males") == Label(Some("Main"), Some("Rural"), Some("Male"))
  {
    var parts := ["Main_Workers", "Rural", "Males"];
    assert Join(parts, '-') == "Main_Workers-Rural-Males";
    DecodeLabelTokens(parts);
  }

  /**
   * A measure column whose first token is longer than the prefix keeps that
   * token as its worker type: the prefix test on the column name does not
   * make the worker type one of Main and Marginal.
   */
  lemma MeasureLabelKeepsUnknownType()
    ensures IsMeasure("Main_Workers_Total-Rural-Males")
    ensures DecodeLabel("Main_Workers_Total-Rural-Males").workerType == Some("Main_Workers_Total")
  {
    var name := "Main_Workers_Total-Rural-Males";
    assert name[..|MainPrefix|] == MainPrefix;
    var parts := ["Main_Workers_Total", "Rural", "Males"];
    assert Join(parts, '-') == name;
    DecodeLabelTokens(parts);
  }

  /** A row of `long_data` after decoding: `Variable` replaced by its three columns. */
  datatype LongRow = LongRow(state: Cell, district: Cell, industry: Cell,
                             workerType: Cell, area: Cell, gender: Cell, count: Cell)

  /** The identifier columns the dashboard reads. */
  predicate HasKeyColumns(cols: seq<string>)
  {
    "State" in cols && "District" in cols && "Industry_Category" in cols
  }

  function DecodeRow(idVars: seq<string>, m: Melted): LongRow
    requires HasKeyColumns(idVars) && |m.ids| == |idVars|
  {
    var l := DecodeLabel(m.variable);
    LongRow(Lookup(idVars, m.ids, "State"), Lookup(idVars, m.ids, "District"),
            Lookup(idVars, m.ids, "Industry_Category"), l.workerType, l.area, l.gender, m.count)
  }

  /** The decoding applied to every melted record, in order. */
  function DecodeAll(idVars: seq<string>, ms: seq<Melted>): (r: seq<LongRow>)
    requires HasKeyColumns(idVars)
    requires forall m :: m in ms ==> |m.ids| == |idVars|
    ensures |r| == |ms|
    ensures forall i :: 0 <= i < |ms| ==> r[i] == DecodeRow(idVars, ms[i])
  {
    if ms == [] then [] else [DecodeRow(idVars, ms[0])] + DecodeAll(idVars, ms[1..])
  }

  // ---------------------------------------------------------------------------
  // Numeric coercion (HR_Visual.py lines 68-69)
  // ---------------------------------------------------------------------------

  /** A row of the long table with a numeric count. */
  datatype Observation = Observation(state: Cell, district: Cell, industry: Cell,
                                     workerType: Cell, area: Cell, gender: Cell, count: int)

  /** `pd.to_numeric(errors="coerce")` on one cell, given the parser of one string. */
  function ToNumeric(parse: string -> Option<int>, c: Cell): Option<int>
  {
    match c
    case None => None
    case Some(s) => parse(s)
  }

  /** The rows that `dropna(subset=["Count"])` keeps after the coercion. */
  function Parses(parse: string -> Option<int>): LongRow -> bool
  {
    (r: LongRow) => ToNumeric(parse, r.count).Some?
  }

  /** The melted records whose count cell does not parse. */
  function Unparsable(parse: string -> Option<int>): Melted -> bool
  {
    (m: Melted) => ToNumeric(parse, m.count).None?
  }

  /** `row` with its count replaced by the number `n`. */
  function WithCount(row: LongRow, n: int): Observation
  {
    Observation(row.state, row.district, row.industry, row.workerType, row.area, row.gender, n)
  }

  /**
   * The coercion and drop: the rows whose count parses, in order, each with
   * its parsed count and every other column unchanged.
   */
  function Coerce(parse: string -> Option<int>, rows: seq<LongRow>): (r: seq<Observation>)
    ensures |r| == |Where(rows, Parses(parse))|
    ensures forall i :: 0 <= i < |r| ==>
              ToNumeric(parse, Where(rows, Parses(parse))[i].count) == Some(r[i].count) &&
              r[i] == WithCount(Where(rows, Parses(parse))[i], r[i].count)
  {
    if rows == [] then []
    else match ToNumeric(parse, rows[0].count)
      case None => Coerce(parse, rows[1..])
      case Some(n) => [WithCount(rows[0], n)] + Coerce(parse, rows[1..])
  }

  /** The coercion drops exactly the rows whose count does not parse. */
  lemma CoerceDropsUnparsable(parse: string -> Option<int>, rows: seq<LongRow>)
    ensures |Coerce(parse, rows)| + |Where(rows, Not(Parses(parse)))| == |rows|
  {
    WherePartition(rows, Parses(parse));
  }

  lemma {:induction false} DecodeKeepsCounts(parse: string -> Option<int>, idVars: seq<string>, ms: seq<Melted>)
    requires HasKeyColumns(idVars)
    requires forall m :: m in ms ==> |m.ids| == |idVars|
    ensures |Where(DecodeAll(idVars, ms), Not(Parses(parse)))| == |Where(ms, Unparsable(parse))|
  {
    if ms != [] {
      DecodeKeepsCounts(parse, idVars, ms[1..]);
      assert DecodeAll(idVars, ms)[1..] == DecodeAll(idVars, ms[1..]);
    }
  }

  // ---------------------------------------------------------------------------
  // The whole reshape
  // ---------------------------------------------------------------------------

  lemma KeyColumnsAreIds(cols: seq<string>)
    requires HasKeyColumns(cols)
    ensures HasKeyColumns(IdColumns(cols))
    ensures Within(IdColumns(cols), cols) && Within(MeasureColumns(cols), cols)
  {
    ClassifySpec(cols);
    assert "State"[0] == 'S' && "District"[0] == 'D' && "Industry_Category"[0] == 'I';
    assert MainPrefix[0] == 'M' && MarginalPrefix[0] == 'M';
    assert !IsMeasure("State") && !IsMeasure("District") && !IsMeasure("Industry_Category");
  }

  /** `long_data` after line 69, as a function of the normalised wide table. */
  function LongTable(parse: string -> Option<int>, cols: seq<string>, rows: seq<seq<Cell>>): seq<Observation>
    requires Rectangular(cols, rows) && HasKeyColumns(cols)
  {
    KeyColumnsAreIds(cols);
    var idVars := IdColumns(cols);
    MeltIds(cols, rows, idVars, MeasureColumns(cols));
    Coerce(parse, DecodeAll(idVars, Melt(cols, rows, idVars, MeasureColumns(cols))))
  }

  /** The long table has one row per (row, measure column) minus the melted records whose count does not parse. */
  lemma LongTableRowCount(parse: string -> Option<int>, cols: seq<string>, rows: seq<seq<Cell>>)
    requires Rectangular(cols, rows) && HasKeyColumns(cols)
    ensures KeyColumnsWithin(cols) &&
            |LongTable(parse, cols, rows)| +
            |Where(Melt(cols, rows, IdColumns(cols), MeasureColumns(cols)), Unparsable(parse))|
            == |rows| * |MeasureColumns(cols)|
  {
    KeyColumnsAreIds(cols);
    var idVars := IdColumns(cols);
    var ms := Melt(cols, rows, idVars, MeasureColumns(cols));
    MeltIds(cols, rows, idVars, MeasureColumns(cols));
    CoerceDropsUnparsable(parse, DecodeAll(idVars, ms));
    DecodeKeepsCounts(parse, idVars, ms);
    MeltLength(cols, rows, idVars, MeasureColumns(cols));
  }

  /** The column lists the melt is called with lie within the table. */
  predicate KeyColumnsWithin(cols: seq<string>)
  {
    Within(IdColumns(cols), cols) && Within(MeasureColumns(cols), cols)
  }

  /** Renaming the columns without changing their number keeps the table rectangular. */
  lemma RenameKeepsShape(cols: seq<string>, renamed: seq<string>, rows: seq<seq<Cell>>)
    requires Rectangular(cols, rows) && |renamed| == |cols|
    ensures Rectangular(renamed, rows)
  {
  }

  /** The loaded wide table, whose column index the script reassigns in place. */
  class WideTable {
    var columns: seq<string>
    var rows: seq<seq<Cell>>

    ghost predicate Valid()
      reads this
    {
      Rectangular(columns, rows)
    }

    constructor (columns: seq<string>, rows: seq<seq<Cell>>)
      requires Rectangular(columns, rows)
      ensures Valid() && this.columns == columns && this.rows == rows
    {
      this.columns := columns;
      this.rows := rows;
    }

    /** `data.columns = data.columns.str.strip().str.replace(" ", "_")`: renames the columns, leaves the rows. */
    method NormaliseColumns()
      requires Valid()
      modifies this
      ensures Valid()
      ensures columns == NormaliseAll(old(columns)) && rows == old(rows)
      ensures forall c :: c in columns ==> Trimmed(c) && ' ' !in c
    {
      var renamed := NormaliseAll(columns);
      NormaliseAllClean(columns);
      RenameKeepsShape(columns, renamed, rows);
      columns := renamed;
    }

    /** Lines 34-69: classify the columns, melt, decode the labels, coerce the counts. */
    method ToLong(parse: string -> Option<int>) returns (long: seq<Observation>)
      requires Valid() && HasKeyColumns(columns)
      ensures long == LongTable(parse, columns, rows)
      ensures KeyColumnsWithin(columns)
      ensures |long| + |Where(Melt(columns, rows, IdColumns(columns), MeasureColumns(columns)), Unparsable(parse))|
              == |rows| * |MeasureColumns(columns)|
    {
      KeyColumnsAreIds(columns);
      var workerCols := MeasureColumns(columns);
      var idCols := IdColumns(columns);
      var melted := Melt(columns, rows, idCols, workerCols);
      MeltIds(columns, rows, idCols, workerCols);
      var decoded := DecodeAll(idCols, melted);
      long := Coerce(parse, decoded);
      LongTableRowCount(parse, columns, rows);
    }
  }
}
