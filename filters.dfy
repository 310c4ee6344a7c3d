/**
 * The sidebar's cascading filter chain (HR_Visual.py lines 94-160): a state
 * set, an optional district set, one worker class, one area and one gender,
 * then an industry set. Each widget's option list is computed from the rows
 * that survived the stages before it; the widget values themselves are the
 * parameters of the chain.
 */
module Filters {
  import opened Seqs
  import opened Reshape

  datatype ViewLevel = DistrictWise | StateWise

  /** The values of the sidebar widgets. */
  datatype Selection = Selection(level: ViewLevel, states: set<Cell>, districts: set<Cell>,
                                 workerType: Cell, area: Cell, gender: Cell, industries: set<Cell>)

  // ---------------------------------------------------------------------------
  // Row masks
  // ---------------------------------------------------------------------------

  /** `column == value`: a null cell equals nothing, not even a null selection. */
  predicate Matches(c: Cell, sel: Cell)
  {
    sel.Some? && c == sel
  }

  /** `State.isin(states)`. */
  function InStates(states: set<Cell>): Observation -> bool
  {
    (o: Observation) => o.state in states
  }

  /** `District.isin(districts)`. */
  function InDistricts(districts: set<Cell>): Observation -> bool
  {
    (o: Observation) => o.district in districts
  }

  /** `Industry_Category.isin(industries)`. */
  function InIndustries(industries: set<Cell>): Observation -> bool
  {
    (o: Observation) => o.industry in industries
  }

  function WorkerIs(w: Cell): Observation -> bool
  {
    (o: Observation) => Matches(o.workerType, w)
  }

  function AreaIs(a: Cell): Observation -> bool
  {
    (o: Observation) => Matches(o.area, a)
  }

  function GenderIs(g: Cell): Observation -> bool
  {
    (o: Observation) => Matches(o.gender, g)
  }

  /** The one mask of lines 143-147: worker class, area and gender together. */
  function Category(w: Cell, a: Cell, g: Cell): Observation -> bool
  {
    Both(Both(WorkerIs(w), AreaIs(a)), GenderIs(g))
  }

  // ---------------------------------------------------------------------------
  // Stages
  // ---------------------------------------------------------------------------

  /** `if selected_districts:` is true only for a non-empty district selection in the district-wise view. */
  predicate DistrictFilterOn(sel: Selection)
  {
    sel.level == DistrictWise && sel.districts != {}
  }

  /** The rows after the geography stage (lines 119-124). */
  function Geo(long: seq<Observation>, sel: Selection): seq<Observation>
  {
    var byState := Where(long, InStates(sel.states));
    if DistrictFilterOn(sel) then Where(byState, InDistricts(sel.districts)) else byState
  }

  /** The rows after the worker-class, area and gender stage (lines 143-147). */
  function ByCategory(rows: seq<Observation>, sel: Selection): seq<Observation>
  {
    Where(rows, Category(sel.workerType, sel.area, sel.gender))
  }

  /** `filtered_data` after line 160. */
  function Selected(long: seq<Observation>, sel: Selection): seq<Observation>
  {
    Where(ByCategory(Geo(long, sel), sel), InIndustries(sel.industries))
  }

  /** A row survives every stage of the chain. */
  predicate Passes(sel: Selection, o: Observation)
  {
    && o.state in sel.states
    && (DistrictFilterOn(sel) ==> o.district in sel.districts)
    && Matches(o.workerType, sel.workerType)
    && Matches(o.area, sel.area)
    && Matches(o.gender, sel.gender)
    && o.industry in sel.industries
  }

  // ---------------------------------------------------------------------------
  // Option lists
  // ---------------------------------------------------------------------------

  /** `long_data["State"].unique()` (line 94). */
  function StateOptions(long: seq<Observation>): set<Cell>
  {
    set o | o in long :: o.state
  }

  /** `["Tamilnadu"] if "Tamilnadu" in states else []` (line 101). */
  function DefaultStates(options: set<Cell>): (r: set<Cell>)
    ensures r == options * {Some("Tamilnadu")}
    ensures r != {} <==> Some("Tamilnadu") in options
  {
    if Some("Tamilnadu") in options then {Some("Tamilnadu")} else {}
  }

  /** The non-null districts of the selected states (lines 104-107). */
  function DistrictOptions(long: seq<Observation>, states: set<Cell>): set<Cell>
  {
    set o | o in long && o.state in states && o.district.Some? :: o.district
  }

  function WorkerOptions(rows: seq<Observation>): set<Cell>
  {
    set o | o in rows :: o.workerType
  }

  function AreaOptions(rows: seq<Observation>): set<Cell>
  {
    set o | o in rows :: o.area
  }

  function GenderOptions(rows: seq<Observation>): set<Cell>
  {
    set o | o in rows :: o.gender
  }

  /** `filtered_data["Industry_Category"].unique()` (line 152). */
  function IndustryOptions(rows: seq<Observation>): set<Cell>
  {
    set o | o in rows :: o.industry
  }

  // ---------------------------------------------------------------------------
  // The chain
  // ---------------------------------------------------------------------------

  /** What the sidebar shows and what the page goes on with. */
  datatype ChainResult =
    | Stopped   // the "No data available" warning and `st.stop()`
    | Filtered(rows: seq<Observation>, workerOptions: set<Cell>, areaOptions: set<Cell>,
               genderOptions: set<Cell>, industryOptions: set<Cell>)

  /**
   * Lines 119-160: `filtered_data` reassigned stage by stage. The chain
   * stops exactly when the geography stage leaves nothing; otherwise the
   * category options come from the geography survivors, the industry
   * options from the category survivors, and the rows are `Selected`.
   */
  method FilterChain(long: seq<Observation>, sel: Selection) returns (res: ChainResult)
    ensures res.Stopped? <==> Geo(long, sel) == []
    ensures res.Filtered? ==>
              && res.rows == Selected(long, sel)
              && res.workerOptions == WorkerOptions(Geo(long, sel))
              && res.areaOptions == AreaOptions(Geo(long, sel))
              && res.genderOptions == GenderOptions(Geo(long, sel))
              && res.industryOptions == IndustryOptions(ByCategory(Geo(long, sel), sel))
    ensures res.Filtered? ==> res.workerOptions != {} && res.areaOptions != {} && res.genderOptions != {}
  {
    var filtered := Where(long, InStates(sel.states));
    if sel.level == DistrictWise && sel.districts != {} {
      filtered := Where(filtered, InDistricts(sel.districts));
    }
    if filtered == [] {
      return Stopped;
    }
    var first := filtered[0];
    assert first in filtered;
    var workerOptions := WorkerOptions(filtered);
    var areaOptions := AreaOptions(filtered);
    var genderOptions := GenderOptions(filtered);
    assert first.workerType in workerOptions && first.area in areaOptions && first.gender in genderOptions;
    filtered := Where(filtered, Category(sel.workerType, sel.area, sel.gender));
    var industryOptions := IndustryOptions(filtered);
    filtered := Where(filtered, InIndustries(sel.industries));
    return Filtered(filtered, workerOptions, areaOptions, genderOptions, industryOptions);
  }

  // ---------------------------------------------------------------------------
  // Properties of the chain
  // ---------------------------------------------------------------------------

  /**
   * Every stage keeps a subsequence of its input with the rows unchanged, so
   * the row count never grows, and a row is selected exactly when it is in
   * the long table and passes every stage.
   */
  lemma SelectedSpec(long: seq<Observation>, sel: Selection)
    ensures IsSubseq(Geo(long, sel), long) && |Geo(long, sel)| <= |long|
    ensures IsSubseq(ByCategory(Geo(long, sel), sel), Geo(long, sel))
    ensures IsSubseq(Selected(long, sel), ByCategory(Geo(long, sel), sel))
    ensures |Selected(long, sel)| <= |ByCategory(Geo(long, sel), sel)| <= |Geo(long, sel)|
    ensures forall o :: o in Selected(long, sel) <==> o in long && Passes(sel, o)
  {
    var byState := Where(long, InStates(sel.states));
    if DistrictFilterOn(sel) {
      IsSubseqTrans(Where(byState, InDistricts(sel.districts)), byState, long);
    }
  }

  lemma {:induction false} IsSubseqTrans<T>(a: seq<T>, b: seq<T>, c: seq<T>)
    requires IsSubseq(a, b) && IsSubseq(b, c)
    ensures IsSubseq(a, c)
    decreases |c|
  {
    if c != [] {
      if b != [] && b[0] == c[0] && IsSubseq(b[1..], c[1..]) {
        if a != [] && a[0] == b[0] && IsSubseq(a[1..], b[1..]) {
          IsSubseqTrans(a[1..], b[1..], c[1..]);
        } else {
          IsSubseqTrans(a, b[1..], c[1..]);
        }
      } else {
        IsSubseqTrans(a, b, c[1..]);
      }
    }
  }

  /**
   * The default district selection is every listed district. When the
   * selected states have a non-null district, that drops exactly the rows
   * with a null district; when they have none, the list is empty, the
   * district stage is skipped and those rows stay.
   */
  lemma DefaultDistricts(long: seq<Observation>, sel: Selection)
    requires sel.level == DistrictWise && sel.districts == DistrictOptions(long, sel.states)
    ensures sel.districts != {} ==>
              Geo(long, sel) == Where(Where(long, InStates(sel.states)), (o: Observation) => o.district.Some?)
    ensures sel.districts == {} ==> Geo(long, sel) == Where(long, InStates(sel.states))
  {
    var byState := Where(long, InStates(sel.states));
    WhereExt(byState, InDistricts(sel.districts), (o: Observation) => o.district.Some?);
  }

  /** The default industry selection, every listed industry, keeps every row of the category stage. */
  lemma DefaultIndustries(long: seq<Observation>, sel: Selection)
    requires sel.industries == IndustryOptions(ByCategory(Geo(long, sel), sel))
    ensures Selected(long, sel) == ByCategory(Geo(long, sel), sel)
  {
    WhereAll(ByCategory(Geo(long, sel), sel), InIndustries(sel.industries));
  }

  /**
   * On first load the state list holds Tamilnadu exactly when some row of
   * the long table is in Tamilnadu, and the geography stage then keeps only
   * Tamilnadu's rows.
   */
  lemma DefaultStatesOf(long: seq<Observation>, sel: Selection)
    requires sel.states == DefaultStates(StateOptions(long))
    ensures sel.states != {} <==> exists o :: o in long && o.state == Some("Tamilnadu")
    ensures forall o :: o in Geo(long, sel) ==> o in long && o.state == Some("Tamilnadu")
  {
    if exists o :: o in long && o.state == Some("Tamilnadu") {
      var o :| o in long && o.state == Some("Tamilnadu");
      assert o.state in StateOptions(long);
    }
    SelectedSpec(long, sel);
  }

  /** A worker-class, area or gender selection of null matches no row. */
  lemma NullCategorySelectsNothing(long: seq<Observation>, sel: Selection)
    requires sel.workerType.None? || sel.area.None? || sel.gender.None?
    ensures Selected(long, sel) == []
  {
    WhereNone(Geo(long, sel), Category(sel.workerType, sel.area, sel.gender));
    assert ByCategory(Geo(long, sel), sel) == [];
  }
}
