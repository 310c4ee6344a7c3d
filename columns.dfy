/**
 * Column names of the wide census table: the normaliser that strips each
 * name and turns its spaces into underscores, and the classifier that
 * splits the columns into worker-count (measure) columns and identifier
 * columns.
 */
module Columns {
  import opened Seqs

  /** Python's `str.isspace` on one character: the characters `str.strip()` removes. */
  predicate IsSpace(c: char)
  {
    || c == ' ' || ('\t' <= c <= '\r') || ('\U{1c}' <= c <= '\U{1f}')
    || c == '\U{85}' || c == '\U{a0}' || c == '\U{1680}' || ('\U{2000}' <= c <= '\U{200a}')
    || c == '\U{2028}' || c == '\U{2029}' || c == '\U{202f}' || c == '\U{205f}' || c == '\U{3000}'
  }

  /** `s` neither starts nor ends with whitespace. */
  predicate Trimmed(s: string)
  {
    s == [] || (!IsSpace(s[0]) && !IsSpace(s[|s| - 1]))
  }

  /** `str.lstrip()`: drops the longest all-whitespace prefix. */
  function TrimStart(s: string): (r: string)
    ensures |r| <= |s| && r == s[|s| - |r|..]
    ensures forall k :: 0 <= k < |s| - |r| ==> IsSpace(s[k])
    ensures r == [] || !IsSpace(r[0])
  {
    if s != [] && IsSpace(s[0]) then TrimStart(s[1..]) else s
  }

  /** `str.rstrip()`: drops the longest all-whitespace suffix. */
  function TrimEnd(s: string): (r: string)
    ensures |r| <= |s| && r == s[..|r|]
    ensures forall k :: |r| <= k < |s| ==> IsSpace(s[k])
    ensures r == [] || !IsSpace(r[|r| - 1])
  {
    if s != [] && IsSpace(s[|s| - 1]) then TrimEnd(s[..|s| - 1]) else s
  }

  /** `str.strip()`. */
  function Strip(s: string): (r: string)
    ensures Trimmed(r)
  {
    TrimEnd(TrimStart(s))
  }

  /** `str.replace(" ", "_")`. */
  function ReplaceSpaces(s: string): (r: string)
    ensures |r| == |s|
    ensures ' ' !in r
    ensures forall k :: 0 <= k < |s| && s[k] != ' ' ==> r[k] == s[k]
    ensures forall k :: 0 <= k < |s| && s[k] == ' ' ==> r[k] == '_'
  {
    if s == [] then []
    else [if s[0] == ' ' then '_' else s[0]] + ReplaceSpaces(s[1..])
  }

  /** The normalised form of one column name (HR_Visual.py line 29). */
  function NormaliseName(c: string): (r: string)
    ensures Trimmed(r)
    ensures ' ' !in r
  {
    var t := Strip(c);
    var r := ReplaceSpaces(t);
    assert t != [] ==> r[0] == t[0] && r[|r| - 1] == t[|t| - 1];
    r
  }

  lemma {:induction false} StripTrimmed(s: string)
    requires Trimmed(s)
    ensures Strip(s) == s
  {
  }

  lemma {:induction false} ReplaceSpacesNoSpace(s: string)
    requires ' ' !in s
    ensures ReplaceSpaces(s) == s
  {
    if s != [] {
      ReplaceSpacesNoSpace(s[1..]);
    }
  }

  /** Normalising a name twice gives the same name as normalising it once. */
  lemma NormaliseNameIdempotent(c: string)
    ensures NormaliseName(NormaliseName(c)) == NormaliseName(c)
  {
    var n := NormaliseName(c);
    StripTrimmed(n);
    ReplaceSpacesNoSpace(n);
  }

  /** The new column index: every name normalised, in the same positions. */
  function NormaliseAll(cols: seq<string>): (r: seq<string>)
    ensures |r| == |cols|
    ensures forall k :: 0 <= k < |r| ==> r[k] == NormaliseName(cols[k])
  {
    seq(|cols|, k requires 0 <= k < |cols| => NormaliseName(cols[k]))
  }

  /** After normalisation no name has surrounding whitespace or a space. */
  lemma NormaliseAllClean(cols: seq<string>)
    ensures forall c :: c in NormaliseAll(cols) ==> Trimmed(c) && ' ' !in c
  {
  }

  /** Normalising the column index again changes nothing. */
  lemma NormaliseAllIdempotent(cols: seq<string>)
    ensures NormaliseAll(NormaliseAll(cols)) == NormaliseAll(cols)
  {
    var n := NormaliseAll(cols);
    forall k | 0 <= k < |n| ensures NormaliseAll(n)[k] == n[k] {
      NormaliseNameIdempotent(cols[k]);
    }
  }

  const MainPrefix: string := "Main_Workers"
  const MarginalPrefix: string := "Marginal_Workers"

  /** `c.startswith(("Main_Workers", "Marginal_Workers"))` (HR_Visual.py line 34). */
  predicate IsMeasure(c: string)
  {
    MainPrefix <= c || MarginalPrefix <= c
  }

  /** `worker_cols`: the measure columns, in table order. */
  function MeasureColumns(cols: seq<string>): (r: seq<string>)
  {
    Where(cols, IsMeasure)
  }

  /** `id_cols`: the columns that are not in `worker_cols`, in table order (HR_Visual.py line 35). */
  function IdColumns(cols: seq<string>): (r: seq<string>)
  {
    Where(cols, (c: string) => c !in MeasureColumns(cols))
  }

  /**
   * The two lists partition the columns: a name is a measure column exactly
   * when it has one of the two prefixes, every other name is an identifier
   * column, both lists keep the table order, and together they hold every
   * column exactly as often as the table does.
   */
  lemma ClassifySpec(cols: seq<string>)
    ensures forall c :: c in MeasureColumns(cols) <==> c in cols && IsMeasure(c)
    ensures forall c :: c in IdColumns(cols) <==> c in cols && !IsMeasure(c)
    ensures IsSubseq(MeasureColumns(cols), cols) && IsSubseq(IdColumns(cols), cols)
    ensures IdColumns(cols) == Where(cols, Not(IsMeasure))
    ensures multiset(MeasureColumns(cols)) + multiset(IdColumns(cols)) == multiset(cols)
  {
    var w := MeasureColumns(cols);
    WhereExt(cols, (c: string) => c !in w, Not(IsMeasure));
    WherePartition(cols, IsMeasure);
  }
}
