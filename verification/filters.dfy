/** The sidebar filters: year, state and accident type. A selection that is
    empty leaves its column unrestricted; a non-empty one keeps the rows
    whose cell is one of the selected values (`isin`, so a missing cell never
    passes); the three stages are applied one after the other. */
module Filters {
  import opened Wrappers
  import opened Records

  /** The three multiselect values. Only membership matters to `isin`, so
      each selection is a set. */
  datatype Selection = Selection(years: set<int>, ufs: set<string>, tipos: set<string>)

  /** `a` can be obtained from `b` by deleting elements, keeping the order. */
  predicate IsSubsequence<T(==)>(a: seq<T>, b: seq<T>)
    decreases |b|
  {
    if |b| == 0 then |a| == 0
    else (|a| > 0 && a[0] == b[0] && IsSubsequence(a[1..], b[1..])) || IsSubsequence(a, b[1..])
  }

  /** `cell.isin(sel)`: missing cells are never members. */
  predicate IsIn<T(==)>(cell: Option<T>, sel: set<T>)
  {
    cell.Some? && cell.value in sel
  }

  /** A row predicate of the filter block. An empty selection restricts
      nothing. */
  datatype Criterion =
    | YearIn(years: set<int>)
    | UfIn(ufs: set<string>)
    | TipoIn(tipos: set<string>)
    | Both(first: Criterion, second: Criterion)

  predicate Holds(c: Criterion, x: Record)
  {
    match c
    case YearIn(ys) => ys == {} || IsIn(x.ano, ys)
    case UfIn(us) => us == {} || IsIn(x.uf, us)
    case TipoIn(ts) => ts == {} || IsIn(x.tipoAcidente, ts)
    case Both(a, b) => Holds(a, x) && Holds(b, x)
  }

  /** Whether a row passes all three filters at once. */
  predicate Passes(sel: Selection, x: Record)
  {
    Holds(Both(Both(YearIn(sel.years), UfIn(sel.ufs)), TipoIn(sel.tipos)), x)
  }

  /** The rows of `v` satisfying `c`, in their original order (a boolean mask). */
  function Keep(v: View, c: Criterion): (r: View)
    ensures IsSubsequence(r, v)
    ensures |r| <= |v|
    ensures forall x :: x in r <==> x in v && Holds(c, x)
    ensures forall x :: multiset(r)[x] == (if Holds(c, x) then multiset(v)[x] else 0)
  {
    if |v| == 0 then []
    else
      assert v == [v[0]] + v[1..];
      var rest := Keep(v[1..], c);
      if Holds(c, v[0]) then [v[0]] + rest else rest
  }

  /** `filtered_df[filtered_df['ano'].isin(sel)]` when `sel` is non-empty. */
  function ByYear(v: View, years: set<int>): View
  {
    if years == {} then v else Keep(v, YearIn(years))
  }

  function ByUf(v: View, ufs: set<string>): View
  {
    if ufs == {} then v else Keep(v, UfIn(ufs))
  }

  function ByTipo(v: View, tipos: set<string>): View
  {
    if tipos == {} then v else Keep(v, TipoIn(tipos))
  }

  /** Filtering twice is filtering once by the conjunction. */
  lemma {:induction false} KeepKeep(v: View, a: Criterion, b: Criterion)
    ensures Keep(Keep(v, a), b) == Keep(v, Both(a, b))
  {
    if |v| > 0 {
      KeepKeep(v[1..], a, b);
      if Holds(a, v[0]) {
        assert ([v[0]] + Keep(v[1..], a))[1..] == Keep(v[1..], a);
      }
    }
  }

  /** A criterion that holds of every row keeps the view unchanged. */
  lemma {:induction false} KeepAll(v: View, c: Criterion)
    requires forall x :: Holds(c, x)
    ensures Keep(v, c) == v
  {
    if |v| > 0 {
      KeepAll(v[1..], c);
      assert v == [v[0]] + v[1..];
    }
  }

  /** The three stages together keep exactly the rows that pass all filters. */
  lemma ApplyFiltersIsOnePass(base: View, sel: Selection)
    ensures ByTipo(ByUf(ByYear(base, sel.years), sel.ufs), sel.tipos)
         == Keep(base, Both(Both(YearIn(sel.years), UfIn(sel.ufs)), TipoIn(sel.tipos)))
  {
    var v1 := ByYear(base, sel.years);
    var v2 := ByUf(v1, sel.ufs);
    if sel.years == {} { KeepAll(base, YearIn(sel.years)); }
    if sel.ufs == {} { KeepAll(v1, UfIn(sel.ufs)); }
    if sel.tipos == {} { KeepAll(v2, TipoIn(sel.tipos)); }
    KeepKeep(base, YearIn(sel.years), UfIn(sel.ufs));
    KeepKeep(base, Both(YearIn(sel.years), UfIn(sel.ufs)), TipoIn(sel.tipos));
  }

  /** The filtered view of the dashboard: year, then state, then type. */
  function ApplyFilters(base: View, sel: Selection): (r: View)
    ensures IsSubsequence(r, base)
    ensures |r| <= |base|
    ensures forall x :: x in r <==> x in base && Passes(sel, x)
    ensures forall x :: multiset(r)[x] == (if Passes(sel, x) then multiset(base)[x] else 0)
    ensures sel.years == {} && sel.ufs == {} && sel.tipos == {} ==> r == base
  {
    var r := ByTipo(ByUf(ByYear(base, sel.years), sel.ufs), sel.tipos);
    ApplyFiltersIsOnePass(base, sel);
    r
  }

  /** A row whose date did not parse never passes a non-empty year filter. */
  lemma NullYearNeverPasses(base: View, sel: Selection, x: Record)
    requires sel.years != {} && x.ano.None?
    ensures x !in ApplyFilters(base, sel)
  {
  }
}
