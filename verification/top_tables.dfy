/** The "top N" bar charts of the geographic, causes and vehicles tabs, and
    the headline "state with most accidents" metric. */
module TopTables {
  import opened Wrappers
  import opened Records
  import opened Tally

  /** `head(10)` of the bar charts. */
  const ChartTop: nat := 10
  /** `head(5)` of the accident types crossed with the phase of the day. */
  const CrossTop: nat := 5

  function TopStates(v: View): (t: Table<string>)
    ensures IsTopN(Column(v, UfOf), ChartTop, t)
  {
    TopN(Column(v, UfOf), ChartTop)
  }

  function TopMunicipalities(v: View): (t: Table<string>)
    ensures IsTopN(Column(v, MunicipioOf), ChartTop, t)
  {
    TopN(Column(v, MunicipioOf), ChartTop)
  }

  function TopHighways(v: View): (t: Table<int>)
    ensures IsTopN(Column(v, BrOf), ChartTop, t)
  {
    TopN(Column(v, BrOf), ChartTop)
  }

  function TopCauses(v: View): (t: Table<string>)
    ensures IsTopN(Column(v, CausaPrincipalOf), ChartTop, t)
  {
    TopN(Column(v, CausaPrincipalOf), ChartTop)
  }

  function TopAccidentTypes(v: View): (t: Table<string>)
    ensures IsTopN(Column(v, TipoAcidenteOf), ChartTop, t)
  {
    TopN(Column(v, TipoAcidenteOf), ChartTop)
  }

  /** The five accident types chosen as heat-map columns. */
  function TopFiveTypes(v: View): (ts: seq<string>)
    ensures |ts| <= CrossTop
    ensures exists t :: IsTopN(Column(v, TipoAcidenteOf), CrossTop, t) && ts == Keys(t)
  {
    var t := TopN(Column(v, TipoAcidenteOf), CrossTop);
    Keys(t)
  }

  function TopVehicleTypes(v: View): (t: Table<string>)
    ensures IsTopN(Column(v, TipoVeiculoOf), ChartTop, t)
  {
    TopN(Column(v, TipoVeiculoOf), ChartTop)
  }

  /** The metric's sentinel when there is nothing to report. */
  const NotApplicable: string := "N/A"

  /** A state no other state outnumbers in the view. */
  ghost predicate IsBusiestState(v: View, s: string)
  {
    var col := Column(v, UfOf);
    Some(s) in col && forall k :: Occ(col, k) <= Occ(col, s)
  }

  /** The first entry of a full value-count table has the largest count. */
  lemma FirstIsMax<K>(col: seq<Option<K>>, t: Table<K>, k: K)
    requires IsValueCounts(col, t) && |t| > 0
    ensures Occ(col, k) <= t[0].1
  {
    OccPositive(col, k);
    if Some(k) in col {
      assert k in ValueSet(col);
      assert k in KeySet(t);
      var e :| e in t && e.0 == k;
      var j :| 0 <= j < |t| && t[j] == e;
    }
  }

  /** The metric as the script computes it: "N/A" for an empty view,
      otherwise `value_counts().idxmax()` of the state column, which raises
      when the view has rows but none of them has a state. */
  function BusiestStateAsWritten(v: View): (r: Result<string, string>)
    ensures |v| == 0 ==> r == Success(NotApplicable)
    ensures r.Failure? <==> |v| > 0 && ValueSet(Column(v, UfOf)) == {}
    ensures r.Success? && |v| > 0 ==> IsBusiestState(v, r.value)
  {
    var col := Column(v, UfOf);
    var t := ValueCounts(col);
    if |v| == 0 then Success(NotApplicable)
    else if |t| == 0 then Failure("attempt to get argmax of an empty sequence")
    else
      assert t[0].0 in KeySet(t);
      OccPositive(col, t[0].0);
      forall k ensures Occ(col, k) <= Occ(col, t[0].0) {
        FirstIsMax(col, t, k);
      }
      Success(t[0].0)
  }

  /** A view with one row whose state is missing: the script raises. */
  lemma BusiestStateRaisesWithoutStates()
    ensures BusiestStateAsWritten([NoStateRow()]).Failure?
  {
    var v := [NoStateRow()];
    assert Column(v, UfOf) == [None];
  }

  function NoStateRow(): (r: Record)
    ensures r.uf.None?
  {
    Record(Some(2024), Some("domingo"), None, None, None, None, None, None,
           None, None, None, None, None, None)
  }

  /** The metric with the sentinel for every view that has no state to
      report, empty or not; otherwise the first entry of the top-10 chart. */
  function BusiestState(v: View): (s: string)
    ensures ValueSet(Column(v, UfOf)) == {} ==> s == NotApplicable
    ensures ValueSet(Column(v, UfOf)) != {} ==> IsBusiestState(v, s)
    ensures ValueSet(Column(v, UfOf)) != {} ==> s == TopStates(v)[0].0
  {
    var col := Column(v, UfOf);
    var t := ValueCounts(col);
    if |t| == 0 then NotApplicable
    else
      assert t[0].0 in KeySet(t);
      OccPositive(col, t[0].0);
      forall k ensures Occ(col, k) <= Occ(col, t[0].0) {
        FirstIsMax(col, t, k);
      }
      t[0].0
  }

  /** Whenever the script does not raise, it shows the corrected metric. */
  lemma BusiestStateAgrees(v: View)
    ensures BusiestStateAsWritten(v).Success? ==> BusiestStateAsWritten(v).value == BusiestState(v)
  {
  }
}
