/** The heat map of accident types against the phase of the day:
    `pd.crosstab(fase_dia, tipo_acidente)` restricted to the five most
    frequent accident types. The crosstab only sees rows where both cells are
    present; the five types are counted over every row. */
module CrossTab {
  import opened Wrappers
  import opened Records
  import opened Tally
  import opened TopTables

  /** A table of counts: one row per phase, one column per type. */
  datatype CrossTable = CrossTable(phases: seq<string>, types: seq<string>, cells: seq<seq<nat>>)

  /** The (phase, type) cell pair of a row, when both are present. */
  function PhaseType(r: Record): Option<(string, string)>
  {
    if r.faseDia.Some? && r.tipoAcidente.Some? then Some((r.faseDia.value, r.tipoAcidente.value))
    else None
  }

  /** The phase of a row that the crosstab sees. */
  function SeenPhase(r: Record): Option<string>
  {
    if r.tipoAcidente.Some? then r.faseDia else None
  }

  /** The type of a row that the crosstab sees. */
  function SeenType(r: Record): Option<string>
  {
    if r.faseDia.Some? then r.tipoAcidente else None
  }

  /** Rows with phase `f` and type `t`. */
  function PairCount(v: View, f: string, t: string): nat
  {
    Occ(Column(v, PhaseType), (f, t))
  }

  /** `tab` lists `phases` by `types` and each cell counts its pair. */
  predicate Tabulates(v: View, tab: CrossTable)
  {
    && |tab.cells| == |tab.phases|
    && (forall i :: 0 <= i < |tab.cells| ==> |tab.cells[i]| == |tab.types|)
    && (forall i, j :: 0 <= i < |tab.cells| && 0 <= j < |tab.types| ==>
          tab.cells[i][j] == PairCount(v, tab.phases[i], tab.types[j]))
  }

  function Cells(v: View, phases: seq<string>, types: seq<string>): (cells: seq<seq<nat>>)
    ensures Tabulates(v, CrossTable(phases, types, cells))
  {
    seq(|phases|, i requires 0 <= i < |phases| =>
      seq(|types|, j requires 0 <= j < |types| => PairCount(v, phases[i], types[j])))
  }

  /** The crosstab's row labels: each phase seen with a type, once. */
  function CrossPhases(v: View): (ps: seq<string>)
    ensures NoDup(ps)
    ensures SetOf(ps) == ValueSet(Column(v, SeenPhase))
  {
    Distinct(Column(v, SeenPhase))
  }

  /** The heat map as the script builds it: selecting a top-five type that
      never occurs with a phase is a missing crosstab column (KeyError). */
  function PhaseTypeTableAsWritten(v: View): (r: Result<CrossTable, string>)
    ensures r.Success? <==> SetOf(TopFiveTypes(v)) <= ValueSet(Column(v, SeenType))
    ensures r.Success? ==> r.value.types == TopFiveTypes(v) && Tabulates(v, r.value)
    ensures r.Success? ==> SetOf(r.value.phases) == ValueSet(Column(v, SeenPhase))
    ensures r.Success? ==> NoDup(r.value.phases)
  {
    var top5 := TopFiveTypes(v);
    if SetOf(top5) <= ValueSet(Column(v, SeenType)) then
      var ps := CrossPhases(v);
      Success(CrossTable(ps, top5, Cells(v, ps, top5)))
    else Failure("KeyError")
  }

  function TypedRowWithoutPhase(): (r: Record)
    ensures r.faseDia.None? && r.tipoAcidente == Some("Colisão traseira")
  {
    Record(Some(2024), Some("domingo"), None, Some("SP"), None, None, None, None,
           Some("Colisão traseira"), None, None, None, None, None)
  }

  /** One row with a type but no phase: the type is in the top five but not
      a column of the crosstab, so the script raises. */
  lemma PhaseTypeTableRaises()
    ensures PhaseTypeTableAsWritten([TypedRowWithoutPhase()]).Failure?
  {
    var v := [TypedRowWithoutPhase()];
    var col := Column(v, TipoAcidenteOf);
    assert col == [Some("Colisão traseira")];
    assert ValueSet(col) == {"Colisão traseira"};
    var top := TopN(col, CrossTop);
    assert |top| == 1;
    assert top[0] in top;
    assert top[0].0 in KeySet(top);
    assert TopFiveTypes(v) == Keys(top);
    assert "Colisão traseira" in SetOf(TopFiveTypes(v));
    assert Column(v, SeenType) == [None];
  }

  /** The heat map with every top-five type as a column; a type never seen
      with a phase gets a column of zeros. */
  function PhaseTypeTable(v: View): (tab: CrossTable)
    ensures tab.types == TopFiveTypes(v)
    ensures Tabulates(v, tab)
    ensures SetOf(tab.phases) == ValueSet(Column(v, SeenPhase))
    ensures NoDup(tab.phases)
  {
    var top5 := TopFiveTypes(v);
    var ps := CrossPhases(v);
    CrossTable(ps, top5, Cells(v, ps, top5))
  }

  /** Sum of column `j` over every row of a table. */
  function ColumnTotal(cells: seq<seq<nat>>, j: nat): nat
    requires forall i :: 0 <= i < |cells| ==> j < |cells[i]|
  {
    if |cells| == 0 then 0 else cells[0][j] + ColumnTotal(cells[1..], j)
  }

  /** Cells of a pair column whose second component is `t`. */
  function OccSecond(pc: seq<Option<(string, string)>>, t: string): nat
  {
    if |pc| == 0 then 0
    else
      var last := pc[|pc| - 1];
      OccSecond(pc[..|pc| - 1], t) + (if last.Some? && last.value.1 == t then 1 else 0)
  }

  /** Sum over the phases `ps` of the cells holding (phase, t). */
  function SumPairs(ps: seq<string>, pc: seq<Option<(string, string)>>, t: string): nat
  {
    if |ps| == 0 then 0 else Occ(pc, (ps[0], t)) + SumPairs(ps[1..], pc, t)
  }

  lemma {:induction false} SumPairsEmpty(ps: seq<string>, t: string)
    ensures SumPairs(ps, [], t) == 0
  {
    if |ps| > 0 {
      SumPairsEmpty(ps[1..], t);
    }
  }

  /** One more cell adds one to the sum exactly when it pairs a listed phase
      with `t`. */
  lemma {:induction false} SumPairsSnoc(ps: seq<string>, pc: seq<Option<(string, string)>>,
                                        e: Option<(string, string)>, t: string)
    requires NoDup(ps)
    ensures SumPairs(ps, pc + [e], t)
         == SumPairs(ps, pc, t) + (if e.Some? && e.value.1 == t && e.value.0 in ps then 1 else 0)
  {
    if |ps| > 0 {
      SumPairsSnoc(ps[1..], pc, e, t);
      assert (pc + [e])[..|pc|] == pc;
      assert ps == [ps[0]] + ps[1..];
    }
  }

  lemma {:induction false} SumPairsCoversColumn(ps: seq<string>, pc: seq<Option<(string, string)>>, t: string)
    requires NoDup(ps)
    requires forall i :: 0 <= i < |pc| && pc[i].Some? ==> pc[i].value.0 in ps
    ensures SumPairs(ps, pc, t) == OccSecond(pc, t)
  {
    if |pc| == 0 {
      SumPairsEmpty(ps, t);
    } else {
      var init := pc[..|pc| - 1];
      SumPairsCoversColumn(ps, init, t);
      assert pc == init + [pc[|pc| - 1]];
      SumPairsSnoc(ps, init, pc[|pc| - 1], t);
    }
  }

  lemma {:induction false} OccSecondIsOcc(pc: seq<Option<(string, string)>>, sc: seq<Option<string>>, t: string)
    requires |pc| == |sc|
    requires forall i :: 0 <= i < |pc| ==> sc[i] == (if pc[i].Some? then Some(pc[i].value.1) else None)
    ensures OccSecond(pc, t) == Occ(sc, t)
  {
    if |pc| > 0 {
      OccSecondIsOcc(pc[..|pc| - 1], sc[..|sc| - 1], t);
    }
  }

  lemma {:induction false} ColumnTotalOfCells(v: View, ps: seq<string>, ts: seq<string>, j: nat)
    requires j < |ts|
    ensures ColumnTotal(Cells(v, ps, ts), j) == SumPairs(ps, Column(v, PhaseType), ts[j])
  {
    if |ps| > 0 {
      ColumnTotalOfCells(v, ps[1..], ts, j);
      assert Cells(v, ps, ts)[1..] == Cells(v, ps[1..], ts);
    }
  }

  /** Each heat-map column adds up to the rows that have a phase and that
      type: no row the crosstab sees is lost or counted twice. */
  lemma CrossColumnTotals(v: View, j: nat)
    requires j < |PhaseTypeTable(v).types|
    ensures ColumnTotal(PhaseTypeTable(v).cells, j)
         == Occ(Column(v, SeenType), PhaseTypeTable(v).types[j])
  {
    var tab := PhaseTypeTable(v);
    var pc := Column(v, PhaseType);
    var t := tab.types[j];
    ColumnTotalOfCells(v, tab.phases, tab.types, j);
    forall i | 0 <= i < |pc| && pc[i].Some? ensures pc[i].value.0 in tab.phases {
      var sp := Column(v, SeenPhase);
      assert sp[i] == Some(pc[i].value.0);
      assert pc[i].value.0 in ValueSet(sp);
      assert pc[i].value.0 in SetOf(tab.phases);
    }
    SumPairsCoversColumn(tab.phases, pc, t);
    OccSecondIsOcc(pc, Column(v, SeenType), t);
  }

  /** Whenever the script does not raise, it draws the corrected table. */
  lemma PhaseTypeTableAgrees(v: View)
    ensures PhaseTypeTableAsWritten(v).Success? ==>
              PhaseTypeTableAsWritten(v).value == PhaseTypeTable(v)
  {
  }
}
