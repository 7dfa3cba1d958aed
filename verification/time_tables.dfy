/** The two charts of the temporal tab built from counts: accidents per day
    of the week (reindexed to a fixed week order, absent days filled with
    zero) and accidents per hour of the day (only hours that occur, in
    ascending order). */
module TimeTables {
  import opened Wrappers
  import opened Records
  import opened Tally

  /** The week as the chart orders it, Sunday first, spelled as in the data. */
  const WeekOrder: seq<string> :=
    ["domingo", "segunda-feira", "terça-feira", "quarta-feira", "quinta-feira",
     "sexta-feira", "sábado"]

  lemma WeekOrderNoDup()
    ensures NoDup(WeekOrder)
  {
  }

  /** `value_counts().reindex(WeekOrder).fillna(0)` of `dia_semana`. */
  function DayCounts(v: View): (t: Table<string>)
    ensures |t| == |WeekOrder|
    ensures forall i :: 0 <= i < |t| ==> t[i].0 == WeekOrder[i]
    ensures CountsMatch(Column(v, DiaSemanaOf), t)
    ensures forall i :: 0 <= i < |t| ==>
              (t[i].1 == 0 <==> Some(WeekOrder[i]) !in Column(v, DiaSemanaOf))
  {
    var col := Column(v, DiaSemanaOf);
    var t := Pairs(WeekOrder, col);
    forall i | 0 <= i < |t|
      ensures t[i].1 == 0 <==> Some(WeekOrder[i]) !in col
    {
      OccPositive(col, WeekOrder[i]);
    }
    t
  }

  /** The seven counts add up to the rows whose day is spelled as one of the
      seven names; other spellings and missing cells are dropped. */
  lemma DayCountsTotal(v: View)
    ensures Total(DayCounts(v)) == OccIn(Column(v, DiaSemanaOf), SetOf(WeekOrder))
    ensures Total(DayCounts(v)) <= |v|
  {
    var col := Column(v, DiaSemanaOf);
    WeekOrderNoDup();
    TotalOfPairs(WeekOrder, col);
    OccInAtMostNonNull(col, SetOf(WeekOrder));
    NonNullAtMostLength(col);
  }

  /** Strictly increasing hours. */
  predicate Ascending(t: Table<Hour>)
  {
    forall i, j :: 0 <= i < j < |t| ==> t[i].0 < t[j].0
  }

  /** The hours from `h` on, as a set. */
  function HoursFrom(h: int): (s: set<Hour>)
    requires 0 <= h <= 24
    ensures forall k: Hour :: k in s <==> h <= k
    decreases 24 - h
  {
    if h == 24 then {} else {h as Hour} + HoursFrom(h + 1)
  }

  /** The hours `h..23` that occur in `col`, ascending, with their counts. */
  function HourCountsFrom(col: seq<Option<Hour>>, h: int): (t: Table<Hour>)
    requires 0 <= h <= 24
    ensures forall i :: 0 <= i < |t| ==> h <= t[i].0
    ensures Ascending(t)
    ensures CountsMatch(col, t)
    ensures forall i :: 0 <= i < |t| ==> t[i].1 > 0
    ensures KeySet(t) == ValueSet(col) * HoursFrom(h)
    decreases 24 - h
  {
    if h == 24 then
      []
    else
      var k := h as Hour;
      var rest := HourCountsFrom(col, h + 1);
      assert HoursFrom(h) == HoursFrom(h + 1) + {k};
      OccPositive(col, k);
      assert k in ValueSet(col) <==> Some(k) in col;
      if Occ(col, k) > 0 then
        assert KeySet([(k, Occ(col, k))] + rest) == KeySet(rest) + {k};
        [(k, Occ(col, k))] + rest
      else rest
  }

  lemma {:induction false} HourCountsFromTotal(col: seq<Option<Hour>>, h: int)
    requires 0 <= h <= 24
    ensures Total(HourCountsFrom(col, h)) == OccIn(col, HoursFrom(h))
    decreases 24 - h
  {
    if h == 24 {
      OccInNone(col);
    } else {
      var k := h as Hour;
      HourCountsFromTotal(col, h + 1);
      assert HoursFrom(h) == HoursFrom(h + 1) + {k};
      OccInAdd(col, HoursFrom(h + 1), k);
      if Occ(col, k) > 0 {
        var rest := HourCountsFrom(col, h + 1);
        assert ([(k, Occ(col, k))] + rest)[1..] == rest;
      }
    }
  }

  /** `value_counts().sort_index()` of the parsed hour: exactly the hours that
      occur, ascending, with no zero-filled slots. */
  function HourCounts(v: View): (t: Table<Hour>)
    ensures Ascending(t)
    ensures CountsMatch(Column(v, HoraOf), t)
    ensures forall i :: 0 <= i < |t| ==> t[i].1 > 0
    ensures KeySet(t) == ValueSet(Column(v, HoraOf))
    ensures Total(t) == NonNull(Column(v, HoraOf))
  {
    var col := Column(v, HoraOf);
    var t := HourCountsFrom(col, 0);
    assert ValueSet(col) <= HoursFrom(0);
    HourCountsFromTotal(col, 0);
    OccInCovering(col, HoursFrom(0));
    t
  }
}
