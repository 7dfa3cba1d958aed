/** Age bands of the victims and of the vehicles, as `pd.cut` with its
    defaults computes them: interval i is (edges[i], edges[i+1]], closed on
    the right, and a value at or below the lowest edge, or above the highest,
    gets no band. The band tables are `value_counts()` of a categorical
    column, so they list every band, including empty ones, largest first. */
module Binning {
  import opened Wrappers
  import opened Records
  import opened Tally

  const AgeEdges: seq<int> := [0, 18, 25, 35, 45, 60, 100]
  const AgeLabels: seq<string> := ["0-18", "19-25", "26-35", "36-45", "46-60", "60+"]

  const VehicleAgeEdges: seq<int> := [0, 5, 10, 15, 20, 30, 50]
  const VehicleAgeLabels: seq<string> :=
    ["0-5 anos", "6-10 anos", "11-15 anos", "16-20 anos", "21-30 anos", "31+ anos"]

  /** The range check applied to vehicle ages before binning. */
  const MinVehicleAge: int := 0
  const MaxVehicleAge: int := 50

  predicate Increasing(edges: seq<int>)
  {
    forall i, j :: 0 <= i < j < |edges| ==> edges[i] < edges[j]
  }

  /** Bin edges as `pd.cut` accepts them, with one label per interval. */
  predicate ValidBins(edges: seq<int>, labels: seq<string>)
  {
    |edges| >= 2 && Increasing(edges) && |labels| == |edges| - 1 && NoDup(labels)
  }

  /** The first interval from `i` on whose upper edge is at least `x`. */
  function FindBand(edges: seq<int>, x: int, i: nat): (b: nat)
    requires i < |edges| - 1 && edges[i] < x <= edges[|edges| - 1]
    ensures i <= b < |edges| - 1
    ensures edges[b] < x <= edges[b + 1]
    decreases |edges| - i
  {
    if x <= edges[i + 1] then i else FindBand(edges, x, i + 1)
  }

  /** The interval `pd.cut(x, bins=edges)` puts `x` in, if any. */
  function Cut(edges: seq<int>, x: int): (b: Option<nat>)
    requires |edges| >= 2 && Increasing(edges)
    ensures b.Some? <==> edges[0] < x <= edges[|edges| - 1]
    ensures b.Some? ==> b.value < |edges| - 1 && edges[b.value] < x <= edges[b.value + 1]
  {
    if edges[0] < x <= edges[|edges| - 1] then Some(FindBand(edges, x, 0)) else None
  }

  /** The intervals do not overlap: a value lies in one interval only, and
      `Cut` finds that one. */
  lemma CutUnique(edges: seq<int>, x: int, j: nat)
    requires |edges| >= 2 && Increasing(edges)
    requires j < |edges| - 1 && edges[j] < x <= edges[j + 1]
    ensures Cut(edges, x) == Some(j)
  {
  }

  /** A value on an edge goes to the interval below it; the next integer
      goes to the interval above; the lowest edge itself gets no band. */
  lemma BoundaryGoesLower(edges: seq<int>, j: nat)
    requires |edges| >= 2 && Increasing(edges)
    requires j < |edges| - 1
    ensures Cut(edges, edges[j + 1]) == Some(j)
    ensures Cut(edges, edges[j] + 1) == Some(j)
    ensures Cut(edges, edges[0]) == None
  {
    assert edges[j] < edges[j + 1];
    CutUnique(edges, edges[j + 1], j);
    CutUnique(edges, edges[j] + 1, j);
  }

  /** The band label of one cell; a missing cell has no band. */
  function Band(edges: seq<int>, labels: seq<string>, x: Option<int>): (l: Option<string>)
    requires ValidBins(edges, labels)
    ensures l.Some? <==> x.Some? && edges[0] < x.value <= edges[|edges| - 1]
    ensures forall j :: 0 <= j < |labels| ==>
              (l == Some(labels[j]) <==> x.Some? && edges[j] < x.value <= edges[j + 1])
  {
    if x.None? then None
    else
      match Cut(edges, x.value)
      case None => None
      case Some(b) =>
        forall j | 0 <= j < |labels| && edges[j] < x.value <= edges[j + 1] ensures j == b {
          CutUnique(edges, x.value, j);
        }
        Some(labels[b])
  }

  /** The categorical column `pd.cut` produces, cell by cell. */
  function Bands(edges: seq<int>, labels: seq<string>, xs: seq<Option<int>>): (c: seq<Option<string>>)
    requires ValidBins(edges, labels)
    ensures |c| == |xs|
    ensures forall i :: 0 <= i < |xs| ==> c[i] == Band(edges, labels, xs[i])
  {
    seq(|xs|, i requires 0 <= i < |xs| => Band(edges, labels, xs[i]))
  }

  /** Number of cells holding a value in (lo, hi]. */
  function CountIn(xs: seq<Option<int>>, lo: int, hi: int): nat
  {
    if |xs| == 0 then 0
    else
      var last := xs[|xs| - 1];
      CountIn(xs[..|xs| - 1], lo, hi) + (if last.Some? && lo < last.value <= hi then 1 else 0)
  }

  lemma {:induction false} BandsNonNull(edges: seq<int>, labels: seq<string>, xs: seq<Option<int>>)
    requires ValidBins(edges, labels)
    ensures NonNull(Bands(edges, labels, xs)) == CountIn(xs, edges[0], edges[|edges| - 1])
  {
    if |xs| > 0 {
      var init := xs[..|xs| - 1];
      BandsNonNull(edges, labels, init);
      assert Bands(edges, labels, xs)[..|xs| - 1] == Bands(edges, labels, init);
    }
  }

  /** Band j counts exactly the values in (edges[j], edges[j+1]]. */
  lemma {:induction false} BandCountIsCountIn(edges: seq<int>, labels: seq<string>, xs: seq<Option<int>>, j: nat)
    requires ValidBins(edges, labels) && j < |labels|
    ensures Occ(Bands(edges, labels, xs), labels[j]) == CountIn(xs, edges[j], edges[j + 1])
  {
    if |xs| > 0 {
      var init := xs[..|xs| - 1];
      BandCountIsCountIn(edges, labels, init, j);
      assert Bands(edges, labels, xs)[..|xs| - 1] == Bands(edges, labels, init);
    }
  }

  /** A band table whose label j counts the values of `xs` in
      (edges[j], edges[j+1]] gives that count for each of its entries. */
  lemma CountsByInterval(edges: seq<int>, labels: seq<string>, xs: seq<Option<int>>,
                         ys: seq<Option<int>>, t: Table<string>)
    requires ValidBins(edges, labels)
    requires CountsMatch(Bands(edges, labels, ys), t)
    requires forall j :: 0 <= j < |labels| ==>
               Occ(Bands(edges, labels, ys), labels[j]) == CountIn(xs, edges[j], edges[j + 1])
    ensures forall i, j :: 0 <= i < |t| && 0 <= j < |labels| && t[i].0 == labels[j] ==>
              t[i].1 == CountIn(xs, edges[j], edges[j + 1])
  {
  }

  /** `pd.cut(xs, edges, labels).value_counts()`: every label once, with the
      number of values in its interval, largest count first. */
  function BandCounts(edges: seq<int>, labels: seq<string>, xs: seq<Option<int>>): (t: Table<string>)
    requires ValidBins(edges, labels)
    ensures |t| == |labels|
    ensures KeySet(t) == SetOf(labels)
    ensures DistinctKeys(t)
    ensures NonIncreasing(t)
    ensures CountsMatch(Bands(edges, labels, xs), t)
    ensures Total(t) == CountIn(xs, edges[0], edges[|edges| - 1])
  {
    var col := Bands(edges, labels, xs);
    var p := Pairs(labels, col);
    var t := SortDesc(p);
    SortDescDistinct(p);
    SortDescTotal(p);
    SortDescCounts(col, p);
    SameKeys(t, p);
    PairsKeySet(labels, col);
    TotalOfPairs(labels, col);
    OccInCovering(col, SetOf(labels));
    BandsNonNull(edges, labels, xs);
    t
  }

  lemma AgeBinsValid()
    ensures ValidBins(AgeEdges, AgeLabels)
  {
  }

  lemma VehicleAgeBinsValid()
    ensures ValidBins(VehicleAgeEdges, VehicleAgeLabels)
  {
  }

  /** The victims' age bands of a view. */
  function AgeTable(v: View): (t: Table<string>)
    ensures |t| == |AgeLabels|
    ensures KeySet(t) == SetOf(AgeLabels)
    ensures NonIncreasing(t)
    ensures CountsMatch(Bands(AgeEdges, AgeLabels, Column(v, IdadeOf)), t)
    ensures forall i, j :: 0 <= i < |t| && 0 <= j < |AgeLabels| && t[i].0 == AgeLabels[j] ==>
              t[i].1 == CountIn(Column(v, IdadeOf), AgeEdges[j], AgeEdges[j + 1])
    ensures Total(t) == CountIn(Column(v, IdadeOf), 0, 100)
  {
    AgeBinsValid();
    var xs := Column(v, IdadeOf);
    var t := BandCounts(AgeEdges, AgeLabels, xs);
    forall j | 0 <= j < |AgeLabels|
      ensures Occ(Bands(AgeEdges, AgeLabels, xs), AgeLabels[j]) == CountIn(xs, AgeEdges[j], AgeEdges[j + 1])
    {
      BandCountIsCountIn(AgeEdges, AgeLabels, xs, j);
    }
    CountsByInterval(AgeEdges, AgeLabels, xs, xs, t);
    t
  }

  /** Where single ages land: 18 is the top of "0-18", 19 opens "19-25",
      0 and 101 get no band, 100 is still "60+". */
  lemma AgeBandExamples()
    ensures Band(AgeEdges, AgeLabels, Some(18)) == Some("0-18")
    ensures Band(AgeEdges, AgeLabels, Some(19)) == Some("19-25")
    ensures Band(AgeEdges, AgeLabels, Some(100)) == Some("60+")
    ensures Band(AgeEdges, AgeLabels, Some(0)) == None
    ensures Band(AgeEdges, AgeLabels, Some(101)) == None
  {
    AgeBinsValid();
    assert AgeEdges[0] < 18 <= AgeEdges[1];
    assert AgeEdges[1] < 19 <= AgeEdges[2];
    assert AgeEdges[5] < 100 <= AgeEdges[6];
  }

  /** `max()` of the year column: the latest year, skipping missing cells;
      None (NaN) when no year is present. */
  function MaxYear(v: View): (m: Option<int>)
    ensures m.None? <==> forall i :: 0 <= i < |v| ==> v[i].ano.None?
    ensures m.Some? ==> exists i :: 0 <= i < |v| && v[i].ano == m
    ensures m.Some? ==> forall i :: 0 <= i < |v| && v[i].ano.Some? ==> v[i].ano.value <= m.value
  {
    if |v| == 0 then None
    else
      var init := v[..|v| - 1];
      var last := v[|v| - 1].ano;
      var m := MaxYear(init);
      assert forall i :: 0 <= i < |init| ==> init[i] == v[i];
      if last.None? then m
      else if m.None? || m.value <= last.value then last
      else m
  }

  /** `anos_max - ano_fabricacao_veiculo` for one row; NaN on either side
      gives a missing age. */
  function VehicleAge(maxYear: Option<int>, r: Record): Option<int>
  {
    if maxYear.Some? && r.anoFabricacaoVeiculo.Some?
    then Some(maxYear.value - r.anoFabricacaoVeiculo.value)
    else None
  }

  /** The vehicle age of every row of the view. */
  function VehicleAges(v: View): (ages: seq<Option<int>>)
    ensures |ages| == |v|
    ensures forall i :: 0 <= i < |v| ==> ages[i] == VehicleAge(MaxYear(v), v[i])
  {
    var m := MaxYear(v);
    seq(|v|, i requires 0 <= i < |v| => VehicleAge(m, v[i]))
  }

  /** The ages of the rows kept by `(idade >= lo) & (idade <= hi)`; missing
      ages fail both comparisons. */
  function Within(xs: seq<Option<int>>, lo: int, hi: int): (ys: seq<Option<int>>)
    ensures forall i :: 0 <= i < |ys| ==> ys[i].Some? && lo <= ys[i].value <= hi
    ensures forall k :: multiset(ys)[k] == (if k.Some? && lo <= k.value <= hi then multiset(xs)[k] else 0)
  {
    if |xs| == 0 then []
    else
      var xs0 := xs[..|xs| - 1];
      var init := Within(xs0, lo, hi);
      var last := xs[|xs| - 1];
      assert xs == xs0 + [last];
      assert multiset(xs) == multiset(xs0) + multiset{last};
      if last.Some? && lo <= last.value <= hi then
        assert multiset(init + [last]) == multiset(init) + multiset{last};
        init + [last]
      else init
  }

  /** The range check keeps one cell per value in [lo, hi] and, for any
      interval (a, b] inside [lo, hi], every value of the interval. */
  lemma {:induction false} WithinCounts(xs: seq<Option<int>>, lo: int, hi: int, a: int, b: int)
    requires lo <= a && b <= hi
    ensures |Within(xs, lo, hi)| == CountIn(xs, lo - 1, hi)
    ensures CountIn(Within(xs, lo, hi), a, b) == CountIn(xs, a, b)
  {
    if |xs| > 0 {
      var xs0 := xs[..|xs| - 1];
      var last := xs[|xs| - 1];
      WithinCounts(xs0, lo, hi, a, b);
      var init := Within(xs0, lo, hi);
      if last.Some? && lo <= last.value <= hi {
        assert Within(xs, lo, hi) == init + [last];
        assert (init + [last])[..|init|] == init;
      } else {
        assert Within(xs, lo, hi) == init;
      }
    }
  }

  /** After the range check, vehicle-age band j counts exactly the ages in
      (edges[j], edges[j+1]]. */
  lemma VehicleBandCount(ages: seq<Option<int>>, j: nat)
    requires j < |VehicleAgeLabels|
    ensures ValidBins(VehicleAgeEdges, VehicleAgeLabels)
    ensures Occ(Bands(VehicleAgeEdges, VehicleAgeLabels, Within(ages, MinVehicleAge, MaxVehicleAge)),
                VehicleAgeLabels[j])
         == CountIn(ages, VehicleAgeEdges[j], VehicleAgeEdges[j + 1])
  {
    VehicleAgeBinsValid();
    BandCountIsCountIn(VehicleAgeEdges, VehicleAgeLabels, Within(ages, MinVehicleAge, MaxVehicleAge), j);
    WithinCounts(ages, MinVehicleAge, MaxVehicleAge, VehicleAgeEdges[j], VehicleAgeEdges[j + 1]);
  }

  /** The vehicle-age band table: ages outside 0..50 are dropped first, then
      the rest are binned; an age of 0 passes the check but lands in no band. */
  function VehicleAgeTable(v: View): (t: Table<string>)
    ensures |t| == |VehicleAgeLabels|
    ensures KeySet(t) == SetOf(VehicleAgeLabels)
    ensures NonIncreasing(t)
    ensures CountsMatch(Bands(VehicleAgeEdges, VehicleAgeLabels,
                              Within(VehicleAges(v), MinVehicleAge, MaxVehicleAge)), t)
    ensures forall i, j :: 0 <= i < |t| && 0 <= j < |VehicleAgeLabels| && t[i].0 == VehicleAgeLabels[j] ==>
              t[i].1 == CountIn(VehicleAges(v), VehicleAgeEdges[j], VehicleAgeEdges[j + 1])
    ensures Total(t) == CountIn(VehicleAges(v), 0, 50)
  {
    VehicleAgeBinsValid();
    var ages := VehicleAges(v);
    var kept := Within(ages, MinVehicleAge, MaxVehicleAge);
    var t := BandCounts(VehicleAgeEdges, VehicleAgeLabels, kept);
    WithinCounts(ages, MinVehicleAge, MaxVehicleAge, 0, 50);
    VehicleCountsByInterval(ages, t);
    t
  }

  /** A table counting the vehicle-age bands of the ages kept by the range
      check gives, for each band, the number of ages in its interval. */
  lemma VehicleCountsByInterval(ages: seq<Option<int>>, t: Table<string>)
    requires CountsMatch(Bands(VehicleAgeEdges, VehicleAgeLabels,
                               Within(ages, MinVehicleAge, MaxVehicleAge)), t)
    ensures forall i, j :: 0 <= i < |t| && 0 <= j < |VehicleAgeLabels| && t[i].0 == VehicleAgeLabels[j] ==>
              t[i].1 == CountIn(ages, VehicleAgeEdges[j], VehicleAgeEdges[j + 1])
  {
    VehicleAgeBinsValid();
    var kept := Within(ages, MinVehicleAge, MaxVehicleAge);
    forall j | 0 <= j < |VehicleAgeLabels|
      ensures Occ(Bands(VehicleAgeEdges, VehicleAgeLabels, kept), VehicleAgeLabels[j])
           == CountIn(ages, VehicleAgeEdges[j], VehicleAgeEdges[j + 1])
    {
      VehicleBandCount(ages, j);
    }
    CountsByInterval(VehicleAgeEdges, VehicleAgeLabels, ages, kept, t);
  }

  /** Where single vehicle ages land: 5 is the top of "0-5 anos", 6 opens
      "6-10 anos", 50 is "31+ anos", and 0 gets no band. */
  lemma VehicleBandExamples()
    ensures Band(VehicleAgeEdges, VehicleAgeLabels, Some(5)) == Some("0-5 anos")
    ensures Band(VehicleAgeEdges, VehicleAgeLabels, Some(6)) == Some("6-10 anos")
    ensures Band(VehicleAgeEdges, VehicleAgeLabels, Some(50)) == Some("31+ anos")
    ensures Band(VehicleAgeEdges, VehicleAgeLabels, Some(0)) == None
  {
    VehicleAgeBinsValid();
    assert VehicleAgeEdges[0] < 5 <= VehicleAgeEdges[1];
    assert VehicleAgeEdges[1] < 6 <= VehicleAgeEdges[2];
    assert VehicleAgeEdges[5] < 50 <= VehicleAgeEdges[6];
  }
}
