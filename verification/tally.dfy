/** Counting the values of one column of a view, as pandas' `value_counts`
    does: missing cells are dropped, one entry per distinct value, entries
    sorted by count, largest first, and `head(n)` keeps the first n. */
module Tally {
  import opened Wrappers

  /** A count table: (value, count) pairs. */
  type Table<K> = seq<(K, nat)>

  /** Number of cells of `col` that hold the value `k`. */
  function Occ<K(==)>(col: seq<Option<K>>, k: K): nat
  {
    if |col| == 0 then 0
    else Occ(col[..|col| - 1], k) + (if col[|col| - 1] == Some(k) then 1 else 0)
  }

  /** Number of cells of `col` that hold a value of `keys`. */
  function OccIn<K(==)>(col: seq<Option<K>>, keys: set<K>): nat
  {
    if |col| == 0 then 0
    else
      var last := col[|col| - 1];
      OccIn(col[..|col| - 1], keys) + (if last.Some? && last.value in keys then 1 else 0)
  }

  /** Number of cells of `col` that are not missing. */
  function NonNull<K>(col: seq<Option<K>>): nat
  {
    if |col| == 0 then 0
    else NonNull(col[..|col| - 1]) + (if col[|col| - 1].Some? then 1 else 0)
  }

  /** The distinct values present in `col`. */
  function ValueSet<K>(col: seq<Option<K>>): set<K>
  {
    set c | c in col && c.Some? :: c.value
  }

  /** The elements of a sequence, as a set. */
  function SetOf<K>(s: seq<K>): set<K>
  {
    set x | x in s
  }

  predicate NoDup<K(==)>(s: seq<K>)
  {
    forall i, j :: 0 <= i < j < |s| ==> s[i] != s[j]
  }

  /** The values listed in a table. */
  function KeySet<K>(t: Table<K>): set<K>
  {
    set e | e in t :: e.0
  }

  /** The values of a table, in table order. */
  function Keys<K>(t: Table<K>): (ks: seq<K>)
    ensures |ks| == |t|
    ensures forall i :: 0 <= i < |t| ==> ks[i] == t[i].0
  {
    seq(|t|, i requires 0 <= i < |t| => t[i].0)
  }

  predicate DistinctKeys<K(==)>(t: Table<K>)
  {
    forall i, j :: 0 <= i < j < |t| ==> t[i].0 != t[j].0
  }

  /** Counts never grow along the table. */
  predicate NonIncreasing<K>(t: Table<K>)
  {
    forall i, j :: 0 <= i < j < |t| ==> t[j].1 <= t[i].1
  }

  /** Every entry's count is the number of occurrences of its value. */
  predicate CountsMatch<K(==)>(col: seq<Option<K>>, t: Table<K>)
  {
    forall i :: 0 <= i < |t| ==> t[i].1 == Occ(col, t[i].0)
  }

  /** Sum of the counts of a table. */
  function Total<K>(t: Table<K>): nat
  {
    if |t| == 0 then 0 else t[0].1 + Total(t[1..])
  }

  /** A full value-count table of `col`, whatever order ties take. */
  predicate IsValueCounts<K(==)>(col: seq<Option<K>>, t: Table<K>)
  {
    && DistinctKeys(t)
    && CountsMatch(col, t)
    && NonIncreasing(t)
    && KeySet(t) == ValueSet(col)
  }

  /** A table that `value_counts().head(n)` may return for `col`: the n most
      frequent values (fewer when fewer distinct values exist), largest count
      first; a value left out occurs no more often than any value kept. */
  predicate IsTopN<K(==)>(col: seq<Option<K>>, n: nat, t: Table<K>)
  {
    && |t| == (if n < |ValueSet(col)| then n else |ValueSet(col)|)
    && DistinctKeys(t)
    && CountsMatch(col, t)
    && NonIncreasing(t)
    && KeySet(t) <= ValueSet(col)
    && (forall k :: k in ValueSet(col) && k !in KeySet(t) ==>
          forall i :: 0 <= i < |t| ==> Occ(col, k) <= t[i].1)
  }

  lemma {:induction false} OccPositive<K>(col: seq<Option<K>>, k: K)
    ensures Occ(col, k) > 0 <==> Some(k) in col
  {
    if |col| > 0 {
      var init := col[..|col| - 1];
      OccPositive(init, k);
      assert col == init + [col[|col| - 1]];
    }
  }

  lemma {:induction false} OccInAdd<K>(col: seq<Option<K>>, keys: set<K>, k: K)
    requires k !in keys
    ensures OccIn(col, keys + {k}) == OccIn(col, keys) + Occ(col, k)
  {
    if |col| > 0 {
      OccInAdd(col[..|col| - 1], keys, k);
    }
  }

  lemma {:induction false} OccInNone<K>(col: seq<Option<K>>)
    ensures OccIn(col, {}) == 0
  {
    if |col| > 0 {
      OccInNone(col[..|col| - 1]);
    }
  }

  /** When every value of `col` lies in `keys`, counting `keys` counts every
      non-missing cell. */
  lemma {:induction false} OccInCovering<K>(col: seq<Option<K>>, keys: set<K>)
    requires forall i :: 0 <= i < |col| && col[i].Some? ==> col[i].value in keys
    ensures OccIn(col, keys) == NonNull(col)
  {
    if |col| > 0 {
      OccInCovering(col[..|col| - 1], keys);
    }
  }

  lemma {:induction false} OccInAtMostNonNull<K>(col: seq<Option<K>>, keys: set<K>)
    ensures OccIn(col, keys) <= NonNull(col)
  {
    if |col| > 0 {
      OccInAtMostNonNull(col[..|col| - 1], keys);
    }
  }

  lemma {:induction false} NonNullAtMostLength<K>(col: seq<Option<K>>)
    ensures NonNull(col) <= |col|
  {
    if |col| > 0 {
      NonNullAtMostLength(col[..|col| - 1]);
    }
  }

  /** The pairs (k, count of k) for the keys `ks`, in the order of `ks`. */
  function Pairs<K(==)>(ks: seq<K>, col: seq<Option<K>>): (t: Table<K>)
    ensures |t| == |ks|
    ensures forall i :: 0 <= i < |t| ==> t[i].0 == ks[i]
    ensures CountsMatch(col, t)
  {
    if |ks| == 0 then []
    else [(ks[0], Occ(col, ks[0]))] + Pairs(ks[1..], col)
  }

  /** Summing the counts of distinct keys counts the cells holding any of them. */
  lemma {:induction false} TotalOfPairs<K>(ks: seq<K>, col: seq<Option<K>>)
    requires NoDup(ks)
    ensures Total(Pairs(ks, col)) == OccIn(col, SetOf(ks))
  {
    if |ks| == 0 {
      assert SetOf(ks) == {};
      OccInNone(col);
    } else {
      var rest := ks[1..];
      TotalOfPairs(rest, col);
      assert SetOf(ks) == SetOf(rest) + {ks[0]};
      OccInAdd(col, SetOf(rest), ks[0]);
    }
  }

  /** The distinct values of `col` in order of first occurrence (the order
      in which pandas' hash table meets them). */
  function Distinct<K(==)>(col: seq<Option<K>>): (d: seq<K>)
    ensures NoDup(d)
    ensures SetOf(d) == ValueSet(col)
  {
    if |col| == 0 then []
    else
      var init := col[..|col| - 1];
      var last := col[|col| - 1];
      assert col == init + [last];
      assert ValueSet(col) == ValueSet(init) + (if last.Some? then {last.value} else {});
      var d := Distinct(init);
      if last.Some? && last.value !in d then
        assert SetOf(d + [last.value]) == SetOf(d) + {last.value};
        d + [last.value]
      else d
  }

  lemma {:induction false} NoDupCard<K>(s: seq<K>)
    requires NoDup(s)
    ensures |SetOf(s)| == |s|
  {
    if |s| > 0 {
      NoDupCard(s[1..]);
      assert SetOf(s) == SetOf(s[1..]) + {s[0]};
      assert s[0] !in SetOf(s[1..]);
    }
  }

  /** Places `p` before the first entry whose count is not larger, so `p`
      lands in front of the entries of equal count already in `t`. `SortDesc`
      inserts the entries from the back, so of two entries with equal count
      the earlier one ends up in front. */
  function Insert<K(==)>(p: (K, nat), t: Table<K>): (r: Table<K>)
    requires NonIncreasing(t)
    ensures NonIncreasing(r)
    ensures multiset(r) == multiset(t) + multiset{p}
  {
    if |t| == 0 then [p]
    else if t[0].1 <= p.1 then [p] + t
    else
      var rest := Insert(p, t[1..]);
      assert t == [t[0]] + t[1..];
      forall j | 0 <= j < |rest| ensures rest[j].1 <= t[0].1 {
        assert rest[j] in multiset(rest);
      }
      [t[0]] + rest
  }

  lemma {:induction false} InsertTotal<K>(p: (K, nat), t: Table<K>)
    requires NonIncreasing(t)
    ensures Total(Insert(p, t)) == Total(t) + p.1
  {
    if |t| > 0 && t[0].1 > p.1 {
      InsertTotal(p, t[1..]);
      assert Insert(p, t)[1..] == Insert(p, t[1..]);
    }
  }

  lemma {:induction false} InsertDistinct<K>(p: (K, nat), t: Table<K>)
    requires NonIncreasing(t) && DistinctKeys(t)
    requires p.0 !in KeySet(t)
    ensures DistinctKeys(Insert(p, t))
  {
    var r := Insert(p, t);
    if |t| > 0 && t[0].1 > p.1 {
      assert t == [t[0]] + t[1..];
      InsertDistinct(p, t[1..]);
      var rest := Insert(p, t[1..]);
      forall j | 0 <= j < |rest| ensures rest[j].0 != t[0].0 {
        assert rest[j] in multiset(rest);
      }
    } else if |t| > 0 {
      forall j | 0 <= j < |t| ensures t[j].0 != p.0 {
        assert t[j] in t;
      }
    }
  }

  /** Sorts a table by count, largest first, keeping the earlier of two
      entries of equal count in front. */
  function SortDesc<K(==)>(t: Table<K>): (r: Table<K>)
    ensures NonIncreasing(r)
    ensures multiset(r) == multiset(t)
  {
    if |t| == 0 then []
    else
      assert t == [t[0]] + t[1..];
      Insert(t[0], SortDesc(t[1..]))
  }

  lemma {:induction false} SortDescTotal<K>(t: Table<K>)
    ensures Total(SortDesc(t)) == Total(t)
  {
    if |t| > 0 {
      SortDescTotal(t[1..]);
      InsertTotal(t[0], SortDesc(t[1..]));
    }
  }

  lemma {:induction false} SortDescDistinct<K>(t: Table<K>)
    requires DistinctKeys(t)
    ensures DistinctKeys(SortDesc(t))
  {
    if |t| > 0 {
      var s := SortDesc(t[1..]);
      SortDescDistinct(t[1..]);
      assert t == [t[0]] + t[1..];
      assert t[0].0 !in KeySet(s) by {
        forall e | e in s ensures e.0 != t[0].0 {
          assert e in multiset(s);
          assert e in t[1..];
        }
      }
      InsertDistinct(t[0], s);
    }
  }

  /** A permutation lists the same entries, hence the same values. */
  lemma SameKeys<K>(a: Table<K>, b: Table<K>)
    requires multiset(a) == multiset(b)
    ensures KeySet(a) == KeySet(b)
  {
    forall e ensures e in a <==> e in b {
      assert e in a <==> e in multiset(a);
      assert e in b <==> e in multiset(b);
    }
  }

  lemma PairsKeySet<K>(ks: seq<K>, col: seq<Option<K>>)
    ensures KeySet(Pairs(ks, col)) == SetOf(ks)
  {
    var p := Pairs(ks, col);
    forall k | k in SetOf(ks) ensures k in KeySet(p) {
      var i :| 0 <= i < |ks| && ks[i] == k;
      assert p[i] in p;
    }
  }

  lemma SortDescCounts<K>(col: seq<Option<K>>, t: Table<K>)
    requires CountsMatch(col, t)
    ensures CountsMatch(col, SortDesc(t))
    ensures |SortDesc(t)| == |t|
  {
    var r := SortDesc(t);
    forall i | 0 <= i < |r| ensures r[i].1 == Occ(col, r[i].0) {
      assert r[i] in multiset(t);
    }
    assert |multiset(r)| == |multiset(t)|;
  }

  /** `value_counts()` of a column. */
  function ValueCounts<K(==)>(col: seq<Option<K>>): (t: Table<K>)
    ensures IsValueCounts(col, t)
    ensures |t| == |ValueSet(col)|
    ensures Total(t) == NonNull(col)
  {
    var d := Distinct(col);
    var p := Pairs(d, col);
    var t := SortDesc(p);
    SortDescDistinct(p);
    SortDescTotal(p);
    SortDescCounts(col, p);
    SameKeys(t, p);
    PairsKeySet(d, col);
    NoDupCard(d);
    TotalOfPairs(d, col);
    OccInCovering(col, SetOf(d));
    t
  }

  /** `head(n)`: the first n entries, or all of them when there are fewer. */
  function Head<K>(t: Table<K>, n: nat): (r: Table<K>)
    ensures |r| == (if n < |t| then n else |t|)
    ensures forall i :: 0 <= i < |r| ==> r[i] == t[i]
  {
    if n < |t| then t[..n] else t
  }

  /** `value_counts().head(n)` of a column. */
  function TopN<K(==)>(col: seq<Option<K>>, n: nat): (r: Table<K>)
    ensures IsTopN(col, n, r)
  {
    var t := ValueCounts(col);
    var r := Head(t, n);
    assert KeySet(r) <= KeySet(t) by {
      forall e | e in r ensures e in t {
        var i :| 0 <= i < |r| && r[i] == e;
        assert t[i] == e;
      }
    }
    forall k | k in ValueSet(col) && k !in KeySet(r)
      ensures forall i :: 0 <= i < |r| ==> Occ(col, k) <= r[i].1
    {
      assert k in KeySet(t);
      var e :| e in t && e.0 == k;
      var j :| 0 <= j < |t| && t[j] == e;
    }
    r
  }
}
