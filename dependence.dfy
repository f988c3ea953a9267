/**
 * calculate_dependence_range of dashboard/app_utils/data.py: group the
 * partial-dependence samples by (latin_name, activity_type, feature) and give
 * each group the spread of its `average` column, max minus min.
 */
module Dependence {

  /** One row of the partial-dependence table. */
  datatype DependenceSample = DependenceSample(latinName: string, activityType: string, feature: string,
                                               value: real, average: real)

  /** The groupby key. */
  datatype GroupKey = GroupKey(latinName: string, activityType: string, feature: string)

  /** One row of the result; after reset_index the spread is still in a column named `average`. */
  datatype DependenceRange = DependenceRange(latinName: string, activityType: string, feature: string, average: real)

  function KeyOf(s: DependenceSample): GroupKey
  {
    GroupKey(s.latinName, s.activityType, s.feature)
  }

  function RangeKey(r: DependenceRange): GroupKey
  {
    GroupKey(r.latinName, r.activityType, r.feature)
  }

  /** The samples of a group are those whose key is `k`. */
  predicate InGroup(samples: seq<DependenceSample>, i: int, k: GroupKey)
  {
    0 <= i < |samples| && KeyOf(samples[i]) == k
  }

  /** Samples `hi` and `lo` of group `k` hold its largest and smallest average, `d` apart. */
  ghost predicate IsSpreadWitness(samples: seq<DependenceSample>, k: GroupKey, d: real, hi: int, lo: int)
  {
    InGroup(samples, hi, k) && InGroup(samples, lo, k) &&
    d == samples[hi].average - samples[lo].average &&
    forall i :: InGroup(samples, i, k) ==> samples[lo].average <= samples[i].average <= samples[hi].average
  }

  /** `d` is the max minus the min of the averages of group `k`. */
  ghost predicate IsGroupSpread(samples: seq<DependenceSample>, k: GroupKey, d: real)
  {
    exists hi, lo :: IsSpreadWitness(samples, k, d, hi, lo)
  }

  /** Series.max over a non-empty column. */
  function SeqMax(s: seq<real>): (m: real)
    requires |s| > 0
    ensures m in s
    ensures forall i :: 0 <= i < |s| ==> s[i] <= m
    decreases |s|
  {
    if |s| == 1 then s[0]
    else
      var rest := SeqMax(s[1..]);
      assert forall i :: 1 <= i < |s| ==> s[i] == s[1..][i - 1];
      if s[0] < rest then rest else s[0]
  }

  /** Series.min over a non-empty column. */
  function SeqMin(s: seq<real>): (m: real)
    requires |s| > 0
    ensures m in s
    ensures forall i :: 0 <= i < |s| ==> m <= s[i]
    decreases |s|
  {
    if |s| == 1 then s[0]
    else
      var rest := SeqMin(s[1..]);
      assert forall i :: 1 <= i < |s| ==> s[i] == s[1..][i - 1];
      if rest < s[0] then rest else s[0]
  }

  /** The `average` column of one group, in table order. */
  function GroupAverages(samples: seq<DependenceSample>, k: GroupKey): (avgs: seq<real>)
    ensures |avgs| > 0 <==> exists i :: InGroup(samples, i, k)
    decreases |samples|
  {
    if samples == [] then []
    else
      var rest := GroupAverages(samples[1..], k);
      assert forall i :: 1 <= i < |samples| ==> (InGroup(samples, i, k) <==> InGroup(samples[1..], i - 1, k));
      assert forall i :: 0 <= i < |samples| - 1 ==> (InGroup(samples[1..], i, k) <==> InGroup(samples, i + 1, k));
      if KeyOf(samples[0]) == k then
        assert InGroup(samples, 0, k);
        assert forall a :: a in rest ==> a in [samples[0].average] + rest;
        [samples[0].average] + rest
      else rest
  }

  /** Every entry of a group's column comes from a sample of that group: the one at index `i`. */
  lemma {:induction false} GroupAverageFromSample(samples: seq<DependenceSample>, k: GroupKey, p: nat)
    returns (i: nat)
    requires p < |GroupAverages(samples, k)|
    ensures InGroup(samples, i, k) && samples[i].average == GroupAverages(samples, k)[p]
    decreases |samples|
  {
    assert samples != [];
    if KeyOf(samples[0]) == k && p == 0 {
      i := 0;
    } else {
      var q := if KeyOf(samples[0]) == k then p - 1 else p;
      var j := GroupAverageFromSample(samples[1..], k, q);
      i := j + 1;
    }
  }

  /** Every sample of a group has its average in the group's column, at index `p`. */
  lemma {:induction false} SampleInGroupAverages(samples: seq<DependenceSample>, k: GroupKey, i: nat)
    returns (p: nat)
    requires InGroup(samples, i, k)
    ensures p < |GroupAverages(samples, k)| && GroupAverages(samples, k)[p] == samples[i].average
    decreases |samples|
  {
    if i == 0 {
      p := 0;
    } else {
      var q := SampleInGroupAverages(samples[1..], k, i - 1);
      p := if KeyOf(samples[0]) == k then q + 1 else q;
    }
  }

  /** The keys of the table, each once, in order of first appearance. */
  function DistinctKeys(samples: seq<DependenceSample>): (ks: seq<GroupKey>)
    ensures forall j, l :: 0 <= j < l < |ks| ==> ks[j] != ks[l]
    decreases |samples|
  {
    if samples == [] then []
    else
      var init := samples[..|samples| - 1];
      var ks := DistinctKeys(init);
      var k := KeyOf(samples[|samples| - 1]);
      if k in ks then ks
      else
        assert forall j :: 0 <= j < |ks| ==> (ks + [k])[j] == ks[j] && ks[j] != k;
        ks + [k]
  }

  /** The key of the sample at index `i` is listed by DistinctKeys, at index `j`. */
  lemma {:induction false} SampleKeyInDistinctKeys(samples: seq<DependenceSample>, i: nat) returns (j: nat)
    requires i < |samples|
    ensures j < |DistinctKeys(samples)| && DistinctKeys(samples)[j] == KeyOf(samples[i])
    decreases |samples|
  {
    var init := samples[..|samples| - 1];
    var ks := DistinctKeys(init);
    var k := KeyOf(samples[|samples| - 1]);
    if i < |init| {
      j := SampleKeyInDistinctKeys(init, i);
      assert init[i] == samples[i];
    } else if k in ks {
      j :| 0 <= j < |ks| && ks[j] == k;
    } else {
      j := |ks|;
    }
  }

  /** Every key DistinctKeys lists is the key of some sample: the one at index `i`. */
  lemma {:induction false} DistinctKeyFromSample(samples: seq<DependenceSample>, j: nat) returns (i: nat)
    requires j < |DistinctKeys(samples)|
    ensures InGroup(samples, i, DistinctKeys(samples)[j])
    decreases |samples|
  {
    var init := samples[..|samples| - 1];
    var ks := DistinctKeys(init);
    if j < |ks| {
      i := DistinctKeyFromSample(init, j);
      assert init[i] == samples[i];
    } else {
      i := |samples| - 1;
    }
  }

  /** max - min of a non-empty column. */
  function Spread(avgs: seq<real>): (d: real)
    requires |avgs| > 0
    ensures d >= 0.0
  {
    SeqMax(avgs) - SeqMin(avgs)
  }

  /** One result row per key, in the order of `ks`. */
  function RangesFor(samples: seq<DependenceSample>, ks: seq<GroupKey>): (r: seq<DependenceRange>)
    requires forall j :: 0 <= j < |ks| ==> |GroupAverages(samples, ks[j])| > 0
    ensures |r| == |ks|
    ensures forall j :: 0 <= j < |ks| ==> RangeKey(r[j]) == ks[j]
    ensures forall j :: 0 <= j < |ks| ==> r[j].average == Spread(GroupAverages(samples, ks[j]))
  {
    seq(|ks|, j requires 0 <= j < |ks| =>
      DependenceRange(ks[j].latinName, ks[j].activityType, ks[j].feature, Spread(GroupAverages(samples, ks[j]))))
  }

  /**
   * df.groupby([latin_name, activity_type, feature])["average"].apply(max - min).reset_index().
   * What it means is stated by DependenceRangeRows and DependenceRangeValues.
   */
  function CalculateDependenceRange(samples: seq<DependenceSample>): (r: seq<DependenceRange>)
    ensures samples == [] ==> r == []
  {
    var ks := DistinctKeys(samples);
    assert forall j :: 0 <= j < |ks| ==> |GroupAverages(samples, ks[j])| > 0 by {
      forall j | 0 <= j < |ks| ensures |GroupAverages(samples, ks[j])| > 0 {
        var i := DistinctKeyFromSample(samples, j);
      }
    }
    RangesFor(samples, ks)
  }

  /** The result's rows are the distinct keys of the table, in order. */
  lemma DependenceRangeKeys(samples: seq<DependenceSample>)
    ensures var r := CalculateDependenceRange(samples);
      |r| == |DistinctKeys(samples)| && forall j :: 0 <= j < |r| ==> RangeKey(r[j]) == DistinctKeys(samples)[j]
  {
  }

  /** No (latin_name, activity_type, feature) triple has two rows. */
  lemma DependenceRangeDistinct(samples: seq<DependenceSample>)
    ensures var r := CalculateDependenceRange(samples);
      forall j, l :: 0 <= j < l < |r| ==> RangeKey(r[j]) != RangeKey(r[l])
  {
    DependenceRangeKeys(samples);
  }

  /** Every row's triple is the triple of some sample: the row at index `j` comes from the sample at `i`. */
  lemma DependenceRangeRowFromSample(samples: seq<DependenceSample>, j: nat) returns (i: nat)
    requires j < |CalculateDependenceRange(samples)|
    ensures InGroup(samples, i, RangeKey(CalculateDependenceRange(samples)[j]))
  {
    DependenceRangeKeys(samples);
    i := DistinctKeyFromSample(samples, j);
  }

  /** Every sample's triple has a row: the sample at index `i` is summarised by the row at `j`. */
  lemma DependenceRangeSampleHasRow(samples: seq<DependenceSample>, i: nat) returns (j: nat)
    requires i < |samples|
    ensures j < |CalculateDependenceRange(samples)| && RangeKey(CalculateDependenceRange(samples)[j]) == KeyOf(samples[i])
  {
    DependenceRangeKeys(samples);
    j := SampleKeyInDistinctKeys(samples, i);
  }

  /**
   * Each row's value is the largest minus the smallest average of its group,
   * and so is never negative.
   */
  lemma DependenceRangeValues(samples: seq<DependenceSample>)
    ensures var r := CalculateDependenceRange(samples);
      forall j :: 0 <= j < |r| ==> r[j].average >= 0.0 && IsGroupSpread(samples, RangeKey(r[j]), r[j].average)
  {
    var ks := DistinctKeys(samples);
    var r := CalculateDependenceRange(samples);
    forall j | 0 <= j < |r| ensures r[j].average >= 0.0 && IsGroupSpread(samples, RangeKey(r[j]), r[j].average) {
      var i := DistinctKeyFromSample(samples, j);
      SpreadIsGroupSpread(samples, ks[j]);
    }
  }

  /** Spread of a group's averages is the difference between two of its samples that bound all the others. */
  lemma SpreadIsGroupSpread(samples: seq<DependenceSample>, k: GroupKey)
    requires |GroupAverages(samples, k)| > 0
    ensures IsGroupSpread(samples, k, Spread(GroupAverages(samples, k)))
  {
    var avgs := GroupAverages(samples, k);
    var ph :| 0 <= ph < |avgs| && avgs[ph] == SeqMax(avgs);
    var pl :| 0 <= pl < |avgs| && avgs[pl] == SeqMin(avgs);
    var hi := GroupAverageFromSample(samples, k, ph);
    var lo := GroupAverageFromSample(samples, k, pl);
    forall i | InGroup(samples, i, k)
      ensures samples[lo].average <= samples[i].average <= samples[hi].average
    {
      var p := SampleInGroupAverages(samples, k, i);
      assert SeqMin(avgs) <= avgs[p] <= SeqMax(avgs);
    }
    assert IsSpreadWitness(samples, k, Spread(avgs), hi, lo);
  }

  /** A group's spread is 0 exactly when all its averages are equal. */
  lemma {:induction false} SpreadZeroIffConstant(avgs: seq<real>)
    requires |avgs| > 0
    ensures Spread(avgs) == 0.0 <==> forall i, j :: 0 <= i < |avgs| && 0 <= j < |avgs| ==> avgs[i] == avgs[j]
  {
    var hi, lo := SeqMax(avgs), SeqMin(avgs);
    if hi == lo {
      forall i, j | 0 <= i < |avgs| && 0 <= j < |avgs| ensures avgs[i] == avgs[j] {
        assert lo <= avgs[i] <= hi && lo <= avgs[j] <= hi;
      }
    } else {
      var p :| 0 <= p < |avgs| && avgs[p] == hi;
      var q :| 0 <= q < |avgs| && avgs[q] == lo;
      assert avgs[p] != avgs[q];
    }
  }

  /**
   * A result row is 0 exactly when every sample of its group has the same
   * average; in particular a group of one sample gives 0.
   */
  lemma RangeZeroIffGroupConstant(samples: seq<DependenceSample>, j: nat)
    requires j < |CalculateDependenceRange(samples)|
    ensures var row := CalculateDependenceRange(samples)[j];
      row.average == 0.0 <==>
        forall a, b :: InGroup(samples, a, RangeKey(row)) && InGroup(samples, b, RangeKey(row)) ==>
          samples[a].average == samples[b].average
  {
    var row := CalculateDependenceRange(samples)[j];
    DependenceRangeValues(samples);
    var hi, lo :| IsSpreadWitness(samples, RangeKey(row), row.average, hi, lo);
    if row.average == 0.0 {
      forall a, b | InGroup(samples, a, RangeKey(row)) && InGroup(samples, b, RangeKey(row))
        ensures samples[a].average == samples[b].average
      {
        assert samples[lo].average <= samples[a].average <= samples[hi].average;
        assert samples[lo].average <= samples[b].average <= samples[hi].average;
      }
    }
  }

  /** The worked example: averages 0.1, 0.4 and 0.2 of one feature give an influence range of 0.3. */
  lemma WoodlandCoverExample()
    ensures var s := [
      DependenceSample("Myotis daubentonii", "Foraging", "woodland_cover", 0.0, 0.1),
      DependenceSample("Myotis daubentonii", "Foraging", "woodland_cover", 0.5, 0.4),
      DependenceSample("Myotis daubentonii", "Foraging", "woodland_cover", 1.0, 0.2)];
      CalculateDependenceRange(s) == [DependenceRange("Myotis daubentonii", "Foraging", "woodland_cover", 0.3)]
  {
    var s := [
      DependenceSample("Myotis daubentonii", "Foraging", "woodland_cover", 0.0, 0.1),
      DependenceSample("Myotis daubentonii", "Foraging", "woodland_cover", 0.5, 0.4),
      DependenceSample("Myotis daubentonii", "Foraging", "woodland_cover", 1.0, 0.2)];
    var k := KeyOf(s[0]);
    assert DistinctKeys(s[..1]) == [k];
    assert DistinctKeys(s[..2]) == [k] by { assert s[..2][..1] == s[..1]; }
    assert DistinctKeys(s) == [k] by { assert s[..2] == s[..|s| - 1]; }
    assert GroupAverages(s[2..], k) == [0.2];
    assert GroupAverages(s[1..], k) == [0.4, 0.2] by { assert s[1..][1..] == s[2..]; }
    assert GroupAverages(s, k) == [0.1, 0.4, 0.2];
    assert SeqMax([0.1, 0.4, 0.2]) == 0.4 by { assert [0.1, 0.4, 0.2][1..] == [0.4, 0.2]; assert [0.4, 0.2][1..] == [0.2]; }
    assert SeqMin([0.1, 0.4, 0.2]) == 0.1 by { assert [0.1, 0.4, 0.2][1..] == [0.4, 0.2]; assert [0.4, 0.2][1..] == [0.2]; }
    var r := CalculateDependenceRange(s);
    assert r[0].average == 0.4 - 0.1;
  }
}
