/** The aggregate step: records are grouped by the `|`-joined text of their
    group-by fields, groups are kept in order of first appearance, and each
    group becomes one output record holding the split key parts and the
    requested aggregates. */
module Aggregation {
  import opened Common
  import opened Text
  import opened Values
  import opened OrderedMaps
  import opened Numbers

  datatype Operation = Sum | Avg | MinOf | MaxOf | Count | CountDistinct | OtherOperation

  datatype Aggregate = Aggregate(field: string, operation: Operation, outputField: string)

  datatype AggregateConfig = AggregateConfig(groupBy: seq<string>, aggregations: seq<Aggregate>)

  /** `groupBy.map(field => record[field])`. */
  function GroupValues(r: Record, groupBy: seq<string>): (vs: seq<Value>)
    ensures |vs| == |groupBy|
    ensures forall i :: 0 <= i < |groupBy| ==> vs[i] == Get(r, groupBy[i])
  {
    seq(|groupBy|, i requires 0 <= i < |groupBy| => Get(r, groupBy[i]))
  }

  /** The group key: the group-by values joined with `|`. */
  function GroupKey(r: Record, groupBy: seq<string>): string
  {
    Join(JoinParts(GroupValues(r, groupBy)), "|")
  }

  /** The distinct group keys, in order of first appearance. */
  function GroupKeys(data: seq<Record>, groupBy: seq<string>): seq<string>
    decreases |data|
  {
    if |data| == 0 then []
    else
      var ks := GroupKeys(data[..|data| - 1], groupBy);
      var k := GroupKey(data[|data| - 1], groupBy);
      if k in ks then ks else ks + [k]
  }

  /** The records of the group with key `key`, in input order. */
  function Members(data: seq<Record>, groupBy: seq<string>, key: string): seq<Record>
    decreases |data|
  {
    if |data| == 0 then []
    else
      var g := Members(data[..|data| - 1], groupBy, key);
      if GroupKey(data[|data| - 1], groupBy) == key then g + [data[|data| - 1]] else g
  }

  /** The group keys are distinct, and they are exactly the keys of the
      records. */
  lemma GroupKeysExact(data: seq<Record>, groupBy: seq<string>)
    ensures Distinct(GroupKeys(data, groupBy))
    ensures forall i :: 0 <= i < |data| ==> GroupKey(data[i], groupBy) in GroupKeys(data, groupBy)
    ensures forall k :: k in GroupKeys(data, groupBy) ==> exists i :: 0 <= i < |data| && GroupKey(data[i], groupBy) == k
  {
    GroupKeysDistinct(data, groupBy);
    GroupKeysCover(data, groupBy);
    GroupKeysFrom(data, groupBy);
  }

  lemma {:induction false} GroupKeysDistinct(data: seq<Record>, groupBy: seq<string>)
    ensures Distinct(GroupKeys(data, groupBy))
    decreases |data|
  {
    if |data| > 0 {
      var ks := GroupKeys(data[..|data| - 1], groupBy);
      var k := GroupKey(data[|data| - 1], groupBy);
      GroupKeysDistinct(data[..|data| - 1], groupBy);
      if k !in ks {
        DistinctSnoc(ks, k);
      }
    }
  }

  lemma {:induction false} GroupKeysCover(data: seq<Record>, groupBy: seq<string>)
    ensures forall i :: 0 <= i < |data| ==> GroupKey(data[i], groupBy) in GroupKeys(data, groupBy)
    decreases |data|
  {
    if |data| > 0 {
      var init := data[..|data| - 1];
      var ks := GroupKeys(init, groupBy);
      GroupKeysCover(init, groupBy);
      assert forall x :: x in ks ==> x in GroupKeys(data, groupBy);
      forall i | 0 <= i < |data| ensures GroupKey(data[i], groupBy) in GroupKeys(data, groupBy) {
        if i < |init| {
          assert GroupKey(init[i], groupBy) in ks;
        }
      }
    }
  }

  lemma {:induction false} GroupKeysFrom(data: seq<Record>, groupBy: seq<string>)
    ensures forall k :: k in GroupKeys(data, groupBy) ==> exists i :: 0 <= i < |data| && GroupKey(data[i], groupBy) == k
    decreases |data|
  {
    if |data| > 0 {
      var init := data[..|data| - 1];
      var ks := GroupKeys(init, groupBy);
      GroupKeysFrom(init, groupBy);
      forall k | k in GroupKeys(data, groupBy) ensures exists i :: 0 <= i < |data| && GroupKey(data[i], groupBy) == k {
        if k in ks {
          var i :| 0 <= i < |init| && GroupKey(init[i], groupBy) == k;
          assert GroupKey(data[i], groupBy) == k;
        } else {
          assert GroupKey(data[|data| - 1], groupBy) == k;
        }
      }
    }
  }


  /** A group holds, in input order, exactly the records with its key. */
  lemma {:induction false} MembersExact(data: seq<Record>, groupBy: seq<string>, key: string)
    ensures IsSubsequence(Members(data, groupBy, key), data)
    ensures forall x :: x in Members(data, groupBy, key) <==> x in data && GroupKey(x, groupBy) == key
    decreases |data|
  {
    if |data| > 0 {
      var init := data[..|data| - 1];
      var last := data[|data| - 1];
      assert data == init + [last];
      MembersExact(init, groupBy, key);
      SubsequenceExtend(Members(init, groupBy, key), init, last, GroupKey(last, groupBy) == key);
    }
  }

  // ---------------------------------------------------------------------
  // The aggregates of one group

  /** `records.map(r => parseFloat(r[field])).filter(v => !isNaN(v))`. */
  function NumericValues(records: seq<Record>, field: string): (xs: seq<real>)
    ensures |xs| <= |records|
    decreases |records|
  {
    if |records| == 0 then []
    else
      var init := NumericValues(records[..|records| - 1], field);
      match ParseNumber(Get(records[|records| - 1], field))
      case Some(x) => init + [x]
      case None => init
  }

  /** `new Set(vs).size`. Arrays and objects are distinct by reference, so
      each counts once; other values count once per distinct value. */
  function DistinctCount(vs: seq<Value>): (n: nat)
    decreases |vs|
  {
    if |vs| == 0 then 0
    else
      var init := vs[..|vs| - 1];
      var last := vs[|vs| - 1];
      DistinctCount(init) + (if IsPrimitive(last) && last in init then 0 else 1)
  }

  /** The value one aggregation writes for a group: the total, mean, least
      or greatest of the numbers parsed from the field, the group size, or
      the number of distinct values. An average of no numbers is NaN; a
      minimum or maximum of no numbers is written null. */
  function AggregateValue(records: seq<Record>, agg: Aggregate): (v: Value)
    ensures agg.operation == Sum && NumericValues(records, agg.field) == [] ==> v == Num(0.0)
    ensures agg.operation == Sum ==> v == Num(SumOf(NumericValues(records, agg.field)))
    ensures agg.operation == Avg ==> (v == NaN <==> NumericValues(records, agg.field) == [])
    ensures agg.operation == Avg && v.Num? ==>
      v.n == SumOf(NumericValues(records, agg.field)) / |NumericValues(records, agg.field)| as real
    ensures agg.operation == MinOf ==> (v == Null <==> NumericValues(records, agg.field) == [])
    ensures agg.operation == MinOf && v.Num? ==> v.n == Minimum(NumericValues(records, agg.field))
    ensures agg.operation == MaxOf ==> (v == Null <==> NumericValues(records, agg.field) == [])
    ensures agg.operation == MaxOf && v.Num? ==> v.n == Maximum(NumericValues(records, agg.field))
    ensures agg.operation == Count ==> v == Num(|records| as real)
    ensures agg.operation == OtherOperation ==> v == Null
    ensures v.Num? || v.NaN? || v.Null?
  {
    var xs := NumericValues(records, agg.field);
    match agg.operation
    case Sum => Num(SumOf(xs))
    case Avg => if |xs| == 0 then NaN else Num(SumOf(xs) / |xs| as real)
    case MinOf => if |xs| == 0 then Null else Num(Minimum(xs))
    case MaxOf => if |xs| == 0 then Null else Num(Maximum(xs))
    case Count => Num(|records| as real)
    case CountDistinct =>
      Num(DistinctCount(seq(|records|, i requires 0 <= i < |records| => Get(records[i], agg.field))) as real)
    case OtherOperation => Null
  }

  /** `key.split('|')[i]`, undefined past the last piece. */
  function KeyPart(key: string, i: nat): Value
  {
    var parts := Split(key, '|');
    if i < |parts| then Str(parts[i]) else Undefined
  }

  function OutputFields(aggs: seq<Aggregate>): (ks: seq<string>)
    ensures |ks| == |aggs|
    ensures forall j :: 0 <= j < |aggs| ==> ks[j] == aggs[j].outputField
  {
    seq(|aggs|, j requires 0 <= j < |aggs| => aggs[j].outputField)
  }

  /** The output record of one group: first the group-by fields, then the
      aggregates, each assignment in turn. */
  function GroupRecord(key: string, members: seq<Record>, cfg: AggregateConfig): Record
  {
    var gs := cfg.groupBy;
    var aggs := cfg.aggregations;
    var grouped := PutAll([], gs, seq(|gs|, i requires 0 <= i < |gs| => KeyPart(key, i)));
    PutAll(grouped, OutputFields(aggs), seq(|aggs|, j requires 0 <= j < |aggs| => AggregateValue(members, aggs[j])))
  }

  /** The whole step: one record per group, in order of first appearance. */
  function AggregateSpec(data: seq<Record>, cfg: AggregateConfig): (r: seq<Record>)
    ensures |r| == |GroupKeys(data, cfg.groupBy)|
  {
    var ks := GroupKeys(data, cfg.groupBy);
    seq(|ks|, i requires 0 <= i < |ks| => GroupRecord(ks[i], Members(data, cfg.groupBy, ks[i]), cfg))
  }

  // ---------------------------------------------------------------------
  // The step as the source runs it

  /** A key that no record has has no members. */
  lemma {:induction false} MembersOfAbsentKey(data: seq<Record>, groupBy: seq<string>, key: string)
    requires key !in GroupKeys(data, groupBy)
    ensures Members(data, groupBy, key) == []
    decreases |data|
  {
    if |data| > 0 {
      var ks := GroupKeys(data[..|data| - 1], groupBy);
      assert GroupKey(data[|data| - 1], groupBy) in GroupKeys(data, groupBy);
      assert forall k :: k in ks ==> k in GroupKeys(data, groupBy);
      MembersOfAbsentKey(data[..|data| - 1], groupBy, key);
    }
  }

  /** One more record joins the group of its key, which is new when no
      earlier record had that key. */
  lemma GroupingSnoc(data: seq<Record>, x: Record, groupBy: seq<string>, key: string)
    ensures Members(data + [x], groupBy, key)
      == Members(data, groupBy, key) + (if GroupKey(x, groupBy) == key then [x] else [])
    ensures GroupKeys(data + [x], groupBy)
      == GroupKeys(data, groupBy) + (if GroupKey(x, groupBy) in GroupKeys(data, groupBy) then [] else [GroupKey(x, groupBy)])
  {
    assert (data + [x])[..|data|] == data;
  }

  /** Fills the `groups` map in one pass, then emits one record per group. */
  method AggregateStep(data: seq<Record>, cfg: AggregateConfig) returns (result: seq<Record>)
    ensures result == AggregateSpec(data, cfg)
  {
    var groups := GroupRecords(data, cfg.groupBy);
    var ks := groups.keys;
    ghost var spec := AggregateSpec(data, cfg);
    result := [];
    var j := 0;
    while j < |ks|
      invariant 0 <= j <= |ks|
      invariant result == spec[..j]
    {
      var key := ks[j];
      assert key in groups.entries;
      assert spec[j] == GroupRecord(key, groups.entries[key], cfg);
      assert spec[..j + 1] == spec[..j] + [spec[j]];
      result := result + [GroupRecord(key, groups.entries[key], cfg)];
      j := j + 1;
    }
    assert spec[..j] == spec;
  }

  /** The grouping loop of `AggregateStep`: records gathered under their
      group key, keys in first-seen order. */
  method GroupRecords(data: seq<Record>, gs: seq<string>) returns (groups: OMap<string, seq<Record>>)
    ensures groups.Valid()
    ensures groups.keys == GroupKeys(data, gs)
    ensures forall k :: k in groups.entries ==> groups.entries[k] == Members(data, gs, k)
  {
    groups := Empty();
    var i := 0;
    while i < |data|
      invariant 0 <= i <= |data|
      invariant groups.Valid()
      invariant groups.keys == GroupKeys(data[..i], gs)
      invariant forall k :: k in groups.entries ==> groups.entries[k] == Members(data[..i], gs, k)
    {
      var key := GroupKey(data[i], gs);
      var old_groups := groups;
      if !groups.Has(key) {
        MembersOfAbsentKey(data[..i], gs, key);
        groups := groups.Set(key, []);
      }
      groups := groups.Set(key, groups.entries[key] + [data[i]]);
      GroupStep(data, i, gs, old_groups, groups);
      i := i + 1;
    }
    assert data[..i] == data;
  }

  /** The bookkeeping of one pass of the grouping loop. */
  lemma GroupStep(data: seq<Record>, i: nat, gs: seq<string>, before: OMap<string, seq<Record>>, after: OMap<string, seq<Record>>)
    requires i < |data|
    requires before.Valid() && before.keys == GroupKeys(data[..i], gs)
    requires forall k :: k in before.entries ==> before.entries[k] == Members(data[..i], gs, k)
    requires var key := GroupKey(data[i], gs);
      after == (if key in before.entries then before else before.Set(key, [])).Set(key,
        (if key in before.entries then before.entries[key] else []) + [data[i]])
    ensures after.Valid() && after.keys == GroupKeys(data[..i + 1], gs)
    ensures forall k :: k in after.entries ==> after.entries[k] == Members(data[..i + 1], gs, k)
  {
    var key := GroupKey(data[i], gs);
    assert data[..i + 1] == data[..i] + [data[i]];
    GroupingSnoc(data[..i], data[i], gs, key);
    forall k | k in after.entries ensures after.entries[k] == Members(data[..i + 1], gs, k) {
      GroupingSnoc(data[..i], data[i], gs, k);
      if k == key && key !in before.entries {
        MembersOfAbsentKey(data[..i], gs, key);
      }
    }
  }

  // ---------------------------------------------------------------------
  // Properties

  /** The group sizes over a list of distinct keys. */
  function GroupSizes(data: seq<Record>, groupBy: seq<string>, ks: seq<string>): nat
    decreases |ks|
  {
    if |ks| == 0 then 0
    else GroupSizes(data, groupBy, ks[..|ks| - 1]) + |Members(data, groupBy, ks[|ks| - 1])|
  }

  /** One more record adds one to the size of its own group only. */
  lemma {:induction false} GroupSizesSnoc(data: seq<Record>, x: Record, groupBy: seq<string>, ks: seq<string>)
    requires Distinct(ks)
    ensures GroupSizes(data + [x], groupBy, ks)
      == GroupSizes(data, groupBy, ks) + (if GroupKey(x, groupBy) in ks then 1 else 0)
    decreases |ks|
  {
    if |ks| > 0 {
      var init := ks[..|ks| - 1];
      assert (data + [x])[..|data|] == data;
      assert ks == init + [ks[|ks| - 1]];
      GroupSizesSnoc(data, x, groupBy, init);
    }
  }

  /** Every record falls into exactly one group: the group sizes add up to
      the number of input records. */
  lemma {:induction false} GroupSizesTotal(data: seq<Record>, groupBy: seq<string>)
    ensures GroupSizes(data, groupBy, GroupKeys(data, groupBy)) == |data|
    decreases |data|
  {
    if |data| > 0 {
      var init := data[..|data| - 1];
      var x := data[|data| - 1];
      var ks := GroupKeys(init, groupBy);
      var k := GroupKey(x, groupBy);
      assert data == init + [x];
      GroupKeysExact(init, groupBy);
      GroupSizesTotal(init, groupBy);
      GroupSizesSnoc(init, x, groupBy, ks);
      if k !in ks {
        MembersOfAbsentKey(init, groupBy, k);
        assert (ks + [k])[..|ks|] == ks;
      }
    }
  }

  /** The value of aggregation `j` survives in the output when no later
      aggregation writes the same field. */
  lemma GroupRecordAggregate(key: string, members: seq<Record>, cfg: AggregateConfig, j: nat)
    requires j < |cfg.aggregations|
    requires cfg.aggregations[j].outputField !in OutputFields(cfg.aggregations)[j + 1..]
    ensures Get(GroupRecord(key, members, cfg), cfg.aggregations[j].outputField)
      == AggregateValue(members, cfg.aggregations[j])
  {
    var gs := cfg.groupBy;
    var aggs := cfg.aggregations;
    var grouped := PutAll([], gs, seq(|gs|, i requires 0 <= i < |gs| => KeyPart(key, i)));
    PutAllLast(grouped, OutputFields(aggs), seq(|aggs|, n requires 0 <= n < |aggs| => AggregateValue(members, aggs[n])), j);
  }

  /** A group-by field that no aggregation overwrites holds piece `i` of the
      group key. */
  lemma GroupRecordKeyPart(key: string, members: seq<Record>, cfg: AggregateConfig, i: nat)
    requires i < |cfg.groupBy|
    requires cfg.groupBy[i] !in cfg.groupBy[i + 1..]
    requires cfg.groupBy[i] !in OutputFields(cfg.aggregations)
    ensures Get(GroupRecord(key, members, cfg), cfg.groupBy[i]) == KeyPart(key, i)
  {
    var gs := cfg.groupBy;
    var aggs := cfg.aggregations;
    var parts := seq(|gs|, n requires 0 <= n < |gs| => KeyPart(key, n));
    var grouped := PutAll([], gs, parts);
    PutAllLast([], gs, parts, i);
    PutAllUntouched(grouped, OutputFields(aggs), seq(|aggs|, n requires 0 <= n < |aggs| => AggregateValue(members, aggs[n])), gs[i]);
  }

  /** When no group-by value's text contains `|`, splitting the key gives
      back exactly the text of each group-by value. */
  lemma KeyPartRoundTrip(r: Record, groupBy: seq<string>, i: nat)
    requires i < |groupBy|
    requires forall n :: 0 <= n < |groupBy| ==> '|' !in JoinPart(Get(r, groupBy[n]))
    ensures KeyPart(GroupKey(r, groupBy), i) == Str(JoinPart(Get(r, groupBy[i])))
  {
    var parts := JoinParts(GroupValues(r, groupBy));
    assert forall n :: 0 <= n < |parts| ==> parts[n] == JoinPart(Get(r, groupBy[n])) by {
      JoinPartsAt(GroupValues(r, groupBy));
    }
    SplitJoin(parts, '|');
  }

  lemma {:induction false} JoinPartsAt(vs: seq<Value>)
    ensures forall n :: 0 <= n < |vs| ==> JoinParts(vs)[n] == JoinPart(vs[n])
    decreases |vs|
  {
    if |vs| > 0 { JoinPartsAt(vs[1..]); }
  }

  /** `count` summed over all output records is the number of input records,
      provided no later aggregation overwrites its field. */
  lemma CountsSumToInput(data: seq<Record>, cfg: AggregateConfig, j: nat)
    requires j < |cfg.aggregations| && cfg.aggregations[j].operation == Count
    requires cfg.aggregations[j].outputField !in OutputFields(cfg.aggregations)[j + 1..]
    ensures var out := AggregateSpec(data, cfg);
      && (forall n :: 0 <= n < |out| ==> Get(out[n], cfg.aggregations[j].outputField).Num?)
      && CountTotal(out, cfg.aggregations[j].outputField) == |data| as real
  {
    var out := AggregateSpec(data, cfg);
    var ks := GroupKeys(data, cfg.groupBy);
    var f := cfg.aggregations[j].outputField;
    forall n | 0 <= n < |out| ensures Get(out[n], f) == Num(|Members(data, cfg.groupBy, ks[n])| as real) {
      var g := Members(data, cfg.groupBy, ks[n]);
      assert out[n] == GroupRecord(ks[n], g, cfg);
      GroupRecordAggregate(ks[n], g, cfg, j);
      CountIsGroupSize(g, cfg.aggregations[j]);
    }
    CountTotalIsGroupSizes(data, cfg.groupBy, out, ks, f, |ks|);
    assert out[..|ks|] == out && ks[..|ks|] == ks;
    GroupSizesTotal(data, cfg.groupBy);
  }

  lemma CountIsGroupSize(records: seq<Record>, agg: Aggregate)
    requires agg.operation == Count
    ensures AggregateValue(records, agg) == Num(|records| as real)
  {
  }

  /** The sum of the numbers in field `f` of the records. */
  function CountTotal(out: seq<Record>, f: string): real
    decreases |out|
  {
    if |out| == 0 then 0.0
    else CountTotal(out[..|out| - 1], f) + (var v := Get(out[|out| - 1], f); if v.Num? then v.n else 0.0)
  }

  lemma {:induction false} CountTotalIsGroupSizes(data: seq<Record>, groupBy: seq<string>, out: seq<Record>,
                                                  ks: seq<string>, f: string, m: nat)
    requires m <= |ks| == |out|
    requires forall n :: 0 <= n < |out| ==> Get(out[n], f) == Num(|Members(data, groupBy, ks[n])| as real)
    ensures CountTotal(out[..m], f) == GroupSizes(data, groupBy, ks[..m]) as real
    decreases m
  {
    if m > 0 {
      CountTotalIsGroupSizes(data, groupBy, out, ks, f, m - 1);
      assert out[..m][..m - 1] == out[..m - 1];
      assert ks[..m][..m - 1] == ks[..m - 1];
      assert Get(out[..m][m - 1], f) == Num(|Members(data, groupBy, ks[..m][m - 1])| as real);
    }
  }


  /** The mean of a non-empty list lies between its minimum and maximum. */
  lemma {:induction false} SumBounds(xs: seq<real>)
    requires |xs| > 0
    ensures Minimum(xs) * |xs| as real <= SumOf(xs) <= Maximum(xs) * |xs| as real
    decreases |xs|
  {
    if |xs| > 1 {
      var init := xs[..|xs| - 1];
      var last := xs[|xs| - 1];
      var n := |init| as real;
      SumBounds(init);
      var lo, hi := Minimum(xs), Maximum(xs);
      assert lo <= Minimum(init) && Maximum(init) <= hi;
      assert lo <= last <= hi;
      assert SumOf(xs) == SumOf(init) + last;
      BoundsStep(lo, Minimum(init), Maximum(init), hi, SumOf(init), last, n);
      assert |xs| as real == n + 1.0;
    }
  }

  lemma BoundsStep(lo: real, lo': real, hi': real, hi: real, total: real, last: real, n: real)
    requires n >= 0.0 && lo <= lo' && hi' <= hi && lo <= last <= hi
    requires lo' * n <= total <= hi' * n
    ensures lo * (n + 1.0) <= total + last <= hi * (n + 1.0)
  {
    ScaleMonotone(lo, lo', n);
    ScaleMonotone(hi', hi, n);
  }

  lemma ScaleMonotone(a: real, b: real, n: real)
    requires a <= b && n >= 0.0
    ensures a * n <= b * n
  {
  }

  /** A bound on a total bounds the mean. */
  lemma MeanBounds(lo: real, total: real, hi: real, n: real)
    requires n > 0.0 && lo * n <= total <= hi * n
    ensures lo <= total / n <= hi
  {
    var m := total / n;
    assert m * n == total;
    if m < lo { ScaleStrict(m, lo, n); }
    if hi < m { ScaleStrict(hi, m, n); }
  }

  lemma ScaleStrict(a: real, b: real, n: real)
    requires a < b && n > 0.0
    ensures a * n < b * n
  {
  }

  /** The `avg` of a group with numeric values lies between its `min` and
      its `max`. */
  lemma AvgBetweenMinAndMax(records: seq<Record>, field: string, out: string)
    requires NumericValues(records, field) != []
    ensures var avg := AggregateValue(records, Aggregate(field, Avg, out));
      var lo := AggregateValue(records, Aggregate(field, MinOf, out));
      var hi := AggregateValue(records, Aggregate(field, MaxOf, out));
      avg.Num? && lo.Num? && hi.Num? && lo.n <= avg.n <= hi.n
  {
    var xs := NumericValues(records, field);
    MeanBetweenExtremes(xs);
    var avg := AggregateValue(records, Aggregate(field, Avg, out));
    var lo := AggregateValue(records, Aggregate(field, MinOf, out));
    var hi := AggregateValue(records, Aggregate(field, MaxOf, out));
    assert avg.Num? && avg.n == SumOf(xs) / |xs| as real;
    assert lo.Num? && lo.n == Minimum(xs);
    assert hi.Num? && hi.n == Maximum(xs);
  }

  lemma MeanBetweenExtremes(xs: seq<real>)
    requires |xs| > 0
    ensures Minimum(xs) <= SumOf(xs) / |xs| as real <= Maximum(xs)
  {
    SumBounds(xs);
    MeanBounds(Minimum(xs), SumOf(xs), Maximum(xs), |xs| as real);
  }

  /** `count_distinct` never exceeds `count`, and is positive for a group. */
  lemma {:induction false} DistinctCountBounds(vs: seq<Value>)
    ensures DistinctCount(vs) <= |vs|
    ensures |vs| > 0 ==> DistinctCount(vs) > 0
    decreases |vs|
  {
    if |vs| > 0 { DistinctCountBounds(vs[..|vs| - 1]); }
  }
}
