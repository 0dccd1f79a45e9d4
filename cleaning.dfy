/** `cleanData`, `mode`, `normalizeData` and `standardizeData`: rewrites of
    a batch that drop repeated or incomplete records, fill missing values,
    and rescale one numeric field. */
module Cleaning {
  import opened Common
  import opened Values
  import opened Numbers
  import opened Outliers
  import opened Quality
  import opened Deduplication

  // ---------------------------------------------------------------------
  // mode

  /** How many of the first `n` values have the text `k`. */
  function KeyCount(arr: seq<Value>, k: string, n: nat): nat
    requires n <= |arr|
  {
    if n == 0 then 0 else KeyCount(arr, k, n - 1) + if ToText(arr[n - 1]) == k then 1 else 0
  }

  /** Among the first `n` values, position `p` is where the mode is taken:
      the count of its text up to `p` is at least the count of every text
      over all `n` values, and no earlier position's running count got that
      far. */
  ghost predicate ModeAt(arr: seq<Value>, n: nat, p: nat)
    requires p < n <= |arr|
  {
    var c := KeyCount(arr, ToText(arr[p]), p + 1);
    && (forall k :: KeyCount(arr, k, n) <= c)
    && (forall j :: 0 <= j < p ==> KeyCount(arr, ToText(arr[j]), j + 1) < c)
  }

  /** `mode`: values are counted by their `String` text; the value taken is
      the one at which a count first rises above every count before it, so
      among equally frequent texts the one reaching that count first wins,
      with the value at that point. An empty list gives undefined. */
  method Mode(arr: seq<Value>) returns (m: Value)
    ensures |arr| == 0 ==> m == Undefined
    ensures |arr| > 0 ==> exists p :: 0 <= p < |arr| && ModeAt(arr, |arr|, p) && m == arr[p]
  {
    var counts: map<string, nat> := map[];
    var maxCount := 0;
    m := Undefined;
    ghost var p := 0;
    var i := 0;
    while i < |arr|
      invariant 0 <= i <= |arr|
      invariant CountsAre(counts, arr, i)
      invariant i == 0 ==> m == Undefined && maxCount == 0
      invariant i > 0 ==> p < i && m == arr[p] && KeyCount(arr, ToText(arr[p]), p + 1) == maxCount
      invariant i > 0 ==> ModeAt(arr, i, p)
    {
      var key := ToText(arr[i]);
      CountsStep(counts, arr, i);
      counts := counts[key := CountIn(counts, key) + 1];
      if counts[key] > maxCount {
        if i > 0 {
          ModeMoves(arr, i + 1, p);
        }
        maxCount := counts[key];
        m := arr[i];
        p := i;
      } else {
        ModeStays(arr, i + 1, p);
      }
      i := i + 1;
    }
  }

  /** `counts[key] || 0`. */
  function CountIn(counts: map<string, nat>, key: string): nat
  {
    if key in counts then counts[key] else 0
  }

  /** The counts map holds the text counts of the first `i` values. */
  ghost predicate CountsAre(counts: map<string, nat>, arr: seq<Value>, i: nat)
    requires i <= |arr|
  {
    forall k :: CountIn(counts, k) == KeyCount(arr, k, i)
  }

  lemma CountsStep(counts: map<string, nat>, arr: seq<Value>, i: nat)
    requires i < |arr| && CountsAre(counts, arr, i)
    ensures CountsAre(counts[ToText(arr[i]) := CountIn(counts, ToText(arr[i])) + 1], arr, i + 1)
  {
    var key := ToText(arr[i]);
    var c := counts[key := CountIn(counts, key) + 1];
    forall k ensures CountIn(c, k) == KeyCount(arr, k, i + 1) {
      if k != key {
        assert CountIn(c, k) == CountIn(counts, k);
      }
    }
  }

  lemma {:induction false} KeyCountMonotone(arr: seq<Value>, k: string, a: nat, b: nat)
    requires a <= b <= |arr|
    ensures KeyCount(arr, k, a) <= KeyCount(arr, k, b)
    decreases b
  {
    if a < b {
      KeyCountMonotone(arr, k, a, b - 1);
    }
  }

  /** The value `mode` returns has a most frequent text. */
  lemma ModeIsMostFrequent(arr: seq<Value>, p: nat, k: string)
    requires p < |arr| && ModeAt(arr, |arr|, p)
    ensures KeyCount(arr, k, |arr|) <= KeyCount(arr, ToText(arr[p]), |arr|)
  {
    KeyCountMonotone(arr, ToText(arr[p]), p + 1, |arr|);
  }

  /** A non-empty list has a mode position. */
  lemma {:induction false} ModeExists(arr: seq<Value>, n: nat)
    requires 0 < n <= |arr|
    ensures exists p :: 0 <= p < n && ModeAt(arr, n, p)
  {
    if n == 1 {
      assert ModeAt(arr, 1, 0);
    } else {
      ModeExists(arr, n - 1);
      var p :| 0 <= p < n - 1 && ModeAt(arr, n - 1, p);
      if KeyCount(arr, ToText(arr[n - 1]), n) > KeyCount(arr, ToText(arr[p]), p + 1) {
        ModeMoves(arr, n, p);
      } else {
        ModeStays(arr, n, p);
      }
    }
  }

  /** A value whose count passes the mode's becomes the mode. */
  lemma ModeMoves(arr: seq<Value>, n: nat, p: nat)
    requires p < n - 1 && n <= |arr| && ModeAt(arr, n - 1, p)
    requires KeyCount(arr, ToText(arr[n - 1]), n) > KeyCount(arr, ToText(arr[p]), p + 1)
    ensures ModeAt(arr, n, n - 1)
  {
    var key := ToText(arr[n - 1]);
    forall j | 0 <= j < n - 1 ensures KeyCount(arr, ToText(arr[j]), j + 1) < KeyCount(arr, key, n) {
      KeyCountMonotone(arr, ToText(arr[j]), j + 1, n - 1);
    }
    forall k ensures KeyCount(arr, k, n) <= KeyCount(arr, key, n) {
      if k != key {
        assert KeyCount(arr, k, n) == KeyCount(arr, k, n - 1);
      }
    }
  }

  /** Otherwise the mode stays where it was. */
  lemma ModeStays(arr: seq<Value>, n: nat, p: nat)
    requires p < n - 1 && n <= |arr| && ModeAt(arr, n - 1, p)
    requires KeyCount(arr, ToText(arr[n - 1]), n) <= KeyCount(arr, ToText(arr[p]), p + 1)
    ensures ModeAt(arr, n, p)
  {
    var c := KeyCount(arr, ToText(arr[p]), p + 1);
    forall k ensures KeyCount(arr, k, n) <= c {
      if k != ToText(arr[n - 1]) {
        assert KeyCount(arr, k, n) == KeyCount(arr, k, n - 1);
      }
    }
  }

  /** ... and only one. */
  lemma ModeUnique(arr: seq<Value>, n: nat, p: nat, q: nat)
    requires p < n <= |arr| && q < n
    requires ModeAt(arr, n, p) && ModeAt(arr, n, q)
    ensures p == q
  {
    if p < q {
      KeyCountMonotone(arr, ToText(arr[q]), q + 1, n);
    } else if q < p {
      KeyCountMonotone(arr, ToText(arr[p]), p + 1, n);
    }
  }

  /** The value `mode` returns, for use in specifications. */
  ghost function ModeOf(arr: seq<Value>): (m: Value)
    requires |arr| > 0
    ensures exists p :: 0 <= p < |arr| && ModeAt(arr, |arr|, p) && m == arr[p]
  {
    ModeExists(arr, |arr|);
    var p :| 0 <= p < |arr| && ModeAt(arr, |arr|, p);
    arr[p]
  }

  // ---------------------------------------------------------------------
  // cleanData

  /** `fillMissing` is undefined when not given; `removeOutliers` has no
      effect, so it is not part of the options. */
  datatype CleanOptions = CleanOptions(removeDuplicates: bool, fillMissing: Value)

  /** Every value of the record is present. */
  predicate Complete(r: Record)
  {
    forall i :: 0 <= i < |r| ==> !IsMissing(r[i].val)
  }

  /** The `'remove'` filter. */
  function RemoveIncomplete(data: seq<Record>): seq<Record>
    decreases |data|
  {
    if |data| == 0 then []
    else
      var kept := RemoveIncomplete(data[..|data| - 1]);
      var last := data[|data| - 1];
      if Complete(last) then kept + [last] else kept
  }

  /** The present values of `f`, in record order. */
  function PresentValues(data: seq<Record>, f: string): seq<Value>
    decreases |data|
  {
    if |data| == 0 then []
    else
      var vs := PresentValues(data[..|data| - 1], f);
      var v := Get(data[|data| - 1], f);
      if IsMissing(v) then vs else vs + [v]
  }

  /** The sum of the numbers over their count; NaN when one of them is. */
  function MeanOf(values: seq<Value>): Value
    requires |values| > 0
  {
    match Reals(values)
    case Some(xs) => Num(SumOf(xs) / |values| as real)
    case None => NaN
  }

  predicate AllNumbers(values: seq<Value>)
  {
    forall i :: 0 <= i < |values| ==> IsNumber(values[i])
  }

  /** The value missing entries of a field are filled with, or `None` for
      undefined. `'mean'` needs every value to be a number; `'median'` and
      every other string fill nothing; a value that is not a string is
      used as it is. */
  ghost function FillValue(values: seq<Value>, option: Value): Option<Value>
    requires |values| > 0
  {
    if option == Str("mean") && AllNumbers(values) then Some(MeanOf(values))
    else if option == Str("mode") then Some(ModeOf(values))
    else if !option.Str? then Some(option)
    else None
  }

  /** `{...record, [field]: record[field] ?? fill}` for every record. */
  function FillField(data: seq<Record>, f: string, fill: Value): (r: seq<Record>)
    ensures |r| == |data|
  {
    seq(|data|, i requires 0 <= i < |data| =>
      var v := Get(data[i], f);
      Put(data[i], f, if IsNullish(v) then fill else v))
  }

  /** One round of the field loop: the present values of `f` decide the
      fill value, and the records are filled with it if there is one. */
  ghost function FillStep(d: seq<Record>, f: string, option: Value): seq<Record>
  {
    var vs := PresentValues(d, f);
    if |vs| == 0 then d
    else match FillValue(vs, option)
      case None => d
      case Some(v) => FillField(d, f, v)
  }

  /** The fields are filled one after the other, each from the batch the
      previous ones left. */
  ghost function FillFields(data: seq<Record>, fields: seq<string>, option: Value): seq<Record>
    decreases |fields|
  {
    if |fields| == 0 then data
    else FillStep(FillFields(data, fields[..|fields| - 1], option), fields[|fields| - 1], option)
  }

  /** What `cleanData` returns. The fields filled are the keys of the first
      record left after deduplication. */
  ghost function CleanSpec(data: seq<Record>, opts: CleanOptions): seq<Record>
  {
    var d := if opts.removeDuplicates then Dedupe(data, KeyFn(None)) else data;
    if !Truthy(opts.fillMissing) then d
    else if opts.fillMissing == Str("remove") then RemoveIncomplete(d)
    else FillFields(d, if |d| > 0 then Keys(d[0]) else [], opts.fillMissing)
  }

  method CleanData(data: seq<Record>, opts: CleanOptions) returns (cleaned: seq<Record>)
    ensures cleaned == CleanSpec(data, opts)
  {
    cleaned := data;
    if opts.removeDuplicates {
      cleaned := DedupeStep(cleaned, None);
    }
    if Truthy(opts.fillMissing) {
      if opts.fillMissing == Str("remove") {
        cleaned := RemoveIncomplete(cleaned);
      } else {
        var fields := if |cleaned| > 0 then Keys(cleaned[0]) else [];
        cleaned := FillMissing(cleaned, fields, opts.fillMissing);
      }
    }
  }

  /** The field loop of `cleanData`. */
  method FillMissing(data: seq<Record>, fields: seq<string>, option: Value) returns (cleaned: seq<Record>)
    ensures cleaned == FillFields(data, fields, option)
  {
    cleaned := data;
    var j := 0;
    while j < |fields|
      invariant 0 <= j <= |fields|
      invariant cleaned == FillFields(data, fields[..j], option)
    {
      FillFieldsSnoc(data, fields, j, option);
      cleaned := FillMissingField(cleaned, fields[j], option);
      j := j + 1;
    }
    assert fields[..j] == fields;
  }

  lemma FillFieldsSnoc(data: seq<Record>, fields: seq<string>, j: nat, option: Value)
    requires j < |fields|
    ensures FillFields(data, fields[..j + 1], option) ==
      FillStep(FillFields(data, fields[..j], option), fields[j], option)
  {
    assert fields[..j + 1][..j] == fields[..j];
  }

  /** The body of the field loop. */
  method FillMissingField(cleaned: seq<Record>, field: string, option: Value) returns (next: seq<Record>)
    ensures next == FillStep(cleaned, field, option)
  {
    next := cleaned;
    var values := PresentValues(cleaned, field);
    if |values| == 0 {
      return;
    }
    var fill: Option<Value> := None;
    if option == Str("mean") && AllNumbers(values) {
      fill := Some(MeanOf(values));
    } else if option == Str("mode") {
      var m := Mode(values);
      ghost var p :| 0 <= p < |values| && ModeAt(values, |values|, p) && m == values[p];
      ghost var q :| 0 <= q < |values| && ModeAt(values, |values|, q) && ModeOf(values) == values[q];
      ModeUnique(values, |values|, p, q);
      fill := Some(m);
    } else if !option.Str? {
      fill := Some(option);
    }
    if fill.Some? {
      next := FillField(cleaned, field, fill.value);
    }
  }

  // ---------------------------------------------------------------------
  // Properties of cleanData

  /** Removing duplicates keeps the first of each group of identical
      records, and cleaning that way twice is cleaning once. */
  lemma CleanDuplicatesIdempotent(data: seq<Record>, opts: CleanOptions)
    requires opts.removeDuplicates && !Truthy(opts.fillMissing)
    ensures IsSubsequence(CleanSpec(data, opts), data)
    ensures CleanSpec(CleanSpec(data, opts), opts) == CleanSpec(data, opts)
  {
    DedupeShape(data, KeyFn(None));
    DedupeIdempotent(data, KeyFn(None));
  }

  /** `'remove'` keeps, in order, exactly the records with no missing value. */
  lemma {:induction false} RemoveIncompleteExact(data: seq<Record>)
    ensures IsSubsequence(RemoveIncomplete(data), data)
    ensures forall r :: r in RemoveIncomplete(data) <==> r in data && Complete(r)
    ensures forall r :: multiset(RemoveIncomplete(data))[r] == if Complete(r) then multiset(data)[r] else 0
    decreases |data|
  {
    if |data| > 0 {
      var init := data[..|data| - 1];
      var last := data[|data| - 1];
      assert data == init + [last];
      RemoveIncompleteExact(init);
      SubsequenceExtend(RemoveIncomplete(init), init, last, Complete(last));
    }
  }

  /** Filling touches only the filled field, and there only null and
      undefined: an empty string stays. */
  lemma FillFieldGet(data: seq<Record>, f: string, fill: Value, i: nat, g: string)
    requires i < |data|
    ensures Get(FillField(data, f, fill)[i], g) ==
      if g == f && IsNullish(Get(data[i], f)) then fill else Get(data[i], g)
  {
  }

  /** `'mean'` fills a field only when every present value is a number. */
  lemma MeanNeedsNumbers(values: seq<Value>)
    requires |values| > 0
    ensures FillValue(values, Str("mean")).Some? <==> AllNumbers(values)
    ensures AllNumbers(values) && Reals(values).Some? ==>
      FillValue(values, Str("mean")) == Some(Num(Mean(Reals(values).value)))
  {
    if Reals(values).Some? {
      RealsExact(values);
    }
  }

  /** `'median'` is not implemented: no field is filled. */
  lemma {:induction false} MedianFillsNothing(data: seq<Record>, fields: seq<string>)
    ensures FillFields(data, fields, Str("median")) == data
    decreases |fields|
  {
    if |fields| > 0 {
      MedianFillsNothing(data, fields[..|fields| - 1]);
    }
  }

  // ---------------------------------------------------------------------
  // normalizeData and standardizeData

  /** `{...record, [f]: typeof record[f] === 'number' ? h(record[f]) :
      record[f]}` for every record. */
  function MapNumbers(data: seq<Record>, f: string, h: Value -> Value): (r: seq<Record>)
    ensures |r| == |data|
  {
    seq(|data|, i requires 0 <= i < |data| =>
      var v := Get(data[i], f);
      Put(data[i], f, if IsNumber(v) then h(v) else v))
  }

  /** `(x - origin) / unit`. */
  function ScaleBy(x: real, origin: real, unit: real): real
    requires unit != 0.0
  {
    (x - origin) / unit
  }

  /** `x => (x - origin) / unit` on numbers. */
  function Rescale(origin: real, unit: real): Value -> Value
    requires unit != 0.0
  {
    (v: Value) => if v.Num? then Num(ScaleBy(v.n, origin, unit)) else NaN
  }

  /** `normalizeData`: the numbers of the field are mapped onto [0, 1] by
      `(x - min) / (max - min)`. Nothing changes without numbers or when
      they are all equal; a NaN among them turns every one of them into
      NaN. */
  function Normalize(data: seq<Record>, f: string): (r: seq<Record>)
    ensures |r| == |data|
  {
    match Normalization(NumberValues(data, f))
    case None => data
    case Some(h) => MapNumbers(data, f, h)
  }

  /** The rewrite `normalizeData` applies to the numbers `vs` of the
      field, or `None` when it leaves the batch as it is. */
  function Normalization(vs: seq<Value>): Option<Value -> Value>
  {
    if |vs| == 0 then None
    else
      match Reals(vs)
      case None => Some(Poisoned)
      case Some(xs) =>
        var lo, hi := Minimum(xs), Maximum(xs);
        if hi - lo == 0.0 then None else Some(Rescale(lo, hi - lo))
  }

  /** Arithmetic with a NaN gives NaN. */
  function Poisoned(v: Value): Value
  {
    NaN
  }

  /** `standardizeData`: the numbers of the field become their z-scores,
      `(x - mean) / stdDev`. `sqrt` stands for `Math.sqrt`. Nothing changes
      without numbers or when the deviation is 0. */
  function Standardize(data: seq<Record>, f: string, sqrt: real -> real): (r: seq<Record>)
    ensures |r| == |data|
  {
    match Standardization(NumberValues(data, f), sqrt)
    case None => data
    case Some(h) => MapNumbers(data, f, h)
  }

  /** The rewrite `standardizeData` applies to the numbers `vs`, or `None`
      when it leaves the batch as it is. */
  function Standardization(vs: seq<Value>, sqrt: real -> real): Option<Value -> Value>
  {
    if |vs| == 0 then None
    else
      match Reals(vs)
      case None => Some(Poisoned)
      case Some(xs) =>
        var mean := Mean(xs);
        var sd := sqrt(Variance(xs));
        if sd == 0.0 then None else Some(Rescale(mean, sd))
  }

  // ---------------------------------------------------------------------
  // Properties of normalizeData and standardizeData

  /** A number of the field is one of the numbers collected for it. */
  lemma NumberCollected(data: seq<Record>, f: string, i: nat)
    requires i < |data| && Get(data[i], f).Num?
    requires Reals(NumberValues(data, f)).Some?
    ensures Get(data[i], f).n in Reals(NumberValues(data, f)).value
  {
    var vs := NumberValues(data, f);
    NumberValuesExact(data, f);
    RealsExact(vs);
    assert Get(data[i], f) in vs;
    var m :| 0 <= m < |vs| && vs[m] == Get(data[i], f);
    assert Reals(vs).value[m] == Get(data[i], f).n;
  }

  /** A rewrite of the numbers of `f` changes nothing else. */
  lemma MapNumbersAt(data: seq<Record>, f: string, h: Value -> Value, i: nat, g: string)
    requires i < |data|
    ensures Get(MapNumbers(data, f, h)[i], g) ==
      if g == f && IsNumber(Get(data[i], f)) then h(Get(data[i], f)) else Get(data[i], g)
  {
    var v := Get(data[i], f);
    var w := if IsNumber(v) then h(v) else v;
    assert MapNumbers(data, f, h)[i] == Put(data[i], f, w);
    if g != f {
      assert Get(Put(data[i], f, w), g) == Get(data[i], g);
    }
  }

  /** Normalising changes no other field, and no value of the field that
      is not a number. */
  lemma NormalizeOthers(data: seq<Record>, f: string, i: nat, g: string)
    requires i < |data|
    requires g != f || !IsNumber(Get(data[i], f))
    ensures Get(Normalize(data, f)[i], g) == Get(data[i], g)
  {
    match Normalization(NumberValues(data, f))
    case None =>
    case Some(h) => MapNumbersAt(data, f, h, i, g);
  }

  /** Normalising moves every number of the field into [0, 1] by
      `(x - lo) / (hi - lo)`, the least to 0 and the greatest to 1. */
  lemma NormalizeNumber(data: seq<Record>, f: string, i: nat, xs: seq<real>, lo: real, hi: real)
    requires i < |data| && Get(data[i], f).Num?
    requires Reals(NumberValues(data, f)) == Some(xs) && |xs| > 0
    requires lo == Minimum(xs) && hi == Maximum(xs) && lo < hi
    ensures Get(Normalize(data, f)[i], f) == Num(ScaleBy(Get(data[i], f).n, lo, hi - lo))
    ensures 0.0 <= ScaleBy(Get(data[i], f).n, lo, hi - lo) <= 1.0
    ensures Get(data[i], f).n == lo ==> ScaleBy(Get(data[i], f).n, lo, hi - lo) == 0.0
    ensures Get(data[i], f).n == hi ==> ScaleBy(Get(data[i], f).n, lo, hi - lo) == 1.0
  {
    WithinExtremes(data, f, i, xs);
    var x := Get(data[i], f).n;
    NormalizationIs(NumberValues(data, f), xs, lo, hi);
    NormalizedValue(data, f, i, lo, hi);
    assert Get(data[i], f) == Num(x);
    RescaleNumber(lo, hi - lo, x);
    UnitInterval(x, lo, hi);
  }

  /** When all numbers of the field are equal, normalising changes nothing. */
  lemma NormalizeFlat(data: seq<Record>, f: string, xs: seq<real>)
    requires Reals(NumberValues(data, f)) == Some(xs) && |xs| > 0
    requires Minimum(xs) == Maximum(xs)
    ensures Normalize(data, f) == data
  {
    RealsExact(NumberValues(data, f));
    NormalizationFlat(NumberValues(data, f), xs);
  }

  /** A number of the field lies between the least and the greatest. */
  lemma WithinExtremes(data: seq<Record>, f: string, i: nat, xs: seq<real>)
    requires i < |data| && Get(data[i], f).Num?
    requires Reals(NumberValues(data, f)) == Some(xs) && |xs| > 0
    ensures |NumberValues(data, f)| > 0
    ensures Minimum(xs) <= Get(data[i], f).n <= Maximum(xs)
  {
    NumberCollected(data, f, i);
    MinMaxExact(xs);
    RealsExact(NumberValues(data, f));
    var k :| 0 <= k < |xs| && xs[k] == Get(data[i], f).n;
  }

  lemma NormalizedValue(data: seq<Record>, f: string, i: nat, lo: real, hi: real)
    requires i < |data| && Get(data[i], f).Num? && lo != hi
    requires Normalization(NumberValues(data, f)) == Some(Rescale(lo, hi - lo))
    ensures Get(Normalize(data, f)[i], f) == Rescale(lo, hi - lo)(Get(data[i], f))
  {
    MapNumbersAt(data, f, Rescale(lo, hi - lo), i, f);
  }

  lemma NormalizationIs(vs: seq<Value>, xs: seq<real>, lo: real, hi: real)
    requires Reals(vs) == Some(xs) && |vs| > 0 && |xs| > 0
    requires lo == Minimum(xs) && hi == Maximum(xs) && lo != hi
    ensures Normalization(vs) == Some(Rescale(lo, hi - lo))
  {
  }

  lemma NormalizationFlat(vs: seq<Value>, xs: seq<real>)
    requires Reals(vs) == Some(xs) && |vs| > 0 && |xs| > 0
    requires Minimum(xs) == Maximum(xs)
    ensures Normalization(vs) == None
  {
  }

  lemma StandardizationIs(vs: seq<Value>, sqrt: real -> real, xs: seq<real>, mean: real, sd: real)
    requires Reals(vs) == Some(xs) && |vs| > 0 && |xs| > 0
    requires mean == Mean(xs) && sd == sqrt(Variance(xs)) && sd != 0.0
    ensures Standardization(vs, sqrt) == Some(Rescale(mean, sd))
  {
  }

  lemma RescaleNumber(origin: real, unit: real, x: real)
    requires unit != 0.0
    ensures Rescale(origin, unit)(Num(x)) == Num(ScaleBy(x, origin, unit))
  {
  }

  /** The deviations from the mean add up to 0. */
  lemma NoDeviation(sum: real, n: real, mean: real, s: real)
    requires n != 0.0 && s != 0.0 && mean == sum / n
    ensures (sum - n * mean) / s == 0.0
  {
    assert n * mean == sum;
  }

  lemma UnitInterval(x: real, lo: real, hi: real)
    requires lo <= x <= hi && lo < hi
    ensures 0.0 <= ScaleBy(x, lo, hi - lo) <= 1.0
    ensures x == lo ==> ScaleBy(x, lo, hi - lo) == 0.0
    ensures x == hi ==> ScaleBy(x, lo, hi - lo) == 1.0
  {
    assert (x - lo) / (hi - lo) * (hi - lo) == x - lo;
  }

  lemma {:induction false} NoNumbers(data: seq<Record>, f: string)
    requires forall i :: 0 <= i < |data| ==> !IsNumber(Get(data[i], f))
    ensures NumberValues(data, f) == []
    decreases |data|
  {
    if |data| > 0 {
      NoNumbers(data[..|data| - 1], f);
    }
  }

  /** Whole records are left alone when the field has no numbers. */
  lemma RescaleWithoutNumbers(data: seq<Record>, f: string, sqrt: real -> real)
    requires forall i :: 0 <= i < |data| ==> !IsNumber(Get(data[i], f))
    ensures Normalize(data, f) == data
    ensures Standardize(data, f, sqrt) == data
  {
    NoNumbers(data, f);
  }

  /** `vs.map(h)`. */
  function MapValues(vs: seq<Value>, h: Value -> Value): (ws: seq<Value>)
    ensures |ws| == |vs|
    decreases |vs|
  {
    if |vs| == 0 then [] else MapValues(vs[..|vs| - 1], h) + [h(vs[|vs| - 1])]
  }

  /** The numbers of the field after a rewrite are the numbers before it,
      each rewritten. */
  lemma {:induction false} NumberValuesMapped(data: seq<Record>, f: string, h: Value -> Value)
    requires forall v :: IsNumber(v) ==> IsNumber(h(v))
    ensures NumberValues(MapNumbers(data, f, h), f) == MapValues(NumberValues(data, f), h)
    decreases |data|
  {
    if |data| > 0 {
      var n := |data| - 1;
      var init := data[..n];
      var r := MapNumbers(data, f, h);
      NumberValuesMapped(init, f, h);
      assert r[..n] == MapNumbers(init, f, h);
      MapNumbersAt(data, f, h, n, f);
    }
  }

  /** `(x - m) / s` for each `x`. */
  function Scaled(xs: seq<real>, m: real, s: real): (ys: seq<real>)
    requires s != 0.0
    decreases |xs|
  {
    if |xs| == 0 then [] else Scaled(xs[..|xs| - 1], m, s) + [(xs[|xs| - 1] - m) / s]
  }

  lemma {:induction false} ScaledValues(vs: seq<Value>, xs: seq<real>, m: real, s: real)
    requires s != 0.0 && Reals(vs) == Some(xs)
    ensures Reals(MapValues(vs, Rescale(m, s))) == Some(Scaled(xs, m, s))
    decreases |vs|
  {
    if |vs| > 0 {
      var init := vs[..|vs| - 1];
      var xs' := Reals(init).value;
      ScaledValues(init, xs', m, s);
      assert xs == xs' + [vs[|vs| - 1].n];
      assert xs[..|xs| - 1] == xs';
    }
  }

  /** `Σ (x - m)`, accumulated left to right. */
  function Deviation(xs: seq<real>, m: real): real
    decreases |xs|
  {
    if |xs| == 0 then 0.0 else Deviation(xs[..|xs| - 1], m) + (xs[|xs| - 1] - m)
  }

  /** The scaled values sum to the total deviation from `m`, divided by `s`. */
  lemma {:induction false} SumOfScaled(xs: seq<real>, m: real, s: real)
    requires s != 0.0
    ensures SumOf(Scaled(xs, m, s)) == Deviation(xs, m) / s
    decreases |xs|
  {
    if |xs| > 0 {
      var init := xs[..|xs| - 1];
      SumOfScaled(init, m, s);
      var ys := Scaled(xs, m, s);
      assert ys[..|ys| - 1] == Scaled(init, m, s);
      DivAdd(Deviation(init, m), xs[|xs| - 1] - m, s);
    }
  }

  lemma DivAdd(a: real, b: real, s: real)
    requires s != 0.0
    ensures a / s + b / s == (a + b) / s
  {
  }

  /** The total deviation from `m` is the sum less `n·m`. */
  lemma {:induction false} DeviationSum(xs: seq<real>, m: real)
    ensures Deviation(xs, m) == SumOf(xs) - |xs| as real * m
    decreases |xs|
  {
    if |xs| > 0 {
      DeviationSum(xs[..|xs| - 1], m);
      assert |xs| as real * m == (|xs| - 1) as real * m + m;
    }
  }

  /** Standardised numbers have mean 0. */
  lemma StandardizedMeanZero(data: seq<Record>, f: string, sqrt: real -> real, xs: seq<real>)
    requires Reals(NumberValues(data, f)) == Some(xs) && |xs| > 0
    requires sqrt(Variance(xs)) != 0.0
    ensures Reals(NumberValues(Standardize(data, f, sqrt), f)).Some?
    ensures SumOf(Reals(NumberValues(Standardize(data, f, sqrt), f)).value) == 0.0
  {
    var vs := NumberValues(data, f);
    RealsExact(vs);
    var mean := Mean(xs);
    var sd := sqrt(Variance(xs));
    var h := Rescale(mean, sd);
    StandardizationIs(vs, sqrt, xs, mean, sd);
    var r := Standardize(data, f, sqrt);
    assert r == MapNumbers(data, f, h);
    NumberValuesMapped(data, f, h);
    assert NumberValues(r, f) == MapValues(vs, h);
    ScaledValues(vs, xs, mean, sd);
    assert Reals(NumberValues(r, f)) == Some(Scaled(xs, mean, sd));
    ScaledSumZero(xs, mean, sd);
  }

  /** The z-scores of a list add up to 0. */
  lemma ScaledSumZero(xs: seq<real>, mean: real, sd: real)
    requires |xs| > 0 && mean == Mean(xs) && sd != 0.0
    ensures SumOf(Scaled(xs, mean, sd)) == 0.0
  {
    SumOfScaled(xs, mean, sd);
    DeviationSum(xs, mean);
    NoDeviation(SumOf(xs), |xs| as real, mean, sd);
  }
}
