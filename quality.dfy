/** `validateDataQuality`: one pass over a batch that counts repeated
    records, missing values and the JavaScript types of the values, applies
    the validation rules, flags statistical outliers per field, then lists
    suggestions and computes a score out of 100. The fields examined are the
    keys of the first record. */
module Quality {
  import opened Common
  import opened Values
  import opened OrderedMaps
  import opened Numbers
  import opened Outliers

  /** What a rule checks. A `'pattern'` rule carries the `test` of the
      regular expression its parameter compiles to, a `'custom'` rule the
      truthiness of its function's result; both are opaque here. */
  datatype RuleKind =
    | Required
    | TypeIs(typeName: Value)
    | Range(min: Value, max: Value)
    | Pattern(test: string -> bool)
    | Custom(check: Value -> bool)
    | OtherRule

  datatype Rule = Rule(field: string, kind: RuleKind)

  /** `validateField`. */
  predicate ValidateField(v: Value, kind: RuleKind)
  {
    match kind
    case Required => !IsMissing(v)
    case TypeIs(t) => t == Str(TypeOf(v))
    case Range(lo, hi) =>
      // `value >= min && value <= max` compares as numbers; NaN fails both
      v.Num? && ToNumber(lo).Some? && ToNumber(hi).Some?
      && ToNumber(lo).value <= v.n <= ToNumber(hi).value
    case Pattern(test) => v.Str? && test(v.s)
    case Custom(check) => check(v)
    case OtherRule => true
  }

  /** What each kind of rule accepts: `'required'` rejects exactly null,
      undefined and the empty string; `'range'` accepts exactly the numbers
      between its bounds read as numbers, so a NaN value or bound fails;
      `'pattern'` accepts only strings; an unknown rule accepts everything. */
  lemma RuleOutcomes(v: Value, kind: RuleKind)
    ensures kind.Required? ==> (ValidateField(v, kind) <==> v != Null && v != Undefined && v != Str(""))
    ensures kind.TypeIs? ==> (ValidateField(v, kind) <==> kind.typeName == Str(TypeOf(v)))
    ensures kind.Range? && ValidateField(v, kind) ==> v.Num?
    ensures kind.Range? ==>
      (ValidateField(v, kind) <==> v.Num? && ToNumber(kind.min).Some? && ToNumber(kind.max).Some? &&
                                   ToNumber(kind.min).value <= v.n <= ToNumber(kind.max).value)
    ensures kind.Range? && (v == NaN || ToNumber(kind.min).None? || ToNumber(kind.max).None?) ==>
      !ValidateField(v, kind)
    ensures kind.Pattern? && ValidateField(v, kind) ==> v.Str?
    ensures kind.OtherRule? ==> ValidateField(v, kind)
  {
  }

  /** A count per `typeof` name, in order of first appearance. */
  type Tally = OMap<string, nat>

  datatype Outlier = Outlier(field: string, value: real)

  /** The suggestions, without their wording; each carries the figures its
      text reports. */
  datatype Suggestion =
    | NoData
    | HighMissingRate(field: string, missing: nat, total: nat)
    | DuplicatesFound(duplicates: nat, total: nat)
    | InconsistentTypes(field: string, types: seq<string>)
    | OutliersFound(count: nat)
    | LowQuality

  /** `Math.max(0, Math.round(score))`, which is NaN when the score is. */
  datatype Score = Points(points: int) | NotANumber

  datatype Report = Report(
    totalRecords: nat,
    validRecords: nat,
    invalidRecords: nat,
    duplicates: nat,
    missingFields: OMap<string, nat>,
    dataTypes: OMap<string, Tally>,
    outliers: seq<Outlier>,
    suggestions: seq<Suggestion>,
    score: Score)

  // ---------------------------------------------------------------------
  // What the pass counts

  /** The JSON text of record `i` is that of an earlier record. */
  predicate Repeated(data: seq<Record>, i: nat)
    requires i < |data|
  {
    exists j :: 0 <= j < i && Fingerprint(data[j]) == Fingerprint(data[i])
  }

  predicate NoneMissing(r: Record, fields: seq<string>)
  {
    forall k :: 0 <= k < |fields| ==> !IsMissing(Get(r, fields[k]))
  }

  predicate PassesRules(r: Record, rules: seq<Rule>)
  {
    forall k :: 0 <= k < |rules| ==> ValidateField(Get(r, rules[k].field), rules[k].kind)
  }

  predicate RecordValid(data: seq<Record>, fields: seq<string>, rules: seq<Rule>, i: nat)
    requires i < |data|
  {
    !Repeated(data, i) && NoneMissing(data[i], fields) && PassesRules(data[i], rules)
  }

  /** Among the first `n` records: the repeats, the valid and the invalid
      ones, and the records missing field `f`. */
  function Duplicates(data: seq<Record>, n: nat): nat
    requires n <= |data|
  {
    if n == 0 then 0 else Duplicates(data, n - 1) + if Repeated(data, n - 1) then 1 else 0
  }

  function ValidCount(data: seq<Record>, fields: seq<string>, rules: seq<Rule>, n: nat): nat
    requires n <= |data|
  {
    if n == 0 then 0
    else ValidCount(data, fields, rules, n - 1) + if RecordValid(data, fields, rules, n - 1) then 1 else 0
  }

  function InvalidCount(data: seq<Record>, fields: seq<string>, rules: seq<Rule>, n: nat): nat
    requires n <= |data|
  {
    if n == 0 then 0
    else InvalidCount(data, fields, rules, n - 1) + if RecordValid(data, fields, rules, n - 1) then 0 else 1
  }

  function MissingCount(data: seq<Record>, f: string, n: nat): nat
    requires n <= |data|
  {
    if n == 0 then 0 else MissingCount(data, f, n - 1) + if IsMissing(Get(data[n - 1], f)) then 1 else 0
  }

  /** `(tally[t] || 0) + 1`. */
  function Bump(t: Tally, name: string): Tally
  {
    t.Set(name, (if name in t.entries then t.entries[name] else 0) + 1)
  }

  /** The `typeof` tally of the present values of `f` in the first `n`
      records. */
  function TypeTally(data: seq<Record>, f: string, n: nat): Tally
    requires n <= |data|
  {
    if n == 0 then Empty()
    else
      var t := TypeTally(data, f, n - 1);
      var v := Get(data[n - 1], f);
      if IsMissing(v) then t else Bump(t, TypeOf(v))
  }

  /** The values of `f` whose `typeof` is `'number'`, NaN included. */
  /** `record[f]` of every record, in record order. */
  function Column(data: seq<Record>, f: string): (c: seq<Value>)
    ensures |c| == |data|
  {
    seq(|data|, i requires 0 <= i < |data| => Get(data[i], f))
  }

  function NumberValues(data: seq<Record>, f: string): (vs: seq<Value>)
    decreases |data|
  {
    if |data| == 0 then []
    else
      var vs := NumberValues(data[..|data| - 1], f);
      var v := Get(data[|data| - 1], f);
      if IsNumber(v) then vs + [v] else vs
  }

  function Tagged(f: string, xs: seq<real>): (os: seq<Outlier>)
  {
    seq(|xs|, i requires 0 <= i < |xs| => Outlier(f, xs[i]))
  }

  /** Outliers are looked for only among more than ten numbers. */
  function FieldOutliers(data: seq<Record>, f: string): seq<Outlier>
  {
    var vs := NumberValues(data, f);
    if |vs| > 10 then Tagged(f, NumberOutliers(vs)) else []
  }

  function OutliersFor(data: seq<Record>, fields: seq<string>): seq<Outlier>
    decreases |fields|
  {
    if |fields| == 0 then []
    else OutliersFor(data, fields[..|fields| - 1]) + FieldOutliers(data, fields[|fields| - 1])
  }

  // ---------------------------------------------------------------------
  // Suggestions and score

  /** `count / total * 100 > 20`, for each field in order. */
  function MissingSuggestions(keys: seq<string>, counts: map<string, nat>, total: nat): seq<Suggestion>
    decreases |keys|
  {
    if |keys| == 0 then []
    else
      var rest := MissingSuggestions(keys[..|keys| - 1], counts, total);
      var k := keys[|keys| - 1];
      var c := if k in counts then counts[k] else 0;
      if 5 * c > total then rest + [HighMissingRate(k, c, total)] else rest
  }

  /** A field whose values come in more than one `typeof`. */
  function TypeSuggestions(keys: seq<string>, tallies: map<string, Tally>): seq<Suggestion>
    decreases |keys|
  {
    if |keys| == 0 then []
    else
      var rest := TypeSuggestions(keys[..|keys| - 1], tallies);
      var k := keys[|keys| - 1];
      if k in tallies && |tallies[k].keys| > 1 then rest + [InconsistentTypes(k, tallies[k].keys)] else rest
  }

  /** The suggestions a report calls for, in the order they are added. */
  function SuggestionsFor(r: Report): seq<Suggestion>
  {
    MissingSuggestions(r.missingFields.keys, r.missingFields.entries, r.totalRecords)
    + (if r.duplicates > 0 then [DuplicatesFound(r.duplicates, r.totalRecords)] else [])
    + TypeSuggestions(r.dataTypes.keys, r.dataTypes.entries)
    + (if |r.outliers| > 0 then [OutliersFound(|r.outliers|)] else [])
    + (if r.score.Points? && r.score.points < 60 then [LowQuality] else [])
  }

  /** `generateSuggestions`: appends to the report's suggestions. */
  method GenerateSuggestions(report: Report) returns (suggestions: seq<Suggestion>)
    ensures suggestions == report.suggestions + SuggestionsFor(report)
  {
    suggestions := report.suggestions;
    var missing := report.missingFields;
    var i := 0;
    while i < |missing.keys|
      invariant 0 <= i <= |missing.keys|
      invariant suggestions == report.suggestions + MissingSuggestions(missing.keys[..i], missing.entries, report.totalRecords)
    {
      MissingSuggestionsStep(missing.keys, i, missing.entries, report.totalRecords);
      var field := missing.keys[i];
      var count := if field in missing.entries then missing.entries[field] else 0;
      if 5 * count > report.totalRecords {
        AppendAssociates(report.suggestions, MissingSuggestions(missing.keys[..i], missing.entries, report.totalRecords),
          [HighMissingRate(field, count, report.totalRecords)]);
        suggestions := suggestions + [HighMissingRate(field, count, report.totalRecords)];
      }
      i := i + 1;
    }
    assert missing.keys[..i] == missing.keys;
    if report.duplicates > 0 {
      suggestions := suggestions + [DuplicatesFound(report.duplicates, report.totalRecords)];
    }
    var types := report.dataTypes;
    var before := suggestions;
    i := 0;
    while i < |types.keys|
      invariant 0 <= i <= |types.keys|
      invariant suggestions == before + TypeSuggestions(types.keys[..i], types.entries)
    {
      TypeSuggestionsStep(types.keys, i, types.entries);
      var field := types.keys[i];
      if field in types.entries && |types.entries[field].keys| > 1 {
        AppendAssociates(before, TypeSuggestions(types.keys[..i], types.entries),
          [InconsistentTypes(field, types.entries[field].keys)]);
        suggestions := suggestions + [InconsistentTypes(field, types.entries[field].keys)];
      }
      i := i + 1;
    }
    assert types.keys[..i] == types.keys;
    if |report.outliers| > 0 {
      suggestions := suggestions + [OutliersFound(|report.outliers|)];
    }
    if report.score.Points? && report.score.points < 60 {
      suggestions := suggestions + [LowQuality];
    }
    SuggestionsInOrder(report, before);
  }

  lemma MissingSuggestionsStep(keys: seq<string>, i: nat, counts: map<string, nat>, total: nat)
    requires i < |keys|
    ensures var c := if keys[i] in counts then counts[keys[i]] else 0;
      MissingSuggestions(keys[..i + 1], counts, total) ==
        if 5 * c > total then MissingSuggestions(keys[..i], counts, total) + [HighMissingRate(keys[i], c, total)]
        else MissingSuggestions(keys[..i], counts, total)
  {
    assert keys[..i + 1][..i] == keys[..i];
  }

  lemma TypeSuggestionsStep(keys: seq<string>, i: nat, tallies: map<string, Tally>)
    requires i < |keys|
    ensures TypeSuggestions(keys[..i + 1], tallies) ==
      if keys[i] in tallies && |tallies[keys[i]].keys| > 1
      then TypeSuggestions(keys[..i], tallies) + [InconsistentTypes(keys[i], tallies[keys[i]].keys)]
      else TypeSuggestions(keys[..i], tallies)
  {
    assert keys[..i + 1][..i] == keys[..i];
  }

  /** The pieces appended one after another make up the suggestions the
      report calls for. */
  lemma SuggestionsInOrder(r: Report, before: seq<Suggestion>)
    requires before == r.suggestions
      + MissingSuggestions(r.missingFields.keys, r.missingFields.entries, r.totalRecords)
      + (if r.duplicates > 0 then [DuplicatesFound(r.duplicates, r.totalRecords)] else [])
    ensures before + TypeSuggestions(r.dataTypes.keys, r.dataTypes.entries)
      + (if |r.outliers| > 0 then [OutliersFound(|r.outliers|)] else [])
      + (if r.score.Points? && r.score.points < 60 then [LowQuality] else [])
      == r.suggestions + SuggestionsFor(r)
  {
    var m := MissingSuggestions(r.missingFields.keys, r.missingFields.entries, r.totalRecords);
    var d := if r.duplicates > 0 then [DuplicatesFound(r.duplicates, r.totalRecords)] else [];
    var t := TypeSuggestions(r.dataTypes.keys, r.dataTypes.entries);
    var o := if |r.outliers| > 0 then [OutliersFound(|r.outliers|)] else [];
    var l := if r.score.Points? && r.score.points < 60 then [LowQuality] else [];
    var s := r.suggestions;
    AppendAssociates(s, m, d);
    AppendAssociates(s, m + d, t);
    AppendAssociates(s, m + d + t, o);
    AppendAssociates(s, m + d + t + o, l);
  }

  /** The sum of the counts of `keys`, in key order. */
  function SumCounts(keys: seq<string>, counts: map<string, nat>): nat
    decreases |keys|
  {
    if |keys| == 0 then 0
    else
      var k := keys[|keys| - 1];
      SumCounts(keys[..|keys| - 1], counts) + if k in counts then counts[k] else 0
  }

  /** `calculateQualityScore`: 100 less 40 per invalid record, 20 per
      duplicate and 10 per outlier, each as a share of the records, and 30
      times the average missing rate over the fields. With no fields that
      average is `0 / 0`, so the score is NaN. */
  function ScoreFrom(total: nat, invalid: nat, duplicates: nat, fieldCount: nat, missing: nat, outliers: nat): (s: Score)
    ensures s.Points? ==> 0 <= s.points <= 100
    ensures s.NotANumber? <==> total > 0 && fieldCount == 0
    // nothing invalid, repeated, missing or out of line scores 100
    ensures total > 0 && fieldCount > 0 && invalid == 0 && duplicates == 0 && missing == 0 && outliers == 0
      ==> s == Points(100)
  {
    if total == 0 then Points(0)
    else if fieldCount == 0 then NotANumber
    else Points(Max(0, RoundHalfUp(RawScore(total, invalid, duplicates, fieldCount, missing, outliers))))
  }

  /** The score before rounding and clamping. */
  function RawScore(total: nat, invalid: nat, duplicates: nat, fieldCount: nat, missing: nat, outliers: nat): (score: real)
    requires total > 0 && fieldCount > 0
    ensures score <= 100.0
  {
    var t := total as real;
    100.0 - Share(invalid, t) * 40.0 - Share(duplicates, t) * 20.0
    - Share(missing, t * fieldCount as real) * 30.0 - Share(outliers, t) * 10.0
  }

  /** `part / whole`. */
  function Share(part: nat, whole: real): (r: real)
    requires whole > 0.0
    ensures r >= 0.0
  {
    part as real / whole
  }

  lemma ShareMonotone(a: nat, b: nat, whole: real)
    requires a <= b && whole > 0.0
    ensures Share(a, whole) <= Share(b, whole)
  {
    var x, y := a as real / whole, b as real / whole;
    assert x * whole == a as real && y * whole == b as real;
    assert (y - x) * whole >= 0.0;
  }

  /** The score of a report; the score already in it plays no part. */
  function QualityScore(r: Report): Score
  {
    ScoreFrom(r.totalRecords, r.invalidRecords, r.duplicates, |r.missingFields.keys|,
      SumCounts(r.missingFields.keys, r.missingFields.entries), |r.outliers|)
  }

  // ---------------------------------------------------------------------
  // The pass

  /** Both tables start with every field at zero, in field order. */
  method InitCounters(fields: seq<string>) returns (missing: OMap<string, nat>, types: OMap<string, Tally>)
    requires Distinct(fields)
    ensures missing.Valid() && missing.keys == fields
    ensures types.Valid() && types.keys == fields
    ensures forall k :: 0 <= k < |fields| ==> missing.entries[fields[k]] == 0 && types.entries[fields[k]] == Empty()
  {
    missing, types := Empty(), Empty();
    var j := 0;
    while j < |fields|
      invariant 0 <= j <= |fields|
      invariant missing.Valid() && missing.keys == fields[..j]
      invariant types.Valid() && types.keys == fields[..j]
      invariant forall k :: 0 <= k < j ==> missing.entries[fields[k]] == 0 && types.entries[fields[k]] == Empty()
    {
      assert forall k :: 0 <= k < j ==> fields[k] != fields[j];
      assert fields[j] !in fields[..j] by {
        assert forall k :: 0 <= k < j ==> fields[..j][k] == fields[k];
      }
      assert fields[..j + 1] == fields[..j] + [fields[j]];
      missing := missing.Set(fields[j], 0);
      types := types.Set(fields[j], Empty());
      j := j + 1;
    }
    assert fields[..j] == fields;
  }

  /** The field loop for record `i`: a missing value is counted, a present
      one tallied by type. `present` tells whether no field was missing. */
  method CountFields(data: seq<Record>, i: nat, fields: seq<string>, missing0: OMap<string, nat>, types0: OMap<string, Tally>)
    returns (missing: OMap<string, nat>, types: OMap<string, Tally>, present: bool)
    requires i < |data| && Distinct(fields)
    requires missing0.Valid() && missing0.keys == fields
    requires types0.Valid() && types0.keys == fields
    requires forall k :: 0 <= k < |fields| ==> missing0.entries[fields[k]] == MissingCount(data, fields[k], i)
    requires forall k :: 0 <= k < |fields| ==> types0.entries[fields[k]] == TypeTally(data, fields[k], i)
    ensures missing.Valid() && missing.keys == fields
    ensures types.Valid() && types.keys == fields
    ensures forall k :: 0 <= k < |fields| ==> missing.entries[fields[k]] == MissingCount(data, fields[k], i + 1)
    ensures forall k :: 0 <= k < |fields| ==> types.entries[fields[k]] == TypeTally(data, fields[k], i + 1)
    ensures present == NoneMissing(data[i], fields)
  {
    missing, types, present := missing0, types0, true;
    var record := data[i];
    var j := 0;
    while j < |fields|
      invariant 0 <= j <= |fields|
      invariant present == NoneMissing(record, fields[..j])
      invariant CountedUpTo(data, i, fields, j, missing, types)
    {
      var field := fields[j];
      NoneMissingSnoc(record, fields, j);
      if IsMissing(Get(record, field)) {
        present := false;
      }
      missing, types := CountField(data, i, fields, j, missing, types);
      j := j + 1;
    }
    assert fields[..j] == fields;
  }

  lemma NoneMissingSnoc(r: Record, fields: seq<string>, j: nat)
    requires j < |fields|
    ensures NoneMissing(r, fields[..j + 1]) == (NoneMissing(r, fields[..j]) && !IsMissing(Get(r, fields[j])))
  {
    assert fields[..j + 1] == fields[..j] + [fields[j]];
  }

  /** The counters after the first `j` fields of record `i`: those fields
      count records `0..i`, the others records `0..i-1`. */
  ghost predicate CountedUpTo(data: seq<Record>, i: nat, fields: seq<string>, j: nat,
                              missing: OMap<string, nat>, types: OMap<string, Tally>)
    requires i < |data| && j <= |fields|
  {
    MissingCounted(data, i, fields, j, missing) && TypesCounted(data, i, fields, j, types)
  }

  ghost predicate MissingCounted(data: seq<Record>, i: nat, fields: seq<string>, j: nat, missing: OMap<string, nat>)
    requires i < |data| && j <= |fields|
  {
    && missing.Valid() && missing.keys == fields
    && (forall k :: 0 <= k < |fields| ==> fields[k] in missing.entries)
    && (forall k :: 0 <= k < j ==> missing.entries[fields[k]] == MissingCount(data, fields[k], i + 1))
    && (forall k :: j <= k < |fields| ==> missing.entries[fields[k]] == MissingCount(data, fields[k], i))
  }

  ghost predicate TypesCounted(data: seq<Record>, i: nat, fields: seq<string>, j: nat, types: OMap<string, Tally>)
    requires i < |data| && j <= |fields|
  {
    && types.Valid() && types.keys == fields
    && (forall k :: 0 <= k < |fields| ==> fields[k] in types.entries)
    && (forall k :: 0 <= k < j ==> types.entries[fields[k]] == TypeTally(data, fields[k], i + 1))
    && (forall k :: j <= k < |fields| ==> types.entries[fields[k]] == TypeTally(data, fields[k], i))
  }

  /** One field of record `i`: its missing count goes up by one, or its
      value's type is tallied. */
  method CountField(data: seq<Record>, i: nat, fields: seq<string>, j: nat, missing0: OMap<string, nat>, types0: OMap<string, Tally>)
    returns (missing: OMap<string, nat>, types: OMap<string, Tally>)
    requires i < |data| && j < |fields| && Distinct(fields)
    requires CountedUpTo(data, i, fields, j, missing0, types0)
    ensures CountedUpTo(data, i, fields, j + 1, missing, types)
  {
    missing, types := missing0, types0;
    var field := fields[j];
    var v := Get(data[i], field);
    assert field in missing.entries && field in types.entries;
    if IsMissing(v) {
      missing := missing.Set(field, missing.entries[field] + 1);
    } else {
      types := types.Set(field, Bump(types.entries[field], TypeOf(v)));
    }
    MissingAdvance(data, i, fields, j, missing0);
    TypesAdvance(data, i, fields, j, types0);
  }

  lemma MissingAdvance(data: seq<Record>, i: nat, fields: seq<string>, j: nat, missing: OMap<string, nat>)
    requires i < |data| && j < |fields| && Distinct(fields)
    requires MissingCounted(data, i, fields, j, missing)
    ensures fields[j] in missing.entries
    ensures MissingCounted(data, i, fields, j + 1,
      if IsMissing(Get(data[i], fields[j])) then missing.Set(fields[j], missing.entries[fields[j]] + 1) else missing)
  {
    var f := fields[j];
    assert f in missing.entries;
    var m := if IsMissing(Get(data[i], f)) then missing.Set(f, missing.entries[f] + 1) else missing;
    forall k | 0 <= k < |fields| && k != j
      ensures m.entries[fields[k]] == missing.entries[fields[k]]
    {
      assert fields[k] != f;
    }
    assert m.entries[f] == MissingCount(data, f, i + 1);
  }

  lemma TypesAdvance(data: seq<Record>, i: nat, fields: seq<string>, j: nat, types: OMap<string, Tally>)
    requires i < |data| && j < |fields| && Distinct(fields)
    requires TypesCounted(data, i, fields, j, types)
    ensures fields[j] in types.entries
    ensures TypesCounted(data, i, fields, j + 1,
      if IsMissing(Get(data[i], fields[j])) then types
      else types.Set(fields[j], Bump(types.entries[fields[j]], TypeOf(Get(data[i], fields[j])))))
  {
    var f := fields[j];
    assert f in types.entries;
    var v := Get(data[i], f);
    var t := if IsMissing(v) then types else types.Set(f, Bump(types.entries[f], TypeOf(v)));
    forall k | 0 <= k < |fields| && k != j
      ensures t.entries[fields[k]] == types.entries[fields[k]]
    {
      assert fields[k] != f;
    }
    assert t.entries[f] == TypeTally(data, f, i + 1);
  }

  /** The rule loop: whether every rule passes on the record. */
  method CheckRules(record: Record, rules: seq<Rule>) returns (ok: bool)
    ensures ok == PassesRules(record, rules)
  {
    ok := true;
    var m := 0;
    while m < |rules|
      invariant 0 <= m <= |rules|
      invariant ok == forall k :: 0 <= k < m ==> ValidateField(Get(record, rules[k].field), rules[k].kind)
    {
      if !ValidateField(Get(record, rules[m].field), rules[m].kind) {
        ok := false;
      }
      m := m + 1;
    }
  }

  /** The outlier loop over the fields. */
  method CollectOutliers(data: seq<Record>, fields: seq<string>) returns (outliers: seq<Outlier>)
    ensures outliers == OutliersFor(data, fields)
  {
    outliers := [];
    var j := 0;
    while j < |fields|
      invariant 0 <= j <= |fields|
      invariant outliers == OutliersFor(data, fields[..j])
    {
      assert fields[..j + 1][..j] == fields[..j];
      var values := NumberValues(data, fields[j]);
      if |values| > 10 {
        var found := DetectOutliers(values);
        outliers := outliers + Tagged(fields[j], found);
      }
      j := j + 1;
    }
    assert fields[..j] == fields;
  }

  /** The JSON texts of the first `n` records. */
  function Seen(data: seq<Record>, n: nat): set<Record>
    requires n <= |data|
  {
    if n == 0 then {} else Seen(data, n - 1) + {Fingerprint(data[n - 1])}
  }

  lemma {:induction false} SeenStep(data: seq<Record>, i: nat)
    requires i < |data|
    ensures Fingerprint(data[i]) in Seen(data, i) <==> Repeated(data, i)
  {
    if Fingerprint(data[i]) in Seen(data, i) {
      SeenFrom(data, i, Fingerprint(data[i]));
    } else {
      forall j | 0 <= j < i ensures Fingerprint(data[j]) != Fingerprint(data[i]) {
        SeenHas(data, i, j);
      }
    }
  }

  lemma {:induction false} SeenFrom(data: seq<Record>, n: nat, h: Record)
    requires n <= |data| && h in Seen(data, n)
    ensures exists j :: 0 <= j < n && Fingerprint(data[j]) == h
  {
    if h != Fingerprint(data[n - 1]) {
      SeenFrom(data, n - 1, h);
    }
  }

  lemma {:induction false} SeenHas(data: seq<Record>, n: nat, j: nat)
    requires j < n <= |data|
    ensures Fingerprint(data[j]) in Seen(data, n)
  {
    if j < n - 1 {
      SeenHas(data, n - 1, j);
    }
  }

  /** The body of the record loop for record `i`. */
  method CheckRecord(data: seq<Record>, i: nat, fields: seq<string>, rules: seq<Rule>,
                     seen0: set<Record>, missing0: OMap<string, nat>, types0: OMap<string, Tally>)
    returns (seen: set<Record>, missing: OMap<string, nat>, types: OMap<string, Tally>, repeated: bool, isValid: bool)
    requires i < |data| && Distinct(fields)
    requires seen0 == Seen(data, i)
    requires missing0.Valid() && missing0.keys == fields
    requires types0.Valid() && types0.keys == fields
    requires forall k :: 0 <= k < |fields| ==> missing0.entries[fields[k]] == MissingCount(data, fields[k], i)
    requires forall k :: 0 <= k < |fields| ==> types0.entries[fields[k]] == TypeTally(data, fields[k], i)
    ensures seen == Seen(data, i + 1)
    ensures repeated == Repeated(data, i)
    ensures isValid == RecordValid(data, fields, rules, i)
    ensures missing.Valid() && missing.keys == fields
    ensures types.Valid() && types.keys == fields
    ensures forall k :: 0 <= k < |fields| ==> missing.entries[fields[k]] == MissingCount(data, fields[k], i + 1)
    ensures forall k :: 0 <= k < |fields| ==> types.entries[fields[k]] == TypeTally(data, fields[k], i + 1)
  {
    seen := seen0;
    isValid := true;
    var hash := Fingerprint(data[i]);
    SeenStep(data, i);
    repeated := hash in seen;
    if repeated {
      isValid := false;
    } else {
      seen := seen + {hash};
    }
    var present;
    missing, types, present := CountFields(data, i, fields, missing0, types0);
    var passes := CheckRules(data[i], rules);
    isValid := isValid && present && passes;
  }

  /** The record loop: the duplicate, valid and invalid counts and the two
      tables, over the whole batch. */
  method CountRecords(data: seq<Record>, fields: seq<string>, rules: seq<Rule>)
    returns (duplicates: nat, valid: nat, invalid: nat, missing: OMap<string, nat>, types: OMap<string, Tally>)
    requires Distinct(fields)
    ensures duplicates == Duplicates(data, |data|)
    ensures valid == ValidCount(data, fields, rules, |data|)
    ensures invalid == InvalidCount(data, fields, rules, |data|)
    ensures missing.Valid() && missing.keys == fields
    ensures types.Valid() && types.keys == fields
    ensures forall k :: 0 <= k < |fields| ==> missing.entries[fields[k]] == MissingCount(data, fields[k], |data|)
    ensures forall k :: 0 <= k < |fields| ==> types.entries[fields[k]] == TypeTally(data, fields[k], |data|)
  {
    missing, types := InitCounters(fields);
    var seen: set<Record> := {};
    duplicates, valid, invalid := 0, 0, 0;
    var i := 0;
    while i < |data|
      invariant 0 <= i <= |data|
      invariant seen == Seen(data, i)
      invariant duplicates == Duplicates(data, i)
      invariant valid == ValidCount(data, fields, rules, i)
      invariant invalid == InvalidCount(data, fields, rules, i)
      invariant missing.Valid() && missing.keys == fields
      invariant types.Valid() && types.keys == fields
      invariant forall k :: 0 <= k < |fields| ==> missing.entries[fields[k]] == MissingCount(data, fields[k], i)
      invariant forall k :: 0 <= k < |fields| ==> types.entries[fields[k]] == TypeTally(data, fields[k], i)
    {
      var repeated, isValid;
      seen, missing, types, repeated, isValid := CheckRecord(data, i, fields, rules, seen, missing, types);
      if repeated {
        duplicates := duplicates + 1;
      }
      if isValid {
        valid := valid + 1;
      } else {
        invalid := invalid + 1;
      }
      i := i + 1;
    }
  }

  /** `rules` is empty when none are given. Objects never repeat a key, so
      neither do the first record's fields. */
  method ValidateDataQuality(data: seq<Record>, rules: seq<Rule>) returns (report: Report)
    requires |data| > 0 ==> WellFormed(data[0])
    ensures |data| == 0 ==> report == Report(0, 0, 0, 0, Empty(), Empty(), [], [NoData], Points(0))
    ensures |data| > 0 ==>
      var fields := Keys(data[0]);
      && report.totalRecords == |data|
      && report.duplicates == Duplicates(data, |data|)
      && report.validRecords == ValidCount(data, fields, rules, |data|)
      && report.invalidRecords == InvalidCount(data, fields, rules, |data|)
      && report.missingFields.Valid() && report.missingFields.keys == fields
      && (forall k :: 0 <= k < |fields| ==> report.missingFields.entries[fields[k]] == MissingCount(data, fields[k], |data|))
      && report.dataTypes.Valid() && report.dataTypes.keys == fields
      && (forall k :: 0 <= k < |fields| ==> report.dataTypes.entries[fields[k]] == TypeTally(data, fields[k], |data|))
      && report.outliers == OutliersFor(data, fields)
      // the suggestions are made while the score is still 0
      && report.suggestions == SuggestionsFor(report.(score := Points(0)))
      && report.suggestions[|report.suggestions| - 1] == LowQuality
      && report.score == QualityScore(report)
  {
    if |data| == 0 {
      return Report(0, 0, 0, 0, Empty(), Empty(), [], [NoData], Points(0));
    }
    var fields := Keys(data[0]);
    var duplicates, valid, invalid, missing, types := CountRecords(data, fields, rules);
    var outliers := CollectOutliers(data, fields);
    report := Report(|data|, valid, invalid, duplicates, missing, types, outliers, [], Points(0));
    var suggestions := GenerateSuggestions(report);
    assert SuggestionsFor(report) == SuggestionsFor(report.(suggestions := suggestions));
    report := report.(suggestions := suggestions);
    report := report.(score := QualityScore(report));
  }

  // ---------------------------------------------------------------------
  // Properties

  /** Every record is counted once, as valid or as invalid. */
  lemma {:induction false} ValidPlusInvalid(data: seq<Record>, fields: seq<string>, rules: seq<Rule>, n: nat)
    requires n <= |data|
    ensures ValidCount(data, fields, rules, n) + InvalidCount(data, fields, rules, n) == n
  {
    if n > 0 {
      ValidPlusInvalid(data, fields, rules, n - 1);
    }
  }

  /** A repeated record is never valid, so the duplicates are among the
      invalid records. */
  lemma {:induction false} DuplicatesAreInvalid(data: seq<Record>, fields: seq<string>, rules: seq<Rule>, n: nat)
    requires n <= |data|
    ensures Duplicates(data, n) <= InvalidCount(data, fields, rules, n)
  {
    if n > 0 {
      DuplicatesAreInvalid(data, fields, rules, n - 1);
    }
  }

  /** The total of a tally. */
  function TallySum(t: Tally): nat
  {
    SumCounts(t.keys, t.entries)
  }

  lemma {:induction false} SumCountsUnaffected(keys: seq<string>, counts: map<string, nat>, k: string, c: nat)
    requires k !in keys
    ensures SumCounts(keys, counts[k := c]) == SumCounts(keys, counts)
    decreases |keys|
  {
    if |keys| > 0 {
      assert keys[|keys| - 1] != k;
      SumCountsUnaffected(keys[..|keys| - 1], counts, k, c);
    }
  }

  lemma {:induction false} SumCountsUpdate(keys: seq<string>, counts: map<string, nat>, k: string, c: nat)
    requires Distinct(keys) && k in keys && k in counts
    ensures SumCounts(keys, counts[k := c]) + counts[k] == SumCounts(keys, counts) + c
    decreases |keys|
  {
    var init := keys[..|keys| - 1];
    var last := keys[|keys| - 1];
    assert keys == init + [last];
    if last == k {
      assert k !in init by {
        assert forall j :: 0 <= j < |init| ==> init[j] == keys[j] != keys[|keys| - 1];
      }
      SumCountsUnaffected(init, counts, k, c);
    } else {
      assert Distinct(init) by {
        assert forall j :: 0 <= j < |init| ==> init[j] == keys[j];
      }
      SumCountsUpdate(init, counts, k, c);
    }
  }

  /** Tallying a value adds one to the tally's total. */
  lemma BumpSum(t: Tally, name: string)
    requires t.Valid()
    ensures Bump(t, name).Valid()
    ensures TallySum(Bump(t, name)) == TallySum(t) + 1
  {
    if name in t.entries {
      SumCountsUpdate(t.keys, t.entries, name, t.entries[name] + 1);
    } else {
      var b := Bump(t, name);
      assert b.keys[..|b.keys| - 1] == t.keys;
      SumCountsUnaffected(t.keys, t.entries, name, 1);
    }
  }

  /** For every field, the records missing it and the records whose value
      was tallied by type together make up all records. */
  lemma {:induction false} MissingPlusTyped(data: seq<Record>, f: string, n: nat)
    requires n <= |data|
    ensures TypeTally(data, f, n).Valid()
    ensures MissingCount(data, f, n) + TallySum(TypeTally(data, f, n)) == n
  {
    if n > 0 {
      MissingPlusTyped(data, f, n - 1);
      var v := Get(data[n - 1], f);
      if !IsMissing(v) {
        BumpSum(TypeTally(data, f, n - 1), TypeOf(v));
      }
    }
  }

  /** Every name in a type tally is the `typeof` of a present value of the
      field. */
  lemma {:induction false} TallyNamesAreTypes(data: seq<Record>, f: string, n: nat, name: string)
    requires n <= |data| && name in TypeTally(data, f, n).entries
    ensures exists j :: 0 <= j < n && !IsMissing(Get(data[j], f)) && TypeOf(Get(data[j], f)) == name
  {
    var v := Get(data[n - 1], f);
    if IsMissing(v) || TypeOf(v) != name {
      TallyNamesAreTypes(data, f, n - 1, name);
    }
  }

  /** Penalties only lower the score: more invalid records, duplicates,
      missing values or outliers never raise it. */
  lemma ScoreMonotone(total: nat, fieldCount: nat,
                      invalid: nat, duplicates: nat, missing: nat, outliers: nat,
                      invalid': nat, duplicates': nat, missing': nat, outliers': nat)
    requires total > 0 && fieldCount > 0
    requires invalid <= invalid' && duplicates <= duplicates' && missing <= missing' && outliers <= outliers'
    ensures ScoreFrom(total, invalid', duplicates', fieldCount, missing', outliers').points
         <= ScoreFrom(total, invalid, duplicates, fieldCount, missing, outliers).points
  {
    var t := total as real;
    ShareMonotone(invalid, invalid', t);
    ShareMonotone(duplicates, duplicates', t);
    ShareMonotone(missing, missing', t * fieldCount as real);
    ShareMonotone(outliers, outliers', t);
    var s := RawScore(total, invalid, duplicates, fieldCount, missing, outliers);
    var s' := RawScore(total, invalid', duplicates', fieldCount, missing', outliers');
    assert RoundHalfUp(s') <= RoundHalfUp(s);
  }

  /** An outlier of field `f` is one of the field's numbers, beyond two
      deviations of them; the field has more than ten numbers and no NaN. */
  lemma FieldOutliersExact(data: seq<Record>, f: string, o: Outlier)
    ensures o in FieldOutliers(data, f) <==>
      var vs := NumberValues(data, f);
      && |vs| > 10 && Reals(vs).Some? && o.field == f
      && o.value in Reals(vs).value
      && Beyond(o.value, Mean(Reals(vs).value), Variance(Reals(vs).value))
  {
    var vs := NumberValues(data, f);
    if |vs| > 10 && Reals(vs).Some? {
      var xs := Reals(vs).value;
      RealsExact(vs);
      FlaggedExact(xs, Mean(xs), Variance(xs));
      var found := OutliersOf(xs);
      assert o in Tagged(f, found) <==> o.field == f && o.value in found by {
        if o.field == f && o.value in found {
          var m :| 0 <= m < |found| && found[m] == o.value;
          assert Tagged(f, found)[m] == o;
        }
      }
    }
  }

  /** Fewer than a quarter of a field's numbers are reported. */
  lemma FieldOutliersFew(data: seq<Record>, f: string)
    ensures 4 * |FieldOutliers(data, f)| < |NumberValues(data, f)| || FieldOutliers(data, f) == []
  {
    var vs := NumberValues(data, f);
    if |vs| > 10 && Reals(vs).Some? {
      RealsExact(vs);
      OutliersFewerThanQuarter(Reals(vs).value);
    }
  }

  /** The values collected for a field are exactly its values of type
      `'number'`, in record order and with their multiplicity. */
  lemma NumberValuesExact(data: seq<Record>, f: string)
    ensures forall v :: v in NumberValues(data, f) <==>
      IsNumber(v) && exists j :: 0 <= j < |data| && Get(data[j], f) == v
    ensures IsSubsequence(NumberValues(data, f), Column(data, f))
    ensures forall v :: multiset(NumberValues(data, f))[v] == if IsNumber(v) then multiset(Column(data, f))[v] else 0
  {
    NumberValuesColumn(data, f);
    forall v ensures v in NumberValues(data, f) <==>
      IsNumber(v) && exists j :: 0 <= j < |data| && Get(data[j], f) == v
    {
      NumberValuesHas(data, f, v);
    }
  }

  lemma {:induction false} NumberValuesColumn(data: seq<Record>, f: string)
    ensures IsSubsequence(NumberValues(data, f), Column(data, f))
    ensures forall v :: multiset(NumberValues(data, f))[v] == if IsNumber(v) then multiset(Column(data, f))[v] else 0
    decreases |data|
  {
    if |data| > 0 {
      var n := |data| - 1;
      var init := data[..n];
      var w := Get(data[n], f);
      assert Column(data, f) == Column(init, f) + [w];
      NumberValuesColumn(init, f);
      SubsequenceExtend(NumberValues(init, f), Column(init, f), w, IsNumber(w));
    }
  }

  lemma {:induction false} NumberValuesHas(data: seq<Record>, f: string, v: Value)
    ensures v in NumberValues(data, f) <==>
      IsNumber(v) && exists j :: 0 <= j < |data| && Get(data[j], f) == v
    decreases |data|
  {
    if |data| > 0 {
      var n := |data| - 1;
      var init := data[..n];
      var rest, w := NumberValues(init, f), Get(data[n], f);
      assert NumberValues(data, f) == if IsNumber(w) then rest + [w] else rest;
      NumberValuesHas(init, f, v);
      if v in NumberValues(data, f) {
        if v in rest {
          var j :| 0 <= j < n && Get(init[j], f) == v;
          assert Get(data[j], f) == v;
        } else {
          assert Get(data[n], f) == v;
        }
      }
      if IsNumber(v) && exists j :: 0 <= j < |data| && Get(data[j], f) == v {
        var j :| 0 <= j < |data| && Get(data[j], f) == v;
        if j < n {
          assert Get(init[j], f) == v;
        } else {
          assert j == n;
          assert w == v && IsNumber(w);
          assert (rest + [w])[|rest|] == v;
        }
      }
    }
  }




}
