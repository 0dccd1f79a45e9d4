/** The record-at-a-time steps of a data pipeline: filter, transform, sort
    and enrich. Each maps a batch of records to a new batch. */
module PipelineSteps {
  import opened Common
  import opened Text
  import opened Values
  import opened Sorting
  import opened Numbers

  /** What the steps may not compute themselves: the current time as ISO
      8601 text, the sha256 hex digest of a JSON value, and `new Date(v)`. */
  datatype Env = Env(now: string, digest: Value -> string, toDate: Value -> Value)

  // ---------------------------------------------------------------------
  // filter

  datatype FilterOperator =
    | Equals | NotEquals | Contains | GreaterThan | LessThan | InList | NotNull
    | OtherOperator

  datatype FilterConfig = FilterConfig(field: string, operator: FilterOperator, value: Value)

  /** Whether the filter keeps record `r`. */
  predicate Passes(r: Record, c: FilterConfig)
  {
    var v := Get(r, c.field);
    match c.operator
    case Equals => StrictEquals(v, c.value)
    case NotEquals => !StrictEquals(v, c.value)
    case Contains => Includes(ToText(v), ToText(c.value))
    case GreaterThan => Less(c.value, v)
    case LessThan => Less(v, c.value)
    case InList => c.value.Arr? && exists i :: 0 <= i < |c.value.items| && SameValueZero(c.value.items[i], v)
    case NotNull => !IsNullish(v)
    case OtherOperator => true
  }

  /** `data.filter(...)`: the records that pass, in their input order. */
  function Filter(data: seq<Record>, c: FilterConfig): (r: seq<Record>)
    ensures IsSubsequence(r, data)
    ensures forall x :: x in r <==> x in data && Passes(x, c)
    ensures forall x :: multiset(r)[x] == if Passes(x, c) then multiset(data)[x] else 0
    decreases |data|
  {
    if |data| == 0 then []
    else
      var init := data[..|data| - 1];
      var last := data[|data| - 1];
      assert data == init + [last];
      SubsequenceExtend(Filter(init, c), init, last, Passes(last, c));
      if Passes(last, c) then Filter(init, c) + [last] else Filter(init, c)
  }

  /** An unknown operator keeps the whole batch. */
  lemma FilterOtherKeepsAll(data: seq<Record>, c: FilterConfig)
    requires c.operator == OtherOperator
    ensures Filter(data, c) == data
  {
    var r := Filter(data, c);
    forall x ensures multiset(r)[x] == multiset(data)[x] {
      OtherPasses(x, c);
    }
    assert multiset(r) == multiset(data);
    assert |r| == |multiset(r)| == |multiset(data)| == |data|;
    SubsequenceFull(r, data);
  }

  lemma OtherPasses(r: Record, c: FilterConfig)
    requires c.operator == OtherOperator
    ensures Passes(r, c)
  {
  }


  // ---------------------------------------------------------------------
  // transform

  datatype Transformation =
    | ToUpper
    | ToLower
    | TrimText
    | ReplaceText(from: string, to: string)
    | SubstringOf(start: int, end: Option<int>)
    | ParseNum
    | ParseDate
    | ConcatFields(fields: seq<string>, separator: Value)
    | MultiplyBy(factor: Value)
    | RoundTo(decimals: int)
    | OtherTransformation

  /** `outputField` is the empty string when the step gives none. */
  datatype TransformConfig = TransformConfig(field: string, transformation: Transformation, outputField: string)

  /** `params.outputField || field`. */
  function OutputKey(c: TransformConfig): (k: string)
    ensures c.outputField != "" ==> k == c.outputField
    ensures c.outputField == "" ==> k == c.field
  {
    if c.outputField != "" then c.outputField else c.field
  }

  /** 10 to the power `d`, for a whole `d` of either sign. */
  function Pow10Real(d: int): (p: real)
    ensures p > 0.0
  {
    if d >= 0 then Pow10(d) as real else 1.0 / (Pow10(-d) as real)
  }

  /** The new value the transformation computes from record `r`. */
  function Transformed(r: Record, c: TransformConfig, env: Env): Value
  {
    var v := Get(r, c.field);
    match c.transformation
    case ToUpper => Str(Upper(ToText(v)))
    case ToLower => Str(Lower(ToText(v)))
    case TrimText => Str(Trim(ToText(v)))
    case ReplaceText(from, to) => Str(ReplaceFirst(ToText(v), from, to))
    case SubstringOf(start, end) => Str(Substring(ToText(v), start, end))
    case ParseNum => NumOrNaN(ParseNumber(v))
    case ParseDate => env.toDate(v)
    case ConcatFields(fields, separator) =>
      var parts := seq(|fields|, i requires 0 <= i < |fields| => Get(r, fields[i]));
      Str(Join(JoinParts(parts), if Truthy(separator) then ToText(separator) else ""))
    case MultiplyBy(factor) =>
      (match (ParseNumber(v), ToNumber(factor))
       case (Some(x), Some(f)) => Num(x * f)
       case _ => NaN)
    case RoundTo(decimals) =>
      var p := Pow10Real(decimals);
      (match ParseNumber(v)
       case Some(x) => Num(RoundHalfUp(x * p) as real / p)
       case None => NaN)
    case OtherTransformation => v
  }

  /** `data.map(record => ({...record, [key]: transformed}))`: every record
      keeps its place and all its other fields; only the output key changes,
      and it is added at the end when the record lacked it. */
  function Transform(data: seq<Record>, c: TransformConfig, env: Env): (r: seq<Record>)
    ensures |r| == |data|
    ensures forall i :: 0 <= i < |r| ==> Get(r[i], OutputKey(c)) == Transformed(data[i], c, env)
    ensures forall i, k :: 0 <= i < |r| && k != OutputKey(c) ==> Get(r[i], k) == Get(data[i], k)
    ensures forall i :: 0 <= i < |r| && Has(data[i], OutputKey(c)) ==> Keys(r[i]) == Keys(data[i])
    ensures forall i :: 0 <= i < |r| && !Has(data[i], OutputKey(c)) ==> Keys(r[i]) == Keys(data[i]) + [OutputKey(c)]
  {
    seq(|data|, i requires 0 <= i < |data| => Put(data[i], OutputKey(c), Transformed(data[i], c, env)))
  }

  /** Parsing the text of a whole number gives that number back. */
  lemma ParseNumIntText(r: Record, c: TransformConfig, env: Env, i: int)
    requires c.transformation == ParseNum && Get(r, c.field) == Str(IntText(i))
    ensures Transformed(r, c, env) == Num(i as real)
  {
    ParseFloatIntText(i);
  }

  /** Rounding a whole number to zero decimals leaves it as it is. */
  lemma RoundWholeNumber(r: Record, c: TransformConfig, env: Env, i: int)
    requires c.transformation == RoundTo(0) && Get(r, c.field) == Num(i as real)
    ensures Transformed(r, c, env) == Num(i as real)
  {
    assert Pow10Real(0) == 1.0;
    assert RoundHalfUp(i as real) == i;
  }

  // ---------------------------------------------------------------------
  // sort

  /** The comparator's order: `<` ascending, `>` for any other direction. */
  function SortLess(ascending: bool): (Value, Value) -> bool
  {
    if ascending then (a, b) => Less(a, b) else (a, b) => Less(b, a)
  }

  function FieldOf(field: string): Record -> Value
  {
    r => Get(r, field)
  }

  /** `[...data].sort(...)` by one field; the sort is stable. */
  function SortRecords(data: seq<Record>, field: string, ascending: bool): (r: seq<Record>)
    ensures multiset(r) == multiset(data)
  {
    SortByPermutes(data, FieldOf(field), SortLess(ascending));
    SortBy(data, FieldOf(field), SortLess(ascending))
  }

  /** The field holds numbers in every record, or strings in every record. */
  predicate Comparable(data: seq<Record>, field: string)
  {
    forall i, j :: 0 <= i < |data| && 0 <= j < |data| ==> SameKind(Get(data[i], field), Get(data[j], field))
  }

  lemma ComparableStrictOrder(data: seq<Record>, field: string, ascending: bool)
    requires Comparable(data, field)
    ensures StrictOrderOn(data, FieldOf(field), SortLess(ascending))
  {
    var key, less := FieldOf(field), SortLess(ascending);
    forall a | a in data ensures !less(key(a), key(a)) {
      var i :| 0 <= i < |data| && data[i] == a;
      assert SameKind(Get(data[i], field), Get(data[i], field));
      LessIrreflexive(key(a));
    }
    forall a, b, c | a in data && b in data && c in data && less(key(a), key(b)) && less(key(b), key(c))
      ensures less(key(a), key(c))
    {
      var i :| 0 <= i < |data| && data[i] == a;
      var j :| 0 <= j < |data| && data[j] == b;
      var k :| 0 <= k < |data| && data[k] == c;
      assert SameKind(Get(data[i], field), Get(data[j], field));
      assert SameKind(Get(data[j], field), Get(data[k], field));
      if ascending {
        LessTransitive(key(a), key(b), key(c));
      } else {
        LessTransitive(key(c), key(b), key(a));
      }
    }
  }

  /** On a field of one kind the result is ordered: ascending by `<`, or
      descending. */
  lemma SortRecordsOrdered(data: seq<Record>, field: string, ascending: bool)
    requires Comparable(data, field)
    ensures var r := SortRecords(data, field, ascending);
      forall i, j :: 0 <= i < j < |r| ==>
        if ascending then !Less(Get(r[j], field), Get(r[i], field))
        else !Less(Get(r[i], field), Get(r[j], field))
  {
    ComparableStrictOrder(data, field, ascending);
    SortBySorted(data, FieldOf(field), SortLess(ascending));
  }

  /** Records whose field values are equal keep their input order. */
  lemma SortRecordsStable(data: seq<Record>, field: string, ascending: bool, v: Value)
    requires Comparable(data, field)
    ensures KeyedAs(SortRecords(data, field, ascending), FieldOf(field), v) == KeyedAs(data, FieldOf(field), v)
  {
    ComparableStrictOrder(data, field, ascending);
    SortByStable(data, FieldOf(field), SortLess(ascending), v);
  }

  // ---------------------------------------------------------------------
  // enrich

  /** A field name that the step may leave out is the empty string when it
      does, since the source reads it through `||`; the hashed field is read
      without a default, so its absence is `None`. */
  datatype Enrichment =
    | Timestamp(field: string)
    | HashOf(source: Option<string>, outputField: string)
    | Sequence(field: string)
    | OtherEnrichment

  /** `name || fallback`. */
  function OrDefault(name: string, fallback: string): string
  {
    if name != "" then name else fallback
  }

  /** The key `record[params.field]` reads: an absent field is the property
      key `String(undefined)`, that is `"undefined"`. */
  function HashKey(field: Option<string>): string
  {
    match field
    case Some(f) => f
    case None => "undefined"
  }

  /** The enrichment of one record at position `i`; `None` when hashing a
      field the record lacks, where serialising gives `undefined` and the
      digest throws. */
  function EnrichRecord(r: Record, i: nat, e: Enrichment, env: Env): Option<Record>
  {
    match e
    case Timestamp(field) => Some(Put(r, OrDefault(field, "enriched_at"), Str(env.now)))
    case HashOf(source, outputField) =>
      var v := Get(r, HashKey(source));
      if v == Undefined then None
      else Some(Put(r, OrDefault(outputField, "hash"), Str(env.digest(Canon(v)))))
    case Sequence(field) => Some(Put(r, OrDefault(field, "sequence"), Num((i + 1) as real)))
    case OtherEnrichment => Some(r)
  }

  /** The enriched batch, or the error the first unhashable record raises. */
  function Enrich(data: seq<Record>, e: Enrichment, env: Env): (r: Result<seq<Record>>)
    // only hashing can fail, and exactly on a record without the hashed field
    ensures r.Err? <==> e.HashOf? && exists i :: 0 <= i < |data| && Get(data[i], HashKey(e.source)) == Undefined
    ensures r.Ok? ==> |r.value| == |data|
    ensures r.Ok? ==> forall i :: 0 <= i < |data| ==> r.value[i] == EnrichRecord(data[i], i, e, env).value
  {
    if forall i :: 0 <= i < |data| ==> EnrichRecord(data[i], i, e, env).Some? then
      Ok(seq(|data|, i requires 0 <= i < |data| && EnrichRecord(data[i], i, e, env).Some? =>
        EnrichRecord(data[i], i, e, env).value))
    else Err("The \"data\" argument must be of type string")
  }

  /** `'timestamp'` writes the current time's ISO text into the chosen field
      (default `enriched_at`) of every record and changes nothing else. */
  lemma EnrichTimestamp(data: seq<Record>, field: string, env: Env)
    ensures var r := Enrich(data, Timestamp(field), env);
      && r.Ok? && |r.value| == |data|
      && (forall i :: 0 <= i < |data| ==> Get(r.value[i], OrDefault(field, "enriched_at")) == Str(env.now))
      && (forall i, k :: 0 <= i < |data| && k != OrDefault(field, "enriched_at") ==> Get(r.value[i], k) == Get(data[i], k))
  {
  }

  /** When every record has the hashed field, `'hash'` writes the digest of
      that field's JSON text into the output field (default `hash`) and
      changes nothing else; records agreeing on the field get the same
      digest. */
  lemma EnrichHash(data: seq<Record>, field: Option<string>, outputField: string, env: Env)
    requires forall i :: 0 <= i < |data| ==> Get(data[i], HashKey(field)) != Undefined
    ensures var r := Enrich(data, HashOf(field, outputField), env);
      && r.Ok? && |r.value| == |data|
      && (forall i :: 0 <= i < |data| ==>
            Get(r.value[i], OrDefault(outputField, "hash")) == Str(env.digest(Canon(Get(data[i], HashKey(field))))))
      && (forall i, k :: 0 <= i < |data| && k != OrDefault(outputField, "hash") ==> Get(r.value[i], k) == Get(data[i], k))
      && (forall i, j :: 0 <= i < |data| && 0 <= j < |data| && Get(data[i], HashKey(field)) == Get(data[j], HashKey(field)) ==>
            Get(r.value[i], OrDefault(outputField, "hash")) == Get(r.value[j], OrDefault(outputField, "hash")))
  {
  }

  /** `'sequence'` numbers the records 1, 2, 3, ... in the chosen field and
      changes nothing else. */
  lemma EnrichSequence(data: seq<Record>, field: string, env: Env)
    ensures var r := Enrich(data, Sequence(field), env);
      && r.Ok? && |r.value| == |data|
      && (forall i :: 0 <= i < |data| ==> Get(r.value[i], OrDefault(field, "sequence")) == Num((i + 1) as real))
      && (forall i, k :: 0 <= i < |data| && k != OrDefault(field, "sequence") ==> Get(r.value[i], k) == Get(data[i], k))
  {
  }

  /** An unknown enrichment returns the batch unchanged. */
  lemma EnrichOtherUnchanged(data: seq<Record>, env: Env)
    ensures Enrich(data, OtherEnrichment, env) == Ok(data)
  {
    var r := Enrich(data, OtherEnrichment, env);
    assert r.Ok?;
    assert r.value == data;
  }
}
