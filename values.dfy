/** The dynamically typed values the batches carry, and records: objects
    whose own keys keep their insertion order, as `Object.keys`, spreading
    and `JSON.stringify` see them. */
module Values {
  import opened Common
  import opened Text

  datatype Value =
    | Undefined
    | Null
    | Bool(b: bool)
    | Num(n: real)
    | NaN
    | Str(s: string)
    | Arr(items: seq<Value>)
    | Obj(fields: seq<Field>)

  datatype Field = Field(key: string, val: Value)

  /** A record is an object: an ordered sequence of key/value entries. */
  type Record = seq<Field>

  /** `typeof v`. */
  function TypeOf(v: Value): string
  {
    match v
    case Undefined => "undefined"
    case Null => "object"
    case Bool(_) => "boolean"
    case Num(_) => "number"
    case NaN => "number"
    case Str(_) => "string"
    case Arr(_) => "object"
    case Obj(_) => "object"
  }

  /** `typeof v === 'number'`. */
  predicate IsNumber(v: Value) { v.Num? || v.NaN? }

  lemma TypeOfNumber(v: Value)
    ensures TypeOf(v) == "number" <==> IsNumber(v)
  {
  }

  /** JavaScript truthiness. */
  predicate Truthy(v: Value)
  {
    match v
    case Undefined => false
    case Null => false
    case Bool(b) => b
    case Num(n) => n != 0.0
    case NaN => false
    case Str(s) => s != ""
    case Arr(_) => true
    case Obj(_) => true
  }

  /** `v === null || v === undefined`. */
  predicate IsNullish(v: Value) { v == Null || v == Undefined }

  /** `v === null || v === undefined || v === ''`. */
  predicate IsMissing(v: Value) { v == Null || v == Undefined || v == Str("") }

  /** `String(v)`. */
  function ToText(v: Value): string
    decreases v, 1
  {
    match v
    case Undefined => "undefined"
    case Null => "null"
    case Bool(b) => if b then "true" else "false"
    case Num(n) => NumText(n)
    case NaN => "NaN"
    case Str(s) => s
    case Arr(items) => Join(JoinParts(items), ",")
    case Obj(_) => "[object Object]"
  }

  /** How `Array.prototype.join` writes each element: null and undefined as
      the empty string, everything else as `String(x)`. */
  function JoinPart(v: Value): string
    decreases v, 2
  {
    if IsNullish(v) then "" else ToText(v)
  }

  function JoinParts(items: seq<Value>): (r: seq<string>)
    ensures |r| == |items|
    decreases items, 0
  {
    if |items| == 0 then [] else [JoinPart(items[0])] + JoinParts(items[1..])
  }

  /** Values compared by content rather than by reference. */
  predicate IsPrimitive(v: Value) { !v.Arr? && !v.Obj? }

  /** `a === b`. Arrays and objects are compared by reference in
      JavaScript; the values here carry no identity, so two of them are
      never strictly equal. NaN is not equal to itself. */
  predicate StrictEquals(a: Value, b: Value)
  {
    IsPrimitive(a) && a != NaN && a == b
  }

  /** The SameValueZero equality of `Map`, `Set` and `Array.prototype.includes`:
      like `===` except that NaN matches NaN. */
  predicate SameValueZero(a: Value, b: Value)
  {
    IsPrimitive(a) && a == b
  }

  /** A number, or NaN when there is none. */
  function NumOrNaN(x: Option<real>): (v: Value)
    ensures v.Num? <==> x.Some?
    ensures x.Some? ==> v.n == x.value
  {
    match x
    case Some(n) => Num(n)
    case None => NaN
  }

  /** Values that `ToPrimitive` turns into a string. */
  predicate IsStringLike(v: Value) { v.Str? || v.Arr? || v.Obj? }

  /** `Number(v)`; `None` stands for NaN. */
  function ToNumber(v: Value): Option<real>
  {
    match v
    case Undefined => None
    case Null => Some(0.0)
    case Bool(b) => Some(if b then 1.0 else 0.0)
    case Num(n) => Some(n)
    case NaN => None
    case Str(s) => TextToNumber(s)
    case Arr(_) => TextToNumber(ToText(v))
    case Obj(_) => TextToNumber(ToText(v))
  }

  /** `a < b`: two string-like operands compare as text, anything else as
      numbers, and a NaN on either side makes the comparison false. */
  predicate Less(a: Value, b: Value)
  {
    if IsStringLike(a) && IsStringLike(b) then StrLess(ToText(a), ToText(b))
    else
      var x, y := ToNumber(a), ToNumber(b);
      x.Some? && y.Some? && x.value < y.value
  }

  /** `parseFloat(v)`: the text of the value is read; `None` is NaN. */
  function ParseNumber(v: Value): Option<real>
  {
    match v
    case Num(n) => Some(n)
    case Str(s) => ParseFloat(s)
    case _ => ParseFloat(ToText(v))
  }

  /** On numbers only, or on strings only, `Less` is a strict total order. */
  predicate SameKind(a: Value, b: Value)
  {
    (a.Num? && b.Num?) || (a.Str? && b.Str?)
  }

  lemma LessIrreflexive(a: Value)
    requires a.Num? || a.Str?
    ensures !Less(a, a)
  {
    if a.Str? { StrLessIrreflexive(a.s); }
  }

  lemma LessTransitive(a: Value, b: Value, c: Value)
    requires SameKind(a, b) && SameKind(b, c)
    requires Less(a, b) && Less(b, c)
    ensures Less(a, c)
  {
    if a.Str? { StrLessTransitive(a.s, b.s, c.s); }
  }

  lemma LessTotal(a: Value, b: Value)
    requires SameKind(a, b) && a != b
    ensures Less(a, b) || Less(b, a)
  {
    if a.Str? { StrLessTotal(a.s, b.s); }
  }

  // ---------------------------------------------------------------------
  // JSON.stringify

  /** The value `JSON.stringify` writes: inside arrays undefined becomes
      null; inside objects keys holding undefined are skipped; NaN is
      written as null. Two values
      serialise to the same text exactly when their canonical forms are
      equal. */
  function Canon(v: Value): Value
    decreases v, 1
  {
    match v
    case Arr(items) => Arr(CanonItems(items))
    case Obj(fields) => Obj(CanonFields(fields))
    case NaN => Null
    case _ => v
  }

  function CanonItems(items: seq<Value>): (r: seq<Value>)
    ensures |r| == |items|
    decreases items, 0
  {
    if |items| == 0 then []
    else
      var c := Canon(items[0]);
      [if c == Undefined then Null else c] + CanonItems(items[1..])
  }

  function CanonFields(fields: seq<Field>): (r: seq<Field>)
    ensures |r| <= |fields|
    decreases fields, 0
  {
    if |fields| == 0 then []
    else
      var c := Canon(fields[0].val);
      (if c == Undefined then [] else [Field(fields[0].key, c)]) + CanonFields(fields[1..])
  }

  /** `JSON.stringify(record)`, as the sequence of entries it writes. */
  function Fingerprint(r: Record): Record
  {
    CanonFields(r)
  }

  lemma CanonUndefined(v: Value)
    ensures Canon(v) == Undefined <==> v == Undefined
  {
  }

  // ---------------------------------------------------------------------
  // Records

  function Keys(r: Record): (ks: seq<string>)
    ensures |ks| == |r|
    ensures forall i :: 0 <= i < |r| ==> ks[i] == r[i].key
  {
    seq(|r|, i requires 0 <= i < |r| => r[i].key)
  }

  /** Records built by spreading and assignment never repeat a key. */
  predicate WellFormed(r: Record)
  {
    Distinct(Keys(r))
  }

  /** The position of key `k`, if the record has it. */
  function KeyIndex(r: Record, k: string): (i: Option<nat>)
    ensures i.Some? ==> i.value < |r| && r[i.value].key == k
    ensures i.Some? ==> forall j :: 0 <= j < i.value ==> r[j].key != k
    ensures i.None? <==> k !in Keys(r)
  {
    if |r| == 0 then None
    else if r[0].key == k then Some(0)
    else
      KeysCons(r);
      match KeyIndex(r[1..], k)
      case None => None
      case Some(j) => Some(j + 1)
  }

  lemma KeysCons(r: Record)
    requires |r| > 0
    ensures Keys(r) == [r[0].key] + Keys(r[1..])
  {
    assert forall i :: 0 < i < |r| ==> Keys(r)[i] == Keys(r[1..])[i - 1];
  }

  /** The first position holding `k` is the one `KeyIndex` finds. */
  lemma {:induction false} KeyIndexFirst(r: Record, k: string, i: nat)
    requires i < |r| && r[i].key == k
    requires forall j :: 0 <= j < i ==> r[j].key != k
    ensures KeyIndex(r, k) == Some(i)
    decreases |r|
  {
    if i > 0 {
      assert r[0].key != k;
      assert forall j :: 0 <= j < i - 1 ==> r[1..][j].key != k;
      KeyIndexFirst(r[1..], k, i - 1);
    }
  }

  predicate Has(r: Record, k: string) { k in Keys(r) }

  /** `record[k]`: the value at key `k`, or undefined. */
  function Get(r: Record, k: string): Value
  {
    match KeyIndex(r, k)
    case None => Undefined
    case Some(i) => r[i].val
  }

  /** `{...record, [k]: v}`: an existing key keeps its position and takes
      the new value; a new key goes at the end. */
  function Put(r: Record, k: string, v: Value): (r': Record)
    ensures Get(r', k) == v
    ensures forall k' :: k' != k ==> Get(r', k') == Get(r, k')
    ensures Has(r, k) ==> Keys(r') == Keys(r)
    ensures !Has(r, k) ==> Keys(r') == Keys(r) + [k]
    ensures WellFormed(r) ==> WellFormed(r')
  {
    match KeyIndex(r, k)
    case Some(i) =>
      var r' := r[i := Field(k, v)];
      assert Keys(r') == Keys(r);
      assert forall k' :: k' != k ==> KeyIndex(r', k') == KeyIndex(r, k') by {
        forall k' | k' != k ensures KeyIndex(r', k') == KeyIndex(r, k') {
          KeyIndexAgree(r, r', k');
        }
      }
      r'
    case None =>
      var r' := r + [Field(k, v)];
      assert Keys(r') == Keys(r) + [k];
      assert forall k' :: KeyIndex(r', k') == (if k' in Keys(r) then KeyIndex(r, k') else if k' == k then Some(|r|) else None) by {
        forall k' ensures KeyIndex(r', k') == (if k' in Keys(r) then KeyIndex(r, k') else if k' == k then Some(|r|) else None) {
          KeyIndexAppend(r, Field(k, v), k');
        }
      }
      r'
  }

  lemma KeyIndexAgree(r: Record, r': Record, k: string)
    requires |r| == |r'| && Keys(r) == Keys(r')
    ensures KeyIndex(r, k) == KeyIndex(r', k)
  {
    match KeyIndex(r, k)
    case None =>
    case Some(i) =>
      assert r'[i].key == Keys(r)[i];
      assert forall j :: 0 <= j < i ==> r'[j].key == Keys(r)[j];
      KeyIndexFirst(r', k, i);
  }

  lemma {:induction false} KeyIndexAppend(r: Record, f: Field, k: string)
    ensures KeyIndex(r + [f], k)
      == if k in Keys(r) then KeyIndex(r, k) else if k == f.key then Some(|r|) else None
    decreases |r|
  {
    if |r| == 0 {
      assert r + [f] == [f];
      assert Keys([f])[0] == f.key;
    } else {
      assert (r + [f])[0] == r[0];
      assert (r + [f])[1..] == r[1..] + [f];
      assert Keys(r) == [r[0].key] + Keys(r[1..]);
      if r[0].key != k {
        KeyIndexAppend(r[1..], f, k);
      }
    }
  }

  /** `{...r, ...t}`: the entries of `t`, in order, put into `r`. */
  function Merge(r: Record, t: Record): (m: Record)
    ensures WellFormed(r) ==> WellFormed(m)
    decreases |t|
  {
    if |t| == 0 then r
    else Put(Merge(r, t[..|t| - 1]), t[|t| - 1].key, t[|t| - 1].val)
  }

  /** After a merge, every key of `t` holds the value `t` gives it (the
      target wins on collision); every other key keeps its value in `r`. */
  lemma {:induction false} MergeGet(r: Record, t: Record, k: string)
    requires WellFormed(t)
    ensures Get(Merge(r, t), k) == if Has(t, k) then Get(t, k) else Get(r, k)
    decreases |t|
  {
    if |t| > 0 {
      var init := t[..|t| - 1];
      var last := t[|t| - 1];
      assert t == init + [last];
      assert WellFormed(init) by {
        assert forall i :: 0 <= i < |init| ==> Keys(init)[i] == Keys(t)[i];
      }
      KeyIndexAppend(init, last, k);
      MergeGet(r, init, k);
      if k == last.key {
        assert k !in Keys(init) by {
          forall i | 0 <= i < |init| ensures Keys(init)[i] != k {
            assert Keys(t)[i] != Keys(t)[|t| - 1];
          }
        }
      }
    }
  }

  /** Merging an empty record changes nothing. */
  lemma MergeEmpty(r: Record)
    ensures Merge(r, []) == r
  {
  }

  /** The keys after a merge: those of `r`, then the new keys of `t`. */
  lemma {:induction false} MergeKeys(r: Record, t: Record, k: string)
    ensures Has(Merge(r, t), k) <==> Has(r, k) || Has(t, k)
    decreases |t|
  {
    if |t| > 0 {
      var init := t[..|t| - 1];
      var last := t[|t| - 1];
      assert Keys(t) == Keys(init) + [last.key];
      MergeKeys(r, init, k);
      var m := Merge(r, init);
      assert Merge(r, t) == Put(m, last.key, last.val);
      assert Has(Put(m, last.key, last.val), k) <==> Has(m, k) || k == last.key;
    }
  }

  /** Assigning `vs[i]` to `ks[i]` for each i in turn, as a `forEach` over
      the keys does: a later assignment to the same key wins. */
  function PutAll(r: Record, ks: seq<string>, vs: seq<Value>): (m: Record)
    requires |ks| == |vs|
    ensures WellFormed(r) ==> WellFormed(m)
    decreases |ks|
  {
    if |ks| == 0 then r
    else Put(PutAll(r, ks[..|ks| - 1], vs[..|vs| - 1]), ks[|ks| - 1], vs[|vs| - 1])
  }

  /** A key no assignment names keeps the value it had before. */
  lemma {:induction false} PutAllUntouched(r: Record, ks: seq<string>, vs: seq<Value>, k: string)
    requires |ks| == |vs| && k !in ks
    ensures Get(PutAll(r, ks, vs), k) == Get(r, k)
    decreases |ks|
  {
    if |ks| > 0 {
      var n := |ks| - 1;
      assert ks[..n] + [ks[n]] == ks;
      PutAllUntouched(r, ks[..n], vs[..n], k);
    }
  }

  /** A key holds the value of its last assignment. */
  lemma PutAllLast(r: Record, ks: seq<string>, vs: seq<Value>, j: nat)
    requires |ks| == |vs| && j < |ks|
    requires ks[j] !in ks[j + 1..]
    ensures Get(PutAll(r, ks, vs), ks[j]) == vs[j]
  {
    forall i | j < i < |ks| ensures ks[i] != ks[j] {
      assert ks[i] == ks[j + 1..][i - j - 1];
    }
    PutAllLastAt(r, ks, vs, j);
  }

  lemma {:induction false} PutAllLastAt(r: Record, ks: seq<string>, vs: seq<Value>, j: nat)
    requires |ks| == |vs| && j < |ks|
    requires forall i :: j < i < |ks| ==> ks[i] != ks[j]
    ensures Get(PutAll(r, ks, vs), ks[j]) == vs[j]
    decreases |ks|
  {
    var n := |ks| - 1;
    if j < n {
      var ks', vs' := ks[..n], vs[..n];
      assert ks'[j] == ks[j] && vs'[j] == vs[j];
      assert forall i :: j < i < |ks'| ==> ks'[i] != ks'[j];
      PutAllLastAt(r, ks', vs', j);
      PutAllOther(r, ks, vs, ks[j]);
    } else {
      assert ks[j] == ks[n] && vs[j] == vs[n];
      PutAllSnoc(r, ks, vs);
    }
  }

  lemma PutAllSnoc(r: Record, ks: seq<string>, vs: seq<Value>)
    requires |ks| == |vs| && |ks| > 0
    ensures Get(PutAll(r, ks, vs), ks[|ks| - 1]) == vs[|vs| - 1]
  {
    var n := |ks| - 1;
    assert PutAll(r, ks, vs) == Put(PutAll(r, ks[..n], vs[..n]), ks[n], vs[n]);
  }

  lemma PutAllOther(r: Record, ks: seq<string>, vs: seq<Value>, k: string)
    requires |ks| == |vs| && |ks| > 0 && k != ks[|ks| - 1]
    ensures Get(PutAll(r, ks, vs), k) == Get(PutAll(r, ks[..|ks| - 1], vs[..|vs| - 1]), k)
  {
    var n := |ks| - 1;
    assert PutAll(r, ks, vs) == Put(PutAll(r, ks[..n], vs[..n]), ks[n], vs[n]);
  }

}
