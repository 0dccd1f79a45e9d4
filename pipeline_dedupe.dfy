/** The dedupe step: a record is dropped when an earlier record had the
    same key, the `|`-joined values of the chosen fields, or the whole
    record's JSON text when no fields are given. */
module Deduplication {
  import opened Common
  import opened Text
  import opened Values

  /** The key the `seen` set holds. Within one step every key is of the
      same kind, so joined text and JSON text never meet. */
  datatype DedupeKey = Joined(text: string) | Serialized(json: Record)

  /** `fields` is `None` when the step gives no field list; an empty list is
      still a list, so every record then has the key `""`. */
  function KeyOf(r: Record, fields: Option<seq<string>>): DedupeKey
  {
    match fields
    case Some(fs) => Joined(Join(JoinParts(seq(|fs|, i requires 0 <= i < |fs| => Get(r, fs[i]))), "|"))
    case None => Serialized(Fingerprint(r))
  }

  /** The key function of a step. */
  function KeyFn(fields: Option<seq<string>>): Record -> DedupeKey
  {
    r => KeyOf(r, fields)
  }

  function KeyList<T, K>(rs: seq<T>, key: T -> K): (ks: seq<K>)
    ensures |ks| == |rs|
    ensures forall i :: 0 <= i < |rs| ==> ks[i] == key(rs[i])
  {
    seq(|rs|, i requires 0 <= i < |rs| => key(rs[i]))
  }

  /** The first element of each key, in input order. */
  function Dedupe<T, K(==)>(data: seq<T>, key: T -> K): seq<T>
    decreases |data|
  {
    if |data| == 0 then []
    else
      var kept := Dedupe(data[..|data| - 1], key);
      var last := data[|data| - 1];
      if key(last) in KeyList(kept, key) then kept else kept + [last]
  }

  /** `data.filter(...)` with a `seen` set of keys. */
  method DedupeStep(data: seq<Record>, fields: Option<seq<string>>) returns (result: seq<Record>)
    ensures result == Dedupe(data, KeyFn(fields))
  {
    var key := KeyFn(fields);
    var seen: set<DedupeKey> := {};
    result := [];
    var i := 0;
    while i < |data|
      invariant 0 <= i <= |data|
      invariant result == Dedupe(data[..i], key)
      invariant forall k :: k in seen <==> k in KeyList(result, key)
    {
      assert data[..i + 1][..i] == data[..i];
      var k := KeyOf(data[i], fields);
      if k !in seen {
        seen := seen + {k};
        assert KeyList(result + [data[i]], key) == KeyList(result, key) + [k];
        result := result + [data[i]];
      }
      i := i + 1;
    }
    assert data[..i] == data;
  }

  // ---------------------------------------------------------------------
  // Properties

  /** The output is a subsequence of the input, with pairwise distinct keys. */
  lemma {:induction false} DedupeShape<T, K>(data: seq<T>, key: T -> K)
    ensures IsSubsequence(Dedupe(data, key), data)
    ensures Distinct(KeyList(Dedupe(data, key), key))
    decreases |data|
  {
    if |data| > 0 {
      var init := data[..|data| - 1];
      var last := data[|data| - 1];
      var kept := Dedupe(init, key);
      var keep := key(last) !in KeyList(kept, key);
      assert data == init + [last];
      DedupeShape(init, key);
      SubsequenceExtend(kept, init, last, keep);
      if keep {
        assert KeyList(kept + [last], key) == KeyList(kept, key) + [key(last)];
      }
    }
  }

  /** First wins: every element whose key no earlier element had is kept,
      so every key of the input occurs in the output. */
  lemma {:induction false} DedupeKeepsFirst<T, K>(data: seq<T>, key: T -> K, i: nat)
    requires i < |data|
    requires forall j :: 0 <= j < i ==> key(data[j]) != key(data[i])
    ensures data[i] in Dedupe(data, key)
    decreases |data|
  {
    var n := |data| - 1;
    var init := data[..n];
    var kept := Dedupe(init, key);
    if i < n {
      DedupeKeepsFirst(init, key, i);
    } else {
      forall k | k in KeyList(kept, key) ensures k != key(data[i]) {
        DedupeKeysFrom(init, key, k);
      }
    }
  }

  /** Every key of the output is the key of some input element. */
  lemma {:induction false} DedupeKeysFrom<T, K>(data: seq<T>, key: T -> K, k: K)
    requires k in KeyList(Dedupe(data, key), key)
    ensures exists j :: 0 <= j < |data| && key(data[j]) == k
    decreases |data|
  {
    var n := |data| - 1;
    var init := data[..n];
    var kept := Dedupe(init, key);
    if k in KeyList(kept, key) {
      DedupeKeysFrom(init, key, k);
      var j :| 0 <= j < |init| && key(init[j]) == k;
      assert init[j] == data[j];
    } else {
      assert KeyList(kept + [data[n]], key) == KeyList(kept, key) + [key(data[n])];
    }
  }

  /** A batch whose keys are already distinct passes through unchanged. */
  lemma {:induction false} DedupeDistinctUnchanged<T, K>(data: seq<T>, key: T -> K)
    requires Distinct(KeyList(data, key))
    ensures Dedupe(data, key) == data
    decreases |data|
  {
    if |data| > 0 {
      var n := |data| - 1;
      var init := data[..n];
      var ks := KeyList(data, key);
      assert KeyList(init, key) == ks[..n];
      DedupeDistinctUnchanged(init, key);
      assert ks[n] !in ks[..n] by {
        assert forall j :: 0 <= j < n ==> ks[..n][j] != ks[n];
      }
      assert data == init + [data[n]];
    }
  }

  /** Deduplicating twice is the same as deduplicating once. */
  lemma DedupeIdempotent<T, K>(data: seq<T>, key: T -> K)
    ensures Dedupe(Dedupe(data, key), key) == Dedupe(data, key)
  {
    DedupeShape(data, key);
    DedupeDistinctUnchanged(Dedupe(data, key), key);
  }
}
