/** The join step: the target records are indexed by their join field in a
    `Map`, then each input record is merged with the target record its
    source field finds (inner join: only records that find one; left join:
    every record, unchanged when it finds none). */
module Joins {
  import opened Common
  import opened Values

  /** `inner` is false for a left join, which is what any join type other
      than `'inner'` performs. */
  datatype JoinConfig = JoinConfig(sourceField: string, targetData: seq<Record>, targetField: string, inner: bool)

  /** The record the index holds for key `v`: later `set` calls overwrite
      earlier ones, so it is the last target record whose field matches.
      Keys are compared by SameValueZero, so arrays and objects never match. */
  function LastMatch(target: seq<Record>, field: string, v: Value): Option<Record>
    decreases |target|
  {
    if |target| == 0 then None
    else if SameValueZero(Get(target[|target| - 1], field), v) then Some(target[|target| - 1])
    else LastMatch(target[..|target| - 1], field, v)
  }

  /** There is no match exactly when no target record has the key. */
  lemma {:induction false} LastMatchNone(target: seq<Record>, field: string, v: Value)
    ensures LastMatch(target, field, v).None? <==>
      forall i :: 0 <= i < |target| ==> !SameValueZero(Get(target[i], field), v)
    decreases |target|
  {
    if |target| > 0 {
      var init := target[..|target| - 1];
      LastMatchNone(init, field, v);
      assert forall i :: 0 <= i < |init| ==> init[i] == target[i];
    }
  }

  /** The last `set` wins: the match is the target record at the last
      position holding the key. */
  lemma {:induction false} LastMatchAt(target: seq<Record>, field: string, v: Value, i: nat)
    requires i < |target| && SameValueZero(Get(target[i], field), v)
    requires forall j :: i < j < |target| ==> !SameValueZero(Get(target[j], field), v)
    ensures LastMatch(target, field, v) == Some(target[i])
    decreases |target|
  {
    var n := |target| - 1;
    if i < n {
      var init := target[..n];
      assert forall j :: i < j < n ==> init[j] == target[j];
      LastMatchAt(init, field, v, i);
    }
  }

  lemma {:induction false} LastMatchMember(target: seq<Record>, field: string, v: Value)
    ensures LastMatch(target, field, v).Some? ==> LastMatch(target, field, v).value in target
    decreases |target|
  {
    if |target| > 0 {
      LastMatchMember(target[..|target| - 1], field, v);
    }
  }

  /** `targetMap.get(v)`. */
  function Lookup(index: map<Value, Record>, v: Value): Option<Record>
  {
    if IsPrimitive(v) && v in index then Some(index[v]) else None
  }

  /** Builds the target map in one pass over the target records. */
  method BuildIndex(target: seq<Record>, field: string) returns (index: map<Value, Record>)
    ensures forall v :: Lookup(index, v) == LastMatch(target, field, v)
  {
    index := map[];
    var i := 0;
    while i < |target|
      invariant 0 <= i <= |target|
      invariant forall v :: Lookup(index, v) == LastMatch(target[..i], field, v)
    {
      assert target[..i + 1][..i] == target[..i];
      index := index[Get(target[i], field) := target[i]];
      i := i + 1;
    }
    assert target[..i] == target;
  }

  /** The input records that find a target record, in input order. */
  function Matched(data: seq<Record>, cfg: JoinConfig): seq<Record>
    decreases |data|
  {
    if |data| == 0 then []
    else
      var m := Matched(data[..|data| - 1], cfg);
      var last := data[|data| - 1];
      if LastMatch(cfg.targetData, cfg.targetField, Get(last, cfg.sourceField)).Some? then m + [last] else m
  }

  /** `{...record, ...match}`, or the record alone when there is no match. */
  function Joined(r: Record, cfg: JoinConfig): Record
  {
    match LastMatch(cfg.targetData, cfg.targetField, Get(r, cfg.sourceField))
    case Some(t) => Merge(r, t)
    case None => Merge(r, [])
  }

  function JoinSpec(data: seq<Record>, cfg: JoinConfig): (r: seq<Record>)
    ensures !cfg.inner ==> |r| == |data|
    ensures cfg.inner ==> |r| == |Matched(data, cfg)|
  {
    var src := if cfg.inner then Matched(data, cfg) else data;
    seq(|src|, i requires 0 <= i < |src| => Joined(src[i], cfg))
  }

  method JoinStep(data: seq<Record>, cfg: JoinConfig) returns (result: seq<Record>)
    ensures result == JoinSpec(data, cfg)
  {
    var index := BuildIndex(cfg.targetData, cfg.targetField);
    var src := data;
    if cfg.inner {
      src := [];
      var i := 0;
      while i < |data|
        invariant 0 <= i <= |data|
        invariant src == Matched(data[..i], cfg)
      {
        assert data[..i + 1][..i] == data[..i];
        if Lookup(index, Get(data[i], cfg.sourceField)).Some? {
          src := src + [data[i]];
        }
        i := i + 1;
      }
      assert data[..i] == data;
    }
    result := [];
    var j := 0;
    while j < |src|
      invariant 0 <= j <= |src|
      invariant |result| == j
      invariant forall n :: 0 <= n < j ==> result[n] == Joined(src[n], cfg)
    {
      var r := src[j];
      var m := Lookup(index, Get(r, cfg.sourceField));
      result := result + [if m.Some? then Merge(r, m.value) else Merge(r, [])];
      j := j + 1;
    }
  }

  // ---------------------------------------------------------------------
  // Properties

  /** The inner join keeps, in order, exactly the records that find a
      target record. */
  lemma {:induction false} MatchedExact(data: seq<Record>, cfg: JoinConfig)
    ensures IsSubsequence(Matched(data, cfg), data)
    ensures forall x :: x in Matched(data, cfg) <==>
      x in data && LastMatch(cfg.targetData, cfg.targetField, Get(x, cfg.sourceField)).Some?
    ensures forall x :: multiset(Matched(data, cfg))[x] ==
                        (if LastMatch(cfg.targetData, cfg.targetField, Get(x, cfg.sourceField)).Some?
                         then multiset(data)[x] else 0)
    decreases |data|
  {
    if |data| > 0 {
      var init := data[..|data| - 1];
      var last := data[|data| - 1];
      assert data == init + [last];
      MatchedExact(init, cfg);
      SubsequenceExtend(Matched(init, cfg), init, last,
        LastMatch(cfg.targetData, cfg.targetField, Get(last, cfg.sourceField)).Some?);
    }
  }

  /** In a joined record the target's fields win on collision; every other
      field keeps the input record's value. */
  lemma JoinedFields(r: Record, cfg: JoinConfig, k: string)
    requires forall i :: 0 <= i < |cfg.targetData| ==> WellFormed(cfg.targetData[i])
    ensures var m := LastMatch(cfg.targetData, cfg.targetField, Get(r, cfg.sourceField));
      Get(Joined(r, cfg), k) == if m.Some? && Has(m.value, k) then Get(m.value, k) else Get(r, k)
  {
    var m := LastMatch(cfg.targetData, cfg.targetField, Get(r, cfg.sourceField));
    match m
    case Some(t) =>
      LastMatchMember(cfg.targetData, cfg.targetField, Get(r, cfg.sourceField));
      MergeGet(r, t, k);
    case None => assert Merge(r, []) == r;
  }

  /** A left join keeps every record in place; a record that finds no
      target record comes through unchanged. */
  lemma LeftJoinUnmatched(data: seq<Record>, cfg: JoinConfig, i: nat)
    requires !cfg.inner && i < |data|
    requires LastMatch(cfg.targetData, cfg.targetField, Get(data[i], cfg.sourceField)).None?
    ensures JoinSpec(data, cfg)[i] == data[i]
  {
    assert JoinSpec(data, cfg)[i] == Joined(data[i], cfg);
    assert Joined(data[i], cfg) == Merge(data[i], []) == data[i];
  }
}
