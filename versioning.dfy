/** Version history and audit trail. Every resource, named by its type and
    id, has a list of versions numbered 1, 2, 3, … in the order they were
    saved; each version stores a deep copy of the data and the fields that
    changed since the version before it. A separate audit trail logs who did
    what, keeps the latest 100000 entries and answers filtered queries,
    newest first. Ids and clocks are parameters. */
module Versioning {
  import opened Common
  import opened Text
  import opened Values
  import opened Sorting

  // ---------------------------------------------------------------------
  // Field differences

  /** The own enumerable entries `Object.keys` and `obj[key]` see: an
      object's fields, an array's or a string's indices, nothing for other
      values (and for `null`/`undefined`, which read as `{}`). */
  function OwnEntries(v: Value): (r: Record)
  {
    match v
    case Obj(fields) => fields
    case Arr(items) => seq(|items|, i requires 0 <= i < |items| => Field(NatText(i), items[i]))
    case Str(s) => seq(|s|, i requires 0 <= i < |s| => Field(NatText(i), Str([s[i]])))
    case _ => []
  }

  /** `Object.keys(v || {})`. */
  function ObjectKeys(v: Value): seq<string>
  {
    Keys(OwnEntries(v))
  }

  /** `v?.[k]`. */
  function Property(v: Value, k: string): Value
  {
    Get(OwnEntries(v), k)
  }

  /** A key that is not an own key reads as undefined. */
  lemma PropertyAbsent(v: Value, k: string)
    requires k !in ObjectKeys(v)
    ensures Property(v, k) == Undefined
  {
  }

  /** The keys of `new Set(ks)`, in first-insertion order. */
  function Unique(ks: seq<string>): (r: seq<string>)
    ensures Distinct(r)
    ensures forall k :: k in r <==> k in ks
    decreases |ks|
  {
    if |ks| == 0 then []
    else
      var rest := Unique(ks[..|ks| - 1]);
      var k := ks[|ks| - 1];
      assert forall j :: j in ks <==> j in ks[..|ks| - 1] || j == k;
      if k in rest then rest else rest + [k]
  }

  datatype Change = Change(field: string, oldValue: Value, newValue: Value)

  function Fields(changes: seq<Change>): (fs: seq<string>)
    ensures |fs| == |changes|
    ensures forall i :: 0 <= i < |changes| ==> fs[i] == changes[i].field
  {
    seq(|changes|, i requires 0 <= i < |changes| => changes[i].field)
  }

  /** One entry per key of `keys` whose serialised values differ. Values
      serialise alike exactly when their canonical forms are equal. */
  function ChangeList(keys: seq<string>, a: Value, b: Value): seq<Change>
    decreases |keys|
  {
    if |keys| == 0 then []
    else
      var rest := ChangeList(keys[..|keys| - 1], a, b);
      var k := keys[|keys| - 1];
      if Canon(Property(a, k)) != Canon(Property(b, k))
      then rest + [Change(k, Property(a, k), Property(b, k))]
      else rest
  }

  /** What `calculateChanges(a, b)` returns. */
  function Changes(a: Value, b: Value): seq<Change>
  {
    ChangeList(Unique(ObjectKeys(a) + ObjectKeys(b)), a, b)
  }

  lemma ChangeListStep(keys: seq<string>, i: nat, a: Value, b: Value)
    requires i < |keys|
    ensures ChangeList(keys[..i + 1], a, b) ==
      if Canon(Property(a, keys[i])) != Canon(Property(b, keys[i]))
      then ChangeList(keys[..i], a, b) + [Change(keys[i], Property(a, keys[i]), Property(b, keys[i]))]
      else ChangeList(keys[..i], a, b)
  {
    assert keys[..i + 1][..i] == keys[..i];
  }

  /** `calculateChanges`: one pass over the union of the keys. */
  method CalculateChanges(oldData: Value, newData: Value) returns (changes: seq<Change>)
    ensures changes == Changes(oldData, newData)
  {
    var allKeys := Unique(ObjectKeys(oldData) + ObjectKeys(newData));
    changes := [];
    var i := 0;
    while i < |allKeys|
      invariant 0 <= i <= |allKeys|
      invariant changes == ChangeList(allKeys[..i], oldData, newData)
    {
      ChangeListStep(allKeys, i, oldData, newData);
      var key := allKeys[i];
      var oldValue := Property(oldData, key);
      var newValue := Property(newData, key);
      if Canon(oldValue) != Canon(newValue) {
        changes := changes + [Change(key, oldValue, newValue)];
      }
      i := i + 1;
    }
    assert allKeys[..i] == allKeys;
  }

  /** The changes name exactly the keys whose values differ. */
  lemma ChangeListFields(keys: seq<string>, a: Value, b: Value)
    ensures forall k :: k in Fields(ChangeList(keys, a, b)) <==>
      k in keys && Canon(Property(a, k)) != Canon(Property(b, k))
  {
    forall k ensures k in Fields(ChangeList(keys, a, b)) <==>
      k in keys && Canon(Property(a, k)) != Canon(Property(b, k))
    {
      ChangeListField(keys, a, b, k);
    }
  }

  lemma {:induction false} ChangeListField(keys: seq<string>, a: Value, b: Value, k: string)
    ensures k in Fields(ChangeList(keys, a, b)) <==>
      k in keys && Canon(Property(a, k)) != Canon(Property(b, k))
    decreases |keys|
  {
    if |keys| > 0 {
      var init := keys[..|keys| - 1];
      var last := keys[|keys| - 1];
      var rest := ChangeList(init, a, b);
      ChangeListField(init, a, b, k);
      assert k in keys <==> k in init || k == last by {
        assert keys == init + [last];
      }
      if Canon(Property(a, last)) != Canon(Property(b, last)) {
        var c := Change(last, Property(a, last), Property(b, last));
        assert ChangeList(keys, a, b) == rest + [c];
        FieldsSnoc(rest, c, k);
      } else {
        assert ChangeList(keys, a, b) == rest;
      }
    }
  }

  lemma FieldsSnoc(changes: seq<Change>, c: Change, k: string)
    ensures k in Fields(changes + [c]) <==> k in Fields(changes) || k == c.field
  {
    assert Fields(changes + [c]) == Fields(changes) + [c.field];
  }

  /** Each change holds the values read from both sides. */
  lemma {:induction false} ChangeListValues(keys: seq<string>, a: Value, b: Value)
    ensures forall c :: c in ChangeList(keys, a, b) ==>
      c.oldValue == Property(a, c.field) && c.newValue == Property(b, c.field)
    decreases |keys|
  {
    if |keys| > 0 {
      ChangeListValues(keys[..|keys| - 1], a, b);
    }
  }

  /** Distinct keys give changes naming distinct fields. */
  lemma {:induction false} ChangeListDistinct(keys: seq<string>, a: Value, b: Value)
    requires Distinct(keys)
    ensures Distinct(Fields(ChangeList(keys, a, b)))
    decreases |keys|
  {
    if |keys| > 0 {
      var init := keys[..|keys| - 1];
      var k := keys[|keys| - 1];
      var rest := ChangeList(init, a, b);
      DistinctInit(keys);
      ChangeListDistinct(init, a, b);
      if Canon(Property(a, k)) != Canon(Property(b, k)) {
        var c := Change(k, Property(a, k), Property(b, k));
        ChangeListFields(init, a, b);
        assert ChangeList(keys, a, b) == rest + [c];
        assert Fields(rest + [c]) == Fields(rest) + [k];
        DistinctSnoc(Fields(rest), k);
      }
    }
  }

  /** The changes name each key at most once, exactly the keys whose
      serialised values differ, with the values read from both sides. */
  lemma ChangesExact(a: Value, b: Value)
    ensures Distinct(Fields(Changes(a, b)))
    ensures forall k :: k in Fields(Changes(a, b)) <==> Canon(Property(a, k)) != Canon(Property(b, k))
    ensures forall c :: c in Changes(a, b) ==>
      c.oldValue == Property(a, c.field) && c.newValue == Property(b, c.field)
  {
    var keys := Unique(ObjectKeys(a) + ObjectKeys(b));
    ChangeListFields(keys, a, b);
    ChangeListValues(keys, a, b);
    ChangeListDistinct(keys, a, b);
    forall k | Canon(Property(a, k)) != Canon(Property(b, k))
      ensures k in keys
    {
      if k !in ObjectKeys(a) && k !in ObjectKeys(b) {
        PropertyAbsent(a, k);
        PropertyAbsent(b, k);
      }
    }
  }

  /** Data compared with itself has no changes. */
  lemma ChangesSelf(d: Value)
    ensures Changes(d, d) == []
  {
    ChangeListSame(Unique(ObjectKeys(d) + ObjectKeys(d)), d);
  }

  lemma {:induction false} ChangeListSame(keys: seq<string>, d: Value)
    ensures ChangeList(keys, d, d) == []
    decreases |keys|
  {
    if |keys| > 0 {
      ChangeListSame(keys[..|keys| - 1], d);
    }
  }

  // ---------------------------------------------------------------------
  // Deep copies

  /** `JSON.parse(JSON.stringify(x))` of a copy gives the copy back. */
  lemma CanonIdempotent(v: Value)
    ensures Canon(Canon(v)) == Canon(v)
    decreases v, 1
  {
    match v
    case Arr(items) => CanonItemsIdempotent(items);
    case Obj(fields) => CanonFieldsIdempotent(fields);
    case _ =>
  }

  lemma CanonItemsIdempotent(items: seq<Value>)
    ensures CanonItems(CanonItems(items)) == CanonItems(items)
    decreases items, 0
  {
    if |items| > 0 {
      CanonIdempotent(items[0]);
      CanonItemsIdempotent(items[1..]);
      var r := CanonItems(items);
      assert r[1..] == CanonItems(items[1..]);
    }
  }

  lemma CanonFieldsIdempotent(fields: seq<Field>)
    ensures CanonFields(CanonFields(fields)) == CanonFields(fields)
    decreases fields, 0
  {
    if |fields| > 0 {
      CanonIdempotent(fields[0].val);
      CanonFieldsIdempotent(fields[1..]);
      CanonUndefined(fields[0].val);
      var c := Canon(fields[0].val);
      if c != Undefined {
        var r := CanonFields(fields);
        assert r == [Field(fields[0].key, c)] + CanonFields(fields[1..]);
        assert r[0].val == c && Canon(c) == c;
        assert r[1..] == CanonFields(fields[1..]);
        assert CanonFields(r) == [Field(fields[0].key, c)] + CanonFields(r[1..]);
      } else {
        assert CanonFields(fields) == [] + CanonFields(fields[1..]);
        assert [] + CanonFields(fields[1..]) == CanonFields(fields[1..]);
      }
    }
  }

  // ---------------------------------------------------------------------
  // Versions

  datatype DataVersion = DataVersion(
    id: string,
    resourceType: string,
    resourceId: string,
    version: int,
    data: Value,
    changes: seq<Change>,
    createdBy: string,
    createdAt: int,
    comment: Option<string>,
    tags: seq<string>)

  /** The map key of a resource. */
  function ResourceKey(resourceType: string, resourceId: string): string
  {
    resourceType + ":" + resourceId
  }

  /** Versions 1, 2, 3, … in order. */
  predicate Consecutive(h: seq<DataVersion>)
  {
    forall i :: 0 <= i < |h| ==> h[i].version == i + 1
  }

  /** What the store keeps: consecutive numbers, deep copies and tag lists
      without repeats. */
  ghost predicate GoodHistory(h: seq<DataVersion>)
  {
    && Consecutive(h)
    && (forall i :: 0 <= i < |h| ==> Canon(h[i].data) == h[i].data)
    && (forall i :: 0 <= i < |h| ==> Distinct(h[i].tags))
  }

  /** The version `saveVersion` appends to history `h`. */
  function NextVersion(h: seq<DataVersion>, resourceType: string, resourceId: string, data: Value,
                       userId: string, comment: Option<string>, id: string, now: int): (v: DataVersion)
    ensures Consecutive(h) ==> v.version == |h| + 1
    ensures |h| == 0 ==> v.changes == []
    ensures v.tags == [] && v.id == id
  {
    var number := if |h| > 0 then h[|h| - 1].version + 1 else 1;
    var changes := if |h| > 0 then Changes(h[|h| - 1].data, data) else [];
    DataVersion(id, resourceType, resourceId, number, Canon(data), changes, userId, now, comment, [])
  }

  /** Appending the next version keeps the history good, and the new
      version holds a copy of the data and its differences from the
      latest. */
  lemma NextVersionGood(h: seq<DataVersion>, resourceType: string, resourceId: string, data: Value,
                        userId: string, comment: Option<string>, id: string, now: int)
    requires GoodHistory(h)
    ensures var v := NextVersion(h, resourceType, resourceId, data, userId, comment, id, now);
      && GoodHistory(h + [v])
      && v.data == Canon(data)
      && (|h| > 0 ==> v.changes == Changes(h[|h| - 1].data, data))
  {
    var v := NextVersion(h, resourceType, resourceId, data, userId, comment, id, now);
    var h' := h + [v];
    assert v.data == Canon(data) && v.version == |h| + 1;
    CanonIdempotent(data);
    forall i | 0 <= i < |h'|
      ensures h'[i].version == i + 1 && Canon(h'[i].data) == h'[i].data && Distinct(h'[i].tags)
    {
      if i < |h| { assert h'[i] == h[i]; } else { assert h'[i] == v; }
    }
  }

  /** Reverting appends a copy of the latest version: same data, no
      changes, the next number. */
  lemma RevertCopiesLatest(h: seq<DataVersion>, resourceType: string, resourceId: string,
                           userId: string, comment: Option<string>, id: string, now: int)
    requires GoodHistory(h) && |h| > 0
    ensures var v := NextVersion(h, resourceType, resourceId, h[|h| - 1].data, userId, comment, id, now);
      && v.data == h[|h| - 1].data
      && v.changes == []
      && v.version == |h| + 1
  {
    ChangesSelf(h[|h| - 1].data);
  }

  /** `history.find(v => v.version === n)`: the first version so numbered. */
  function FindVersion(h: seq<DataVersion>, n: int): (r: Option<DataVersion>)
    ensures r.Some? ==> r.value in h && r.value.version == n
    ensures r.None? <==> forall i :: 0 <= i < |h| ==> h[i].version != n
    decreases |h|
  {
    if |h| == 0 then None
    else if h[0].version == n then Some(h[0])
    else
      var r := FindVersion(h[1..], n);
      assert forall i :: 1 <= i < |h| ==> h[i] == h[1..][i - 1];
      r
  }

  /** In a consecutive history, version `n` is at position `n - 1`, and
      there is none outside 1..|h|. */
  lemma {:induction false} FindConsecutive(h: seq<DataVersion>, n: int)
    requires Consecutive(h)
    ensures FindVersion(h, n) == if 1 <= n <= |h| then Some(h[n - 1]) else None
  {
    if 1 <= n <= |h| {
      assert h[n - 1].version == n;
      var v := FindVersion(h, n).value;
      var i :| 0 <= i < |h| && h[i] == v;
    }
  }

  /** What `compareVersions` returns. */
  datatype Comparison = Comparison(
    version1: Option<DataVersion>,
    version2: Option<DataVersion>,
    differences: seq<Change>)

  // ---------------------------------------------------------------------
  // Audit trail

  const AuditCap: nat := 100000

  datatype AuditAction = Create | Update | Delete | Read | Restore

  function ActionName(a: AuditAction): string
  {
    match a
    case Create => "create"
    case Update => "update"
    case Delete => "delete"
    case Read => "read"
    case Restore => "restore"
  }

  /** The caller's part of an entry. */
  datatype AuditInput = AuditInput(
    userId: string,
    action: AuditAction,
    resourceType: string,
    resourceId: string,
    versionId: Option<string>,
    metadata: Option<Value>,
    ipAddress: Option<string>,
    userAgent: Option<string>)

  /** An entry: the input plus an id and a timestamp in milliseconds. */
  datatype AuditEntry = AuditEntry(id: string, timestamp: int, input: AuditInput)

  /** The optional filters of `getAuditTrail`. */
  datatype AuditFilters = AuditFilters(
    resourceType: Option<string>,
    resourceId: Option<string>,
    userId: Option<string>,
    action: Option<string>,
    startDate: Option<int>,
    endDate: Option<int>,
    limit: Option<int>)

  /** A string filter applies only when it is present and not empty. */
  predicate Applies(o: Option<string>)
  {
    o.Some? && o.value != ""
  }

  predicate Matches(e: AuditEntry, f: AuditFilters)
  {
    && (Applies(f.resourceType) ==> e.input.resourceType == f.resourceType.value)
    && (Applies(f.resourceId) ==> e.input.resourceId == f.resourceId.value)
    && (Applies(f.userId) ==> e.input.userId == f.userId.value)
    && (Applies(f.action) ==> ActionName(e.input.action) == f.action.value)
    && (f.startDate.Some? ==> e.timestamp >= f.startDate.value)
    && (f.endDate.Some? ==> e.timestamp <= f.endDate.value)
  }

  /** No filter applies, so the query sorts the stored trail itself. */
  predicate Unfiltered(f: AuditFilters)
  {
    && !Applies(f.resourceType) && !Applies(f.resourceId)
    && !Applies(f.userId) && !Applies(f.action)
    && f.startDate.None? && f.endDate.None?
  }

  /** The filters in turn; each keeps the order of what it is given. */
  function Select(trail: seq<AuditEntry>, f: AuditFilters): seq<AuditEntry>
    decreases |trail|
  {
    if |trail| == 0 then []
    else
      var rest := Select(trail[..|trail| - 1], f);
      var e := trail[|trail| - 1];
      if Matches(e, f) then rest + [e] else rest
  }

  function Timestamp(e: AuditEntry): int { e.timestamp }

  predicate Later(a: int, b: int) { a > b }

  /** The comparator `b.timestamp - a.timestamp`: newest first, entries
      with equal timestamps in their previous order. */
  function NewestFirst(s: seq<AuditEntry>): (r: seq<AuditEntry>)
    ensures |r| == |s|
  {
    SortBy(s, Timestamp, Later)
  }

  /** What `getAuditTrail` returns. A limit of 0 is no limit. */
  function AuditQuery(trail: seq<AuditEntry>, f: AuditFilters): seq<AuditEntry>
  {
    var sorted := NewestFirst(Select(trail, f));
    if f.limit.Some? && f.limit.value != 0 then SliceTo(sorted, f.limit.value) else sorted
  }

  /** The trail after one more entry. */
  function Capped(trail: seq<AuditEntry>): (r: seq<AuditEntry>)
  {
    if |trail| > AuditCap then trail[1..] else trail
  }

  lemma {:induction false} SelectExact(trail: seq<AuditEntry>, f: AuditFilters)
    ensures IsSubsequence(Select(trail, f), trail)
    ensures forall e :: e in Select(trail, f) <==> e in trail && Matches(e, f)
    ensures forall e :: multiset(Select(trail, f))[e] == if Matches(e, f) then multiset(trail)[e] else 0
    decreases |trail|
  {
    if |trail| > 0 {
      var init := trail[..|trail| - 1];
      var e := trail[|trail| - 1];
      assert trail == init + [e];
      SelectExact(init, f);
      SubsequenceExtend(Select(init, f), init, e, Matches(e, f));
    }
  }

  lemma {:induction false} SelectAll(trail: seq<AuditEntry>, f: AuditFilters)
    requires Unfiltered(f)
    ensures Select(trail, f) == trail
    decreases |trail|
  {
    if |trail| > 0 {
      SelectAll(trail[..|trail| - 1], f);
      assert trail[..|trail| - 1] + [trail[|trail| - 1]] == trail;
    }
  }

  /** The query returns only entries of the trail that pass every filter,
      newest first. With no limit or a limit of 0 it returns every such
      entry; a positive limit keeps that many of the newest, and a negative
      one leaves out that many of the oldest. No matching entry left out is
      newer than one returned. */
  lemma AuditQueryExact(trail: seq<AuditEntry>, f: AuditFilters)
    ensures forall e :: e in AuditQuery(trail, f) ==> e in trail && Matches(e, f)
    ensures forall i, j :: 0 <= i < j < |AuditQuery(trail, f)| ==>
      AuditQuery(trail, f)[i].timestamp >= AuditQuery(trail, f)[j].timestamp
    ensures var m := |Select(trail, f)|;
      |AuditQuery(trail, f)| ==
        if f.limit.None? || f.limit.value == 0 then m
        else if f.limit.value > 0 then Min(f.limit.value, m)
        else Max(m + f.limit.value, 0)
    ensures multiset(AuditQuery(trail, f)) <= multiset(Select(trail, f))
    ensures f.limit.None? || f.limit.value == 0 ==>
      multiset(AuditQuery(trail, f)) == multiset(Select(trail, f))
    ensures forall e, e' ::
      e in multiset(Select(trail, f)) - multiset(AuditQuery(trail, f)) && e' in AuditQuery(trail, f) ==>
      e.timestamp <= e'.timestamp
  {
    var selected := Select(trail, f);
    var sorted := NewestFirst(selected);
    NewestFirstOrdered(selected);
    AuditQueryPrefix(trail, f);
    OrderedPrefix(sorted, |AuditQuery(trail, f)|);
    AuditQueryMatches(trail, f);
  }

  /** The query is a prefix of the sorted selection, of the length the
      limit gives. */
  lemma AuditQueryPrefix(trail: seq<AuditEntry>, f: AuditFilters)
    ensures var m := |Select(trail, f)|;
      |AuditQuery(trail, f)| ==
        if f.limit.None? || f.limit.value == 0 then m
        else if f.limit.value > 0 then Min(f.limit.value, m)
        else Max(m + f.limit.value, 0)
    ensures AuditQuery(trail, f) == NewestFirst(Select(trail, f))[..|AuditQuery(trail, f)|]
  {
  }

  lemma AuditQueryMatches(trail: seq<AuditEntry>, f: AuditFilters)
    ensures forall e :: e in AuditQuery(trail, f) ==> e in trail && Matches(e, f)
  {
    var selected := Select(trail, f);
    SelectExact(trail, f);
    NewestFirstOrdered(selected);
    AuditQueryPrefix(trail, f);
    var r := AuditQuery(trail, f);
    forall e | e in r ensures e in trail && Matches(e, f) {
      var i :| 0 <= i < |r| && r[i] == e;
      assert NewestFirst(selected)[i] == e;
      assert e in multiset(NewestFirst(selected));
      assert e in multiset(selected);
    }
  }

  /** A prefix of a newest-first sequence: what it leaves out is no newer
      than what it keeps. */
  lemma OrderedPrefix(s: seq<AuditEntry>, k: nat)
    requires k <= |s|
    requires forall i, j :: 0 <= i < j < |s| ==> s[i].timestamp >= s[j].timestamp
    ensures multiset(s[..k]) <= multiset(s)
    ensures forall e, e' :: e in multiset(s) - multiset(s[..k]) && e' in s[..k] ==> e.timestamp <= e'.timestamp
  {
    PrefixRest(s, k);
    forall e, e' | e in s[k..] && e' in s[..k] ensures e.timestamp <= e'.timestamp {
      var j :| 0 <= j < |s| - k && s[k..][j] == e;
      var i :| 0 <= i < k && s[..k][i] == e';
      assert s[k + j] == e && s[i] == e';
    }
  }

  lemma PrefixRest<T>(s: seq<T>, k: nat)
    requires k <= |s|
    ensures multiset(s) - multiset(s[..k]) == multiset(s[k..])
    ensures multiset(s[..k]) <= multiset(s)
  {
    assert s == s[..k] + s[k..];
  }

  /** Sorting newest first keeps the entries and orders their timestamps. */
  lemma NewestFirstOrdered(s: seq<AuditEntry>)
    ensures multiset(NewestFirst(s)) == multiset(s)
    ensures forall i, j :: 0 <= i < j < |s| ==> NewestFirst(s)[i].timestamp >= NewestFirst(s)[j].timestamp
  {
    LaterStrict(s);
    SortByPermutes(s, Timestamp, Later);
    SortBySorted(s, Timestamp, Later);
  }

  lemma LaterStrict(s: seq<AuditEntry>)
    ensures StrictOrderOn(s, Timestamp, Later)
  {
  }

  /** Entries with the same timestamp keep their order. */
  lemma NewestFirstStable(s: seq<AuditEntry>, t: int)
    ensures KeyedAs(NewestFirst(s), Timestamp, t) == KeyedAs(s, Timestamp, t)
  {
    SortByStable(s, Timestamp, Later, t);
  }

  // ---------------------------------------------------------------------
  // The store

  class VersionStore {
    /** The `versions` map: every resource key's history. */
    var versions: map<string, seq<DataVersion>>
    /** The `auditTrail` array, oldest entry first until a query sorts it. */
    var auditTrail: seq<AuditEntry>

    ghost predicate Valid()
      reads this
    {
      && (forall k :: k in versions ==> GoodHistory(versions[k]))
      && |auditTrail| <= AuditCap
    }

    constructor ()
      ensures Valid() && versions == map[] && auditTrail == []
    {
      versions := map[];
      auditTrail := [];
    }

    /** `getVersionHistory`: the versions saved so far, oldest first. */
    function History(resourceType: string, resourceId: string): (h: seq<DataVersion>)
      reads this
      ensures Valid() ==> GoodHistory(h)
    {
      var key := ResourceKey(resourceType, resourceId);
      if key in versions then versions[key] else []
    }

    /** `getVersion`. */
    function GetVersion(resourceType: string, resourceId: string, version: int): (r: Option<DataVersion>)
      reads this
      ensures Valid() ==> r == if 1 <= version <= |History(resourceType, resourceId)|
        then Some(History(resourceType, resourceId)[version - 1]) else None
    {
      var h := History(resourceType, resourceId);
      assert Consecutive(h) ==> FindVersion(h, version) == if 1 <= version <= |h| then Some(h[version - 1]) else None by {
        if Consecutive(h) { FindConsecutive(h, version); }
      }
      FindVersion(h, version)
    }

    /** `saveVersion`. A top-level `undefined` cannot be copied through
        JSON, and the save fails. */
    method SaveVersion(resourceType: string, resourceId: string, data: Value, userId: string,
                       comment: Option<string>, id: string, now: int) returns (r: Result<string>)
      requires Valid()
      modifies this
      ensures Valid()
      ensures auditTrail == old(auditTrail)
      ensures data == Undefined ==> r.Err? && versions == old(versions)
      ensures data != Undefined ==> (r == Ok(id) &&
        versions == old(versions)[ResourceKey(resourceType, resourceId) :=
          old(History(resourceType, resourceId)) +
          [NextVersion(old(History(resourceType, resourceId)), resourceType, resourceId, data, userId, comment, id, now)]])
    {
      var key := ResourceKey(resourceType, resourceId);
      var history := History(resourceType, resourceId);
      var changes: seq<Change> := [];
      if |history| > 0 {
        changes := CalculateChanges(history[|history| - 1].data, data);
      }
      if data == Undefined {
        return Err("Unexpected token u in JSON");
      }
      var number := if |history| > 0 then history[|history| - 1].version + 1 else 1;
      var version := DataVersion(id, resourceType, resourceId, number, Canon(data), changes, userId, now, comment, []);
      NextVersionGood(history, resourceType, resourceId, data, userId, comment, id, now);
      versions := versions[key := history + [version]];
      r := Ok(id);
    }

    /** `revertToVersion`: the target's data, after saving the latest data
        again as a new version when it is truthy. */
    method RevertToVersion(resourceType: string, resourceId: string, version: int, userId: string,
                           id: string, now: int) returns (r: Result<Value>)
      requires Valid()
      modifies this
      ensures Valid()
      ensures auditTrail == old(auditTrail)
      ensures var h := old(History(resourceType, resourceId));
        !(1 <= version <= |h|) ==> r.Err? && versions == old(versions)
      ensures var h := old(History(resourceType, resourceId));
        1 <= version <= |h| ==> (r == Ok(h[version - 1].data) &&
          if Truthy(h[|h| - 1].data)
          then versions == old(versions)[ResourceKey(resourceType, resourceId) := h +
            [NextVersion(h, resourceType, resourceId, h[|h| - 1].data, userId,
                         Some("Reverted to version " + IntText(version)), id, now)]]
          else versions == old(versions))
    {
      var target := GetVersion(resourceType, resourceId, version);
      var history := History(resourceType, resourceId);
      if target.None? {
        assert !(1 <= version <= |history|);
        return Err("Version " + IntText(version) + " not found");
      }
      assert 1 <= version <= |history| && target.value == history[version - 1];
      var current := history[|history| - 1].data;
      var comment := Some("Reverted to version " + IntText(version));
      if Truthy(current) {
        assert current != Undefined;
        var _ := SaveVersion(resourceType, resourceId, current, userId, comment, id, now);
        assert versions == old(versions)[ResourceKey(resourceType, resourceId) :=
          history + [NextVersion(history, resourceType, resourceId, current, userId, comment, id, now)]];
      }
      r := Ok(target.value.data);
    }

    /** `compareVersions`: the two versions, and their differences when
        both exist. */
    method CompareVersions(resourceType: string, resourceId: string, v1: int, v2: int) returns (c: Comparison)
      ensures c.version1 == GetVersion(resourceType, resourceId, v1)
      ensures c.version2 == GetVersion(resourceType, resourceId, v2)
      ensures c.version1.Some? && c.version2.Some? ==>
        c.differences == Changes(c.version1.value.data, c.version2.value.data)
      ensures c.version1.None? || c.version2.None? ==> c.differences == []
    {
      var version1 := GetVersion(resourceType, resourceId, v1);
      var version2 := GetVersion(resourceType, resourceId, v2);
      var differences: seq<Change> := [];
      if version1.Some? && version2.Some? {
        differences := CalculateChanges(version1.value.data, version2.value.data);
      }
      c := Comparison(version1, version2, differences);
    }

    /** `tagVersion`: adds the tag to the stored version unless it has it. */
    method TagVersion(resourceType: string, resourceId: string, version: int, tag: string)
      requires Valid()
      modifies this
      ensures Valid()
      ensures auditTrail == old(auditTrail)
      ensures var h := old(History(resourceType, resourceId));
        if 1 <= version <= |h| && tag !in h[version - 1].tags
        then versions == old(versions)[ResourceKey(resourceType, resourceId) :=
          h[version - 1 := h[version - 1].(tags := h[version - 1].tags + [tag])]]
        else versions == old(versions)
    {
      var target := GetVersion(resourceType, resourceId, version);
      if target.Some? && tag !in target.value.tags {
        var key := ResourceKey(resourceType, resourceId);
        var h := History(resourceType, resourceId);
        var tagged := h[version - 1].(tags := h[version - 1].tags + [tag]);
        var h' := h[version - 1 := tagged];
        assert forall i :: 0 <= i < |h| && i != version - 1 ==> h'[i] == h[i];
        versions := versions[key := h'];
      }
    }

    /** `recordAudit`: appends the entry, dropping the entry at the front
        when the trail grows past the cap. */
    method RecordAudit(input: AuditInput, id: string, now: int) returns (entryId: string)
      requires Valid()
      modifies this
      ensures Valid()
      ensures versions == old(versions)
      ensures auditTrail == Capped(old(auditTrail) + [AuditEntry(id, now, input)])
      ensures entryId == id
    {
      auditTrail := auditTrail + [AuditEntry(id, now, input)];
      if |auditTrail| > AuditCap {
        auditTrail := auditTrail[1..];
      }
      entryId := id;
    }

    /** `getAuditTrail`. Without a filter that applies, the sort runs on
        the stored trail itself and leaves it newest first. */
    method GetAuditTrail(filters: AuditFilters) returns (result: seq<AuditEntry>)
      requires Valid()
      modifies this
      ensures Valid()
      ensures versions == old(versions)
      ensures result == AuditQuery(old(auditTrail), filters)
      ensures auditTrail == if Unfiltered(filters) then NewestFirst(old(auditTrail)) else old(auditTrail)
    {
      var filtered := Select(auditTrail, filters);
      var sorted := NewestFirst(filtered);
      if Unfiltered(filters) {
        SelectAll(auditTrail, filters);
        auditTrail := sorted;
      }
      result := sorted;
      if filters.limit.Some? && filters.limit.value != 0 {
        result := SliceTo(sorted, filters.limit.value);
      }
    }
  }

  /** The trail never holds more than the cap, and the new entry is last. */
  lemma CappedKeepsNewest(trail: seq<AuditEntry>, e: AuditEntry)
    requires |trail| <= AuditCap
    ensures |Capped(trail + [e])| <= AuditCap
    ensures Capped(trail + [e])[|Capped(trail + [e])| - 1] == e
    ensures |trail| < AuditCap ==> Capped(trail + [e]) == trail + [e]
  {
  }
}
