/** A/B tests, multivariate combinations and feature flags. A user is
    placed in a test's variant by a hash of the user id: the hash modulo
    100 is the user's percentile, the audience percentage admits the
    percentiles below it, and the variants' weights split the percentiles
    into consecutive buckets. The md5 hash is a function the store is
    built with; clocks and random ids are parameters. */
module ABTesting {
  import opened Common
  import opened Values
  import opened OrderedMaps

  datatype Status = Draft | Running | Paused | Completed

  datatype Variant = Variant(id: string, name: string, weight: real, config: Value)

  /** A test. `percentage` is `targetAudience.percentage`, `None` when the
      audience or its percentage is not given. */
  datatype ABTest = ABTest(
    id: string,
    name: string,
    description: string,
    variants: seq<Variant>,
    percentage: Option<real>,
    metrics: seq<string>,
    status: Status,
    startDate: int,
    endDate: Option<int>,
    createdAt: int)

  datatype ABTestResult = ABTestResult(testId: string, variant: string, userId: string, timestamp: int, metrics: Record)

  /** `hash % 100`. */
  function Percentile(hash: nat): (p: nat)
    ensures p < 100
  {
    hash % 100
  }

  // ---------------------------------------------------------------------
  // Weighted selection

  /** The running sum of the first `k` weights. */
  function Cumulative(vs: seq<Variant>, k: nat): real
    requires k <= |vs|
    decreases k
  {
    if k == 0 then 0.0 else Cumulative(vs, k - 1) + vs[k - 1].weight
  }

  /** The first index from `i` on whose running sum exceeds `r`. */
  function FirstCovering(vs: seq<Variant>, r: real, i: nat): (j: Option<nat>)
    requires i <= |vs|
    ensures j.Some? ==> i <= j.value < |vs|
    decreases |vs| - i
  {
    if i == |vs| then None
    else if r < Cumulative(vs, i + 1) then Some(i)
    else FirstCovering(vs, r, i + 1)
  }

  /** What `assignVariant` picks for percentile `r`: the first variant whose
      running weight exceeds it, else the first variant, else nothing. */
  function Assigned(vs: seq<Variant>, r: nat): (v: Option<Variant>)
    ensures v.None? <==> |vs| == 0
    ensures v.Some? ==> v.value in vs
  {
    match FirstCovering(vs, r as real, 0)
    case Some(j) => Some(vs[j])
    case None => if |vs| == 0 then None else Some(vs[0])
  }

  /** `assignVariant`: one pass accumulating the weights. */
  method AssignVariant(variants: seq<Variant>, userHash: nat) returns (v: Option<Variant>)
    ensures v == Assigned(variants, Percentile(userHash))
  {
    var random := userHash % 100;
    var cumulative := 0.0;
    var i := 0;
    while i < |variants|
      invariant 0 <= i <= |variants|
      invariant cumulative == Cumulative(variants, i)
      invariant FirstCovering(variants, random as real, 0) == FirstCovering(variants, random as real, i)
    {
      cumulative := cumulative + variants[i].weight;
      if (random as real) < cumulative {
        return Some(variants[i]);
      }
      i := i + 1;
    }
    v := if |variants| > 0 then Some(variants[0]) else None;
  }

  predicate NonNegativeWeights(vs: seq<Variant>)
  {
    forall i :: 0 <= i < |vs| ==> vs[i].weight >= 0.0
  }

  /** The search stops at the first index whose running sum exceeds `r`,
      and finds none when no running sum does. */
  lemma {:induction false} FirstCoveringExact(vs: seq<Variant>, r: real, i: nat)
    requires i <= |vs|
    ensures match FirstCovering(vs, r, i)
      case Some(j) => r < Cumulative(vs, j + 1) && forall k :: i < k <= j ==> Cumulative(vs, k) <= r
      case None => forall k :: i < k <= |vs| ==> Cumulative(vs, k) <= r
    decreases |vs| - i
  {
    if i < |vs| && Cumulative(vs, i + 1) <= r {
      FirstCoveringExact(vs, r, i + 1);
    }
  }

  /** With non-negative weights the running sums never decrease. */
  lemma {:induction false} CumulativeMonotone(vs: seq<Variant>, a: nat, b: nat)
    requires NonNegativeWeights(vs)
    requires a <= b <= |vs|
    ensures Cumulative(vs, a) <= Cumulative(vs, b)
    decreases b
  {
    if a < b {
      CumulativeMonotone(vs, a, b - 1);
    }
  }

  /** With non-negative weights, variant `j` is found for exactly the
      percentiles in its bucket `[Cumulative(j), Cumulative(j + 1))`. */
  lemma Bucket(vs: seq<Variant>, r: nat, j: nat)
    requires NonNegativeWeights(vs)
    requires j < |vs|
    ensures FirstCovering(vs, r as real, 0) == Some(j) <==>
      Cumulative(vs, j) <= r as real < Cumulative(vs, j + 1)
  {
    FirstCoveringExact(vs, r as real, 0);
    if Cumulative(vs, j) <= r as real < Cumulative(vs, j + 1) {
      forall k | 0 < k <= j ensures Cumulative(vs, k) <= r as real {
        CumulativeMonotone(vs, k, j);
      }
    }
  }

  /** Percentile `r` lies in variant `j`'s bucket. */
  predicate InBucket(vs: seq<Variant>, r: nat, j: nat)
  {
    j < |vs| && Cumulative(vs, j) <= r as real < Cumulative(vs, j + 1)
  }

  /** When the weights are non-negative and add up to more than the
      percentile (as they do for every percentile when they add up to at
      least 100), the percentile lies in the bucket of some variant. */
  lemma BucketExists(vs: seq<Variant>, r: nat)
    requires NonNegativeWeights(vs)
    requires r as real < Cumulative(vs, |vs|)
    ensures exists j :: InBucket(vs, r, j)
  {
    FirstCoveringExact(vs, r as real, 0);
    match FirstCovering(vs, r as real, 0)
    case Some(j) =>
      assert InBucket(vs, r, j);
    case None =>
      assert false;
  }

  /** With non-negative weights the buckets do not overlap. */
  lemma BucketUnique(vs: seq<Variant>, r: nat, j: nat, k: nat)
    requires NonNegativeWeights(vs)
    requires InBucket(vs, r, j) && InBucket(vs, r, k)
    ensures j == k
  {
    if j < k {
      CumulativeMonotone(vs, j + 1, k);
    } else if k < j {
      CumulativeMonotone(vs, k + 1, j);
    }
  }

  /** A percentile in variant `j`'s bucket is assigned variant `j`. */
  lemma AssignedByBucket(vs: seq<Variant>, r: nat, j: nat)
    requires NonNegativeWeights(vs)
    requires r < 100 && InBucket(vs, r, j)
    ensures Assigned(vs, r) == Some(vs[j])
  {
    Bucket(vs, r, j);
  }

  /** When the weights add up to no more than the percentile, the first
      variant is the fallback. */
  lemma AssignedFallback(vs: seq<Variant>, r: nat)
    requires NonNegativeWeights(vs)
    requires |vs| > 0 && Cumulative(vs, |vs|) <= r as real
    ensures Assigned(vs, r) == Some(vs[0])
  {
    forall k | 0 < k <= |vs| ensures Cumulative(vs, k) <= r as real {
      CumulativeMonotone(vs, k, |vs|);
    }
    NoCovering(vs, r as real, 0);
  }

  lemma {:induction false} NoCovering(vs: seq<Variant>, r: real, i: nat)
    requires i <= |vs|
    requires forall k :: i < k <= |vs| ==> Cumulative(vs, k) <= r
    ensures FirstCovering(vs, r, i) == None
    decreases |vs| - i
  {
    if i < |vs| {
      NoCovering(vs, r, i + 1);
    }
  }

  // ---------------------------------------------------------------------
  // Multivariate combinations

  datatype Factor = Factor(name: string, variants: seq<string>)

  /** The paths `recurse(index, _)` walks, in the order it pushes their
      configs: one variant for each factor from `index` on, the factor at
      `index` varying slowest. */
  function Choices(factors: seq<Factor>, index: nat): (r: seq<seq<string>>)
    requires index <= |factors|
    ensures forall k :: 0 <= k < |r| ==> |r[k]| == |factors| - index
    decreases |factors| - index, 1, 0
  {
    if index == |factors| then [[]]
    else Expand(factors, index, factors[index].variants)
  }

  /** The loop over the variants `vs` of the factor at `index`. */
  function Expand(factors: seq<Factor>, index: nat, vs: seq<string>): (r: seq<seq<string>>)
    requires index < |factors|
    ensures forall k :: 0 <= k < |r| ==> |r[k]| == |factors| - index
    decreases |factors| - index, 0, |vs|
  {
    if |vs| == 0 then []
    else Prefix(vs[0], Choices(factors, index + 1)) + Expand(factors, index, vs[1..])
  }

  /** `v` put in front of every path. */
  function Prefix(v: string, paths: seq<seq<string>>): (r: seq<seq<string>>)
    ensures |r| == |paths|
    ensures forall k :: 0 <= k < |r| ==> r[k] == [v] + paths[k]
  {
    seq(|paths|, k requires 0 <= k < |paths| => [v] + paths[k])
  }

  /** The config of one path: `{ ...current, [factor.name]: variant }` for
      each factor in turn. */
  function Build(factors: seq<Factor>, index: nat, current: Record, choice: seq<string>): Record
    requires index <= |factors| && |choice| == |factors| - index
    decreases |factors| - index
  {
    if index == |factors| then current
    else Build(factors, index + 1, Put(current, factors[index].name, Str(choice[0])), choice[1..])
  }

  /** `generateCombinations`: the config of every path, in push order,
      without the random ids. */
  function GenerateCombinations(factors: seq<Factor>): (configs: seq<Record>)
    ensures |configs| == |Choices(factors, 0)|
    ensures forall k :: 0 <= k < |configs| ==> configs[k] == Build(factors, 0, [], Choices(factors, 0)[k])
  {
    var paths := Choices(factors, 0);
    seq(|paths|, k requires 0 <= k < |paths| => Build(factors, 0, [], paths[k]))
  }

  /** `choice` picks one listed variant of every factor from `index` on. */
  predicate Chooses(factors: seq<Factor>, index: nat, choice: seq<string>)
    requires index <= |factors|
  {
    && |choice| == |factors| - index
    && forall k :: 0 <= k < |choice| ==> choice[k] in factors[index + k].variants
  }

  lemma ChoosesCons(factors: seq<Factor>, index: nat, v: string, rest: seq<string>)
    requires index < |factors|
    ensures Chooses(factors, index, [v] + rest) <==>
      v in factors[index].variants && Chooses(factors, index + 1, rest)
  {
    var choice := [v] + rest;
    if Chooses(factors, index, choice) {
      assert choice[0] == v;
      forall k | 0 <= k < |rest| ensures rest[k] in factors[index + 1 + k].variants {
        assert rest[k] == choice[k + 1];
      }
    }
    if v in factors[index].variants && Chooses(factors, index + 1, rest) {
      forall k | 0 <= k < |choice| ensures choice[k] in factors[index + k].variants {
        if k > 0 {
          assert choice[k] == rest[k - 1];
        }
      }
    }
  }

  /** A path through `v` is `v` followed by a path of the rest. */
  lemma PrefixMember(v: string, paths: seq<seq<string>>, choice: seq<string>)
    ensures choice in Prefix(v, paths) <==> |choice| > 0 && choice[0] == v && choice[1..] in paths
  {
    var r := Prefix(v, paths);
    if choice in r {
      var k :| 0 <= k < |r| && r[k] == choice;
      assert choice[1..] == paths[k];
    }
    if |choice| > 0 && choice[0] == v && choice[1..] in paths {
      var k :| 0 <= k < |paths| && paths[k] == choice[1..];
      assert r[k] == choice;
    }
  }

  /** `n · p`, spelled out as repeated addition so that the counting
      proofs stay within linear arithmetic. */
  function Times(n: nat, p: nat): nat
  {
    if n == 0 then 0 else Times(n - 1, p) + p
  }

  /** The number of combinations from `index` on: the product of the
      remaining factors' variant counts. */
  function Product(factors: seq<Factor>, index: nat): (p: nat)
    requires index <= |factors|
    decreases |factors| - index
  {
    if index == |factors| then 1 else Times(|factors[index].variants|, Product(factors, index + 1))
  }

  lemma {:induction false} ChoicesCount(factors: seq<Factor>, index: nat)
    requires index <= |factors|
    ensures |Choices(factors, index)| == Product(factors, index)
    decreases |factors| - index, 1, 0
  {
    if index < |factors| {
      ExpandCount(factors, index, factors[index].variants);
    }
  }

  lemma {:induction false} ExpandCount(factors: seq<Factor>, index: nat, vs: seq<string>)
    requires index < |factors|
    ensures |Expand(factors, index, vs)| == Times(|vs|, Product(factors, index + 1))
    decreases |factors| - index, 0, |vs|
  {
    if |vs| > 0 {
      ChoicesCount(factors, index + 1);
      ExpandCount(factors, index, vs[1..]);
    }
  }

  /** There are as many combinations as the product of the factors'
      variant counts. */
  lemma CombinationsCount(factors: seq<Factor>)
    ensures |GenerateCombinations(factors)| == Product(factors, 0)
  {
    ChoicesCount(factors, 0);
  }

  /** The paths are exactly the choices of one listed variant per factor. */
  lemma {:induction false} ChoicesExact(factors: seq<Factor>, index: nat, choice: seq<string>)
    requires index <= |factors|
    ensures choice in Choices(factors, index) <==> Chooses(factors, index, choice)
    decreases |factors| - index, 1, 0
  {
    if index < |factors| {
      ExpandExact(factors, index, factors[index].variants, choice);
      if |choice| > 0 {
        ChoosesCons(factors, index, choice[0], choice[1..]);
        assert choice == [choice[0]] + choice[1..];
      }
    }
  }

  lemma {:induction false} ExpandExact(factors: seq<Factor>, index: nat, vs: seq<string>, choice: seq<string>)
    requires index < |factors|
    ensures choice in Expand(factors, index, vs) <==>
      |choice| > 0 && choice[0] in vs && Chooses(factors, index + 1, choice[1..])
    decreases |factors| - index, 0, |vs|
  {
    if |vs| > 0 {
      PrefixMember(vs[0], Choices(factors, index + 1), choice);
      if |choice| > 0 {
        ChoicesExact(factors, index + 1, choice[1..]);
      }
      ExpandExact(factors, index, vs[1..], choice);
      assert forall v :: v in vs <==> v == vs[0] || v in vs[1..];
    }
  }

  /** Block `j` of the paths from the factor at `index` holds, in order,
      the paths that take that factor's `j`-th variant. */
  lemma {:induction false} ExpandBlock(factors: seq<Factor>, index: nat, vs: seq<string>, j: nat, m: nat)
    requires index < |factors| && j < |vs| && m < Product(factors, index + 1)
    ensures m < |Choices(factors, index + 1)|
    ensures Times(j, Product(factors, index + 1)) + m < |Expand(factors, index, vs)|
    ensures Expand(factors, index, vs)[Times(j, Product(factors, index + 1)) + m] ==
      [vs[j]] + Choices(factors, index + 1)[m]
    decreases j
  {
    var p := Product(factors, index + 1);
    var head := Prefix(vs[0], Choices(factors, index + 1));
    var tail := Expand(factors, index, vs[1..]);
    ChoicesCount(factors, index + 1);
    ExpandCount(factors, index, vs[1..]);
    assert Expand(factors, index, vs) == head + tail;
    if j == 0 {
      assert Times(j, p) + m == m;
      assert (head + tail)[m] == head[m];
    } else {
      var x := Times(j - 1, p) + m;
      ExpandBlock(factors, index, vs[1..], j - 1, m);
      assert vs[1..][j - 1] == vs[j];
      assert Times(j, p) + m == p + x;
      assert (head + tail)[p + x] == tail[x];
    }
  }

  /** The order of the list: the first factor varies slowest. Position
      `j·P + m`, where `P` is the number of combinations of the other
      factors, holds the first factor's `j`-th variant followed by the
      other factors' `m`-th path. */
  lemma CombinationsOrder(factors: seq<Factor>, j: nat, m: nat)
    requires |factors| > 0 && j < |factors[0].variants| && m < Product(factors, 1)
    ensures m < |Choices(factors, 1)|
    ensures Times(j, Product(factors, 1)) + m < |Choices(factors, 0)|
    ensures Choices(factors, 0)[Times(j, Product(factors, 1)) + m] ==
      [factors[0].variants[j]] + Choices(factors, 1)[m]
  {
    ExpandBlock(factors, 0, factors[0].variants, j, m);
  }

  /** The combinations are exactly the configs of the choices of one
      listed variant per factor. */
  lemma CombinationsExact(factors: seq<Factor>, config: Record)
    ensures config in GenerateCombinations(factors) <==>
      exists choice :: Chooses(factors, 0, choice) && Build(factors, 0, [], choice) == config
  {
    var paths := Choices(factors, 0);
    if config in GenerateCombinations(factors) {
      var k :| 0 <= k < |paths| && GenerateCombinations(factors)[k] == config;
      ChoicesExact(factors, 0, paths[k]);
    }
    if choice :| Chooses(factors, 0, choice) && Build(factors, 0, [], choice) == config {
      ChoicesExact(factors, 0, choice);
      var k :| 0 <= k < |paths| && paths[k] == choice;
      assert GenerateCombinations(factors)[k] == config;
    }
  }

  // ---------------------------------------------------------------------
  // Tests, assignments and results

  /** A non-zero `targetAudience.percentage` admits only the percentiles
      below it. */
  predicate OutsideAudience(percentage: Option<real>, hash: nat)
  {
    percentage.Some? && percentage.value != 0.0 && Percentile(hash) as real >= percentage.value
  }

  function VariantIds(vs: seq<Variant>): (ids: seq<string>)
    ensures |ids| == |vs|
    ensures forall i :: 0 <= i < |vs| ==> ids[i] == vs[i].id
  {
    seq(|vs|, i requires 0 <= i < |vs| => vs[i].id)
  }

  /** The answer of a lookup and the user's assignments after it. */
  datatype Lookup = Lookup(answer: Option<string>, assignments: map<string, string>)

  /** Every assignment in `a` is still in `b`, unchanged. */
  predicate Keeps(a: map<string, string>, b: map<string, string>)
  {
    forall t :: t in a ==> t in b && b[t] == a[t]
  }

  /** `getVariantForUser` on a running test, given the user's recorded
      assignments `userTests` and the user's hash. */
  function Decide(test: ABTest, testId: string, userTests: map<string, string>, hash: nat): (d: Lookup)
    ensures Keeps(userTests, d.assignments)
    ensures testId in userTests ==> d == Lookup(Some(userTests[testId]), userTests)
    ensures d.assignments != userTests ==>
      testId !in userTests && testId in d.assignments && d.assignments == userTests[testId := d.assignments[testId]]
    ensures testId !in userTests && testId in d.assignments ==> d.assignments[testId] in VariantIds(test.variants)
    ensures d.answer.Some? ==> testId in d.assignments && d.answer == Some(d.assignments[testId])
    ensures testId !in userTests && OutsideAudience(test.percentage, hash) ==> d == Lookup(None, userTests)
    ensures testId !in userTests && !OutsideAudience(test.percentage, hash) && |test.variants| > 0 ==>
      testId in d.assignments && d.assignments[testId] == Assigned(test.variants, Percentile(hash)).value.id
  {
    if testId in userTests then Lookup(Some(userTests[testId]), userTests)
    else if OutsideAudience(test.percentage, hash) then Lookup(None, userTests)
    else match Assigned(test.variants, Percentile(hash))
      case None => Lookup(None, userTests)
      case Some(v) =>
        assert v.id in VariantIds(test.variants) by {
          var i :| 0 <= i < |test.variants| && test.variants[i] == v;
        }
        Lookup(if v.id == "" then None else Some(v.id), userTests[testId := v.id])
  }

  /** The test exists and is running. */
  predicate Live(tests: map<string, ABTest>, testId: string)
  {
    testId in tests && tests[testId].status == Running
  }

  /** The assignments recorded for a user, `{}` before the first lookup. */
  function UserTests(assignments: map<string, map<string, string>>, userId: string): map<string, string>
  {
    if userId in assignments then assignments[userId] else map[]
  }

  /** Every recorded assignment names a variant of an existing test. */
  predicate AssignmentsValid(assignments: map<string, map<string, string>>, tests: map<string, ABTest>)
  {
    forall u :: u in assignments ==> UserAssignmentsValid(assignments[u], tests)
  }

  predicate UserAssignmentsValid(userTests: map<string, string>, tests: map<string, ABTest>)
  {
    forall t :: t in userTests ==> t in tests && userTests[t] in VariantIds(tests[t].variants)
  }

  /** A lookup only records variants of the test looked up. */
  lemma DecideKeepsValid(assignments: map<string, map<string, string>>, tests: map<string, ABTest>,
                         testId: string, userId: string, hash: nat)
    requires AssignmentsValid(assignments, tests) && testId in tests
    ensures AssignmentsValid(assignments[userId :=
      Decide(tests[testId], testId, UserTests(assignments, userId), hash).assignments], tests)
  {
    var userTests := UserTests(assignments, userId);
    var d := Decide(tests[testId], testId, userTests, hash);
    assert UserAssignmentsValid(userTests, tests);
    forall t | t in d.assignments
      ensures t in tests && d.assignments[t] in VariantIds(tests[t].variants)
    {
      if t != testId || testId in userTests {
        assert t in userTests;
      }
    }
  }

  /** The module-level `tests`, `results` and `userAssignments`, with the
      user hash the store is built with. */
  class ABTestStore {
    var tests: map<string, ABTest>
    var results: seq<ABTestResult>
    var userAssignments: map<string, map<string, string>>
    const hash: string -> nat

    ghost predicate Valid()
      reads this
    {
      AssignmentsValid(userAssignments, tests)
    }

    constructor (hash: string -> nat)
      ensures Valid()
      ensures tests == map[] && results == [] && userAssignments == map[] && this.hash == hash
    {
      tests := map[];
      results := [];
      userAssignments := map[];
      this.hash := hash;
    }

    /** `createABTest`: the test is stored under a fresh id with its
        creation time. */
    method CreateABTest(test: ABTest, id: string, now: int) returns (r: string)
      requires Valid()
      requires id !in tests
      modifies this
      ensures Valid()
      ensures r == id && tests == old(tests)[id := test.(id := id, createdAt := now)]
      ensures results == old(results) && userAssignments == old(userAssignments)
    {
      tests := tests[id := test.(id := id, createdAt := now)];
      r := id;
    }

    /** `getVariantForUser`. */
    method GetVariantForUser(testId: string, userId: string) returns (r: Option<string>)
      requires Valid()
      modifies this
      ensures Valid()
      ensures tests == old(tests) && results == old(results)
      ensures !Live(tests, testId) ==> r.None? && userAssignments == old(userAssignments)
      ensures Live(tests, testId) ==> (
        var d := Decide(tests[testId], testId, UserTests(old(userAssignments), userId), hash(userId));
        r == d.answer && userAssignments == old(userAssignments)[userId := d.assignments])
    {
      if testId !in tests || tests[testId].status != Running {
        return None;
      }
      var test := tests[testId];
      ghost var d := Decide(test, testId, UserTests(userAssignments, userId), hash(userId));
      DecideKeepsValid(userAssignments, tests, testId, userId, hash(userId));
      if userId !in userAssignments {
        userAssignments := userAssignments[userId := map[]];
      }
      var userTests := userAssignments[userId];
      assert userTests == UserTests(old(userAssignments), userId);
      if testId in userTests {
        assert d.assignments == userTests;
        return Some(userTests[testId]);
      }
      var h := hash(userId);
      if test.percentage.Some? && test.percentage.value != 0.0 {
        if (h % 100) as real >= test.percentage.value {
          assert OutsideAudience(test.percentage, h);
          return None;
        }
      }
      var variant := AssignVariant(test.variants, h);
      if variant.Some? {
        userAssignments := userAssignments[userId := userTests[testId := variant.value.id]];
      }
      r := if variant.Some? && variant.value.id != "" then Some(variant.value.id) else None;
      assert d == Lookup(r, userAssignments[userId]);
    }

    /** `trackMetric`: one result for the user's variant, none when the
        lookup gives no variant or an empty id. */
    method TrackMetric(testId: string, userId: string, metric: string, value: real, now: int)
      requires Valid()
      modifies this
      ensures Valid()
      ensures tests == old(tests)
      ensures !Live(tests, testId) ==> results == old(results) && userAssignments == old(userAssignments)
      ensures Live(tests, testId) ==> (
        var d := Decide(tests[testId], testId, UserTests(old(userAssignments), userId), hash(userId));
        && userAssignments == old(userAssignments)[userId := d.assignments]
        && results == old(results) +
          (if d.answer.Some? && d.answer.value != ""
           then [ABTestResult(testId, d.answer.value, userId, now, [Field(metric, Num(value))])]
           else []))
    {
      var variant := GetVariantForUser(testId, userId);
      if variant.None? || variant.value == "" {
        return;
      }
      results := results + [ABTestResult(testId, variant.value, userId, now, [Field(metric, Num(value))])];
    }

    /** `stopTest`: the test is completed, so later lookups give `null`. */
    method StopTest(testId: string, now: int)
      requires Valid()
      modifies this
      ensures Valid()
      ensures !Live(tests, testId)
      ensures testId in old(tests) ==>
        tests == old(tests)[testId := old(tests)[testId].(status := Completed, endDate := Some(now))]
      ensures testId !in old(tests) ==> tests == old(tests)
      ensures results == old(results) && userAssignments == old(userAssignments)
    {
      if testId in tests {
        tests := tests[testId := tests[testId].(status := Completed, endDate := Some(now))];
      }
    }
  }

  /** Once a lookup has recorded a variant, every later lookup for the same
      user and test answers that variant and records nothing new. */
  lemma StickyAssignment(test: ABTest, later: ABTest, testId: string, userTests: map<string, string>, hash: nat, laterHash: nat)
    requires testId in Decide(test, testId, userTests, hash).assignments
    ensures var d := Decide(test, testId, userTests, hash);
      Decide(later, testId, d.assignments, laterHash) == Lookup(Some(d.assignments[testId]), d.assignments)
  {
  }

  // ---------------------------------------------------------------------
  // Feature flags

  datatype FlagConfig = FlagConfig(enabled: bool, rollout: Option<real>)

  /** `isEnabled` on a flag's configuration. A user id takes part only when
      it is given and non-empty. */
  function FlagDecision(config: Option<FlagConfig>, userId: Option<string>, hash: string -> nat): (on: bool)
    ensures on ==> config.Some? && config.value.enabled
    ensures config.Some? && config.value.enabled && (config.value.rollout.None? || userId.None? || userId.value == "") ==> on
    ensures config.Some? && config.value.enabled && config.value.rollout.Some? && userId.Some? && userId.value != "" ==>
      (on <==> (Percentile(hash(userId.value)) as real) < config.value.rollout.value)
  {
    match config
    case None => false
    case Some(c) =>
      if !c.enabled then false
      else if c.rollout.Some? && userId.Some? && userId.value != "" then
        (hash(userId.value) % 100) as real < c.rollout.value
      else c.enabled
  }

  /** Raising a rollout never turns a flag off for anyone. */
  lemma RolloutMonotone(enabled: bool, low: real, high: real, userId: Option<string>, hash: string -> nat)
    requires low <= high
    requires FlagDecision(Some(FlagConfig(enabled, Some(low))), userId, hash)
    ensures FlagDecision(Some(FlagConfig(enabled, Some(high))), userId, hash)
  {
  }

  /** A rollout of 100 or more reaches every user; one of 0 or less reaches
      no user with an id. */
  lemma RolloutBounds(enabled: bool, rollout: real, userId: string, hash: string -> nat)
    requires enabled && userId != ""
    ensures rollout >= 100.0 ==> FlagDecision(Some(FlagConfig(enabled, Some(rollout))), Some(userId), hash)
    ensures rollout <= 0.0 ==> !FlagDecision(Some(FlagConfig(enabled, Some(rollout))), Some(userId), hash)
  {
  }

  /** The static `flags` map of `FeatureFlags`, in insertion order. */
  class FeatureFlags {
    var flags: OMap<string, FlagConfig>
    const hash: string -> nat

    ghost predicate Valid()
      reads this
    {
      flags.Valid()
    }

    constructor (hash: string -> nat)
      ensures Valid() && flags == Empty() && this.hash == hash
    {
      flags := Empty();
      this.hash := hash;
    }

    /** `FeatureFlags.set`: a new configuration replaces the old one, the
        flag keeping its place. */
    method Set(flag: string, enabled: bool, rollout: Option<real>)
      requires Valid()
      modifies this
      ensures Valid()
      ensures flags == old(flags).Set(flag, FlagConfig(enabled, rollout))
      ensures forall u :: IsEnabled(flag, u) == FlagDecision(Some(FlagConfig(enabled, rollout)), u, hash)
    {
      flags := flags.Set(flag, FlagConfig(enabled, rollout));
    }

    /** `FeatureFlags.isEnabled`. */
    function IsEnabled(flag: string, userId: Option<string>): (on: bool)
      reads this
      ensures on == FlagDecision(flags.Get(flag), userId, hash)
    {
      FlagDecision(flags.Get(flag), userId, hash)
    }

    /** `FeatureFlags.getAll`: each flag's `enabled`, in insertion order. */
    function GetAll(): (r: Record)
      reads this
      requires Valid()
      ensures Keys(r) == flags.keys && WellFormed(r)
      ensures forall f :: f in flags.entries ==> Get(r, f) == Bool(flags.entries[f].enabled)
      ensures forall f :: f !in flags.entries ==> Get(r, f) == Undefined
    {
      var ks := flags.keys;
      var vs := flags.Values();
      var r := seq(|ks|, i requires 0 <= i < |ks| && i < |vs| => Field(ks[i], Bool(vs[i].enabled)));
      assert Keys(r) == ks;
      forall f | f in flags.entries ensures Get(r, f) == Bool(flags.entries[f].enabled) {
        var i :| 0 <= i < |flags.keys| && flags.keys[i] == f;
        DistinctKeyIndex(r, i);
      }
      r
    }
  }

  /** In a record without repeated keys, a key is found where it is. */
  lemma DistinctKeyIndex(r: Record, i: nat)
    requires WellFormed(r) && i < |r|
    ensures Get(r, r[i].key) == r[i].val
  {
    var k := r[i].key;
    assert Keys(r)[i] == k;
    match KeyIndex(r, k)
    case Some(j) =>
      assert Keys(r)[j] == k;
    case None =>
  }
}
