/** `compare` once both documents are parsed (jdd.js:1076-1128): print and decorate each
    document in a fresh config, build the line-correspondence tables, reset both path stacks,
    run `diffVal`, then sort the diffs by left line (jdd.js:824-826) and count them by kind
    for the report (jdd.js:903-914). */
module Comparison {
  import opened Wrappers
  import opened JsonValues
  import opened Paths
  import opened Requests
  import R = Render
  import opened Decorator
  import opened Engine
  import opened Report
  import opened Agreement

  /** `createConfig` and `formatAndDecorate` (jdd.js:1082-1088). */
  method PrintDocument(v: Value) returns (config: Config)
    ensures fresh(config) && config.Snapshot() == R.Print(v)
  {
    config := new Config();
    config.FormatAndDecorate(v);
  }

  /** After a comparison that did not throw, the diffs are sorted by left line (jdd.js:824-826);
      either way they are counted by kind (jdd.js:903-914). */
  method SortAndCount(ds: seq<Diff>, sort: bool) returns (diffs: seq<Diff>, typeCount: nat, eqCount: nat, missingCount: nat)
    ensures diffs == (if sort then SortByLine(ds) else ds)
    ensures |diffs| == |ds| && multiset(diffs) == multiset(ds)
    ensures typeCount == Count(diffs, TypeMismatch) && eqCount == Count(diffs, Equality) &&
      missingCount == Count(diffs, Missing)
    ensures typeCount + eqCount + missingCount == |ds|
  {
    if sort {
      diffs := SortByLine(ds);
      SortByLineSpec(ds);
      assert |diffs| == |multiset(diffs)| == |multiset(ds)| == |ds|;
    } else {
      diffs := ds;
    }
    typeCount, eqCount, missingCount := CountKinds(diffs);
    CountsTotal(diffs);
  }

  /** What a comparison shows: both printed texts, the two line tables, the diffs in the order
      the report lists them (or, after a throw, `jdd.diffs` as the throw left it) together with
      the message thrown, and the per-kind counts of the diffs. */
  method Compare(left: Value, right: Value)
    returns (out1: string, out2: string, lr: map<int, Option<int>>, rl: map<Option<int>, int>,
             diffs: seq<Diff>, err: Option<Thrown>, typeCount: nat, eqCount: nat, missingCount: nat)
    ensures out1 == R.Print(left).out && out2 == R.Print(right).out
    ensures var m1, m2 := R.Print(left).paths, R.Print(right).paths;
      lr == LeftRight(m1, m2, |m1|) && rl == RightLeft(m1, m2, |m1|)
    ensures var m1, m2 := R.Print(left).paths, R.Print(right).paths;
      var r := ResolveAll(m1, m2, Walk(left, [], right, []));
      err == r.error && diffs == (if err.None? then SortByLine(r.diffs) else r.diffs)
    ensures typeCount == Count(diffs, TypeMismatch) && eqCount == Count(diffs, Equality) &&
      missingCount == Count(diffs, Missing)
    ensures NoLengthKey(left) && SafeKeys(left) && SafeKeys(right) ==>
      err.None? && |diffs| == |Walk(left, [], right, [])|
  {
    var jdd := new Jdd();
    var config := PrintDocument(left);
    out1 := config.out;
    var config2 := PrintDocument(right);
    out2 := config2.out;
    lr, rl := ParityTables(config.paths, config2.paths);
    config.currentPath := [];
    config2.currentPath := [];
    ghost var reqs := Walk(left, [], right, []);
    ghost var m1, m2 := config.paths, config2.paths;
    assert jdd.diffs == [];
    err := jdd.DiffVal(left, config, right, config2);
    assert Outcome([], jdd.diffs, err, m1, m2, reqs);
    ghost var r := ResolveAll(m1, m2, reqs);
    assert [] + r.diffs == r.diffs;
    diffs, typeCount, eqCount, missingCount := SortAndCount(jdd.diffs, err.None?);
    if NoLengthKey(left) && SafeKeys(left) && SafeKeys(right) {
      CompareResolves(left, right);
    }
  }
}
