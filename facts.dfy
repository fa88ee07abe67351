/** What one comparison reports, stated against reference definitions: a kind mismatch is one
    TYPE request, leaves give one EQUALITY request exactly when they differ, a value compared
    with itself gives none, and the missing-element and missing-key requests come in the order
    and number the source fixes. */
module WalkFacts {
  import opened Wrappers
  import opened Text
  import opened JsonValues
  import opened Paths
  import opened Requests

  /** Values of different kinds give exactly one TYPE request at the current paths, named by
      the left value's kind, and neither side is descended into (jdd.js:150-199). */
  lemma KindMismatch(v1: Value, S1: seq<string>, v2: Value, S2: seq<string>)
    requires !SameKind(v1, v2)
    ensures Walk(v1, S1, v2, S2) == [Here(S1, S2, TypesDiffer(GetType(v1)), TypeMismatch)]
  {
  }

  /** Two leaves of the same kind give one EQUALITY request exactly when they differ; for
      booleans the message is chosen by the left value (jdd.js:160-186, 236-251). */
  lemma LeafCompare(v1: Value, S1: seq<string>, v2: Value, S2: seq<string>)
    requires SameKind(v1, v2) && !v1.Arr? && !v1.Obj?
    ensures v1 == v2 ==> Walk(v1, S1, v2, S2) == []
    ensures v1 != v2 ==>
      Walk(v1, S1, v2, S2) == [Here(S1, S2, if v1.Bool? then BooleansDiffer(v1.b) else ValuesDiffer(GetType(v1)), Equality)]
  {
  }

  // ---------------------------------------------------------------------------------------
  // Self-comparison (jdd.js:148-231, 99-141).

  /** Comparing a value with itself makes no `generateDiff` call at all, whatever the stacks. */
  lemma {:induction false} SelfCompare(v: Value, S1: seq<string>, S2: seq<string>)
    ensures Walk(v, S1, v, S2) == []
    decreases v, 2
  {
    match v
    case Arr(es) =>
      assert ExtraElements(S1, S2, |es|, |es|) == [];
      ArrayElementsSelf(v, S1, S2, |es|);
    case Obj(ps) =>
      LooseLessIrreflexive(Member(ps, "length"));
      LeftKeysSelf(v, S1 + [Separator], S2 + [Separator], |ps|);
      RightKeysSelf(ps, S1, S2, |ps|);
    case Bool(b) =>
    case _ =>
  }

  lemma {:induction false} ArrayElementsSelf(v: Value, S1: seq<string>, S2: seq<string>, n: nat)
    requires v.Arr? && n <= |v.elems|
    ensures ArrayElements(v, S1, v, S2, n) == []
    decreases v, 1, n
  {
    if n > 0 {
      ArrayElementsSelf(v, S1, S2, n - 1);
      var i := n - 1;
      SelfCompare(v.elems[i], S1 + [ElementSegment(i)], S2 + [ElementSegment(i)]);
      assert ElementStep(v, S1, v, S2, i) == [];
    }
  }

  lemma {:induction false} LeftKeysSelf(v: Value, T1: seq<string>, T2: seq<string>, n: nat)
    requires v.Obj? && n <= |v.props|
    ensures LeftKeys(v, T1, v, T2, n) == []
    decreases v, 1, n
  {
    if n > 0 {
      LeftKeysSelf(v, T1, T2, n - 1);
      var key := v.props[n - 1].0;
      FindKeyComplete(v.props, n - 1);
      var i := FindKey(v.props, key).value;
      var seg := KeySegment(key);
      SelfCompare(v.props[i].1, T1 + [seg], T2 + [seg]);
      assert LeftKey(v, T1, v, T2, key) == [];
    }
  }

  lemma {:induction false} RightKeysSelf(ps: seq<(string, Value)>, S1: seq<string>, S2: seq<string>, n: nat)
    requires n <= |ps|
    ensures RightKeys(ps, S1, ps, S2, n) == []
  {
    if n > 0 {
      RightKeysSelf(ps, S1, S2, n - 1);
      FindKeyComplete(ps, n - 1);
    }
  }

  // ---------------------------------------------------------------------------------------
  // Array lengths (jdd.js:201-230).

  /** The requests `f(lo)`, `f(lo + 1)`, …, `f(hi - 1)`, in ascending order. */
  function Run(f: nat -> Request, lo: nat, hi: nat): (r: seq<Request>)
    ensures |r| == if hi <= lo then 0 else hi - lo
    ensures forall k :: 0 <= k < |r| ==> r[k] == f(lo + k)
  {
    if hi <= lo then [] else seq(hi - lo, k requires 0 <= k < hi - lo => f(lo + k))
  }

  /** A run grows by its next request. */
  lemma RunSnoc(f: nat -> Request, lo: nat, hi: nat)
    requires lo <= hi
    ensures Run(f, lo, hi + 1) == Run(f, lo, hi) + [f(hi)]
  {
    var r, prev := Run(f, lo, hi + 1), Run(f, lo, hi);
    assert |r| == |prev| + 1;
    forall k | 0 <= k < |r|
      ensures r[k] == (prev + [f(hi)])[k]
    {
      if k < |prev| {
        assert prev[k] == f(lo + k);
      }
    }
  }

  /** The extra right-hand indices `lo`, …, `hi - 1`, one request each in ascending order. */
  function ExtraRun(S1: seq<string>, S2: seq<string>, lo: nat, hi: nat): seq<Request> {
    Run((i: nat) => ExtraElement(S1, S2, i), lo, hi)
  }

  /** The left-hand indices `lo`, …, `hi - 1` the right array lacks, in ascending order. */
  function MissingRun(S1: seq<string>, S2: seq<string>, lo: nat, hi: nat): seq<Request> {
    Run((i: nat) => MissingElement(S1, S2, i), lo, hi)
  }

  /** The right-hand loop emits one request per extra index, in ascending order. */
  lemma {:induction false} ExtraElementsForm(S1: seq<string>, S2: seq<string>, n1: nat, n: nat)
    ensures ExtraElements(S1, S2, n1, n) == ExtraRun(S1, S2, n1, n)
  {
    if n1 < n {
      ExtraElementsForm(S1, S2, n1, n - 1);
      RunSnoc((i: nat) => ExtraElement(S1, S2, i), n1, n - 1);
    }
  }

  /** Below the shorter length every element pass is a comparison below the index segment; from
      there on each left index is one missing request at its place. */
  lemma {:induction false} ArrayElementsTail(v1: Value, S1: seq<string>, v2: Value, S2: seq<string>, n: nat)
    requires v1.Arr? && v2.Arr? && |v2.elems| <= n <= |v1.elems|
    ensures ArrayElements(v1, S1, v2, S2, n) ==
      ArrayElements(v1, S1, v2, S2, |v2.elems|) + MissingRun(S1, S2, |v2.elems|, n)
    decreases n
  {
    var m := |v2.elems|;
    if m < n {
      ArrayElementsTail(v1, S1, v2, S2, n - 1);
      var head := ArrayElements(v1, S1, v2, S2, m);
      var prev := MissingRun(S1, S2, m, n - 1);
      var last := [MissingElement(S1, S2, n - 1)];
      assert ElementStep(v1, S1, v2, S2, n - 1) == last;
      RunSnoc((i: nat) => MissingElement(S1, S2, i), m, n - 1);
      assert head + prev + last == head + (prev + last);
    }
  }

  /** Two arrays: a longer right array's extra indices come first, in ascending order, before
      any element pass; a longer left array's extra indices come after the common ones, in
      ascending order. Either way there are exactly |len1 - len2| missing-element requests
      outside the element comparisons. */
  lemma ArrayShape(v1: Value, S1: seq<string>, v2: Value, S2: seq<string>)
    requires v1.Arr? && v2.Arr?
    ensures var n1, n2 := |v1.elems|, |v2.elems|;
      (n1 <= n2 ==> WalkArray(v1, S1, v2, S2) == ExtraRun(S1, S2, n1, n2) + ArrayElements(v1, S1, v2, S2, n1)) &&
      (n2 <= n1 ==> WalkArray(v1, S1, v2, S2) == ArrayElements(v1, S1, v2, S2, n2) + MissingRun(S1, S2, n2, n1))
  {
    var n1, n2 := |v1.elems|, |v2.elems|;
    ExtraElementsForm(S1, S2, n1, n2);
    if n2 <= n1 {
      ArrayElementsTail(v1, S1, v2, S2, n1);
      assert ExtraRun(S1, S2, n1, n2) == [];
    }
  }

  // ---------------------------------------------------------------------------------------
  // Object keys (jdd.js:99-141).

  /** The keys of `ks`, in order, that the property list `ps` lacks. */
  function AbsentKeys(ps: seq<(string, Value)>, ks: seq<string>): seq<string> {
    if ks == [] then []
    else (if HasKey(ps, ks[0]) then [] else [ks[0]]) + AbsentKeys(ps, ks[1..])
  }

  /** A key is listed exactly when `ks` has it and `ps` does not. */
  lemma {:induction false} AbsentKeysSpec(ps: seq<(string, Value)>, ks: seq<string>, k: string)
    ensures k in AbsentKeys(ps, ks) <==> k in ks && !HasKey(ps, k)
  {
    if ks != [] {
      AbsentKeysSpec(ps, ks[1..], k);
      assert ks == [ks[0]] + ks[1..];
    }
  }

  lemma {:induction false} AbsentKeysAppend(ps: seq<(string, Value)>, ks: seq<string>, k: string)
    ensures AbsentKeys(ps, ks + [k]) == AbsentKeys(ps, ks) + (if HasKey(ps, k) then [] else [k])
  {
    if ks != [] {
      assert (ks + [k])[1..] == ks[1..] + [k];
      AbsentKeysAppend(ps, ks[1..], k);
    } else {
      assert AbsentKeys(ps, [k]) == (if HasKey(ps, k) then [] else [k]) + AbsentKeys(ps, []);
    }
  }

  /** One missing-left request for each given key, in the given order. */
  function MissingLefts(S1: seq<string>, S2: seq<string>, ks: seq<string>): (r: seq<Request>)
    ensures |r| == |ks|
  {
    seq(|ks|, k requires 0 <= k < |ks| => MissingLeft(S1, S2, ks[k]))
  }

  /** The right-key pass emits one missing-left request per right key the left object lacks,
      in right-key order. */
  lemma {:induction false} RightKeysForm(ps1: seq<(string, Value)>, S1: seq<string>, ps2: seq<(string, Value)>, S2: seq<string>, n: nat)
    requires n <= |ps2|
    ensures RightKeys(ps1, S1, ps2, S2, n) == MissingLefts(S1, S2, AbsentKeys(ps1, Keys(ps2[..n])))
  {
    if n > 0 {
      RightKeysForm(ps1, S1, ps2, S2, n - 1);
      var key := ps2[n - 1].0;
      assert ps2[..n] == ps2[..n - 1] + [ps2[n - 1]];
      assert Keys(ps2[..n]) == Keys(ps2[..n - 1]) + [key];
      AbsentKeysAppend(ps1, Keys(ps2[..n - 1]), key);
      var prev := AbsentKeys(ps1, Keys(ps2[..n - 1]));
      var now := AbsentKeys(ps1, Keys(ps2[..n]));
      var extra := if HasKey(ps1, key) then [] else [key];
      assert now == prev + extra;
      var a, b := MissingLefts(S1, S2, prev), MissingLefts(S1, S2, extra);
      assert MissingLefts(S1, S2, now) == a + b by {
        forall k | 0 <= k < |now|
          ensures MissingLefts(S1, S2, now)[k] == (a + b)[k]
        {
          if k < |prev| {
            assert now[k] == prev[k];
          } else {
            assert now[k] == extra[k - |prev|];
          }
        }
      }
      assert RightKey(ps1, S1, S2, key) == b;
    } else {
      assert ps2[..0] == [];
    }
  }

  /** One missing-right request for each given key, below the pushed "/" segments. */
  function MissingRights(T1: seq<string>, T2: seq<string>, ks: seq<string>): (r: seq<Request>)
    ensures |r| == |ks|
  {
    seq(|ks|, k requires 0 <= k < |ks| => MissingRight(T1, T2, ks[k]))
  }

  /** When the two objects share no key, the left-key pass emits one missing-right request per
      left key, in left-key order. */
  lemma {:induction false} LeftKeysDisjoint(v1: Value, T1: seq<string>, v2: Value, T2: seq<string>, n: nat)
    requires v1.Obj? && v2.Obj? && n <= |v1.props|
    requires forall i :: 0 <= i < |v1.props| ==> !HasKey(v2.props, v1.props[i].0)
    ensures LeftKeys(v1, T1, v2, T2, n) == MissingRights(T1, T2, Keys(v1.props[..n]))
  {
    if n > 0 {
      LeftKeysDisjoint(v1, T1, v2, T2, n - 1);
      var ks := Keys(v1.props[..n]);
      var prev := Keys(v1.props[..n - 1]);
      assert ks == prev + [v1.props[n - 1].0] by {
        assert v1.props[..n] == v1.props[..n - 1] + [v1.props[n - 1]];
      }
      var a := MissingRights(T1, T2, prev);
      assert MissingRights(T1, T2, ks) == a + [MissingRight(T1, T2, v1.props[n - 1].0)] by {
        forall k | 0 <= k < |ks|
          ensures MissingRights(T1, T2, ks)[k] == (a + [MissingRight(T1, T2, v1.props[n - 1].0)])[k]
        {
          if k < |prev| {
            assert ks[k] == prev[k];
          }
        }
      }
    } else {
      assert v1.props[..0] == [];
    }
  }

  /** An object without a `length` key never runs the pre-scan: its requests are the left-key
      pass followed by the right-key pass (jdd.js:77). */
  lemma ObjectWithoutLength(v1: Value, S1: seq<string>, v2: Value, S2: seq<string>)
    requires v1.Obj? && v2.Obj? && !HasKey(v1.props, "length")
    ensures WalkObject(v1, S1, v2, S2) ==
      LeftKeys(v1, S1 + [Separator], v2, S2 + [Separator], |v1.props|) +
      RightKeys(v1.props, S1, v2.props, S2, |v2.props|)
  {
    LooseLessUndefined(Member(v2.props, "length"));
  }

  /** The pre-scan's right path is the right stack, then "//#" and the raw key: the leading
      "/" given to `generatePath` is the one its key escaping turns into "#" (jdd.js:88). */
  lemma PreScanPath(S1: seq<string>, S2: seq<string>, key: string)
    ensures PreScanRequest(S1 + [Separator], S2 + [Separator], key).path2 == Concat(S2) + "//#" + key
  {
    var T2 := S2 + [Separator];
    ConcatAppend(S2, Separator);
    GeneratePathSpec(T2, Separator + key);
    assert KeySegment(Separator + key) == "#" + key;
  }
}
