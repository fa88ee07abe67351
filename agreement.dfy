/** The printer and the engine build the same path strings: for two documents printed by
    `formatAndDecorate`, every path `diffVal` hands to `generateDiff` was recorded, so the
    comparison never throws — provided the left document has no `length` key, no key's
    segment ends in "/" and no object has its own key "hasOwnProperty". */
module Agreement {
  import opened Wrappers
  import opened Text
  import opened JsonValues
  import opened Paths
  import Render
  import opened Requests
  import opened Coverage

  /** A key the agreement theorem admits. Its segment does not end in "/", the character
      `generateDiff` strips: otherwise the member's path would be stripped to one that was never
      recorded. The empty key is admitted; its stripped path is its object's own path. And it is
      not "hasOwnProperty": an own member of that name shadows the method `getSortedProperties`
      calls (jdd.js:498), so printing the document throws a TypeError, which is not modelled. */
  predicate SafeKey(key: string) {
    var seg := KeySegment(key);
    key != "hasOwnProperty" && (|seg| == 0 || seg[|seg| - 1] != '/')
  }

  /** Every key of every object in `v` is safe. */
  predicate SafeKeys(v: Value) {
    match v
    case Arr(es) => forall i :: 0 <= i < |es| ==> SafeKeys(es[i])
    case Obj(ps) => forall i :: 0 <= i < |ps| ==> SafeKey(ps[i].0) && SafeKeys(ps[i].1)
    case _ => true
  }

  /** No object in `v` has a `length` key, so the pre-scan of jdd.js:77 never runs. */
  predicate NoLengthKey(v: Value) {
    match v
    case Arr(es) => forall i :: 0 <= i < |es| ==> NoLengthKey(es[i])
    case Obj(ps) => !HasKey(ps, "length") && forall i :: 0 <= i < |ps| ==> NoLengthKey(ps[i].1)
    case _ => true
  }

  /** The node path of stack `S` survives `generateDiff`'s stripping. */
  predicate Settled(S: seq<string>) {
    StripTrailing(GeneratePath(S, "")) == GeneratePath(S, "")
  }

  /** The node path of stack `S`, once stripped, is one the line map `m` recorded. */
  predicate Lands(m: seq<PathEntry>, S: seq<string>) {
    StripTrailing(GeneratePath(S, "")) in PathSet(m)
  }

  predicate AllResolvable(m1: seq<PathEntry>, m2: seq<PathEntry>, reqs: seq<Request>) {
    forall i :: 0 <= i < |reqs| ==> Resolvable(m1, m2, reqs[i])
  }

  lemma ResolvableConcat(m1: seq<PathEntry>, m2: seq<PathEntry>, a: seq<Request>, b: seq<Request>)
    requires AllResolvable(m1, m2, a) && AllResolvable(m1, m2, b)
    ensures AllResolvable(m1, m2, a + b)
  {
    forall i | 0 <= i < |a + b|
      ensures Resolvable(m1, m2, (a + b)[i])
    {
      if i >= |a| {
        assert (a + b)[i] == b[i - |a|];
      }
    }
  }

  // ---------------------------------------------------------------------------------------
  // Path facts.

  lemma RootSettled()
    ensures Settled([])
  {
    GeneratePathSpec([], "");
  }

  /** A stack ending in a segment that does not end in "/" renders to a settled path. */
  lemma SegmentSettled(S: seq<string>, seg: string)
    requires |seg| > 0 && seg[|seg| - 1] != '/'
    ensures Settled(S + [seg])
  {
    ConcatAppend(S, seg);
    GeneratePathSpec(S + [seg], "");
    var p := Concat(S) + seg;
    assert p[|p| - 1] == seg[|seg| - 1];
    StripTrailingSpec(p);
  }

  lemma ElementSettled(S: seq<string>, i: nat)
    ensures Settled(S + [ElementSegment(i)])
  {
    var seg := ElementSegment(i);
    assert seg[|seg| - 1] == ']';
    SegmentSettled(S, seg);
  }

  /** The node path of an object, once "/" is pushed, strips back to the object's own path. */
  lemma PushedSeparatorStrips(S: seq<string>)
    ensures StripTrailing(GeneratePath(S + [Separator], "")) == GeneratePath(S, "")
  {
    ConcatAppend(S, Separator);
    GeneratePathSpec(S + [Separator], "");
    GeneratePathSpec(S, "");
    if |Concat(S)| > 0 {
      var p := Concat(S) + Separator;
      assert p[..|p| - 1] == Concat(S);
    }
  }

  /** The path `generatePath(config, key)` gives a right-only key is its node path below the
      object: the path the printer records for the member (jdd.js:136-137 against 265-279). */
  lemma KeyPath(S: seq<string>, key: string)
    requires key != ""
    ensures GeneratePath(S, key) == GeneratePath(S + [Separator] + [KeySegment(key)], "")
  {
    ConcatAppend(S, Separator);
    ConcatAppend(S + [Separator], KeySegment(key));
    GeneratePathSpec(S, key);
    GeneratePathSpec(S + [Separator] + [KeySegment(key)], "");
  }

  /** Below an object whose own path is recorded, a member recorded at its node path lands,
      provided its segment does not end in "/": a non-empty segment settles, and the empty
      segment strips back to the object's own path (or is the root "/" itself). */
  lemma MemberLands(m: seq<PathEntry>, S: seq<string>, seg: string)
    requires |seg| == 0 || seg[|seg| - 1] != '/'
    requires GeneratePath(S, "") in PathSet(m) && GeneratePath(S + [Separator] + [seg], "") in PathSet(m)
    ensures Lands(m, S + [Separator] + [seg])
  {
    if |seg| > 0 {
      SegmentSettled(S + [Separator], seg);
    } else {
      ConcatAppend(S, Separator);
      ConcatAppend(S + [Separator], seg);
      GeneratePathSpec(S + [Separator] + [seg], "");
      GeneratePathSpec(S, "");
      var p := Concat(S) + Separator;
      assert Concat(S + [Separator] + [seg]) == p;
      if |Concat(S)| > 0 {
        assert p[..|p| - 1] == Concat(S);
      }
    }
  }

  /** The member reached by a key of `v`'s own is covered. */
  lemma MemberCovered(P: set<string>, v: Value, S: seq<string>, i: nat)
    requires v.Obj? && i < |v.props| && Below(P, v, S)
    ensures var key := v.props[i].0; var j := FindKey(v.props, key);
      j.Some? && Covered(P, v.props[j.value].1, S + [Separator] + [KeySegment(key)])
  {
    FindKeyComplete(v.props, i);
    assert CoveredMember(P, v, v.props[i].0, S + [Separator]);
  }

  // ---------------------------------------------------------------------------------------
  // Every request resolves.

  /** The common hypothesis of the family below: both nodes covered by their documents' line
      maps at stacks whose stripped paths are recorded, keys safe, and no `length` key on the left. */
  predicate Ready(m1: seq<PathEntry>, v1: Value, S1: seq<string>, m2: seq<PathEntry>, v2: Value, S2: seq<string>) {
    Covered(PathSet(m1), v1, S1) && Covered(PathSet(m2), v2, S2) &&
    Lands(m1, S1) && Lands(m2, S2) &&
    NoLengthKey(v1) && SafeKeys(v1) && SafeKeys(v2)
  }

  /** A request whose two paths are node paths that land in the line maps resolves. */
  lemma LandsResolvable(m1: seq<PathEntry>, m2: seq<PathEntry>, q: Request, T1: seq<string>, T2: seq<string>)
    requires q.path1 == GeneratePath(T1, "") && Lands(m1, T1)
    requires q.path2 == GeneratePath(T2, "") && Lands(m2, T2)
    ensures AllResolvable(m1, m2, [q])
  {
    assert Resolvable(m1, m2, q);
  }

  lemma HereResolvable(m1: seq<PathEntry>, v1: Value, S1: seq<string>, m2: seq<PathEntry>, v2: Value, S2: seq<string>, msg: Message, kind: DiffKind)
    requires Ready(m1, v1, S1, m2, v2, S2)
    ensures AllResolvable(m1, m2, [Here(S1, S2, msg, kind)])
  {
  }

  lemma {:induction false} WalkResolvable(m1: seq<PathEntry>, v1: Value, S1: seq<string>, m2: seq<PathEntry>, v2: Value, S2: seq<string>)
    requires Ready(m1, v1, S1, m2, v2, S2)
    ensures AllResolvable(m1, m2, Walk(v1, S1, v2, S2))
    decreases v1, 3
  {
    match v1
    case Arr(_) =>
      if v2.Arr? {
        ExtraElementsResolvable(m1, S1, m2, v2, S2, |v1.elems|, |v2.elems|);
        ArrayElementsResolvable(m1, v1, S1, m2, v2, S2, |v1.elems|);
        ResolvableConcat(m1, m2, ExtraElements(S1, S2, |v1.elems|, |v2.elems|), ArrayElements(v1, S1, v2, S2, |v1.elems|));
      } else {
        HereResolvable(m1, v1, S1, m2, v2, S2, TypesDiffer("array"), TypeMismatch);
      }
    case Obj(_) =>
      if v2.Obj? {
        ObjectResolvable(m1, v1, S1, m2, v2, S2);
      } else {
        HereResolvable(m1, v1, S1, m2, v2, S2, TypesDiffer("object"), TypeMismatch);
      }
    case _ =>
  }

  lemma {:induction false} ExtraElementsResolvable(m1: seq<PathEntry>, S1: seq<string>, m2: seq<PathEntry>, v2: Value, S2: seq<string>, n1: nat, n: nat)
    requires v2.Arr? && n <= |v2.elems|
    requires Lands(m1, S1) && Below(PathSet(m2), v2, S2)
    ensures AllResolvable(m1, m2, ExtraElements(S1, S2, n1, n))
  {
    if n1 < n {
      var a, b := ExtraElements(S1, S2, n1, n - 1), [ExtraElement(S1, S2, n - 1)];
      assert ExtraElements(S1, S2, n1, n) == a + b;
      ExtraElementsResolvable(m1, S1, m2, v2, S2, n1, n - 1);
      ExtraElementResolvable(m1, S1, m2, v2, S2, n - 1);
      ResolvableConcat(m1, m2, a, b);
    }
  }

  lemma ExtraElementResolvable(m1: seq<PathEntry>, S1: seq<string>, m2: seq<PathEntry>, v2: Value, S2: seq<string>, i: nat)
    requires v2.Arr? && i < |v2.elems|
    requires Lands(m1, S1) && Below(PathSet(m2), v2, S2)
    ensures AllResolvable(m1, m2, [ExtraElement(S1, S2, i)])
  {
    var T2 := S2 + [ElementSegment(i)];
    assert Covered(PathSet(m2), v2.elems[i], T2);
    ElementPath(S2, i);
    ElementSettled(S2, i);
    assert Lands(m2, T2);
    LandsResolvable(m1, m2, ExtraElement(S1, S2, i), S1, T2);
  }

  lemma {:induction false} ArrayElementsResolvable(m1: seq<PathEntry>, v1: Value, S1: seq<string>, m2: seq<PathEntry>, v2: Value, S2: seq<string>, n: nat)
    requires v1.Arr? && v2.Arr? && n <= |v1.elems| && Ready(m1, v1, S1, m2, v2, S2)
    ensures AllResolvable(m1, m2, ArrayElements(v1, S1, v2, S2, n))
    decreases v1, 1, n
  {
    if n > 0 {
      var a, b := ArrayElements(v1, S1, v2, S2, n - 1), ElementStep(v1, S1, v2, S2, n - 1);
      assert ArrayElements(v1, S1, v2, S2, n) == a + b;
      ArrayElementsResolvable(m1, v1, S1, m2, v2, S2, n - 1);
      ElementStepResolvable(m1, v1, S1, m2, v2, S2, n - 1);
      ResolvableConcat(m1, m2, a, b);
    }
  }

  lemma {:induction false} ElementStepResolvable(m1: seq<PathEntry>, v1: Value, S1: seq<string>, m2: seq<PathEntry>, v2: Value, S2: seq<string>, i: nat)
    requires v1.Arr? && v2.Arr? && i < |v1.elems| && Ready(m1, v1, S1, m2, v2, S2)
    ensures AllResolvable(m1, m2, ElementStep(v1, S1, v2, S2, i))
    decreases v1, 0, 0
  {
    var T1, T2 := S1 + [ElementSegment(i)], S2 + [ElementSegment(i)];
    assert Below(PathSet(m1), v1, S1) && Below(PathSet(m2), v2, S2);
    assert Covered(PathSet(m1), v1.elems[i], T1);
    ElementSettled(S1, i);
    assert Lands(m1, T1);
    if |v2.elems| <= i {
      ElementPath(S1, i);
      assert Resolvable(m1, m2, MissingElement(S1, S2, i));
    } else {
      assert Covered(PathSet(m2), v2.elems[i], T2);
      ElementSettled(S2, i);
      assert Lands(m2, T2);
      WalkResolvable(m1, v1.elems[i], T1, m2, v2.elems[i], T2);
    }
  }

  lemma {:induction false} ObjectResolvable(m1: seq<PathEntry>, v1: Value, S1: seq<string>, m2: seq<PathEntry>, v2: Value, S2: seq<string>)
    requires v1.Obj? && v2.Obj? && Ready(m1, v1, S1, m2, v2, S2)
    ensures AllResolvable(m1, m2, WalkObject(v1, S1, v2, S2))
    decreases v1, 2
  {
    var T1, T2 := S1 + [Separator], S2 + [Separator];
    LooseLessUndefined(Member(v2.props, "length"));
    var left := LeftKeys(v1, T1, v2, T2, |v1.props|);
    var right := RightKeys(v1.props, S1, v2.props, S2, |v2.props|);
    assert WalkObject(v1, S1, v2, S2) == [] + left + right;
    LeftKeysResolvable(m1, v1, S1, m2, v2, S2, |v1.props|);
    assert RightReady(m1, S1, m2, v2, S2);
    RightKeysResolvable(m1, v1, S1, m2, v2, S2, |v2.props|);
    ResolvableConcat(m1, m2, left, right);
  }

  lemma {:induction false} LeftKeysResolvable(m1: seq<PathEntry>, v1: Value, S1: seq<string>, m2: seq<PathEntry>, v2: Value, S2: seq<string>, n: nat)
    requires v1.Obj? && v2.Obj? && n <= |v1.props| && Ready(m1, v1, S1, m2, v2, S2)
    ensures AllResolvable(m1, m2, LeftKeys(v1, S1 + [Separator], v2, S2 + [Separator], n))
    decreases v1, 1, n
  {
    if n > 0 {
      var T1, T2 := S1 + [Separator], S2 + [Separator];
      var a, b := LeftKeys(v1, T1, v2, T2, n - 1), LeftKey(v1, T1, v2, T2, v1.props[n - 1].0);
      assert LeftKeys(v1, T1, v2, T2, n) == a + b;
      LeftKeysResolvable(m1, v1, S1, m2, v2, S2, n - 1);
      LeftKeyResolvable(m1, v1, S1, m2, v2, S2, n - 1);
      ResolvableConcat(m1, m2, a, b);
    }
  }

  lemma {:induction false} LeftKeyResolvable(m1: seq<PathEntry>, v1: Value, S1: seq<string>, m2: seq<PathEntry>, v2: Value, S2: seq<string>, k: nat)
    requires v1.Obj? && v2.Obj? && k < |v1.props| && Ready(m1, v1, S1, m2, v2, S2)
    ensures AllResolvable(m1, m2, LeftKey(v1, S1 + [Separator], v2, S2 + [Separator], v1.props[k].0))
    decreases v1, 0, 0
  {
    var T1, T2 := S1 + [Separator], S2 + [Separator];
    var key := v1.props[k].0;
    var seg := KeySegment(key);
    assert SafeKey(key);
    MemberCovered(PathSet(m1), v1, S1, k);
    var i1 := FindKey(v1.props, key).value;
    MemberLands(m1, S1, seg);
    if !HasKey(v2.props, key) {
      PushedSeparatorStrips(S2);
      assert Resolvable(m1, m2, MissingRight(T1, T2, key));
    } else {
      var i2 := FindKey(v2.props, key).value;
      assert v2.props[i2].0 == key;
      MemberCovered(PathSet(m2), v2, S2, i2);
      MemberLands(m2, S2, seg);
      assert NoLengthKey(v1.props[i1].1) && SafeKeys(v2.props[i2].1);
      WalkResolvable(m1, v1.props[i1].1, T1 + [seg], m2, v2.props[i2].1, T2 + [seg]);
    }
  }

  /** What the right-only keys of an object need: both nodes landing, the right object's own
      path recorded, its members covered, and its keys safe. */
  predicate RightReady(m1: seq<PathEntry>, S1: seq<string>, m2: seq<PathEntry>, v2: Value, S2: seq<string>)
    requires v2.Obj?
  {
    Lands(m1, S1) && Lands(m2, S2) && GeneratePath(S2, "") in PathSet(m2) && Below(PathSet(m2), v2, S2) &&
    forall i :: 0 <= i < |v2.props| ==> SafeKey(v2.props[i].0)
  }

  lemma {:induction false} RightKeysResolvable(m1: seq<PathEntry>, v1: Value, S1: seq<string>, m2: seq<PathEntry>, v2: Value, S2: seq<string>, n: nat)
    requires v1.Obj? && v2.Obj? && n <= |v2.props| && RightReady(m1, S1, m2, v2, S2)
    ensures AllResolvable(m1, m2, RightKeys(v1.props, S1, v2.props, S2, n))
  {
    if n > 0 {
      var a, b := RightKeys(v1.props, S1, v2.props, S2, n - 1), RightKey(v1.props, S1, S2, v2.props[n - 1].0);
      assert RightKeys(v1.props, S1, v2.props, S2, n) == a + b;
      RightKeysResolvable(m1, v1, S1, m2, v2, S2, n - 1);
      RightKeyResolvable(m1, v1, S1, m2, v2, S2, n - 1);
      ResolvableConcat(m1, m2, a, b);
    }
  }

  lemma RightKeyResolvable(m1: seq<PathEntry>, v1: Value, S1: seq<string>, m2: seq<PathEntry>, v2: Value, S2: seq<string>, k: nat)
    requires v1.Obj? && v2.Obj? && k < |v2.props| && RightReady(m1, S1, m2, v2, S2)
    ensures AllResolvable(m1, m2, RightKey(v1.props, S1, S2, v2.props[k].0))
  {
    var key := v2.props[k].0;
    if !HasKey(v1.props, key) {
      if key == "" {
        LandsResolvable(m1, m2, MissingLeft(S1, S2, key), S1, S2);
      } else {
        var T2 := S2 + [Separator] + [KeySegment(key)];
        MemberCovered(PathSet(m2), v2, S2, k);
        KeyPath(S2, key);
        MemberLands(m2, S2, KeySegment(key));
        LandsResolvable(m1, m2, MissingLeft(S1, S2, key), S1, T2);
      }
    }
  }

  /** The agreement theorem. Printing both documents and comparing them from empty stacks, as
      `compare` does (jdd.js:1082-1090), resolves every request: nothing is thrown, and the
      i-th diff is the records of the i-th request's two paths. */
  lemma CompareResolves(v1: Value, v2: Value)
    requires NoLengthKey(v1) && SafeKeys(v1) && SafeKeys(v2)
    ensures var m1, m2, reqs := Render.Print(v1).paths, Render.Print(v2).paths, Walk(v1, [], v2, []);
      var r := ResolveAll(m1, m2, reqs);
      r.error.None? && |r.diffs| == |reqs| &&
      forall i :: 0 <= i < |reqs| ==> GenerateDiff(m1, m2, reqs[i]) == Success(r.diffs[i])
  {
    var m1, m2 := Render.Print(v1).paths, Render.Print(v2).paths;
    PrintCovers(v1);
    PrintCovers(v2);
    RootSettled();
    assert Lands(m1, []) && Lands(m2, []);
    WalkResolvable(m1, v1, [], m2, v2, []);
    ResolveAllSucceeds(m1, m2, Walk(v1, [], v2, []));
  }
}
