/** The comparison engine as the source runs it: `jdd.diffs` grows in place while the two
    configs' path stacks are pushed and popped, and `generateDiff` throws when a path has no
    recorded line. A thrown message is returned as `Some(message)`; every other statement after
    the throw is skipped. Each method is proved to leave in `diffs` exactly what resolving the
    requests of the matching Walk function gives, and to throw exactly when that resolution
    does. */
module Engine {
  import opened Wrappers
  import opened JsonValues
  import opened Paths
  import opened Requests
  import Render
  import opened Decorator

  /** A run of the requests `reqs` took `jdd.diffs` from `d0` to `d` and threw `err`, if
      anything: the diffs of the requests up to the first unresolvable one, and its message. */
  predicate Outcome(d0: seq<Diff>, d: seq<Diff>, err: Option<Thrown>, m1: seq<PathEntry>, m2: seq<PathEntry>, reqs: seq<Request>) {
    var r := ResolveAll(m1, m2, reqs);
    d == d0 + r.diffs && err == r.error
  }

  /** A run that did not throw, followed by another, is a run of both request lists. */
  lemma Then(d0: seq<Diff>, d1: seq<Diff>, d2: seq<Diff>, err: Option<Thrown>, m1: seq<PathEntry>, m2: seq<PathEntry>, a: seq<Request>, b: seq<Request>)
    requires Outcome(d0, d1, None, m1, m2, a) && Outcome(d1, d2, err, m1, m2, b)
    ensures Outcome(d0, d2, err, m1, m2, a + b)
  {
    var ra := ResolveAll(m1, m2, a);
    var rb := ResolveAll(m1, m2, b);
    ResolveAllAppend(m1, m2, a, b);
    DiffsAssociate(d0, ra.diffs, rb.diffs);
  }

  lemma DiffsAssociate(x: seq<Diff>, y: seq<Diff>, z: seq<Diff>)
    ensures x + y + z == x + (y + z)
  {
  }

  /** After a throw nothing more happens: the run stands for any continuation. */
  lemma Stop(d0: seq<Diff>, d1: seq<Diff>, err: Option<Thrown>, m1: seq<PathEntry>, m2: seq<PathEntry>, a: seq<Request>, b: seq<Request>)
    requires Outcome(d0, d1, err, m1, m2, a) && err.Some?
    ensures Outcome(d0, d1, err, m1, m2, a + b)
  {
    ResolveAllAppend(m1, m2, a, b);
  }

  /** A run that threw on a prefix of the requests stands for all of them. */
  lemma StopPrefix(d0: seq<Diff>, d1: seq<Diff>, err: Option<Thrown>, m1: seq<PathEntry>, m2: seq<PathEntry>, a: seq<Request>, whole: seq<Request>)
    requires Outcome(d0, d1, err, m1, m2, a) && err.Some? && a <= whole
    ensures Outcome(d0, d1, err, m1, m2, whole)
  {
    assert whole == a + whole[|a|..];
    Stop(d0, d1, err, m1, m2, a, whole[|a|..]);
  }

  /** One pass of a loop: the requests so far, then the pass's own, are the requests up to the
      next pass; a throw stands for the whole loop. */
  lemma Step(d0: seq<Diff>, d1: seq<Diff>, d2: seq<Diff>, err: Option<Thrown>, m1: seq<PathEntry>, m2: seq<PathEntry>,
             done: seq<Request>, step: seq<Request>, next: seq<Request>, whole: seq<Request>)
    requires Outcome(d0, d1, None, m1, m2, done) && Outcome(d1, d2, err, m1, m2, step)
    requires next == done + step && next <= whole
    ensures Outcome(d0, d2, err, m1, m2, next)
    ensures err.Some? ==> Outcome(d0, d2, err, m1, m2, whole)
  {
    Then(d0, d1, d2, err, m1, m2, done, step);
    if err.Some? {
      StopPrefix(d0, d2, err, m1, m2, next, whole);
    }
  }

  /** No requests, no change. */
  lemma Nothing(d: seq<Diff>, m1: seq<PathEntry>, m2: seq<PathEntry>)
    ensures Outcome(d, d, None, m1, m2, [])
  {
  }

  /** `config.paths.find(e => e.path === p)`. */
  method FindPath(m: seq<PathEntry>, p: string) returns (r: Option<PathEntry>)
    ensures r == FindEntry(m, p)
  {
    var i := 0;
    while i < |m|
      invariant 0 <= i <= |m|
      invariant FindEntry(m[i..], p) == FindEntry(m, p)
    {
      assert m[i..][1..] == m[i + 1..];
      if m[i].path == p {
        return Some(m[i]);
      }
      i := i + 1;
    }
    r := None;
  }

  /** The engine's state: `jdd.diffs`. */
  class Jdd {
    var diffs: seq<Diff>

    /** `jdd.diffs = []` (jdd.js:1076). */
    constructor ()
      ensures diffs == []
    {
      diffs := [];
    }

    /** `generateDiff` (jdd.js:513-542). */
    method GenerateDiff(c1: Config, path1: string, c2: Config, path2: string, msg: Message, kind: DiffKind)
      returns (r: Result<Diff, Thrown>)
      ensures r == Paths.GenerateDiff(c1.paths, c2.paths, Request(path1, path2, msg, kind))
    {
      var p1, p2 := path1, path2;
      if p1 != Separator && |p1| > 0 && p1[|p1| - 1] == '/' {
        p1 := p1[..|p1| - 1];
      }
      if p2 != Separator && |p2| > 0 && p2[|p2| - 1] == '/' {
        p2 := p2[..|p2| - 1];
      }
      var e1 := FindPath(c1.paths, p1);
      var e2 := FindPath(c2.paths, p2);
      if e1.None? {
        return Failure(NotFound(msg, p1));
      }
      if e2.None? {
        return Failure(NotFound(msg, p2));
      }
      r := Success(Diff(e1.value, e2.value, kind, msg));
    }

    /** `jdd.diffs.push(jdd.generateDiff(config1, path1, config2, path2, msg, kind))`. */
    method Emit(c1: Config, path1: string, c2: Config, path2: string, msg: Message, kind: DiffKind)
      returns (err: Option<Thrown>)
      modifies this`diffs
      ensures Outcome(old(diffs), diffs, err, c1.paths, c2.paths, [Request(path1, path2, msg, kind)])
    {
      var r := GenerateDiff(c1, path1, c2, path2, msg, kind);
      ghost var q := Request(path1, path2, msg, kind);
      assert [q][..0] == [];
      match r {
        case Success(d) =>
          diffs := diffs + [d];
          err := None;
        case Failure(e) =>
          err := Some(e);
      }
    }

    /** A diff at the current node of both stacks. */
    method EmitHere(c1: Config, c2: Config, msg: Message, kind: DiffKind) returns (err: Option<Thrown>)
      modifies this`diffs
      ensures Outcome(old(diffs), diffs, err, c1.paths, c2.paths, [Here(c1.currentPath, c2.currentPath, msg, kind)])
    {
      var p1 := c1.GeneratePath("");
      var p2 := c2.GeneratePath("");
      err := Emit(c1, p1, c2, p2, msg, kind);
    }

    /** `diffVal` (jdd.js:148-187). */
    method DiffVal(v1: Value, c1: Config, v2: Value, c2: Config) returns (err: Option<Thrown>)
      requires c1 != c2
      modifies this`diffs, c1`currentPath, c2`currentPath
      ensures Outcome(old(diffs), diffs, err, c1.paths, c2.paths, Walk(v1, old(c1.currentPath), v2, old(c2.currentPath)))
      ensures err.None? ==> c1.currentPath == old(c1.currentPath) && c2.currentPath == old(c2.currentPath)
      decreases v1, 3
    {
      match v1
      case Arr(_) =>
        err := DiffArray(v1, c1, v2, c2);
      case Obj(_) =>
        if !v2.Obj? {
          err := EmitHere(c1, c2, TypesDiffer("object"), TypeMismatch);
        } else {
          err := FindDiffs(c1, v1, c2, v2);
        }
      case Str(s) =>
        if !v2.Str? {
          err := EmitHere(c1, c2, TypesDiffer("string"), TypeMismatch);
        } else if s != v2.s {
          err := EmitHere(c1, c2, ValuesDiffer("string"), Equality);
        } else {
          Nothing(diffs, c1.paths, c2.paths);
          err := None;
        }
      case Num(n) =>
        if !v2.Num? {
          err := EmitHere(c1, c2, TypesDiffer("number"), TypeMismatch);
        } else if n != v2.n {
          err := EmitHere(c1, c2, ValuesDiffer("number"), Equality);
        } else {
          Nothing(diffs, c1.paths, c2.paths);
          err := None;
        }
      case Bool(b) =>
        err := DiffBool(b, c1, v2, c2);
      case Null =>
        if !v2.Null? {
          err := EmitHere(c1, c2, TypesDiffer("null"), TypeMismatch);
        } else {
          Nothing(diffs, c1.paths, c2.paths);
          err := None;
        }
    }

    /** `diffBool` (jdd.js:236-252). */
    method DiffBool(b: bool, c1: Config, v2: Value, c2: Config) returns (err: Option<Thrown>)
      modifies this`diffs
      ensures Outcome(old(diffs), diffs, err, c1.paths, c2.paths, WalkBool(b, c1.currentPath, v2, c2.currentPath))
    {
      if !v2.Bool? {
        err := EmitHere(c1, c2, TypesDiffer("boolean"), TypeMismatch);
      } else if b != v2.b {
        err := EmitHere(c1, c2, BooleansDiffer(b), Equality);
      } else {
        Nothing(diffs, c1.paths, c2.paths);
        err := None;
      }
    }

    /** `diffArray` (jdd.js:193-231). */
    method DiffArray(v1: Value, c1: Config, v2: Value, c2: Config) returns (err: Option<Thrown>)
      requires c1 != c2 && v1.Arr?
      modifies this`diffs, c1`currentPath, c2`currentPath
      ensures Outcome(old(diffs), diffs, err, c1.paths, c2.paths, WalkArray(v1, old(c1.currentPath), v2, old(c2.currentPath)))
      ensures err.None? ==> c1.currentPath == old(c1.currentPath) && c2.currentPath == old(c2.currentPath)
      decreases v1, 2
    {
      if !v2.Arr? {
        err := EmitHere(c1, c2, TypesDiffer("array"), TypeMismatch);
        return;
      }
      ghost var d0, S1, S2 := diffs, c1.currentPath, c2.currentPath;
      ghost var extras := ExtraElements(S1, S2, |v1.elems|, |v2.elems|);
      ghost var elems := ArrayElements(v1, S1, v2, S2, |v1.elems|);
      if |v1.elems| < |v2.elems| {
        err := AddExtraElements(c1, |v1.elems|, |v2.elems|, c2);
        if err.Some? {
          Stop(d0, diffs, err, c1.paths, c2.paths, extras, elems);
          return;
        }
      } else {
        Nothing(diffs, c1.paths, c2.paths);
      }
      ghost var d1 := diffs;
      err := CompareElements(v1, c1, v2, c2);
      Then(d0, d1, diffs, err, c1.paths, c2.paths, extras, elems);
    }

    /** The loop over the right-hand indices from `n1` to `n2` (jdd.js:206-212). */
    method AddExtraElements(c1: Config, n1: nat, n2: nat, c2: Config) returns (err: Option<Thrown>)
      requires n1 <= n2
      modifies this`diffs
      ensures Outcome(old(diffs), diffs, err, c1.paths, c2.paths, ExtraElements(c1.currentPath, c2.currentPath, n1, n2))
    {
      ghost var d0, S1, S2, m1, m2 := diffs, c1.currentPath, c2.currentPath, c1.paths, c2.paths;
      Nothing(diffs, m1, m2);
      assert ExtraElements(S1, S2, n1, n1) == [];
      err := None;
      var i := n1;
      while i < n2
        invariant n1 <= i <= n2
        invariant Outcome(d0, diffs, None, m1, m2, ExtraElements(S1, S2, n1, i))
        invariant err.None?
      {
        ghost var d1 := diffs;
        err := AddExtraElement(c1, i, c2);
        ExtraElementsStep(d0, d1, diffs, err, m1, m2, S1, S2, n1, i, n2);
        if err.Some? {
          return;
        }
        i := i + 1;
      }
    }

    /** One pass of that loop (jdd.js:207-211). */
    static lemma ExtraElementsStep(d0: seq<Diff>, d1: seq<Diff>, d2: seq<Diff>, err: Option<Thrown>, m1: seq<PathEntry>, m2: seq<PathEntry>,
                                   S1: seq<string>, S2: seq<string>, n1: nat, i: nat, n2: nat)
      requires n1 <= i < n2
      requires Outcome(d0, d1, None, m1, m2, ExtraElements(S1, S2, n1, i))
      requires Outcome(d1, d2, err, m1, m2, [ExtraElement(S1, S2, i)])
      ensures Outcome(d0, d2, err, m1, m2, ExtraElements(S1, S2, n1, i + 1))
      ensures err.Some? ==> Outcome(d0, d2, err, m1, m2, ExtraElements(S1, S2, n1, n2))
    {
      ExtraElementsPrefix(S1, S2, n1, i + 1, n2);
      Step(d0, d1, d2, err, m1, m2, ExtraElements(S1, S2, n1, i), [ExtraElement(S1, S2, i)],
        ExtraElements(S1, S2, n1, i + 1), ExtraElements(S1, S2, n1, n2));
    }

    method AddExtraElement(c1: Config, i: nat, c2: Config) returns (err: Option<Thrown>)
      modifies this`diffs
      ensures Outcome(old(diffs), diffs, err, c1.paths, c2.paths, [ExtraElement(c1.currentPath, c2.currentPath, i)])
    {
      var p1 := c1.GeneratePath("");
      var p2 := c2.GeneratePath(IndexProp(i));
      err := Emit(c1, p1, c2, p2, MissingElementAt(i, LeftSide), Missing);
    }

    /** The `val1.forEach` loop of `diffArray` (jdd.js:214-230). */
    method CompareElements(v1: Value, c1: Config, v2: Value, c2: Config) returns (err: Option<Thrown>)
      requires c1 != c2 && v1.Arr? && v2.Arr?
      modifies this`diffs, c1`currentPath, c2`currentPath
      ensures Outcome(old(diffs), diffs, err, c1.paths, c2.paths, ArrayElements(v1, old(c1.currentPath), v2, old(c2.currentPath), |v1.elems|))
      ensures err.None? ==> c1.currentPath == old(c1.currentPath) && c2.currentPath == old(c2.currentPath)
      decreases v1, 1
    {
      ghost var d0, S1, S2, m1, m2 := diffs, c1.currentPath, c2.currentPath, c1.paths, c2.paths;
      Nothing(diffs, m1, m2);
      err := None;
      var index := 0;
      while index < |v1.elems|
        invariant 0 <= index <= |v1.elems|
        invariant c1.currentPath == S1 && c2.currentPath == S2
        invariant Outcome(d0, diffs, None, m1, m2, ArrayElements(v1, S1, v2, S2, index))
        invariant err.None?
      {
        ghost var d1 := diffs;
        err := CompareElement(v1, c1, v2, c2, index);
        ArrayElementsStep(d0, d1, diffs, err, m1, m2, v1, S1, v2, S2, index);
        if err.Some? {
          return;
        }
        index := index + 1;
      }
    }

    static lemma ArrayElementsStep(d0: seq<Diff>, d1: seq<Diff>, d2: seq<Diff>, err: Option<Thrown>, m1: seq<PathEntry>, m2: seq<PathEntry>,
                                   v1: Value, S1: seq<string>, v2: Value, S2: seq<string>, i: nat)
      requires v1.Arr? && v2.Arr? && i < |v1.elems|
      requires Outcome(d0, d1, None, m1, m2, ArrayElements(v1, S1, v2, S2, i))
      requires Outcome(d1, d2, err, m1, m2, ElementStep(v1, S1, v2, S2, i))
      ensures Outcome(d0, d2, err, m1, m2, ArrayElements(v1, S1, v2, S2, i + 1))
      ensures err.Some? ==> Outcome(d0, d2, err, m1, m2, ArrayElements(v1, S1, v2, S2, |v1.elems|))
    {
      ArrayElementsPrefix(v1, S1, v2, S2, i + 1, |v1.elems|);
      Step(d0, d1, d2, err, m1, m2, ArrayElements(v1, S1, v2, S2, i), ElementStep(v1, S1, v2, S2, i),
        ArrayElements(v1, S1, v2, S2, i + 1), ArrayElements(v1, S1, v2, S2, |v1.elems|));
    }

    /** One `val1.forEach` callback (jdd.js:214-230). */
    method CompareElement(v1: Value, c1: Config, v2: Value, c2: Config, index: nat) returns (err: Option<Thrown>)
      requires c1 != c2 && v1.Arr? && v2.Arr? && index < |v1.elems|
      modifies this`diffs, c1`currentPath, c2`currentPath
      ensures Outcome(old(diffs), diffs, err, c1.paths, c2.paths, ElementStep(v1, old(c1.currentPath), v2, old(c2.currentPath), index))
      ensures err.None? ==> c1.currentPath == old(c1.currentPath) && c2.currentPath == old(c2.currentPath)
      decreases v1, 0
    {
      if |v2.elems| <= index {
        var p1 := c1.GeneratePath(IndexProp(index));
        var p2 := c2.GeneratePath("");
        err := Emit(c1, p1, c2, p2, MissingElementAt(index, RightSide), Missing);
      } else {
        ghost var S1, S2 := c1.currentPath, c2.currentPath;
        c1.currentPath := c1.currentPath + [Separator + IndexProp(index)];
        c2.currentPath := c2.currentPath + [Separator + IndexProp(index)];
        err := DiffVal(v1.elems[index], c1, v2.elems[index], c2);
        if err.None? {
          c1.currentPath := Render.PopPath(c1.currentPath);
          c2.currentPath := Render.PopPath(c2.currentPath);
          assert c1.currentPath == S1;
        }
      }
    }

    /** `findDiffs` (jdd.js:69-142). */
    method FindDiffs(c1: Config, v1: Value, c2: Config, v2: Value) returns (err: Option<Thrown>)
      requires c1 != c2 && v1.Obj? && v2.Obj?
      modifies this`diffs, c1`currentPath, c2`currentPath
      ensures Outcome(old(diffs), diffs, err, c1.paths, c2.paths, WalkObject(v1, old(c1.currentPath), v2, old(c2.currentPath)))
      ensures err.None? ==> c1.currentPath == old(c1.currentPath) && c2.currentPath == old(c2.currentPath)
      decreases v1, 2
    {
      ghost var d0, S1, S2 := diffs, c1.currentPath, c2.currentPath;
      c1.currentPath := c1.currentPath + [Separator];
      c2.currentPath := c2.currentPath + [Separator];
      ghost var T1, T2 := c1.currentPath, c2.currentPath;
      var ps1, ps2 := v1.props, v2.props;
      ghost var pre := if LooseLess(Member(ps1, "length"), Member(ps2, "length"))
        then PreScan(ps1, T1, ps2, T2, |ps2|) else [];
      ghost var left := LeftKeys(v1, T1, v2, T2, |ps1|);
      ghost var right := RightKeys(ps1, S1, ps2, S2, |ps2|);
      if LooseLess(Member(ps1, "length"), Member(ps2, "length")) {
        err := ScanRightExtras(c1, ps1, c2, ps2);
        if err.Some? {
          Stop(d0, diffs, err, c1.paths, c2.paths, pre, left);
          Stop(d0, diffs, err, c1.paths, c2.paths, pre + left, right);
          return;
        }
      } else {
        Nothing(diffs, c1.paths, c2.paths);
      }
      ghost var d1 := diffs;
      err := CompareLeftKeys(c1, v1, c2, v2);
      Then(d0, d1, diffs, err, c1.paths, c2.paths, pre, left);
      if err.Some? {
        Stop(d0, diffs, err, c1.paths, c2.paths, pre + left, right);
        return;
      }
      c1.currentPath := Render.PopPath(c1.currentPath);
      c2.currentPath := Render.PopPath(c2.currentPath);
      assert c1.currentPath == S1 && c2.currentPath == S2;
      ghost var d2 := diffs;
      err := AddLeftMissing(c1, ps1, c2, ps2);
      Then(d0, d2, diffs, err, c1.paths, c2.paths, pre + left, right);
    }

    /** The "right has more items" scan over the right keys (jdd.js:77-90). */
    method ScanRightExtras(c1: Config, ps1: seq<(string, Value)>, c2: Config, ps2: seq<(string, Value)>) returns (err: Option<Thrown>)
      modifies this`diffs
      ensures Outcome(old(diffs), diffs, err, c1.paths, c2.paths, PreScan(ps1, c1.currentPath, ps2, c2.currentPath, |ps2|))
    {
      ghost var d0, T1, T2, m1, m2 := diffs, c1.currentPath, c2.currentPath, c1.paths, c2.paths;
      Nothing(diffs, m1, m2);
      err := None;
      var j := 0;
      while j < |ps2|
        invariant 0 <= j <= |ps2|
        invariant Outcome(d0, diffs, None, m1, m2, PreScan(ps1, T1, ps2, T2, j))
        invariant err.None?
      {
        ghost var d1 := diffs;
        err := ScanRightKey(c1, ps1, c2, ps2[j].0);
        PreScanLoopStep(d0, d1, diffs, err, m1, m2, ps1, T1, ps2, T2, j);
        if err.Some? {
          return;
        }
        j := j + 1;
      }
    }

    static lemma PreScanLoopStep(d0: seq<Diff>, d1: seq<Diff>, d2: seq<Diff>, err: Option<Thrown>, m1: seq<PathEntry>, m2: seq<PathEntry>,
                                 ps1: seq<(string, Value)>, T1: seq<string>, ps2: seq<(string, Value)>, T2: seq<string>, j: nat)
      requires j < |ps2|
      requires Outcome(d0, d1, None, m1, m2, PreScan(ps1, T1, ps2, T2, j))
      requires Outcome(d1, d2, err, m1, m2, PreScanStep(ps1, T1, T2, ps2[j].0))
      ensures Outcome(d0, d2, err, m1, m2, PreScan(ps1, T1, ps2, T2, j + 1))
      ensures err.Some? ==> Outcome(d0, d2, err, m1, m2, PreScan(ps1, T1, ps2, T2, |ps2|))
    {
      PreScanPrefix(ps1, T1, ps2, T2, j + 1, |ps2|);
      Step(d0, d1, d2, err, m1, m2, PreScan(ps1, T1, ps2, T2, j), PreScanStep(ps1, T1, T2, ps2[j].0),
        PreScan(ps1, T1, ps2, T2, j + 1), PreScan(ps1, T1, ps2, T2, |ps2|));
    }

    /** One pass of that scan (jdd.js:79-88). */
    method ScanRightKey(c1: Config, ps1: seq<(string, Value)>, c2: Config, key: string) returns (err: Option<Thrown>)
      modifies this`diffs
      ensures Outcome(old(diffs), diffs, err, c1.paths, c2.paths, PreScanStep(ps1, c1.currentPath, c2.currentPath, key))
    {
      if !HasKey(ps1, key) {
        var p1 := c1.GeneratePath("");
        var p2 := c2.GeneratePath(Separator + key);
        err := Emit(c1, p1, c2, p2, RightHasMoreItems, Missing);
      } else {
        Nothing(diffs, c1.paths, c2.paths);
        err := None;
      }
    }

    /** The loop over the left keys (jdd.js:96-117). */
    method CompareLeftKeys(c1: Config, v1: Value, c2: Config, v2: Value) returns (err: Option<Thrown>)
      requires c1 != c2 && v1.Obj? && v2.Obj?
      modifies this`diffs, c1`currentPath, c2`currentPath
      ensures Outcome(old(diffs), diffs, err, c1.paths, c2.paths, LeftKeys(v1, old(c1.currentPath), v2, old(c2.currentPath), |v1.props|))
      ensures err.None? ==> c1.currentPath == old(c1.currentPath) && c2.currentPath == old(c2.currentPath)
      decreases v1, 1
    {
      ghost var d0, T1, T2, m1, m2 := diffs, c1.currentPath, c2.currentPath, c1.paths, c2.paths;
      Nothing(diffs, m1, m2);
      err := None;
      var j := 0;
      while j < |v1.props|
        invariant 0 <= j <= |v1.props|
        invariant c1.currentPath == T1 && c2.currentPath == T2
        invariant Outcome(d0, diffs, None, m1, m2, LeftKeys(v1, T1, v2, T2, j))
        invariant err.None?
      {
        ghost var d1 := diffs;
        FindKeyComplete(v1.props, j);
        err := CompareLeftKey(v1, c1, v2, c2, v1.props[j].0);
        LeftKeysStep(d0, d1, diffs, err, m1, m2, v1, T1, v2, T2, j);
        if err.Some? {
          return;
        }
        j := j + 1;
      }
    }

    static lemma LeftKeysStep(d0: seq<Diff>, d1: seq<Diff>, d2: seq<Diff>, err: Option<Thrown>, m1: seq<PathEntry>, m2: seq<PathEntry>,
                              v1: Value, T1: seq<string>, v2: Value, T2: seq<string>, j: nat)
      requires v1.Obj? && v2.Obj? && j < |v1.props|
      requires Outcome(d0, d1, None, m1, m2, LeftKeys(v1, T1, v2, T2, j))
      requires Outcome(d1, d2, err, m1, m2, LeftKey(v1, T1, v2, T2, v1.props[j].0))
      ensures Outcome(d0, d2, err, m1, m2, LeftKeys(v1, T1, v2, T2, j + 1))
      ensures err.Some? ==> Outcome(d0, d2, err, m1, m2, LeftKeys(v1, T1, v2, T2, |v1.props|))
    {
      LeftKeysPrefix(v1, T1, v2, T2, j + 1, |v1.props|);
      Step(d0, d1, d2, err, m1, m2, LeftKeys(v1, T1, v2, T2, j), LeftKey(v1, T1, v2, T2, v1.props[j].0),
        LeftKeys(v1, T1, v2, T2, j + 1), LeftKeys(v1, T1, v2, T2, |v1.props|));
    }

    /** One pass of the left-key loop (jdd.js:97-115). */
    method CompareLeftKey(v1: Value, c1: Config, v2: Value, c2: Config, key: string) returns (err: Option<Thrown>)
      requires c1 != c2 && v1.Obj? && v2.Obj? && HasKey(v1.props, key)
      modifies this`diffs, c1`currentPath, c2`currentPath
      ensures Outcome(old(diffs), diffs, err, c1.paths, c2.paths, LeftKey(v1, old(c1.currentPath), v2, old(c2.currentPath), key))
      ensures err.None? ==> c1.currentPath == old(c1.currentPath) && c2.currentPath == old(c2.currentPath)
      decreases v1, 0
    {
      ghost var T1, T2 := c1.currentPath, c2.currentPath;
      c1.currentPath := c1.currentPath + [KeySegment(key)];
      if !HasKey(v2.props, key) {
        var p1 := c1.GeneratePath("");
        var p2 := c2.GeneratePath("");
        err := Emit(c1, p1, c2, p2, MissingProperty(key, RightSide), Missing);
      } else {
        c2.currentPath := c2.currentPath + [KeySegment(key)];
        var i1 := FindKey(v1.props, key).value;
        var i2 := FindKey(v2.props, key).value;
        err := DiffVal(v1.props[i1].1, c1, v2.props[i2].1, c2);
        if err.None? {
          c2.currentPath := Render.PopPath(c2.currentPath);
          assert c2.currentPath == T2;
        }
      }
      if err.None? {
        c1.currentPath := Render.PopPath(c1.currentPath);
        assert c1.currentPath == T1;
      }
    }

    /** The loop over the right keys the left object lacks (jdd.js:125-141). */
    method AddLeftMissing(c1: Config, ps1: seq<(string, Value)>, c2: Config, ps2: seq<(string, Value)>) returns (err: Option<Thrown>)
      modifies this`diffs
      ensures Outcome(old(diffs), diffs, err, c1.paths, c2.paths, RightKeys(ps1, c1.currentPath, ps2, c2.currentPath, |ps2|))
    {
      ghost var d0, S1, S2, m1, m2 := diffs, c1.currentPath, c2.currentPath, c1.paths, c2.paths;
      Nothing(diffs, m1, m2);
      err := None;
      var j := 0;
      while j < |ps2|
        invariant 0 <= j <= |ps2|
        invariant Outcome(d0, diffs, None, m1, m2, RightKeys(ps1, S1, ps2, S2, j))
        invariant err.None?
      {
        ghost var d1 := diffs;
        err := AddLeftMissingKey(c1, ps1, c2, ps2[j].0);
        RightKeysStep(d0, d1, diffs, err, m1, m2, ps1, S1, ps2, S2, j);
        if err.Some? {
          return;
        }
        j := j + 1;
      }
    }

    static lemma RightKeysStep(d0: seq<Diff>, d1: seq<Diff>, d2: seq<Diff>, err: Option<Thrown>, m1: seq<PathEntry>, m2: seq<PathEntry>,
                               ps1: seq<(string, Value)>, S1: seq<string>, ps2: seq<(string, Value)>, S2: seq<string>, j: nat)
      requires j < |ps2|
      requires Outcome(d0, d1, None, m1, m2, RightKeys(ps1, S1, ps2, S2, j))
      requires Outcome(d1, d2, err, m1, m2, RightKey(ps1, S1, S2, ps2[j].0))
      ensures Outcome(d0, d2, err, m1, m2, RightKeys(ps1, S1, ps2, S2, j + 1))
      ensures err.Some? ==> Outcome(d0, d2, err, m1, m2, RightKeys(ps1, S1, ps2, S2, |ps2|))
    {
      RightKeysPrefix(ps1, S1, ps2, S2, j + 1, |ps2|);
      Step(d0, d1, d2, err, m1, m2, RightKeys(ps1, S1, ps2, S2, j), RightKey(ps1, S1, S2, ps2[j].0),
        RightKeys(ps1, S1, ps2, S2, j + 1), RightKeys(ps1, S1, ps2, S2, |ps2|));
    }

    /** One pass of that loop (jdd.js:126-140). */
    method AddLeftMissingKey(c1: Config, ps1: seq<(string, Value)>, c2: Config, key: string) returns (err: Option<Thrown>)
      modifies this`diffs
      ensures Outcome(old(diffs), diffs, err, c1.paths, c2.paths, RightKey(ps1, c1.currentPath, c2.currentPath, key))
    {
      if !HasKey(ps1, key) {
        var p1 := c1.GeneratePath("");
        var p2 := c2.GeneratePath(key);
        err := Emit(c1, p1, c2, p2, MissingProperty(key, LeftSide), Missing);
      } else {
        Nothing(diffs, c1.paths, c2.paths);
        err := None;
      }
    }
  }
}
