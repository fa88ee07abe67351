/** The comparison engine (`diffVal`, `findDiffs`, `diffArray`, `diffBool`) as functions: the
    `generateDiff` calls a comparison makes, in the order it makes them, given the two values and
    the two path stacks it starts from. Module Engine runs the same comparison in place. */
module Requests {
  import opened Wrappers
  import opened Text
  import opened JsonValues
  import opened Paths

  /** A request whose two paths are the current nodes of both stacks. */
  function Here(S1: seq<string>, S2: seq<string>, msg: Message, kind: DiffKind): Request {
    Request(GeneratePath(S1, ""), GeneratePath(S2, ""), msg, kind)
  }

  /** The stack segment of array index `i`: "/[i]". */
  function ElementSegment(i: nat): string {
    Separator + IndexProp(i)
  }

  /** `diffVal` (jdd.js:148-187). */
  function Walk(v1: Value, S1: seq<string>, v2: Value, S2: seq<string>): seq<Request>
    decreases v1, 3, 0
  {
    match v1
    case Arr(_) => WalkArray(v1, S1, v2, S2)
    case Obj(_) =>
      if !v2.Obj? then [Here(S1, S2, TypesDiffer("object"), TypeMismatch)]
      else WalkObject(v1, S1, v2, S2)
    case Str(s) =>
      if !v2.Str? then [Here(S1, S2, TypesDiffer("string"), TypeMismatch)]
      else if s != v2.s then [Here(S1, S2, ValuesDiffer("string"), Equality)]
      else []
    case Num(n) =>
      if !v2.Num? then [Here(S1, S2, TypesDiffer("number"), TypeMismatch)]
      else if n != v2.n then [Here(S1, S2, ValuesDiffer("number"), Equality)]
      else []
    case Bool(b) => WalkBool(b, S1, v2, S2)
    case Null =>
      if !v2.Null? then [Here(S1, S2, TypesDiffer("null"), TypeMismatch)]
      else []
  }

  /** `diffBool` (jdd.js:236-252). */
  function WalkBool(b: bool, S1: seq<string>, v2: Value, S2: seq<string>): seq<Request> {
    if !v2.Bool? then [Here(S1, S2, TypesDiffer("boolean"), TypeMismatch)]
    else if b != v2.b then
      [Here(S1, S2, BooleansDiffer(b), Equality)]
    else []
  }

  /** `diffArray` (jdd.js:193-231). */
  function WalkArray(v1: Value, S1: seq<string>, v2: Value, S2: seq<string>): seq<Request>
    requires v1.Arr?
    decreases v1, 2, 0
  {
    if !v2.Arr? then [Here(S1, S2, TypesDiffer("array"), TypeMismatch)]
    else ExtraElements(S1, S2, |v1.elems|, |v2.elems|) + ArrayElements(v1, S1, v2, S2, |v1.elems|)
  }

  /** The request for a right-hand element `i` the left array lacks (jdd.js:207-211). */
  function ExtraElement(S1: seq<string>, S2: seq<string>, i: nat): Request {
    Request(GeneratePath(S1, ""), GeneratePath(S2, IndexProp(i)),
      MissingElementAt(i, LeftSide), Missing)
  }

  /** The loop over the right-hand indices (jdd.js:206-212): the requests of the indices from
      `n1` up to, not including, `n`. */
  function ExtraElements(S1: seq<string>, S2: seq<string>, n1: nat, n: nat): seq<Request> {
    if n <= n1 then [] else ExtraElements(S1, S2, n1, n - 1) + [ExtraElement(S1, S2, n - 1)]
  }

  /** The request for a left-hand element `i` the right array lacks (jdd.js:215-218). */
  function MissingElement(S1: seq<string>, S2: seq<string>, i: nat): Request {
    Request(GeneratePath(S1, IndexProp(i)), GeneratePath(S2, ""),
      MissingElementAt(i, RightSide), Missing)
  }

  /** One `val1.forEach` callback (jdd.js:214-230): a missing element, or the comparison of the
      two elements below their index segment. */
  function ElementStep(v1: Value, S1: seq<string>, v2: Value, S2: seq<string>, i: nat): seq<Request>
    requires v1.Arr? && v2.Arr? && i < |v1.elems|
    decreases v1, 0, 0
  {
    if |v2.elems| <= i then [MissingElement(S1, S2, i)]
    else Walk(v1.elems[i], S1 + [ElementSegment(i)], v2.elems[i], S2 + [ElementSegment(i)])
  }

  /** The callbacks of the first `n` elements. */
  function ArrayElements(v1: Value, S1: seq<string>, v2: Value, S2: seq<string>, n: nat): seq<Request>
    requires v1.Arr? && v2.Arr? && n <= |v1.elems|
    decreases v1, 1, n
  {
    if n == 0 then [] else ArrayElements(v1, S1, v2, S2, n - 1) + ElementStep(v1, S1, v2, S2, n - 1)
  }

  /** `findDiffs` (jdd.js:69-142): the "right has more" scan when `data1.length <
      data2.length`, then the left keys (below a pushed "/"), then the right-only keys. */
  function WalkObject(v1: Value, S1: seq<string>, v2: Value, S2: seq<string>): seq<Request>
    requires v1.Obj? && v2.Obj?
    decreases v1, 2, 0
  {
    var T1 := S1 + [Separator];
    var T2 := S2 + [Separator];
    var pre := if LooseLess(Member(v1.props, "length"), Member(v2.props, "length"))
      then PreScan(v1.props, T1, v2.props, T2, |v2.props|) else [];
    pre + LeftKeys(v1, T1, v2, T2, |v1.props|) + RightKeys(v1.props, S1, v2.props, S2, |v2.props|)
  }

  /** The request of the pre-scan for a key only the right object has (jdd.js:84-86). The
      property passed to `generatePath` is "/" + key, whose leading "/" becomes "#". */
  function PreScanRequest(T1: seq<string>, T2: seq<string>, key: string): Request {
    Request(GeneratePath(T1, ""), GeneratePath(T2, Separator + key),
      RightHasMoreItems, Missing)
  }

  /** The pre-scan loop over the first `n` right keys (jdd.js:78-89). */
  function PreScan(ps1: seq<(string, Value)>, T1: seq<string>, ps2: seq<(string, Value)>, T2: seq<string>, n: nat): seq<Request>
    requires n <= |ps2|
  {
    if n == 0 then []
    else
      PreScan(ps1, T1, ps2, T2, n - 1) + PreScanStep(ps1, T1, T2, ps2[n - 1].0)
  }

  /** One pass of the pre-scan: a request when the left object lacks the key. */
  function PreScanStep(ps1: seq<(string, Value)>, T1: seq<string>, T2: seq<string>, key: string): seq<Request> {
    if !HasKey(ps1, key) then [PreScanRequest(T1, T2, key)] else []
  }

  /** The request for a left key the right object lacks (jdd.js:106-108). */
  function MissingRight(T1: seq<string>, T2: seq<string>, key: string): Request {
    Request(GeneratePath(T1 + [KeySegment(key)], ""), GeneratePath(T2, ""),
      MissingProperty(key, RightSide), Missing)
  }

  /** One pass of the left-key loop (jdd.js:97-115): a missing key, or the comparison of the
      two members below the key's segment. */
  function LeftKey(v1: Value, T1: seq<string>, v2: Value, T2: seq<string>, key: string): seq<Request>
    requires v1.Obj? && v2.Obj?
    decreases v1, 0, 0
  {
    if !HasKey(v2.props, key) then [MissingRight(T1, T2, key)]
    else match FindKey(v1.props, key)
      case None => []  // not reached: the loop passes the left object's own keys
      case Some(i1) =>
        var seg := KeySegment(key);
        var i2 := FindKey(v2.props, key).value;
        Walk(v1.props[i1].1, T1 + [seg], v2.props[i2].1, T2 + [seg])
  }

  /** The left-key loop over the first `n` left keys. */
  function LeftKeys(v1: Value, T1: seq<string>, v2: Value, T2: seq<string>, n: nat): seq<Request>
    requires v1.Obj? && v2.Obj? && n <= |v1.props|
    decreases v1, 1, n
  {
    if n == 0 then []
    else LeftKeys(v1, T1, v2, T2, n - 1) + LeftKey(v1, T1, v2, T2, v1.props[n - 1].0)
  }

  /** The request for a right key the left object lacks (jdd.js:129-139). */
  function MissingLeft(S1: seq<string>, S2: seq<string>, key: string): Request {
    Request(GeneratePath(S1, ""), GeneratePath(S2, key),
      MissingProperty(key, LeftSide), Missing)
  }

  /** The right-key loop over the first `n` right keys, with both "/" segments popped. */
  function RightKeys(ps1: seq<(string, Value)>, S1: seq<string>, ps2: seq<(string, Value)>, S2: seq<string>, n: nat): seq<Request>
    requires n <= |ps2|
  {
    if n == 0 then []
    else
      RightKeys(ps1, S1, ps2, S2, n - 1) + RightKey(ps1, S1, S2, ps2[n - 1].0)
  }

  /** One pass of the right-key loop: a request when the left object lacks the key. */
  function RightKey(ps1: seq<(string, Value)>, S1: seq<string>, S2: seq<string>, key: string): seq<Request> {
    if !HasKey(ps1, key) then [MissingLeft(S1, S2, key)] else []
  }

  /** Every key that occurs in a property list is found in it. */
  lemma FindKeyComplete(ps: seq<(string, Value)>, j: nat)
    requires j < |ps|
    ensures HasKey(ps, ps[j].0)
  {
    FindKeySpec(ps, ps[j].0);
  }

  // ---------------------------------------------------------------------------------------
  // Each loop's requests so far are a prefix of the whole loop's.

  lemma PrefixOfExtension(a: seq<Request>, b: seq<Request>, c: seq<Request>)
    requires a <= b
    ensures a <= b + c
  {
    assert (b + c)[..|a|] == b[..|a|];
  }

  lemma {:induction false} ExtraElementsPrefix(S1: seq<string>, S2: seq<string>, n1: nat, j: nat, n: nat)
    requires n1 <= j <= n
    ensures ExtraElements(S1, S2, n1, j) <= ExtraElements(S1, S2, n1, n)
    decreases n - j
  {
    if j < n {
      ExtraElementsPrefix(S1, S2, n1, j, n - 1);
      ghost var prev, step := ExtraElements(S1, S2, n1, n - 1), [ExtraElement(S1, S2, n - 1)];
      assert ExtraElements(S1, S2, n1, n) == prev + step;
      PrefixOfExtension(ExtraElements(S1, S2, n1, j), prev, step);
    }
  }

  lemma {:induction false} ArrayElementsPrefix(v1: Value, S1: seq<string>, v2: Value, S2: seq<string>, j: nat, n: nat)
    requires v1.Arr? && v2.Arr? && j <= n <= |v1.elems|
    ensures ArrayElements(v1, S1, v2, S2, j) <= ArrayElements(v1, S1, v2, S2, n)
    decreases n - j
  {
    if j < n {
      ArrayElementsPrefix(v1, S1, v2, S2, j, n - 1);
      PrefixOfExtension(ArrayElements(v1, S1, v2, S2, j), ArrayElements(v1, S1, v2, S2, n - 1), ElementStep(v1, S1, v2, S2, n - 1));
    }
  }

  lemma {:induction false} PreScanPrefix(ps1: seq<(string, Value)>, T1: seq<string>, ps2: seq<(string, Value)>, T2: seq<string>, j: nat, n: nat)
    requires j <= n <= |ps2|
    ensures PreScan(ps1, T1, ps2, T2, j) <= PreScan(ps1, T1, ps2, T2, n)
    decreases n - j
  {
    if j < n {
      PreScanPrefix(ps1, T1, ps2, T2, j, n - 1);
      ghost var prev, step := PreScan(ps1, T1, ps2, T2, n - 1), PreScanStep(ps1, T1, T2, ps2[n - 1].0);
      assert PreScan(ps1, T1, ps2, T2, n) == prev + step;
      PrefixOfExtension(PreScan(ps1, T1, ps2, T2, j), prev, step);
    }
  }

  lemma {:induction false} LeftKeysPrefix(v1: Value, T1: seq<string>, v2: Value, T2: seq<string>, j: nat, n: nat)
    requires v1.Obj? && v2.Obj? && j <= n <= |v1.props|
    ensures LeftKeys(v1, T1, v2, T2, j) <= LeftKeys(v1, T1, v2, T2, n)
    decreases n - j
  {
    if j < n {
      LeftKeysPrefix(v1, T1, v2, T2, j, n - 1);
      ghost var prev, step := LeftKeys(v1, T1, v2, T2, n - 1), LeftKey(v1, T1, v2, T2, v1.props[n - 1].0);
      assert LeftKeys(v1, T1, v2, T2, n) == prev + step;
      PrefixOfExtension(LeftKeys(v1, T1, v2, T2, j), prev, step);
    }
  }

  lemma {:induction false} RightKeysPrefix(ps1: seq<(string, Value)>, S1: seq<string>, ps2: seq<(string, Value)>, S2: seq<string>, j: nat, n: nat)
    requires j <= n <= |ps2|
    ensures RightKeys(ps1, S1, ps2, S2, j) <= RightKeys(ps1, S1, ps2, S2, n)
    decreases n - j
  {
    if j < n {
      RightKeysPrefix(ps1, S1, ps2, S2, j, n - 1);
      ghost var prev, step := RightKeys(ps1, S1, ps2, S2, n - 1), RightKey(ps1, S1, S2, ps2[n - 1].0);
      assert RightKeys(ps1, S1, ps2, S2, n) == prev + step;
      PrefixOfExtension(RightKeys(ps1, S1, ps2, S2, j), prev, step);
    }
  }
}
