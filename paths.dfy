/** The path tracker and the diff resolver: `generatePath` renders a path-segment stack,
    `generateDiff` turns two rendered paths into line numbers or throws. */
module Paths {
  import opened Wrappers
  import opened Text
  import opened JsonValues

  /** `jdd.SEPARATOR` (jdd.js:63). */
  const Separator: string := "/"

  /** A property key as it becomes a path segment: its first "/" turned into "#". */
  function KeySegment(key: string): string {
    ReplaceFirst(key, '/', "#")
  }

  /** The segment text of an array index, "[i]". */
  function IndexProp(i: nat): string {
    "[" + NatToString(i) + "]"
  }

  /** The segments of a stack, concatenated in order. */
  function Concat(stack: seq<string>): string {
    if stack == [] then "" else Concat(stack[..|stack| - 1]) + stack[|stack| - 1]
  }

  /** `generatePath(config, prop)` (jdd.js:466-481), with "" standing for an absent or falsy
      `prop`. The result is never empty: an empty rendering becomes the root "/". */
  function GeneratePath(stack: seq<string>, prop: string): string {
    var s := Concat(stack) + (if prop != "" then Separator + KeySegment(prop) else "");
    if |s| == 0 then Separator else s
  }

  /** The rendering is never empty; without a property it is the joined stack, or the root
      "/" for an empty one; with a property it is the joined stack, "/" and the key segment. */
  lemma GeneratePathSpec(stack: seq<string>, prop: string)
    ensures |GeneratePath(stack, prop)| > 0
    ensures prop == "" ==> GeneratePath(stack, prop) == if |Concat(stack)| == 0 then Separator else Concat(stack)
    ensures prop != "" ==> GeneratePath(stack, prop) == Concat(stack) + Separator + KeySegment(prop)
  {
    if prop != "" {
      assert |Separator| == 1;
      assert |Concat(stack) + (Separator + KeySegment(prop))| > 0;
      assert Concat(stack) + (Separator + KeySegment(prop)) == Concat(stack) + Separator + KeySegment(prop);
    } else {
      assert Concat(stack) + "" == Concat(stack);
    }
  }

  lemma ConcatAppend(stack: seq<string>, seg: string)
    ensures Concat(stack + [seg]) == Concat(stack) + seg
  {
    assert (stack + [seg])[..|stack|] == stack;
  }

  /** An index segment holds no "/", so `generatePath` keeps it as it is. */
  lemma IndexPropHasNoSeparator(i: nat)
    ensures KeySegment(IndexProp(i)) == IndexProp(i)
  {
    var s := NatToString(i);
    assert forall j :: 0 <= j < |s| ==> s[j] != '/';
    assert '/' !in IndexProp(i);
  }

  /** Two different keys can share one path: "a/b" and "a#b" both become the segment "a#b". */
  lemma KeySegmentsCollide()
    ensures KeySegment("a/b") == KeySegment("a#b") == "a#b"
  {
  }

  /** Only the first "/" of a key is replaced: "a/b/c" keeps its second separator. */
  lemma KeySegmentReplacesOnlyFirst()
    ensures KeySegment("a/b/c") == "a#b/c"
  {
  }

  /** The first step of `generateDiff` (jdd.js:514-520): one trailing "/" is removed unless the
      path is the root itself. A path of length one ending in "/" is the root, so the test is
      on the length. */
  function StripTrailing(p: string): string {
    if |p| > 1 && p[|p| - 1] == '/' then p[..|p| - 1] else p
  }

  /** The root is kept, any other path loses exactly one trailing separator, and a path without
      one is unchanged. */
  lemma StripTrailingSpec(p: string)
    ensures p == Separator ==> StripTrailing(p) == p
    ensures p != Separator && |p| > 0 && p[|p| - 1] == '/' ==> StripTrailing(p) + Separator == p
    ensures (|p| == 0 || p[|p| - 1] != '/') ==> StripTrailing(p) == p
  {
    if p != Separator && |p| > 0 && p[|p| - 1] == '/' {
      assert |p| > 1;
      assert p[..|p| - 1] + Separator == p;
    }
  }

  /** One `{path, line}` record of `config.paths`. */
  datatype PathEntry = PathEntry(path: string, line: int)

  /** The paths a line map records. */
  function PathSet(m: seq<PathEntry>): set<string> {
    if m == [] then {} else {m[0].path} + PathSet(m[1..])
  }

  lemma {:induction false} PathSetAppend(m: seq<PathEntry>, e: PathEntry)
    ensures PathSet(m + [e]) == PathSet(m) + {e.path}
  {
    if m != [] {
      assert (m + [e])[1..] == m[1..] + [e];
      PathSetAppend(m[1..], e);
    }
  }

  lemma {:induction false} PathSetPrefix(m: seq<PathEntry>, n: seq<PathEntry>)
    ensures PathSet(m) <= PathSet(m + n)
  {
    if m != [] {
      assert (m + n)[1..] == m[1..] + n;
      PathSetPrefix(m[1..], n);
    }
  }

  /** `config.paths.find(e => e.path === p)` (jdd.js:521-526): the first record for `p`. */
  function FindEntry(m: seq<PathEntry>, p: string): Option<PathEntry> {
    if m == [] then None
    else if m[0].path == p then Some(m[0])
    else FindEntry(m[1..], p)
  }

  /** A record is found exactly when the path was recorded, and it is a record of that path. */
  lemma {:induction false} FindEntrySpec(m: seq<PathEntry>, p: string)
    ensures FindEntry(m, p).Some? ==> FindEntry(m, p).value.path == p
    ensures FindEntry(m, p).None? <==> p !in PathSet(m)
  {
    if m != [] && m[0].path != p {
      FindEntrySpec(m[1..], p);
    }
  }

  /** The record found is the first one for `p`. */
  lemma {:induction false} FindEntryFirst(m: seq<PathEntry>, p: string)
    requires FindEntry(m, p).Some?
    ensures exists i :: 0 <= i < |m| && m[i] == FindEntry(m, p).value && (forall j :: 0 <= j < i ==> m[j].path != p)
  {
    if m[0].path != p {
      FindEntryFirst(m[1..], p);
      var i :| 0 <= i < |m[1..]| && m[1..][i] == FindEntry(m, p).value && (forall j :: 0 <= j < i ==> m[1..][j].path != p);
      assert m[i + 1] == FindEntry(m, p).value;
      assert forall j :: 0 <= j < i + 1 ==> m[j].path != p by {
        forall j | 0 <= j < i + 1
          ensures m[j].path != p
        {
          if j > 0 {
            assert m[j] == m[1..][j - 1];
          }
        }
      }
    } else {
      assert m[0] == FindEntry(m, p).value;
    }
  }

  /** `jdd.EQUALITY`, `jdd.TYPE` and `jdd.MISSING` (jdd.js:59-61). */
  datatype DiffKind = Equality | TypeMismatch | Missing

  /** The kind's name as the source spells it. */
  function KindName(k: DiffKind): string {
    match k
    case Equality => "eq"
    case TypeMismatch => "type"
    case Missing => "missing"
  }

  /** The side of the comparison a missing property or element is reported from. */
  datatype Side = LeftSide | RightSide

  function SideName(side: Side): string {
    match side
    case LeftSide => "left"
    case RightSide => "right"
  }

  /** The messages the engine passes to `generateDiff`, one constructor per message shape. */
  datatype Message =
    | TypesDiffer(typeName: string)
    | ValuesDiffer(typeName: string)
    | BooleansDiffer(left: bool)
    | RightHasMoreItems
    | MissingProperty(key: string, side: Side)
    | MissingElementAt(index: nat, side: Side)

  /** The message text, as the source spells it (jdd.js:89, 112, 138, 156-249). */
  function MessageText(m: Message): string {
    match m
    case TypesDiffer(t) => "Both types should be " + t + "s"
    case ValuesDiffer(t) => "Both sides should be equal " + t + "s"
    case BooleansDiffer(left) =>
      if left then "The left side is <code>true</code> and the right side is <code>false</code>"
      else "The left side is <code>false</code> and the right side is <code>true</code>"
    case RightHasMoreItems => "The right side of this object has more items than the left side"
    case MissingProperty(key, side) =>
      "Missing property <code>" + key + "</code> from the object on the " + SideName(side) + " side"
    case MissingElementAt(i, side) =>
      "Missing element <code>" + NatToString(i) + "</code> from the array on the " + SideName(side) + " side"
  }

  /** What `generateDiff` throws for a path without a record (jdd.js:529, 533): the message
      of the diff it was asked for and the path it could not find. */
  datatype Thrown = NotFound(msg: Message, path: string)

  /** The thrown string. */
  function ThrownText(t: Thrown): string {
    "Unable to find line number for (" + MessageText(t.msg) + "): " + t.path
  }

  /** The arguments of one `generateDiff` call the engine makes. */
  datatype Request = Request(path1: string, path2: string, msg: Message, kind: DiffKind)

  /** The record `generateDiff` returns (jdd.js:536-541). */
  datatype Diff = Diff(path1: PathEntry, path2: PathEntry, kind: DiffKind, msg: Message)

  /** `generateDiff` (jdd.js:513-542): both paths are stripped of one trailing separator and
      looked up; a path missing on either side throws, the left one reported first. */
  function GenerateDiff(m1: seq<PathEntry>, m2: seq<PathEntry>, q: Request): Result<Diff, Thrown> {
    var p1 := StripTrailing(q.path1);
    var p2 := StripTrailing(q.path2);
    var e1 := FindEntry(m1, p1);
    var e2 := FindEntry(m2, p2);
    if e1.None? then Failure(NotFound(q.msg, p1))
    else if e2.None? then Failure(NotFound(q.msg, p2))
    else Success(Diff(e1.value, e2.value, q.kind, q.msg))
  }

  /** A diff is made exactly when both stripped paths were recorded; it carries the records
      of those paths, the kind and the message. When the left path is missing, the message
      thrown names the left path. */
  lemma GenerateDiffSpec(m1: seq<PathEntry>, m2: seq<PathEntry>, q: Request)
    ensures var r := GenerateDiff(m1, m2, q);
      (r.Success? <==> StripTrailing(q.path1) in PathSet(m1) && StripTrailing(q.path2) in PathSet(m2)) &&
      (r.Success? ==> r.value.path1.path == StripTrailing(q.path1) && r.value.path2.path == StripTrailing(q.path2)) &&
      (r.Success? ==> r.value.kind == q.kind && r.value.msg == q.msg) &&
      (StripTrailing(q.path1) !in PathSet(m1) ==> r == Failure(NotFound(q.msg, StripTrailing(q.path1)))) &&
      (StripTrailing(q.path1) in PathSet(m1) && StripTrailing(q.path2) !in PathSet(m2) ==>
        r == Failure(NotFound(q.msg, StripTrailing(q.path2))))
  {
    FindEntrySpec(m1, StripTrailing(q.path1));
    FindEntrySpec(m2, StripTrailing(q.path2));
  }

  /** What a run of requests leaves in `jdd.diffs`, and the message thrown, if one was: the
      requests are resolved in order and the first unresolvable one aborts the run. */
  datatype Resolution = Resolution(diffs: seq<Diff>, error: Option<Thrown>)

  function ResolveAll(m1: seq<PathEntry>, m2: seq<PathEntry>, reqs: seq<Request>): (r: Resolution)
    ensures |r.diffs| <= |reqs|
  {
    if reqs == [] then Resolution([], None)
    else
      var prev := ResolveAll(m1, m2, reqs[..|reqs| - 1]);
      if prev.error.Some? then prev
      else match GenerateDiff(m1, m2, reqs[|reqs| - 1])
        case Success(d) => Resolution(prev.diffs + [d], None)
        case Failure(e) => Resolution(prev.diffs, Some(e))
  }

  /** Resolving a concatenation resolves the first part, then — unless it threw — the second. */
  lemma {:induction false} ResolveAllAppend(m1: seq<PathEntry>, m2: seq<PathEntry>, a: seq<Request>, b: seq<Request>)
    ensures ResolveAll(m1, m2, a + b) ==
      (var ra := ResolveAll(m1, m2, a);
       if ra.error.Some? then ra
       else var rb := ResolveAll(m1, m2, b); Resolution(ra.diffs + rb.diffs, rb.error))
    decreases |b|
  {
    if b == [] {
      assert a + b == a;
    } else {
      var b' := b[..|b| - 1];
      assert (a + b)[..|a + b| - 1] == a + b';
      ResolveAllAppend(m1, m2, a, b');
      var ra := ResolveAll(m1, m2, a);
      if ra.error.None? {
        var rb' := ResolveAll(m1, m2, b');
        if rb'.error.None? {
          match GenerateDiff(m1, m2, b[|b| - 1])
          case Success(d) =>
            assert ra.diffs + rb'.diffs + [d] == ra.diffs + (rb'.diffs + [d]);
          case Failure(_) =>
        }
      }
    }
  }

  /** Every request resolvable on both sides: nothing is thrown and each request becomes the
      diff at the lines its paths were recorded on. */
  predicate Resolvable(m1: seq<PathEntry>, m2: seq<PathEntry>, q: Request) {
    StripTrailing(q.path1) in PathSet(m1) && StripTrailing(q.path2) in PathSet(m2)
  }

  lemma {:induction false} ResolveAllSucceeds(m1: seq<PathEntry>, m2: seq<PathEntry>, reqs: seq<Request>)
    requires forall i :: 0 <= i < |reqs| ==> Resolvable(m1, m2, reqs[i])
    ensures ResolveAll(m1, m2, reqs).error.None?
    ensures |ResolveAll(m1, m2, reqs).diffs| == |reqs|
    ensures forall i :: 0 <= i < |reqs| ==>
      GenerateDiff(m1, m2, reqs[i]) == Success(ResolveAll(m1, m2, reqs).diffs[i])
  {
    if reqs != [] {
      var init := reqs[..|reqs| - 1];
      assert forall i :: 0 <= i < |init| ==> init[i] == reqs[i];
      ResolveAllSucceeds(m1, m2, init);
      var prev := ResolveAll(m1, m2, init);
      var q := reqs[|reqs| - 1];
      assert Resolvable(m1, m2, q);
      GenerateDiffSpec(m1, m2, q);
      var d := GenerateDiff(m1, m2, q);
      var r := ResolveAll(m1, m2, reqs);
      assert r == Resolution(prev.diffs + [d.value], None);
      forall i | 0 <= i < |reqs|
        ensures GenerateDiff(m1, m2, reqs[i]) == Success(r.diffs[i])
      {
        if i < |init| {
          assert reqs[i] == init[i];
        }
      }
    }
  }

  /** ...and conversely a request that cannot be resolved makes the run throw. */
  lemma {:induction false} ResolveAllFails(m1: seq<PathEntry>, m2: seq<PathEntry>, reqs: seq<Request>, k: nat)
    requires k < |reqs| && !Resolvable(m1, m2, reqs[k])
    ensures ResolveAll(m1, m2, reqs).error.Some?
    decreases |reqs|
  {
    if k < |reqs| - 1 {
      ResolveAllFails(m1, m2, reqs[..|reqs| - 1], k);
    } else {
      GenerateDiffSpec(m1, m2, reqs[k]);
    }
  }
}
