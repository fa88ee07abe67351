/** What the decorator records: after printing, the line map holds the path of every node of
    the document, each built from the stack of segments the printer pushed on the way down
    ("/" into an object, then the key's segment; "/[i]" into an array element). */
module Coverage {
  import opened Wrappers
  import opened Text
  import opened JsonValues
  import opened Paths
  import opened Render
  import Requests

  /** The node of `v`, reached with stack `S`, and every node below it have their paths in `P`. */
  predicate Covered(P: set<string>, v: Value, S: seq<string>)
    decreases v, 2
  {
    GeneratePath(S, "") in P && Below(P, v, S)
  }

  /** Every node strictly below `v` has its path in `P`. */
  predicate Below(P: set<string>, v: Value, S: seq<string>)
    decreases v, 1
  {
    match v
    case Arr(es) => forall i :: 0 <= i < |es| ==> Covered(P, es[i], S + [Requests.ElementSegment(i)])
    case Obj(ps) => forall i :: 0 <= i < |ps| ==> CoveredMember(P, v, ps[i].0, S + [Separator])
    case _ => true
  }

  /** The member `data[key]` of object `v`, if there is one, is covered below the stack `T`
      with the key's segment pushed. */
  predicate CoveredMember(P: set<string>, v: Value, key: string, T: seq<string>)
    requires v.Obj?
    decreases v, 0
  {
    match FindKey(v.props, key)
    case None => true
    case Some(j) => Covered(P, v.props[j].1, T + [KeySegment(key)])
  }

  /** Coverage survives adding paths. */
  lemma {:induction false} CoveredMono(P: set<string>, Q: set<string>, v: Value, S: seq<string>)
    requires P <= Q && Covered(P, v, S)
    ensures Covered(Q, v, S)
    decreases v, 2
  {
    BelowMono(P, Q, v, S);
  }

  lemma {:induction false} BelowMono(P: set<string>, Q: set<string>, v: Value, S: seq<string>)
    requires P <= Q && Below(P, v, S)
    ensures Below(Q, v, S)
    decreases v, 1
  {
    match v
    case Arr(es) =>
      forall i | 0 <= i < |es|
        ensures Covered(Q, es[i], S + [Requests.ElementSegment(i)])
      {
        CoveredMono(P, Q, es[i], S + [Requests.ElementSegment(i)]);
      }
    case Obj(ps) =>
      forall i | 0 <= i < |ps|
        ensures CoveredMember(Q, v, ps[i].0, S + [Separator])
      {
        CoveredMemberMono(P, Q, v, ps[i].0, S + [Separator]);
      }
    case _ =>
  }

  lemma {:induction false} CoveredMemberMono(P: set<string>, Q: set<string>, v: Value, key: string, T: seq<string>)
    requires v.Obj? && P <= Q && CoveredMember(P, v, key, T)
    ensures CoveredMember(Q, v, key, T)
    decreases v, 0
  {
    match FindKey(v.props, key)
    case None =>
    case Some(j) => CoveredMono(P, Q, v.props[j].1, T + [KeySegment(key)]);
  }

  /** A line map that only grew records a superset of paths. */
  lemma PathsGrow(a: seq<PathEntry>, b: seq<PathEntry>)
    requires a <= b
    ensures PathSet(a) <= PathSet(b)
  {
    assert b == a + b[|a|..];
    PathSetPrefix(a, b[|a|..]);
  }

  /** The path an element record gets is the node path of the element's stack. */
  lemma ElementPath(S: seq<string>, i: nat)
    ensures GeneratePath(S, IndexProp(i)) == GeneratePath(S + [Requests.ElementSegment(i)], "")
  {
    IndexPropHasNoSeparator(i);
    ConcatAppend(S, Requests.ElementSegment(i));
    GeneratePathSpec(S, IndexProp(i));
    GeneratePathSpec(S + [Requests.ElementSegment(i)], "");
    assert Concat(S) + Separator + IndexProp(i) == Concat(S) + Requests.ElementSegment(i);
  }

  // ---------------------------------------------------------------------------------------
  // The printer covers what it prints.

  lemma {:induction false} FormatValCovers(v: Value, st: State)
    requires st.indent >= 0
    ensures Below(PathSet(FormatVal(v, st).paths), v, st.currentPath)
    decreases v, 4
  {
    match v
    case Arr(es) =>
      ElementsBelow(v, OpenNested(st));
    case Obj(_) =>
      FormatAndDecorateCovers(v, st);
    case _ =>
  }

  lemma {:induction false} ElementStepCovers(i: nat, elem: Value, st: State)
    requires st.indent >= 0
    ensures Covered(PathSet(ElementStep(i, elem, st).paths), elem, st.currentPath + [Requests.ElementSegment(i)])
    decreases elem, 5
  {
    var a := NewLineThen(st, Tabs(st.indent));
    var b := Record(a, IndexProp(i));
    var c := Push(b, Separator + IndexProp(i));
    var d := FormatVal(elem, c);
    var S := st.currentPath + [Requests.ElementSegment(i)];
    assert c.currentPath == S;
    FormatValCovers(elem, c);
    FormatValFrame(elem, c);
    ElementPath(st.currentPath, i);
    PathSetAppend(a.paths, PathEntry(GeneratePath(st.currentPath, IndexProp(i)), a.line));
    PathsGrow(c.paths, d.paths);
    assert GeneratePath(S, "") in PathSet(d.paths);
    assert ElementStep(i, elem, st).paths == d.paths;
  }

  lemma {:induction false} ElementsCovers(v: Value, i: nat, st: State, j: nat)
    requires v.Arr? && i <= j < |v.elems| && st.indent >= 0
    ensures Covered(PathSet(Elements(v, i, st).paths), v.elems[j], st.currentPath + [Requests.ElementSegment(j)])
    decreases v, 1, |v.elems| - i
  {
    var s1 := ElementStep(i, v.elems[i], st);
    var r := Elements(v, i, st);
    assert r == Elements(v, i + 1, s1);
    ElementStepFrame(i, v.elems[i], st);
    if j == i {
      ElementStepCovers(i, v.elems[i], st);
      ElementsFrame(v, i + 1, s1);
      PathsGrow(s1.paths, r.paths);
      CoveredMono(PathSet(s1.paths), PathSet(r.paths), v.elems[i], st.currentPath + [Requests.ElementSegment(i)]);
    } else {
      ElementsCovers(v, i + 1, s1, j);
    }
  }

  /** The elements written from a stack `S` are covered below it. */
  lemma ElementsBelow(v: Value, st: State)
    requires v.Arr? && st.indent >= 0
    ensures Below(PathSet(Elements(v, 0, st).paths), v, st.currentPath)
    decreases v, 1, |v.elems| + 1
  {
    forall j | 0 <= j < |v.elems|
      ensures Covered(PathSet(Elements(v, 0, st).paths), v.elems[j], st.currentPath + [Requests.ElementSegment(j)])
    {
      ElementsCovers(v, 0, st, j);
    }
  }

  lemma {:induction false} FormatAndDecorateCovers(v: Value, st: State)
    requires st.indent >= -1
    ensures Below(PathSet(FormatAndDecorate(v, st).paths), v, st.currentPath)
    decreases v, 3
  {
    if v.Arr? {
      FormatAndDecorateArrayCovers(v, st);
    } else if v.Obj? {
      var o := StartObject(st);
      OpenFrame(st, "{");
      var a := Push(o, Separator);
      var keys := SortedProperties(v);
      var b := Properties(v, keys, 0, a);
      var P := PathSet(b.paths);
      assert FormatAndDecorate(v, st).paths == b.paths;
      forall i | 0 <= i < |v.props|
        ensures CoveredMember(P, v, v.props[i].0, st.currentPath + [Separator])
      {
        var key := v.props[i].0;
        assert Keys(v.props)[i] == key;
        assert key in multiset(OwnKeys(v));
        assert key in multiset(keys);
        var j :| 0 <= j < |keys| && keys[j] == key;
        PropertiesCovers(v, keys, 0, a, j);
      }
    }
  }

  lemma {:induction false} FormatAndDecorateArrayCovers(v: Value, st: State)
    requires v.Arr? && st.indent >= -1
    ensures Below(PathSet(FormatAndDecorateArray(v, st).paths), v, st.currentPath)
    decreases v, 2
  {
    var o := StartArray(st);
    OpenFrame(st, "[");
    ElementsBelow(v, o);
  }

  lemma {:induction false} PropertiesCovers(v: Value, keys: seq<string>, k: nat, st: State, j: nat)
    requires v.Obj? && k <= j < |keys| && st.indent >= 0
    ensures CoveredMember(PathSet(Properties(v, keys, k, st).paths), v, keys[j], st.currentPath)
    decreases v, 1, |keys| - k
  {
    var s1 := PropertyStep(v, keys[k], st);
    var r := Properties(v, keys, k, st);
    assert r == Properties(v, keys, k + 1, s1);
    PropertyStepFrame(v, keys[k], st);
    if j == k {
      PropertyStepCovers(v, keys[k], st);
      PropertiesFrame(v, keys, k + 1, s1);
      PathsGrow(s1.paths, r.paths);
      CoveredMemberMono(PathSet(s1.paths), PathSet(r.paths), v, keys[k], st.currentPath);
    } else {
      PropertiesCovers(v, keys, k + 1, s1, j);
    }
  }

  lemma {:induction false} PropertyStepCovers(v: Value, key: string, st: State)
    requires v.Obj? && st.indent >= 0
    ensures CoveredMember(PathSet(PropertyStep(v, key, st).paths), v, key, st.currentPath)
    decreases v, 0
  {
    var a := NewLineThen(st, Tabs(st.indent) + "\"" + UnescapeString(key) + "\": ");
    var b := Push(a, KeySegment(key));
    var c := Record(b, "");
    var S := st.currentPath + [KeySegment(key)];
    assert c.currentPath == S;
    PathSetAppend(b.paths, PathEntry(GeneratePath(S, ""), b.line));
    match FindKey(v.props, key)
    case None =>
    case Some(j) =>
      var d := FormatVal(v.props[j].1, c);
      assert FormatMember(v, key, c) == d;
      FormatValCovers(v.props[j].1, c);
      FormatValFrame(v.props[j].1, c);
      PathsGrow(c.paths, d.paths);
      assert PropertyStep(v, key, st).paths == d.paths;
  }

  /** Printing a document records the path of every one of its nodes, the root "/" first. */
  lemma PrintCovers(v: Value)
    ensures Covered(PathSet(Print(v).paths), v, [])
  {
    var m := Print(v).paths;
    FormatAndDecorateCovers(v, CreateConfig());
    PrintRecordsRootFirst(v);
    assert m == [m[0]] + m[1..];
    PathSetAppend([], m[0]);
    PathSetPrefix([m[0]], m[1..]);
    GeneratePathSpec([], "");
  }
}
