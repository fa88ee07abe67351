/** The decorator as the source runs it: one mutable `config` object that the printing
    functions update in place. Every method is proved to leave the object in the state the
    matching function of module Render describes, and module RenderLines proves what those
    states satisfy. */
module Decorator {
  import opened Wrappers
  import opened Text
  import opened JsonValues
  import opened Paths
  import R = Render

  /** A formatting config (jdd.js:571-578): the text written so far, the indent level, the
      stack of path segments, the path/line records and the current line number. */
  class Config {
    var out: string
    var indent: int
    var currentPath: seq<string>
    var paths: seq<PathEntry>
    var line: int

    /** The fields as a value. */
    function Snapshot(): R.State
      reads this
    {
      R.State(out, indent, currentPath, paths, line)
    }

    /** `createConfig` (jdd.js:571-579). */
    constructor ()
      ensures Snapshot() == R.CreateConfig()
    {
      out := "";
      indent := -1;
      currentPath := [];
      paths := [];
      line := 1;
    }

    /** `newLine` (jdd.js:486-489): counts the line and hands back the break to write. */
    method NewLine() returns (s: string)
      modifies this
      ensures s == "\n"
      ensures Snapshot() == old(Snapshot()).(line := old(line) + 1)
    {
      line := line + 1;
      s := "\n";
    }

    /** `removeTrailingComma` (jdd.js:559-566). */
    method RemoveTrailingComma()
      modifies this
      ensures Snapshot() == R.RemoveTrailingComma(old(Snapshot()))
    {
      if |out| > 0 && out[|out| - 1] == ',' {
        out := out[..|out| - 1];
      }
    }

    /** `generatePath` (jdd.js:466-481): the stack's segments joined in order, then the escaped
        property if there is one; an empty result is the root. */
    method GeneratePath(prop: string) returns (s: string)
      ensures s == Paths.GeneratePath(currentPath, prop)
    {
      s := JoinStack();
      if prop != "" {
        s := s + (Separator + KeySegment(prop));
      } else {
        assert s == s + "";
      }
      if |s| == 0 {
        s := Separator;
      }
    }

    /** The loop of `generatePath` over the stack. */
    method JoinStack() returns (s: string)
      ensures s == Concat(currentPath)
    {
      s := "";
      var i := 0;
      while i < |currentPath|
        invariant 0 <= i <= |currentPath|
        invariant s == Concat(currentPath[..i])
      {
        ConcatAppend(currentPath[..i], currentPath[i]);
        assert currentPath[..i + 1] == currentPath[..i] + [currentPath[i]];
        s := s + currentPath[i];
        i := i + 1;
      }
      assert currentPath[..i] == currentPath;
    }

    /** `config.paths.push({path: generatePath(config, prop), line: config.line})`. */
    method RecordPath(prop: string)
      modifies this
      ensures Snapshot() == R.Record(old(Snapshot()), prop)
    {
      var p := GeneratePath(prop);
      paths := paths + [PathEntry(p, line)];
    }

    /** `startObject` (jdd.js:362-380) and `startArray` (jdd.js:320-338). */
    method Open(bracket: string)
      modifies this
      ensures Snapshot() == R.Open(old(Snapshot()), bracket)
    {
      indent := indent + 1;
      out := out + bracket;
      if |paths| == 0 {
        RecordPath("");
      }
      if indent == 0 {
        indent := indent + 1;
      }
    }

    method StartObject()
      modifies this
      ensures Snapshot() == R.StartObject(old(Snapshot()))
    {
      Open("{");
    }

    method StartArray()
      modifies this
      ensures Snapshot() == R.StartArray(old(Snapshot()))
    {
      Open("[");
    }

    /** `finishObject` (jdd.js:385-399) and `finishArray` (jdd.js:343-357). */
    method Close(bracket: string)
      modifies this
      ensures Snapshot() == R.Close(old(Snapshot()), bracket)
    {
      if indent == 0 {
        indent := indent - 1;
      }
      RemoveTrailingComma();
      indent := indent - 1;
      var nl := NewLine();
      var tabs := GetTabs(indent);
      out := out + nl + (tabs + bracket);
      if indent != 0 {
        out := out + ",";
      } else {
        nl := NewLine();
        out := out + nl;
      }
    }

    method FinishObject()
      modifies this
      ensures Snapshot() == R.FinishObject(old(Snapshot()))
    {
      Close("}");
    }

    method FinishArray()
      modifies this
      ensures Snapshot() == R.FinishArray(old(Snapshot()))
    {
      Close("]");
    }

    /** `config.currentPath.pop()`. */
    method PopSegment()
      modifies this
      ensures Snapshot() == R.Pop(old(Snapshot()))
    {
      if |currentPath| > 0 {
        currentPath := currentPath[..|currentPath| - 1];
      }
    }

    /** A string leaf (jdd.js:427). */
    method WriteString(s: string)
      modifies this
      ensures Snapshot() == R.StringLeaf(s, old(Snapshot()))
    {
      out := out + "\"" + UnescapeString(s) + "\",";
    }

    /** One `forEach` callback over an array (jdd.js:409-419 and 301-311). */
    method WriteElement(i: nat, elem: Value)
      modifies this
      ensures Snapshot() == R.ElementStep(i, elem, old(Snapshot()))
      decreases elem, 5
    {
      var nl := NewLine();
      var tabs := GetTabs(indent);
      out := out + nl + tabs;
      RecordPath(IndexProp(i));
      currentPath := currentPath + [Separator + IndexProp(i)];
      FormatVal(elem);
      PopSegment();
    }

    /** `formatVal` (jdd.js:404-435). */
    method FormatVal(v: Value)
      modifies this
      ensures Snapshot() == R.FormatVal(v, old(Snapshot()))
      decreases v, 4
    {
      match v
      case Arr(elems) =>
        FormatNestedArray(v);
      case Obj(_) =>
        FormatAndDecorate(v);
      case Str(s) =>
        WriteString(s);
      case Num(n) =>
        out := out + IntToString(n) + ",";
      case Bool(b) =>
        out := out + (if b then "true" else "false") + ",";
      case Null =>
        out := out + "null,";
    }

    /** The array branch of `formatVal` (jdd.js:405-423). */
    method FormatNestedArray(v: Value)
      requires v.Arr?
      modifies this
      ensures Snapshot() == R.CloseNested(R.Elements(v, 0, R.OpenNested(old(Snapshot()))))
      decreases v, 3
    {
      ghost var s0 := Snapshot();
      out := out + "[";
      indent := indent + 1;
      ghost var start := Snapshot();
      assert start == R.OpenNested(s0);
      var i := 0;
      while i < |v.elems|
        invariant 0 <= i <= |v.elems|
        invariant R.Elements(v, i, Snapshot()) == R.Elements(v, 0, start)
      {
        WriteElement(i, v.elems[i]);
        i := i + 1;
      }
      ghost var e := Snapshot();
      assert e == R.Elements(v, 0, start);
      RemoveTrailingComma();
      ghost var b := Snapshot();
      indent := indent - 1;
      ghost var c := Snapshot();
      assert c == b.(indent := b.indent - 1);
      var nl := NewLine();
      var tabs := GetTabs(indent);
      out := out + nl + (tabs + "],");
      assert Snapshot() == R.NewLineThen(c, Tabs(c.indent) + "],");
      assert R.CloseNested(e) == R.NewLineThen(c, Tabs(c.indent) + "],");
    }

    /** `formatAndDecorate` (jdd.js:258-287). */
    method FormatAndDecorate(v: Value)
      modifies this
      ensures Snapshot() == R.FormatAndDecorate(v, old(Snapshot()))
      decreases v, 3
    {
      if v.Arr? {
        FormatAndDecorateArray(v);
        return;
      }
      StartObject();
      currentPath := currentPath + [Separator];
      var props := GetSortedProperties(v);
      ghost var start := Snapshot();
      var k := 0;
      while k < |props|
        invariant 0 <= k <= |props|
        invariant R.Properties(v, props, k, Snapshot()) == R.Properties(v, props, 0, start)
      {
        WriteProperty(v, props[k]);
        k := k + 1;
      }
      FinishObject();
      PopSegment();
    }

    /** One `props.forEach` callback (jdd.js:274-283). */
    method WriteProperty(v: Value, key: string)
      modifies this
      ensures Snapshot() == R.PropertyStep(v, key, old(Snapshot()))
      decreases v, 1
    {
      ghost var s0 := Snapshot();
      ghost var text := Tabs(s0.indent) + "\"" + UnescapeString(key) + "\": ";
      var nl := NewLine();
      var tabs := GetTabs(indent);
      out := out + nl + (tabs + "\"" + UnescapeString(key) + "\": ");
      assert Snapshot() == R.NewLineThen(s0, text);
      currentPath := currentPath + [KeySegment(key)];
      ghost var b := Snapshot();
      assert b == R.Push(R.NewLineThen(s0, text), KeySegment(key));
      RecordPath("");
      ghost var c := Snapshot();
      FormatMember(v, key);
      PopSegment();
      assert Snapshot() == R.Pop(R.FormatMember(v, key, c));
    }

    /** `formatVal(data[key], config)` inside `formatAndDecorate` (jdd.js:281). */
    method FormatMember(v: Value, key: string)
      modifies this
      ensures Snapshot() == R.FormatMember(v, key, old(Snapshot()))
      decreases v, 0
    {
      match v
      case Obj(ps) =>
        match FindKey(ps, key) {
          case Some(i) => FormatVal(ps[i].1);
          case None =>
        }
      case Str(s) =>
        match IndexOfKey(s, key, 0) {
          case Some(i) => WriteString([s[i]]);
          case None =>
        }
      case _ =>
    }

    /** `formatAndDecorateArray` (jdd.js:293-315). */
    method FormatAndDecorateArray(v: Value)
      requires v.Arr?
      modifies this
      ensures Snapshot() == R.FormatAndDecorateArray(v, old(Snapshot()))
      decreases v, 2
    {
      StartArray();
      ghost var start := Snapshot();
      var i := 0;
      while i < |v.elems|
        invariant 0 <= i <= |v.elems|
        invariant R.Elements(v, i, Snapshot()) == R.Elements(v, 0, start)
      {
        WriteElement(i, v.elems[i]);
        i := i + 1;
      }
      FinishArray();
      PopSegment();
    }
  }

  /** `getSortedProperties` (jdd.js:494-508): the own keys in enumeration order, then sorted. */
  method GetSortedProperties(v: Value) returns (props: seq<string>)
    ensures props == R.SortedProperties(v)
  {
    var keys: seq<string>;
    match v {
    case Obj(ps) =>
      keys := ObjectKeys(ps);
    case Str(s) =>
      keys := IndexKeysOf(|s|);
    case _ =>
      keys := [];
    }
    assert keys == OwnKeys(v);
    props := SortStrings(keys);
  }

  /** `for (var key in data) if (data.hasOwnProperty(key)) props.push(key)` on an object. */
  method ObjectKeys(ps: seq<(string, Value)>) returns (props: seq<string>)
    ensures props == Keys(ps)
  {
    props := [];
    var i := 0;
    while i < |ps|
      invariant 0 <= i <= |ps|
      invariant props == Keys(ps[..i])
    {
      KeysAppend(ps[..i], ps[i]);
      assert ps[..i + 1] == ps[..i] + [ps[i]];
      props := props + [ps[i].0];
      i := i + 1;
    }
    assert ps[..i] == ps;
  }

  /** The same loop on a string of length `n`: its character indices. */
  method IndexKeysOf(n: nat) returns (props: seq<string>)
    ensures props == IndexKeys(n)
  {
    props := [];
    var i := 0;
    while i < n
      invariant 0 <= i <= n
      invariant props == IndexKeys(i)
    {
      props := props + [NatToString(i)];
      i := i + 1;
    }
  }

  lemma KeysAppend(ps: seq<(string, Value)>, p: (string, Value))
    ensures Keys(ps + [p]) == Keys(ps) + [p.0]
  {
  }
}
