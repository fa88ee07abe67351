/** The pretty-printer/decorator as functions over the `config` record: each function gives
    the record a source function leaves behind. The class Decorator.Config runs the same steps
    in place and is proved to end in these states. */
module Render {
  import opened Wrappers
  import opened Text
  import opened JsonValues
  import opened Paths

  /** The fields of a `config` record (jdd.js:571-578). */
  datatype State = State(out: string, indent: int, currentPath: seq<string>, paths: seq<PathEntry>, line: int)

  /** `createConfig` (jdd.js:571-579). */
  function CreateConfig(): State {
    State("", -1, [], [], 1)
  }

  /** `config.out += jdd.newLine(config) + s`: a line break, counted, then `s`. */
  function NewLineThen(st: State, s: string): State {
    st.(out := st.out + "\n" + s, line := st.line + 1)
  }

  /** `config.out += s`. */
  function Append(st: State, s: string): State {
    st.(out := st.out + s)
  }

  /** `removeTrailingComma` (jdd.js:559-566). */
  function RemoveTrailingComma(st: State): State {
    if |st.out| > 0 && st.out[|st.out| - 1] == ',' then st.(out := st.out[..|st.out| - 1]) else st
  }

  /** `config.currentPath.push(seg)`. */
  function Push(st: State, seg: string): State {
    st.(currentPath := st.currentPath + [seg])
  }

  /** `Array.prototype.pop` on a path stack: an empty stack stays empty. */
  function PopPath(stack: seq<string>): seq<string> {
    if stack == [] then [] else stack[..|stack| - 1]
  }

  /** `config.currentPath.pop()`. */
  function Pop(st: State): State {
    st.(currentPath := PopPath(st.currentPath))
  }

  /** `config.paths.push({path: jdd.generatePath(config, prop), line: config.line})`. */
  function Record(st: State, prop: string): State {
    st.(paths := st.paths + [PathEntry(GeneratePath(st.currentPath, prop), st.line)])
  }

  /** The body shared by `startObject` (jdd.js:362-380) and `startArray` (jdd.js:320-338). */
  function Open(st: State, bracket: string): State {
    var a := st.(indent := st.indent + 1, out := st.out + bracket);
    var b := if a.paths == [] then Record(a, "") else a;
    if b.indent == 0 then b.(indent := b.indent + 1) else b
  }

  function StartObject(st: State): State {
    Open(st, "{")
  }

  function StartArray(st: State): State {
    Open(st, "[")
  }

  /** The body shared by `finishObject` (jdd.js:385-399) and `finishArray` (jdd.js:343-357). */
  function Close(st: State, bracket: string): State {
    var a := if st.indent == 0 then st.(indent := st.indent - 1) else st;
    var b := RemoveTrailingComma(a);
    var c := b.(indent := b.indent - 1);
    var d := NewLineThen(c, Tabs(c.indent) + bracket);
    if d.indent != 0 then Append(d, ",") else NewLineThen(d, "")
  }

  function FinishObject(st: State): State {
    Close(st, "}")
  }

  function FinishArray(st: State): State {
    Close(st, "]")
  }

  /** `getSortedProperties` (jdd.js:494-508): the own keys, sorted. */
  function SortedProperties(v: Value): (r: seq<string>)
    ensures Sorted(r) && multiset(r) == multiset(OwnKeys(v))
  {
    SortStrings(OwnKeys(v))
  }

  /** A string leaf as `formatVal` writes it (jdd.js:427). */
  function StringLeaf(s: string, st: State): State {
    Append(st, "\"" + UnescapeString(s) + "\",")
  }

  /** `formatVal` (jdd.js:404-435). */
  function FormatVal(v: Value, st: State): State
    decreases v, 4, 0
  {
    match v
    case Arr(_) => CloseNested(Elements(v, 0, OpenNested(st)))
    case Obj(_) => FormatAndDecorate(v, st)
    case Str(s) => StringLeaf(s, st)
    case Num(n) => Append(st, IntToString(n) + ",")
    case Bool(b) => Append(st, (if b then "true" else "false") + ",")
    case Null => Append(st, "null,")
  }

  /** The "[" a nested array opens with, one level deeper (jdd.js:406-408). */
  function OpenNested(st: State): State {
    Append(st, "[").(indent := st.indent + 1)
  }

  /** The "]," a nested array closes with, on a line of its own (jdd.js:420-423). */
  function CloseNested(e: State): State {
    var b := RemoveTrailingComma(e);
    var c := b.(indent := b.indent - 1);
    NewLineThen(c, Tabs(c.indent) + "],")
  }

  /** One `forEach` callback over an array (jdd.js:409-419 and 301-311). */
  function ElementStep(i: nat, elem: Value, st: State): State
    decreases elem, 5, 0
  {
    var a := NewLineThen(st, Tabs(st.indent));
    var b := Record(a, IndexProp(i));
    var c := Push(b, Separator + IndexProp(i));
    Pop(FormatVal(elem, c))
  }

  /** The elements from index `i` on, in index order. */
  function Elements(v: Value, i: nat, st: State): State
    requires v.Arr? && i <= |v.elems|
    decreases v, 1, |v.elems| - i
  {
    if i == |v.elems| then st else Elements(v, i + 1, ElementStep(i, v.elems[i], st))
  }

  /** `formatAndDecorate` (jdd.js:258-287). Anything that is not an array is written as an
      object, so a top-level string is written with one property per character. */
  function FormatAndDecorate(v: Value, st: State): State
    decreases v, 3, 0
  {
    if v.Arr? then FormatAndDecorateArray(v, st)
    else
      var a := Push(StartObject(st), Separator);
      var b := Properties(v, SortedProperties(v), 0, a);
      Pop(FinishObject(b))
  }

  /** `formatAndDecorateArray` (jdd.js:293-315), including its final `pop` that has no matching
      `push`. */
  function FormatAndDecorateArray(v: Value, st: State): State
    requires v.Arr?
    decreases v, 2, 0
  {
    Pop(FinishArray(Elements(v, 0, StartArray(st))))
  }

  /** The sorted keys from position `k` on. */
  function Properties(v: Value, keys: seq<string>, k: nat, st: State): State
    requires k <= |keys|
    decreases v, 1, |keys| - k
  {
    if k == |keys| then st else Properties(v, keys, k + 1, PropertyStep(v, keys[k], st))
  }

  /** One `props.forEach` callback (jdd.js:274-283). */
  function PropertyStep(v: Value, key: string, st: State): State
    decreases v, 0, 1
  {
    var a := NewLineThen(st, Tabs(st.indent) + "\"" + UnescapeString(key) + "\": ");
    var b := Push(a, KeySegment(key));
    var c := Record(b, "");
    Pop(FormatMember(v, key, c))
  }

  /** `formatVal(data[key], config)`; for a string `data[key]` is its character, and a key
      without a value (`undefined`) writes nothing. */
  function FormatMember(v: Value, key: string, st: State): State
    decreases v, 0, 0
  {
    match v
    case Obj(ps) =>
      (match FindKey(ps, key)
       case Some(i) => FormatVal(ps[i].1, st)
       case None => st)
    case Str(s) =>
      (match IndexOfKey(s, key, 0)
       case Some(i) => StringLeaf([s[i]], st)
       case None => st)
    case _ => st
  }

  /** What `compare` gets from `createConfig` followed by `formatAndDecorate` (jdd.js:1082-1087). */
  function Print(v: Value): State {
    FormatAndDecorate(v, CreateConfig())
  }

  // ---------------------------------------------------------------------------------------
  // Stack and indent balance.

  lemma OpenFrame(st: State, bracket: string)
    ensures var r := Open(st, bracket);
      r.currentPath == st.currentPath && st.paths <= r.paths &&
      r.indent == (if st.indent == -1 then 1 else st.indent + 1)
  {
  }

  lemma CloseFrame(st: State, bracket: string)
    requires st.indent >= 1
    ensures var r := Close(st, bracket);
      r.currentPath == st.currentPath && r.paths == st.paths && r.indent == st.indent - 1
  {
  }

  /** `r` keeps the path stack and indent of `st` and only appends to its line map. */
  predicate Framed(st: State, r: State) {
    r.currentPath == st.currentPath && r.indent == st.indent && st.paths <= r.paths
  }

  /** `formatVal` on a nested value (indent 0 or more) leaves the stack and the indent as it
      found them and only appends path records. */
  lemma {:induction false} FormatValFrame(v: Value, st: State)
    requires st.indent >= 0
    ensures Framed(st, FormatVal(v, st))
    decreases v, 4, 0
  {
    match v
    case Arr(_) =>
      var a := Append(st, "[").(indent := st.indent + 1);
      ElementsFrame(v, 0, a);
    case Obj(_) =>
      FormatAndDecorateFrame(v, st);
    case _ =>
  }

  lemma {:induction false} ElementStepFrame(i: nat, elem: Value, st: State)
    requires st.indent >= 0
    ensures Framed(st, ElementStep(i, elem, st))
    decreases elem, 5, 0
  {
    var a := NewLineThen(st, Tabs(st.indent));
    var b := Record(a, IndexProp(i));
    var c := Push(b, Separator + IndexProp(i));
    FormatValFrame(elem, c);
    assert PopPath(c.currentPath) == st.currentPath;
  }

  lemma {:induction false} ElementsFrame(v: Value, i: nat, st: State)
    requires v.Arr? && i <= |v.elems| && st.indent >= 0
    ensures Framed(st, Elements(v, i, st))
    decreases v, 1, |v.elems| - i
  {
    if i < |v.elems| {
      ElementStepFrame(i, v.elems[i], st);
      ElementsFrame(v, i + 1, ElementStep(i, v.elems[i], st));
    }
  }

  /** `formatAndDecorate` from indent -1 (a fresh config) or more: an object or scalar leaves
      the stack as it found it; an array pops one extra segment (jdd.js:314); the indent comes
      back to where it was, except that a fresh config's -1 ends at 0. */
  lemma {:induction false} FormatAndDecorateFrame(v: Value, st: State)
    requires st.indent >= -1
    ensures var r := FormatAndDecorate(v, st);
      r.currentPath == (if v.Arr? then PopPath(st.currentPath) else st.currentPath) &&
      r.indent == (if st.indent == -1 then 0 else st.indent) &&
      st.paths <= r.paths
    decreases v, 3, 0
  {
    if v.Arr? {
      FormatAndDecorateArrayFrame(v, st);
    } else {
      var o := StartObject(st);
      OpenFrame(st, "{");
      var a := Push(o, Separator);
      PropertiesFrame(v, SortedProperties(v), 0, a);
      var b := Properties(v, SortedProperties(v), 0, a);
      CloseFrame(b, "}");
      var c := FinishObject(b);
      assert PopPath(c.currentPath) == st.currentPath;
    }
  }

  lemma {:induction false} FormatAndDecorateArrayFrame(v: Value, st: State)
    requires v.Arr? && st.indent >= -1
    ensures var r := FormatAndDecorateArray(v, st);
      r.currentPath == PopPath(st.currentPath) &&
      r.indent == (if st.indent == -1 then 0 else st.indent) &&
      st.paths <= r.paths
    decreases v, 2, 0
  {
    OpenFrame(st, "[");
    ElementsFrame(v, 0, StartArray(st));
    CloseFrame(Elements(v, 0, StartArray(st)), "]");
  }

  lemma {:induction false} PropertiesFrame(v: Value, keys: seq<string>, k: nat, st: State)
    requires k <= |keys| && st.indent >= 0
    ensures Framed(st, Properties(v, keys, k, st))
    decreases v, 1, |keys| - k
  {
    if k < |keys| {
      PropertyStepFrame(v, keys[k], st);
      PropertiesFrame(v, keys, k + 1, PropertyStep(v, keys[k], st));
    }
  }

  lemma {:induction false} PropertyStepFrame(v: Value, key: string, st: State)
    requires st.indent >= 0
    ensures Framed(st, PropertyStep(v, key, st))
    decreases v, 0, 1
  {
    var a := NewLineThen(st, Tabs(st.indent) + "\"" + UnescapeString(key) + "\": ");
    var b := Push(a, KeySegment(key));
    var c := Record(b, "");
    FormatMemberFrame(v, key, c);
    assert PopPath(c.currentPath) == st.currentPath;
  }

  lemma {:induction false} FormatMemberFrame(v: Value, key: string, st: State)
    requires st.indent >= 0
    ensures Framed(st, FormatMember(v, key, st))
    decreases v, 0, 0
  {
    match v
    case Obj(ps) =>
      match FindKey(ps, key) {
        case Some(i) => FormatValFrame(ps[i].1, st);
        case None =>
      }
    case _ =>
  }

  /** A printed document ends at indent 0 with an empty path stack. */
  lemma PrintFrame(v: Value)
    ensures Print(v).currentPath == [] && Print(v).indent == 0
  {
    FormatAndDecorateFrame(v, CreateConfig());
  }

  /** The first record of every printed document is the root "/" at line 1
      (jdd.js:324-333, 366-375). */
  lemma PrintRecordsRootFirst(v: Value)
    ensures |Print(v).paths| > 0 && Print(v).paths[0] == PathEntry("/", 1)
  {
    var st := CreateConfig();
    var o := if v.Arr? then StartArray(st) else StartObject(st);
    assert o.paths == [PathEntry("/", 1)];
    if v.Arr? {
      ElementsFrame(v, 0, o);
      CloseFrame(Elements(v, 0, o), "]");
      assert Print(v) == FormatAndDecorateArray(v, st) == Pop(FinishArray(Elements(v, 0, o)));
    } else {
      var a := Push(o, Separator);
      PropertiesFrame(v, SortedProperties(v), 0, a);
      CloseFrame(Properties(v, SortedProperties(v), 0, a), "}");
    }
  }
}

module RenderLines {
  import opened Text
  import opened JsonValues
  import opened Paths
  import opened Render

  /** `config.line` is one more than the number of line breaks written to `config.out`. */
  predicate LinesCounted(st: State) {
    st.line == 1 + Newlines(st.out)
  }

  /** Strictly increasing lines, adjacent pair by adjacent pair. */
  predicate Ascending(m: seq<PathEntry>) {
    forall i :: 0 < i < |m| ==> m[i - 1].line < m[i].line
  }

  /** No record is past line `line`. */
  predicate NotAfter(m: seq<PathEntry>, line: int) {
    m != [] ==> m[|m| - 1].line <= line
  }

  /** The records of `config.paths` have strictly increasing lines, none past the current one,
      and the lines are counted. */
  predicate Consistent(st: State) {
    LinesCounted(st) && Ascending(st.paths) && NotAfter(st.paths, st.line)
  }

  /** Just after a line break: a record made now comes strictly after every earlier one. */
  predicate ReadyToRecord(st: State) {
    Consistent(st) && NotAfter(st.paths, st.line - 1)
  }

  lemma CreateConfigConsistent()
    ensures Consistent(CreateConfig())
  {
  }

  /** Text written without touching the records: the line count moves by the breaks written. */
  lemma AddText(st: State, r: State, s: string)
    requires Consistent(st)
    requires r.out == st.out + s && r.paths == st.paths && r.line == st.line + Newlines(s)
    ensures Consistent(r)
  {
    NewlinesAppend(st.out, s);
  }

  /** `newLine` adds exactly one to the line count and one line break to the text. */
  lemma NewLineThenConsistent(st: State, s: string)
    requires Consistent(st) && '\n' !in s
    ensures ReadyToRecord(NewLineThen(st, s))
  {
    NewlinesAppend("\n", s);
    NoNewlines(s);
    assert Newlines("\n") == 1;
    AddText(st, NewLineThen(st, s), "\n" + s);
  }

  lemma AppendConsistent(st: State, s: string)
    requires Consistent(st) && '\n' !in s
    ensures Consistent(Append(st, s))
  {
    NoNewlines(s);
    AddText(st, Append(st, s), s);
  }

  /** `removeTrailingComma` removes at most one character, a comma, so no line break. */
  lemma RemoveTrailingCommaConsistent(st: State)
    requires Consistent(st)
    ensures Consistent(RemoveTrailingComma(st))
  {
    var o := st.out;
    if |o| > 0 && o[|o| - 1] == ',' {
      var r := RemoveTrailingComma(st);
      assert o == r.out + [','];
      NewlinesAppend(r.out, [',']);
      assert Newlines([',']) == 0;
    }
  }

  lemma RecordConsistent(st: State, prop: string)
    requires ReadyToRecord(st)
    ensures Consistent(Record(st, prop))
  {
  }

  lemma OpenConsistent(st: State, bracket: string)
    requires Consistent(st) && '\n' !in bracket
    ensures Consistent(Open(st, bracket))
  {
    var a := st.(indent := st.indent + 1, out := st.out + bracket);
    AppendConsistent(st, bracket);
    assert a.paths == Append(st, bracket).paths && a.out == Append(st, bracket).out;
    assert Consistent(a);
  }

  lemma TabsNoNewline(n: int)
    ensures '\n' !in Tabs(n)
  {
    var t := Tabs(n);
    assert forall i :: 0 <= i < |t| ==> t[i] != '\n';
  }

  lemma CloseConsistent(st: State, bracket: string)
    requires Consistent(st) && '\n' !in bracket
    ensures Consistent(Close(st, bracket))
  {
    var a := if st.indent == 0 then st.(indent := st.indent - 1) else st;
    assert Consistent(a);
    RemoveTrailingCommaConsistent(a);
    var b := RemoveTrailingComma(a);
    var c := b.(indent := b.indent - 1);
    assert Consistent(c);
    TabsNoNewline(c.indent);
    NewLineThenConsistent(c, Tabs(c.indent) + bracket);
    var d := NewLineThen(c, Tabs(c.indent) + bracket);
    if d.indent != 0 {
      AppendConsistent(d, ",");
      assert Close(st, bracket) == Append(d, ",");
    } else {
      NewLineThenConsistent(d, "");
      assert Close(st, bracket) == NewLineThen(d, "");
    }
  }

  lemma StringLeafConsistent(s: string, st: State)
    requires Consistent(st)
    ensures Consistent(StringLeaf(s, st))
  {
    var t := "\"" + UnescapeString(s) + "\",";
    UnescapeStringSpec(s);
    assert '\n' !in t;
    AppendConsistent(st, t);
  }

  lemma IntToStringNoNewline(n: int)
    ensures '\n' !in IntToString(n)
  {
    var t := IntToString(n);
    assert forall i :: 0 <= i < |t| ==> t[i] != '\n';
  }

  /** Line counting survives `formatVal`: every line break it writes is counted, and the records
      it makes come in strictly increasing line order. */
  lemma {:induction false} FormatValConsistent(v: Value, st: State)
    requires Consistent(st)
    ensures Consistent(FormatVal(v, st))
    decreases v, 4, 0
  {
    match v
    case Arr(_) =>
      var a := OpenNested(st);
      AppendConsistent(st, "[");
      assert Consistent(a);
      ElementsConsistent(v, 0, a);
      NestedArrayCloseConsistent(Elements(v, 0, a));
    case Obj(_) =>
      FormatAndDecorateConsistent(v, st);
    case _ =>
      LeafConsistent(v, st);
  }

  /** The closing bracket `formatVal` writes after a nested array's elements. */
  lemma NestedArrayCloseConsistent(e: State)
    requires Consistent(e)
    ensures Consistent(CloseNested(e))
  {
    RemoveTrailingCommaConsistent(e);
    var b := RemoveTrailingComma(e);
    var c := b.(indent := b.indent - 1);
    assert Consistent(c);
    TabsNoNewline(c.indent);
    NewLineThenConsistent(c, Tabs(c.indent) + "],");
  }

  /** A scalar is written on the current line. */
  lemma LeafConsistent(v: Value, st: State)
    requires !v.Arr? && !v.Obj? && Consistent(st)
    ensures Consistent(FormatVal(v, st))
  {
    match v
    case Str(s) =>
      StringLeafConsistent(s, st);
    case Num(n) =>
      IntToStringNoNewline(n);
      AppendConsistent(st, IntToString(n) + ",");
    case Bool(b) =>
      AppendConsistent(st, (if b then "true" else "false") + ",");
    case Null =>
      AppendConsistent(st, "null,");
  }

  lemma {:induction false} ElementStepConsistent(i: nat, elem: Value, st: State)
    requires Consistent(st)
    ensures Consistent(ElementStep(i, elem, st))
    decreases elem, 5, 0
  {
    TabsNoNewline(st.indent);
    NewLineThenConsistent(st, Tabs(st.indent));
    var a := NewLineThen(st, Tabs(st.indent));
    RecordConsistent(a, IndexProp(i));
    var b := Record(a, IndexProp(i));
    var c := Push(b, Separator + IndexProp(i));
    assert Consistent(c);
    FormatValConsistent(elem, c);
    var d := FormatVal(elem, c);
    assert Consistent(Pop(d));
  }

  lemma {:induction false} ElementsConsistent(v: Value, i: nat, st: State)
    requires v.Arr? && i <= |v.elems| && Consistent(st)
    ensures Consistent(Elements(v, i, st))
    decreases v, 1, |v.elems| - i
  {
    if i < |v.elems| {
      ElementStepConsistent(i, v.elems[i], st);
      ElementsConsistent(v, i + 1, ElementStep(i, v.elems[i], st));
    }
  }

  lemma {:induction false} FormatAndDecorateConsistent(v: Value, st: State)
    requires Consistent(st)
    ensures Consistent(FormatAndDecorate(v, st))
    decreases v, 3, 0
  {
    if v.Arr? {
      FormatAndDecorateArrayConsistent(v, st);
    } else {
      OpenConsistent(st, "{");
      var a := Push(StartObject(st), Separator);
      assert Consistent(a);
      PropertiesConsistent(v, SortedProperties(v), 0, a);
      var b := Properties(v, SortedProperties(v), 0, a);
      CloseConsistent(b, "}");
      assert Consistent(Pop(FinishObject(b)));
    }
  }

  lemma {:induction false} FormatAndDecorateArrayConsistent(v: Value, st: State)
    requires v.Arr? && Consistent(st)
    ensures Consistent(FormatAndDecorateArray(v, st))
    decreases v, 2, 0
  {
    OpenConsistent(st, "[");
    ElementsConsistent(v, 0, StartArray(st));
    var b := Elements(v, 0, StartArray(st));
    CloseConsistent(b, "]");
    assert Consistent(Pop(FinishArray(b)));
  }

  lemma {:induction false} PropertiesConsistent(v: Value, keys: seq<string>, k: nat, st: State)
    requires k <= |keys| && Consistent(st)
    ensures Consistent(Properties(v, keys, k, st))
    decreases v, 1, |keys| - k
  {
    if k < |keys| {
      PropertyStepConsistent(v, keys[k], st);
      PropertiesConsistent(v, keys, k + 1, PropertyStep(v, keys[k], st));
    }
  }

  lemma {:induction false} PropertyStepConsistent(v: Value, key: string, st: State)
    requires Consistent(st)
    ensures Consistent(PropertyStep(v, key, st))
    decreases v, 0, 1
  {
    var text := Tabs(st.indent) + "\"" + UnescapeString(key) + "\": ";
    TabsNoNewline(st.indent);
    UnescapeStringSpec(key);
    assert '\n' !in text;
    NewLineThenConsistent(st, text);
    var a := NewLineThen(st, text);
    var b := Push(a, KeySegment(key));
    assert ReadyToRecord(b);
    RecordConsistent(b, "");
    var c := Record(b, "");
    FormatMemberConsistent(v, key, c);
    assert Consistent(Pop(FormatMember(v, key, c)));
  }

  lemma {:induction false} FormatMemberConsistent(v: Value, key: string, st: State)
    requires Consistent(st)
    ensures Consistent(FormatMember(v, key, st))
    decreases v, 0, 0
  {
    match v
    case Obj(ps) =>
      match FindKey(ps, key) {
        case Some(i) =>
          assert FormatMember(v, key, st) == FormatVal(ps[i].1, st);
          FormatValConsistent(ps[i].1, st);
        case None =>
          assert FormatMember(v, key, st) == st;
      }
    case Str(s) =>
      match IndexOfKey(s, key, 0) {
        case Some(i) =>
          assert FormatMember(v, key, st) == StringLeaf([s[i]], st);
          StringLeafConsistent([s[i]], st);
        case None =>
          assert FormatMember(v, key, st) == st;
      }
    case _ =>
      assert FormatMember(v, key, st) == st;
  }

  /** A printed document: `config.line` is 1 + the number of line breaks in `config.out`, and
      its records are in strictly increasing line order. */
  lemma PrintConsistent(v: Value)
    ensures Consistent(Print(v))
  {
    CreateConfigConsistent();
    FormatAndDecorateConsistent(v, CreateConfig());
  }

  /** Adjacent order gives order between any two records: in a consistent state no two records
      share a line. */
  lemma {:induction false} RecordsStrictlyIncreasing(m: seq<PathEntry>, i: nat, j: nat)
    requires Ascending(m) && i < j < |m|
    ensures m[i].line < m[j].line
    decreases j - i
  {
    if i + 1 < j {
      RecordsStrictlyIncreasing(m, i + 1, j);
    }
  }
}
