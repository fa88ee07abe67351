/** String helpers of the pretty-printer: first-match and global replacement (JavaScript's
    `String.prototype.replace` with a string and with a /g pattern), the escaping done by
    `unescapeString`, indentation, line counting and the key order used for sorting. */
module Text {

  /** `s.replace(c, rep)` with a one-character string pattern: only the FIRST occurrence of `c`
      is replaced. */
  function ReplaceFirst(s: string, c: char, rep: string): (r: string)
    ensures c !in s ==> r == s
    ensures forall d :: d in r ==> d in s || d in rep
    ensures c in s ==> |r| == |s| - 1 + |rep|
  {
    if s == [] then []
    else if s[0] == c then rep + s[1..]
    else [s[0]] + ReplaceFirst(s[1..], c, rep)
  }

  /** `s.replace(/c/g, rep)`: EVERY occurrence of `c` is replaced. */
  function ReplaceAll(s: string, c: char, rep: string): (r: string)
    ensures c !in rep ==> c !in r
    ensures c !in s ==> r == s
    ensures forall d :: d in r ==> d in s || d in rep
  {
    if s == [] then []
    else (if s[0] == c then rep else [s[0]]) + ReplaceAll(s[1..], c, rep)
  }

  const Backspace: char := '\U{8}'
  const FormFeed: char := '\U{C}'

  /** The characters `unescapeString` rewrites. */
  predicate IsSpecial(c: char) {
    c == '\\' || c == '"' || c == '\n' || c == Backspace || c == FormFeed || c == '\r' || c == '\t'
  }

  /** `unescapeString` (jdd.js:449-461): re-inserts JSON escapes before a key or a string value
      is written. Backslash and backspace use a string pattern, so only their first occurrence
      is escaped; quote, newline, form feed, carriage return and tab are replaced globally.
      The empty string is falsy and is returned as it is. */
  function UnescapeString(s: string): string {
    if s == [] then s
    else
      var a := ReplaceFirst(s, '\\', "\\\\");
      var b := ReplaceAll(a, '"', "\\\"");
      var c := ReplaceAll(b, '\n', "\\n");
      var d := ReplaceFirst(c, Backspace, "\\b");
      var e := ReplaceAll(d, FormFeed, "\\f");
      var f := ReplaceAll(e, '\r', "\\r");
      ReplaceAll(f, '\t', "\\t")
  }

  /** The escaped text holds no raw newline, carriage return, tab or form feed, and a string
      without special characters is written as it is. */
  lemma UnescapeStringSpec(s: string)
    ensures var r := UnescapeString(s);
      '\n' !in r && '\r' !in r && '\t' !in r && FormFeed !in r &&
      ((forall i :: 0 <= i < |s| ==> !IsSpecial(s[i])) ==> r == s)
  {
    if s != [] {
      var a := ReplaceFirst(s, '\\', "\\\\");
      var b := ReplaceAll(a, '"', "\\\"");
      var c := ReplaceAll(b, '\n', "\\n");
      assert '\n' !in c;
      var d := ReplaceFirst(c, Backspace, "\\b");
      assert '\n' !in d;
      var e := ReplaceAll(d, FormFeed, "\\f");
      assert '\n' !in e && FormFeed !in e;
      var f := ReplaceAll(e, '\r', "\\r");
      assert '\n' !in f && FormFeed !in f && '\r' !in f;
      var g := ReplaceAll(f, '\t', "\\t");
      assert '\n' !in g && FormFeed !in g && '\r' !in g && '\t' !in g;
      assert UnescapeString(s) == g;
      if forall i :: 0 <= i < |s| ==> !IsSpecial(s[i]) {
        assert '\\' !in s && '"' !in s && '\n' !in s && Backspace !in s;
        assert FormFeed !in s && '\r' !in s && '\t' !in s;
        assert a == s && b == s && c == s && d == s && e == s && f == s;
      }
    }
  }

  /** Only the first backslash is doubled: a string holding two backslashes comes out with
      three, which the JSON reader then reads back as a different string. */
  lemma UnescapeStringDoublesOnlyFirstBackslash()
    ensures UnescapeString("\\\\") == "\\\\\\"
  {
    var s := "\\\\";
    var a := ReplaceFirst(s, '\\', "\\\\");
    assert a == "\\\\" + s[1..];
    assert a == ['\\', '\\', '\\'];
    assert forall c :: c in a ==> c == '\\';
  }

  /** Only the first backspace is escaped: the second one is written raw. */
  lemma UnescapeStringEscapesOnlyFirstBackspace()
    ensures UnescapeString([Backspace, Backspace]) == "\\b" + [Backspace]
  {
    var s := [Backspace, Backspace];
    assert '\\' !in s && '"' !in s && '\n' !in s;
    var a := ReplaceFirst(s, '\\', "\\\\");
    var b := ReplaceAll(a, '"', "\\\"");
    var c := ReplaceAll(b, '\n', "\\n");
    assert c == s;
    var d := ReplaceFirst(c, Backspace, "\\b");
    assert d == "\\b" + s[1..];
    assert d == ['\\', 'b', Backspace];
    assert FormFeed !in d && '\r' !in d && '\t' !in d;
    assert UnescapeString(s) == ReplaceAll(ReplaceAll(ReplaceAll(d, FormFeed, "\\f"), '\r', "\\r"), '\t', "\\t");
  }

  /** The number of line breaks in `s`. */
  function Newlines(s: string): nat {
    multiset(s)['\n']
  }

  lemma NewlinesAppend(a: string, b: string)
    ensures Newlines(a + b) == Newlines(a) + Newlines(b)
  {
    assert multiset(a + b) == multiset(a) + multiset(b);
  }

  lemma NoNewlines(s: string)
    requires '\n' !in s
    ensures Newlines(s) == 0
  {
  }

  /** The text `getTabs(indent)` (jdd.js:547-554) returns: four spaces per level; nothing for a
      level of zero or below. */
  function Tabs(indent: int): (r: string)
    ensures |r| == if indent <= 0 then 0 else 4 * indent
    ensures forall i :: 0 <= i < |r| ==> r[i] == ' '
  {
    if indent <= 0 then "" else Tabs(indent - 1) + "    "
  }

  /** `getTabs`: the accumulator loop of the source. */
  method GetTabs(indent: int) returns (s: string)
    ensures s == Tabs(indent)
  {
    s := "";
    var i := 0;
    while i < indent
      invariant 0 <= i <= if indent > 0 then indent else 0
      invariant s == Tabs(i)
    {
      s := s + "    ";
      i := i + 1;
    }
  }

  /** Code-point lexicographic order; the model's stand-in for `localeCompare` (jdd.js:504) and
      for JavaScript's `<` on two strings. */
  predicate StrLess(a: string, b: string)
  {
    if a == [] then b != []
    else if b == [] then false
    else if a[0] != b[0] then a[0] < b[0]
    else StrLess(a[1..], b[1..])
  }

  predicate StrLeq(a: string, b: string) {
    !StrLess(b, a)
  }

  lemma {:induction false} StrLessIrreflexive(a: string)
    ensures !StrLess(a, a)
  {
    if a != [] {
      StrLessIrreflexive(a[1..]);
    }
  }

  lemma {:induction false} StrLessAsymmetric(a: string, b: string)
    requires StrLess(a, b)
    ensures !StrLess(b, a)
  {
    if a != [] && b != [] && a[0] == b[0] {
      StrLessAsymmetric(a[1..], b[1..]);
    }
  }

  lemma {:induction false} StrLessTotal(a: string, b: string)
    ensures a == b || StrLess(a, b) || StrLess(b, a)
  {
    if a != [] && b != [] && a[0] == b[0] {
      StrLessTotal(a[1..], b[1..]);
      if a[1..] == b[1..] {
        assert a == [a[0]] + a[1..] && b == [b[0]] + b[1..];
      }
    }
  }

  predicate Sorted(s: seq<string>) {
    forall i :: 0 < i < |s| ==> StrLeq(s[i - 1], s[i])
  }

  function Insert(x: string, s: seq<string>): (r: seq<string>)
    ensures multiset(r) == multiset(s) + multiset{x}
    ensures |r| == |s| + 1
    ensures r[0] == x || (s != [] && r[0] == s[0])
    ensures Sorted(s) ==> Sorted(r)
  {
    if s == [] then [x]
    else if StrLeq(x, s[0]) then [x] + s
    else
      var t := Insert(x, s[1..]);
      assert s == [s[0]] + s[1..];
      StrLessAsymmetric(s[0], x);
      [s[0]] + t
  }

  /** The sort of `getSortedProperties` (jdd.js:503-505): a sorted permutation of its input. */
  function SortStrings(s: seq<string>): (r: seq<string>)
    ensures Sorted(r)
    ensures multiset(r) == multiset(s)
  {
    if s == [] then []
    else
      assert s == [s[0]] + s[1..];
      Insert(s[0], SortStrings(s[1..]))
  }
}
