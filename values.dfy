/** Parsed JSON values, their classification (`getType`) and the JavaScript property reads the
    engine performs on them (`for…in`, `hasOwnProperty`, `data[key]`, `data.length`, `<`). */
module JsonValues {
  import opened Wrappers
  import opened Text

  /** A value as `JSON.parse` returns it. Numbers are integers here. An object holds its own
      properties in the order `for…in` visits them; for a parsed object its keys are distinct
      (see WellFormed). */
  datatype Value =
    | Null
    | Bool(b: bool)
    | Num(n: int)
    | Str(s: string)
    | Arr(elems: seq<Value>)
    | Obj(props: seq<(string, Value)>)

  /** `getType` (jdd.js:28-34): the kind name of a value. Arrays and null have kinds of their
      own and are never reported as objects. */
  function GetType(v: Value): (r: string)
    ensures r == "array" <==> v.Arr?
    ensures r == "object" <==> v.Obj?
    ensures r == "null" <==> v.Null?
    ensures r in {"null", "boolean", "number", "string", "array", "object"}
  {
    match v
    case Null => "null"
    case Bool(_) => "boolean"
    case Num(_) => "number"
    case Str(_) => "string"
    case Arr(_) => "array"
    case Obj(_) => "object"
  }

  /** Two values have the same kind: the same constructor. */
  predicate SameKind(a: Value, b: Value) {
    (a.Null? && b.Null?) || (a.Bool? && b.Bool?) || (a.Num? && b.Num?) ||
    (a.Str? && b.Str?) || (a.Arr? && b.Arr?) || (a.Obj? && b.Obj?)
  }

  /** `getType` separates exactly the six kinds. */
  lemma GetTypeSeparatesKinds(a: Value, b: Value)
    ensures GetType(a) == GetType(b) <==> SameKind(a, b)
  {
  }

  function Digit(d: nat): (c: char)
    requires d < 10
    ensures '0' <= c <= '9'
  {
    "0123456789"[d]
  }

  predicate IsDigits(s: string) {
    forall i :: 0 <= i < |s| ==> '0' <= s[i] <= '9'
  }

  /** The decimal text of a natural number, as JavaScript writes an array index. */
  function NatToString(n: nat): (r: string)
    ensures |r| > 0 && IsDigits(r)
  {
    if n < 10 then [Digit(n)] else NatToString(n / 10) + [Digit(n % 10)]
  }

  /** The value of a string of decimal digits. */
  function DigitsValue(s: string): nat
    requires IsDigits(s)
  {
    if s == [] then 0 else 10 * DigitsValue(s[..|s| - 1]) + (s[|s| - 1] as int - '0' as int)
  }

  lemma {:induction false} NatToStringRoundTrip(n: nat)
    ensures DigitsValue(NatToString(n)) == n
  {
    if n >= 10 {
      NatToStringRoundTrip(n / 10);
      var t := NatToString(n / 10) + [Digit(n % 10)];
      assert t[..|t| - 1] == NatToString(n / 10);
    }
  }

  /** The decimal text of an integer; the model's stand-in for JavaScript's number-to-string
      conversion in `val + ','` (jdd.js:429). */
  function IntToString(n: int): (r: string)
    ensures forall i :: 0 <= i < |r| ==> r[i] == '-' || '0' <= r[i] <= '9'
  {
    if n < 0 then "-" + NatToString(-n) else NatToString(n)
  }

  /** The keys of a property list, in order. */
  function Keys(ps: seq<(string, Value)>): (r: seq<string>)
    ensures |r| == |ps| && forall i :: 0 <= i < |ps| ==> r[i] == ps[i].0
  {
    if ps == [] then [] else [ps[0].0] + Keys(ps[1..])
  }

  /** The index of the first property named `k`; `hasOwnProperty(k)` holds exactly when there
      is one. */
  function FindKey(ps: seq<(string, Value)>, k: string): (r: Option<nat>)
    ensures r.Some? ==> r.value < |ps| && ps[r.value].0 == k
  {
    if ps == [] then None
    else if ps[0].0 == k then Some(0)
    else match FindKey(ps[1..], k)
      case None => None
      case Some(j) => Some(j + 1)
  }

  /** The index found is the first with that key, and there is none exactly when no property
      has the key. */
  lemma {:induction false} FindKeySpec(ps: seq<(string, Value)>, k: string)
    ensures var r := FindKey(ps, k);
      (r.Some? ==> forall j :: 0 <= j < r.value ==> ps[j].0 != k) &&
      (r.None? <==> forall j :: 0 <= j < |ps| ==> ps[j].0 != k)
  {
    if ps != [] && ps[0].0 != k {
      FindKeySpec(ps[1..], k);
      assert forall j :: 1 <= j < |ps| ==> ps[j] == ps[1..][j - 1];
    }
  }

  predicate HasKey(ps: seq<(string, Value)>, k: string) {
    FindKey(ps, k).Some?
  }

  /** `data[k]` on an object: the value of property `k`, or `undefined`. */
  function Member(ps: seq<(string, Value)>, k: string): (r: Option<Value>)
    ensures r.Some? <==> HasKey(ps, k)
    ensures r.Some? ==> exists j :: 0 <= j < |ps| && ps[j] == (k, r.value)
  {
    match FindKey(ps, k)
    case None => None
    case Some(i) => Some(ps[i].1)
  }

  /** The index keys "0", "1", … of a string of length n, which `for…in` visits for a string. */
  function IndexKeys(n: nat): (r: seq<string>)
    ensures |r| == n && forall i :: 0 <= i < n ==> r[i] == NatToString(i)
  {
    if n == 0 then [] else IndexKeys(n - 1) + [NatToString(n - 1)]
  }

  /** The own enumerable property names `for…in` with `hasOwnProperty` collects
      (jdd.js:497-501): an object's keys, a string's character indices, nothing otherwise. */
  function OwnKeys(v: Value): seq<string> {
    match v
    case Obj(ps) => Keys(ps)
    case Str(s) => IndexKeys(|s|)
    case _ => []
  }

  /** The first character index of `s` whose decimal text is `key`, searching from `i`. */
  function IndexOfKey(s: string, key: string, i: nat): (r: Option<nat>)
    requires i <= |s|
    ensures r.Some? ==> i <= r.value < |s| && NatToString(r.value) == key
    ensures r.None? <==> forall j :: i <= j < |s| ==> NatToString(j) != key
    decreases |s| - i
  {
    if i == |s| then None
    else if NatToString(i) == key then Some(i)
    else IndexOfKey(s, key, i + 1)
  }

  /** A parsed document: every object's keys are distinct, as `JSON.parse` guarantees. */
  predicate WellFormed(v: Value) {
    match v
    case Arr(vs) => forall i :: 0 <= i < |vs| ==> WellFormed(vs[i])
    case Obj(ps) =>
      (forall i, j :: 0 <= i < j < |ps| ==> ps[i].0 != ps[j].0) &&
      forall i :: 0 <= i < |ps| ==> WellFormed(ps[i].1)
    case _ => true
  }

  /** JavaScript's ToNumber on a property read; `None` is NaN. Strings are read as numbers only
      when empty (0) or made of decimal digits; array and object operands are taken as NaN. */
  function ToNumber(v: Option<Value>): Option<int> {
    match v
    case None => None
    case Some(Null) => Some(0)
    case Some(Bool(b)) => Some(if b then 1 else 0)
    case Some(Num(n)) => Some(n)
    case Some(Str(s)) => if IsDigits(s) then Some(DigitsValue(s)) else None
    case Some(_) => None
  }

  /** The `<` of `data1.length < data2.length` (jdd.js:77): two strings compare by code points,
      anything else numerically, and NaN (in particular `undefined`) compares false. */
  predicate LooseLess(a: Option<Value>, b: Option<Value>) {
    if a.Some? && a.value.Str? && b.Some? && b.value.Str? then StrLess(a.value.s, b.value.s)
    else ToNumber(a).Some? && ToNumber(b).Some? && ToNumber(a).value < ToNumber(b).value
  }

  /** An object without a `length` key never takes the "right has more items" branch. */
  lemma LooseLessUndefined(b: Option<Value>)
    ensures !LooseLess(None, b)
  {
  }

  /** No value is less than itself, so comparing an object with itself never takes it either. */
  lemma LooseLessIrreflexive(a: Option<Value>)
    ensures !LooseLess(a, a)
  {
    if a.Some? && a.value.Str? {
      StrLessIrreflexive(a.value.s);
    }
  }
}
