/** JavaScript values as the request handlers and form handlers see them, and JavaScript truthiness. */
module Js {

  datatype Option<T> = None | Some(value: T)

  /** Casting every item of an array with `cast`: one item that fails fails the whole array. */
  function CastEach<T, U>(cast: T -> Option<U>, items: seq<T>): (r: Option<seq<U>>)
    ensures r.Some? <==> forall i :: 0 <= i < |items| ==> cast(items[i]).Some?
    ensures r.Some? ==> |r.value| == |items| && forall i :: 0 <= i < |items| ==> r.value[i] == cast(items[i]).value
  {
    if items == [] then Some([])
    else
      var first := cast(items[0]);
      var rest := CastEach(cast, items[1..]);
      assert forall i :: 1 <= i < |items| ==> items[i] == items[1..][i - 1];
      if first.Some? && rest.Some? then Some([first.value] + rest.value) else None
  }

  /** Items that each cast to the matching element of `out` cast, together, to `out`. */
  lemma CastEachOfCasts<T, U>(cast: T -> Option<U>, items: seq<T>, out: seq<U>)
    requires |items| == |out| && forall i :: 0 <= i < |items| ==> cast(items[i]) == Some(out[i])
    ensures CastEach(cast, items) == Some(out)
  {
    assert CastEach(cast, items).value == out;
  }

  /** `xs.filter(keep)`: the entries `keep` accepts. */
  function Filter<T(!new)>(keep: T -> bool, xs: seq<T>): (r: seq<T>)
    ensures |r| <= |xs|
    ensures forall x :: x in r <==> x in xs && keep(x)
  {
    if xs == [] then [] else (if keep(xs[0]) then [xs[0]] else []) + Filter(keep, xs[1..])
  }

  /** The filter keeps order: filtering two halves is filtering each half. */
  lemma {:induction false} FilterSplits<T(!new)>(keep: T -> bool, xs: seq<T>, ys: seq<T>)
    ensures Filter(keep, xs + ys) == Filter(keep, xs) + Filter(keep, ys)
  {
    if xs == [] {
      assert xs + ys == ys;
    } else {
      assert (xs + ys)[1..] == xs[1..] + ys;
      FilterSplits(keep, xs[1..], ys);
    }
  }

  /** The filter keeps every accepted entry as often as it occurs, and no other. */
  lemma {:induction false} FilterCounts<T(!new)>(keep: T -> bool, xs: seq<T>)
    ensures forall x :: multiset(Filter(keep, xs))[x] == if keep(x) then multiset(xs)[x] else 0
  {
    if xs != [] {
      assert xs == [xs[0]] + xs[1..];
      FilterCounts(keep, xs[1..]);
    }
  }

  /** A JavaScript value. Numbers are integers here; fractions, NaN and the infinities are not modelled. */
  datatype Value =
    | Undefined
    | Null
    | Bool(b: bool)
    | Num(n: int)
    | Str(s: string)
    | Arr(items: seq<Value>)
    | Obj(fields: map<string, Value>)

  /** `!!v`: the falsy values are undefined, null, false, 0 and the empty string. */
  predicate Truthy(v: Value) {
    match v
    case Undefined => false
    case Null => false
    case Bool(b) => b
    case Num(n) => n != 0
    case Str(s) => s != ""
    case Arr(_) => true
    case Obj(_) => true
  }

  /** A plain property read `v.key`; only objects carry the properties read in this model. */
  function Get(v: Value, key: string): Value {
    if v.Obj? && key in v.fields then v.fields[key] else Undefined
  }

  /** `typeof v === "object" && v !== null` for the values of this model. */
  predicate IsObjectLike(v: Value) {
    v.Arr? || v.Obj?
  }

  /** The decimal digits of a natural number, most significant first. */
  function DigitsOf(n: nat): (r: string)
    ensures |r| >= 1 && forall i :: 0 <= i < |r| ==> '0' <= r[i] <= '9'
  {
    if n < 10 then [(n + '0' as int) as char] else DigitsOf(n / 10) + [((n % 10) + '0' as int) as char]
  }

  /** The number a string of decimal digits denotes. */
  function DigitsValue(s: string): int {
    if s == [] then 0 else DigitsValue(s[..|s| - 1]) * 10 + (s[|s| - 1] as int - '0' as int)
  }

  /** `String(n)` for an integer: an optional minus sign, then the digits. */
  function NumberText(n: int): (r: string)
    ensures r != [] && (r[0] == '-' <==> n < 0)
  {
    if n < 0 then "-" + DigitsOf(-n) else DigitsOf(n)
  }

  /** Reading the text back as a signed decimal number. */
  function NumberValue(s: string): int {
    if s != [] && s[0] == '-' then -DigitsValue(s[1..]) else DigitsValue(s)
  }

  lemma {:induction false} DigitsRoundTrip(n: nat)
    ensures DigitsValue(DigitsOf(n)) == n
    decreases n
  {
    if n >= 10 {
      DigitsRoundTrip(n / 10);
      var d := DigitsOf(n / 10) + [((n % 10) + '0' as int) as char];
      assert d[..|d| - 1] == DigitsOf(n / 10);
    }
  }

  /** The text of a number denotes that number, so distinct numbers get distinct texts. */
  lemma NumberTextRoundTrip(n: int)
    ensures NumberValue(NumberText(n)) == n
  {
    if n < 0 {
      DigitsRoundTrip(-n);
      assert NumberText(n)[1..] == DigitsOf(-n);
    } else {
      DigitsRoundTrip(n);
    }
  }

  /** An object carrying a non-empty string `_id`, which Mongoose's String cast takes as the value. */
  predicate HasStringId(v: Value) {
    v.Obj? && "_id" in v.fields && v.fields["_id"].Str? && v.fields["_id"].s != ""
  }

  /**
   * Mongoose's String cast of a value that is not null or undefined:
   * strings stay, numbers and booleans become their text, an object with a
   * string `_id` becomes that id, and other arrays and objects are a cast
   * error (None).
   */
  function CastString(v: Value): (r: Option<string>)
    ensures r.Some? <==> v.Str? || v.Num? || v.Bool? || HasStringId(v)
    ensures v.Str? ==> r == Some(v.s)
    ensures v.Num? ==> r.Some? && NumberValue(r.value) == v.n
    ensures v.Bool? ==> r == Some(if v.b then "true" else "false")
    ensures HasStringId(v) ==> r == Some(v.fields["_id"].s)
  {
    match v
    case Str(s) => Some(s)
    case Num(n) => NumberTextRoundTrip(n); Some(NumberText(n))
    case Bool(b) => Some(if b then "true" else "false")
    case Obj(fields) => if HasStringId(v) then Some(fields["_id"].s) else None
    case _ => None
  }

  /** A plain object whose properties hold strings, such as a form row `{ name, strength }`. */
  type Row = map<string, string>

  /** `row[key]`, with a missing property read as "" (both are falsy). */
  function RowGet(row: Row, key: string): string {
    if key in row then row[key] else ""
  }

  /** The empty rows both product forms start their lists with. */
  const BlankComposition: Row := map["name" := "", "strength" := ""]
  const BlankMoa: Row := map["drug" := "", "moa" := ""]

  lemma BlankRowsRead()
    ensures RowGet(BlankComposition, "name") == "" && RowGet(BlankComposition, "strength") == ""
    ensures RowGet(BlankMoa, "drug") == "" && RowGet(BlankMoa, "moa") == ""
  {
  }
}
