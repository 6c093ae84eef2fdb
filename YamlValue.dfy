/** What the YAML parser hands back, as JavaScript values, and the few
    JavaScript operations the extension applies to them: truthiness, `||`,
    property access, `String(v)` and `Array.prototype.join`. The parser
    itself is not modelled; a parsed front matter is a `Yaml` value. */
module YamlValue {
  import opened JsString

  /** A parsed YAML value. A number is kept as the text `String(n)` gives
      for it, so `0` is `Num("0")` and not-a-number is `Num("NaN")`. */
  datatype Yaml =
    | Undefined
    | Null
    | Bool(b: bool)
    | Num(repr: string)
    | Str(s: string)
    | Arr(items: seq<Yaml>)
    | Obj(fields: map<string, Yaml>)

  /** JavaScript truthiness: `undefined`, `null`, `false`, `0`, `NaN` and
      the empty string are falsy; arrays and objects, even empty ones, are
      truthy. */
  predicate Truthy(v: Yaml) {
    match v
    case Undefined => false
    case Null => false
    case Bool(b) => b
    case Num(repr) => repr != "0" && repr != "NaN"
    case Str(s) => s != ""
    case Arr(_) => true
    case Obj(_) => true
  }

  /** `a || b`: the left operand when it is truthy, else the right one. */
  function Or(a: Yaml, b: Yaml): (r: Yaml)
    ensures r == a || r == b
    ensures Truthy(r) <==> Truthy(a) || Truthy(b)
  {
    if Truthy(a) then a else b
  }

  /** `data[key]`: a field of an object; every other value has none of the
      keys the extension reads. */
  function Get(data: Yaml, key: string): (r: Yaml)
    ensures r != Undefined ==> data.Obj? && key in data.fields
  {
    if data.Obj? && key in data.fields then data.fields[key] else Undefined
  }

  /** `String(v)`. An array converts through `join(',')`. */
  function ToJsString(v: Yaml): string
    decreases v, 1
  {
    match v
    case Undefined => "undefined"
    case Null => "null"
    case Bool(b) => if b then "true" else "false"
    case Num(repr) => repr
    case Str(s) => s
    case Arr(items) => ArrayJoin(items, ",")
    case Obj(_) => "[object Object]"
  }

  /** `items.join(sep)`: the elements converted as `String` does, except
      that `null` and `undefined` become the empty string, with `sep`
      between them. */
  function ArrayJoin(items: seq<Yaml>, sep: string): string
    decreases Arr(items), 0
  {
    Join(seq(|items|, i requires 0 <= i < |items| => ElementString(items[i])), sep)
  }

  /** One element as `join` converts it. */
  function ElementString(e: Yaml): (r: string)
    decreases e, 2
    ensures e.Str? ==> r == e.s
  {
    if e.Undefined? || e.Null? then "" else ToJsString(e)
  }

  /** `v.map(String)` on an array's elements. */
  function Strings(items: seq<Yaml>): (r: seq<string>)
    ensures |r| == |items|
    ensures forall i :: 0 <= i < |items| ==> r[i] == ToJsString(items[i])
  {
    if |items| == 0 then [] else [ToJsString(items[0])] + Strings(items[1..])
  }

  /** Joining strings converts nothing: an array of strings joins to the
      strings joined. */
  lemma {:induction false} JoinOfStrings(items: seq<Yaml>, sep: string)
    requires forall i :: 0 <= i < |items| ==> items[i].Str?
    ensures ArrayJoin(items, sep) == Join(Strings(items), sep)
  {
    var elements := seq(|items|, i requires 0 <= i < |items| => ElementString(items[i]));
    assert elements == Strings(items);
  }

  /** A non-empty string of decimal digits. */
  predicate IsNumeral(k: string) {
    |k| >= 1 && forall i :: 0 <= i < |k| ==> '0' <= k[i] <= '9'
  }

  /** The decimal numeral `String(n)` gives for an index `n`. */
  function Numeral(n: nat): (r: string)
    ensures IsNumeral(r)
  {
    var d := [('0' as int + n % 10) as char];
    if n < 10 then d else Numeral(n / 10) + d
  }

  /** The number a string of digits denotes. */
  function NumeralValue(k: string): nat
    requires forall i :: 0 <= i < |k| ==> '0' <= k[i] <= '9'
    decreases |k|
  {
    if k == [] then 0 else NumeralValue(k[..|k| - 1]) * 10 + (k[|k| - 1] as int - '0' as int)
  }

  /** Reading back the numeral of `n` gives `n`. */
  lemma {:induction false} NumeralRoundTrip(n: nat)
    ensures NumeralValue(Numeral(n)) == n
    decreases n
  {
    if n >= 10 {
      NumeralRoundTrip(n / 10);
      var r := Numeral(n);
      assert r[..|r| - 1] == Numeral(n / 10);
    }
  }

  /** `Object.keys` of a string or an array of length `n`: the numerals of
      its indices. Every key is a numeral below `n`. */
  function IndexKeys(n: nat): (r: set<string>)
    ensures forall k :: k in r ==> IsNumeral(k) && NumeralValue(k) < n
  {
    if n == 0 then {}
    else
      NumeralRoundTrip(n - 1);
      IndexKeys(n - 1) + {Numeral(n - 1)}
  }

  /** Every index of a string or an array of length `n` is a key. */
  lemma {:induction false} IndexKeysHaveAll(n: nat, i: nat)
    requires i < n
    ensures Numeral(i) in IndexKeys(n)
    decreases n
  {
    if i < n - 1 {
      IndexKeysHaveAll(n - 1, i);
    }
  }
}
