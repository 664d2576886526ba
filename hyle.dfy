/** The Hyle: configuration data as the TOML loader hands it to the engine, and
    the small part of Python's value semantics the engine relies on
    (dictionary look-up, truthiness, `+`, `-` and `sum` on numbers). */
module Hyle {
  import opened Wrappers

  /** A parsed TOML value other than a date or time, `inf` or `nan`. A TOML
      table (a Python dict) is an association list that keeps the order of
      its keys, as Python dictionaries do. */
  datatype Value =
    | Int(i: int)
    | Float(r: real)
    | Bool(b: bool)
    | Text(s: string)
    | Array(items: seq<Value>)
    | Table(entries: Entries)

  type Entries = seq<(string, Value)>

  /** The exceptions the modelled code can raise. Only ValueError carries a
      message: the source's own text where the engine raises it, a shortened
      text for the empty range `random.randint` rejects. */
  datatype PyError = ValueError(message: string) | TypeError | AttributeError

  /** `key in table`. */
  predicate HasKey(t: Entries, key: string)
  {
    exists i :: 0 <= i < |t| && t[i].0 == key
  }

  /** A TOML table never repeats a key (the parser rejects duplicates), as a
      Python dict cannot. */
  predicate DistinctKeys(t: Entries)
  {
    forall i, j :: 0 <= i < j < |t| ==> t[i].0 != t[j].0
  }

  /** `table.get(key)`: the value stored under `key`, if any. */
  function Lookup(t: Entries, key: string): (r: Option<Value>)
    ensures r.Some? <==> HasKey(t, key)
    ensures r.Some? ==> exists i :: 0 <= i < |t| && t[i] == (key, r.value)
    ensures DistinctKeys(t) ==> forall i :: 0 <= i < |t| && t[i].0 == key ==> r == Some(t[i].1)
  {
    if |t| == 0 then None
    else if t[0].0 == key then Some(t[0].1)
    else
      var r := Lookup(t[1..], key);
      assert forall i :: 1 <= i < |t| ==> t[i] == t[1..][i - 1];
      r
  }

  /** `table.get(key, default)`. */
  function GetOr(t: Entries, key: string, default: Value): (r: Value)
    ensures !HasKey(t, key) ==> r == default
    ensures HasKey(t, key) ==> Lookup(t, key) == Some(r)
  {
    match Lookup(t, key)
    case Some(v) => v
    case None => default
  }

  /** Python truthiness of a value (`not x` is its negation): zero, false and
      every empty container are false. */
  predicate Truthy(v: Value)
  {
    match v
    case Int(i) => i != 0
    case Float(r) => r != 0.0
    case Bool(b) => b
    case Text(s) => s != []
    case Array(items) => items != []
    case Table(entries) => entries != []
  }

  /** A Python number: `bool` is a subclass of `int`. */
  predicate IsNumber(v: Value)
  {
    v.Int? || v.Float? || v.Bool?
  }

  /** An integer in Python's sense (`int` or `bool`), as `random.randint` accepts. */
  predicate IsInteger(v: Value)
  {
    v.Int? || v.Bool?
  }

  function AsInt(v: Value): int
    requires IsInteger(v)
  {
    if v.Int? then v.i else if v.b then 1 else 0
  }

  function AsReal(v: Value): real
    requires IsNumber(v)
  {
    if v.Float? then v.r else AsInt(v) as real
  }

  /** Python `a + b` on numbers: an integer unless one operand is a float. Any
      other operand raises TypeError, reported as None. Floats are exact reals. */
  function Add(a: Value, b: Value): (r: Option<Value>)
    ensures r.Some? <==> IsNumber(a) && IsNumber(b)
    ensures IsInteger(a) && IsInteger(b) ==> r == Some(Int(AsInt(a) + AsInt(b)))
    ensures r.Some? && (a.Float? || b.Float?) ==> r == Some(Float(AsReal(a) + AsReal(b)))
  {
    if !(IsNumber(a) && IsNumber(b)) then None
    else if a.Float? || b.Float? then Some(Float(AsReal(a) + AsReal(b)))
    else Some(Int(AsInt(a) + AsInt(b)))
  }

  /** Python `a + b` on parsed values: numeric addition, or concatenation of
      two strings or two lists; None stands for the TypeError of any other
      pair. */
  function Plus(a: Value, b: Value): (r: Option<Value>)
    ensures IsNumber(a) && IsNumber(b) ==> r == Add(a, b)
    ensures a.Text? && b.Text? ==> r == Some(Text(a.s + b.s))
    ensures a.Array? && b.Array? ==> r == Some(Array(a.items + b.items))
    ensures r.Some? <==> (IsNumber(a) && IsNumber(b)) || (a.Text? && b.Text?) || (a.Array? && b.Array?)
  {
    if IsNumber(a) && IsNumber(b) then Add(a, b)
    else if a.Text? && b.Text? then Some(Text(a.s + b.s))
    else if a.Array? && b.Array? then Some(Array(a.items + b.items))
    else None
  }

  /** Python `a - b` on numbers, with the same typing as Add. */
  function Sub(a: Value, b: Value): (r: Option<Value>)
    ensures r.Some? <==> IsNumber(a) && IsNumber(b)
    ensures IsInteger(a) && IsInteger(b) ==> r == Some(Int(AsInt(a) - AsInt(b)))
    ensures r.Some? && (a.Float? || b.Float?) ==> r == Some(Float(AsReal(a) - AsReal(b)))
  {
    if !(IsNumber(a) && IsNumber(b)) then None
    else if a.Float? || b.Float? then Some(Float(AsReal(a) - AsReal(b)))
    else Some(Int(AsInt(a) - AsInt(b)))
  }

  /** The values of a table, in order (`table.values()`). */
  function Values(t: Entries): (vs: seq<Value>)
    ensures |vs| == |t| && forall i :: 0 <= i < |t| ==> vs[i] == t[i].1
  {
    if |t| == 0 then [] else [t[0].1] + Values(t[1..])
  }

  /** Python `sum(vs)`: `0 + vs[0] + vs[1] + ...`, left to right; None when an
      element is not a number. */
  function Sum(vs: seq<Value>): (r: Option<Value>)
    ensures r.Some? <==> forall i :: 0 <= i < |vs| ==> IsNumber(vs[i])
    ensures r.Some? ==> IsNumber(r.value) && !r.value.Bool? && AsReal(r.value) == RealTotal(vs)
    ensures r.Some? ==> (r.value.Float? <==> exists i :: 0 <= i < |vs| && vs[i].Float?)
  {
    if |vs| == 0 then Some(Int(0))
    else
      match Sum(vs[..|vs| - 1])
      case None => None
      case Some(partial) => Add(partial, vs[|vs| - 1])
  }

  /** The exact sum of a sequence of Python numbers. */
  function RealTotal(vs: seq<Value>): real
    requires forall i :: 0 <= i < |vs| ==> IsNumber(vs[i])
  {
    if |vs| == 0 then 0.0 else RealTotal(vs[..|vs| - 1]) + AsReal(vs[|vs| - 1])
  }

  /** The ordinary sum of a sequence of integers. */
  function IntTotal(xs: seq<int>): int
  {
    if |xs| == 0 then 0 else xs[0] + IntTotal(xs[1..])
  }

  /** The integers carried by a sequence of Python integers. */
  function AsInts(vs: seq<Value>): (xs: seq<int>)
    requires forall i :: 0 <= i < |vs| ==> IsInteger(vs[i])
    ensures |xs| == |vs| && forall i :: 0 <= i < |vs| ==> xs[i] == AsInt(vs[i])
  {
    if |vs| == 0 then [] else AsInts(vs[..|vs| - 1]) + [AsInt(vs[|vs| - 1])]
  }

  lemma {:induction false} IntTotalSnoc(xs: seq<int>, x: int)
    ensures IntTotal(xs + [x]) == IntTotal(xs) + x
  {
    if |xs| > 0 {
      assert (xs + [x])[1..] == xs[1..] + [x];
      IntTotalSnoc(xs[1..], x);
    }
  }

  /** `sum` of Python integers is their ordinary total. */
  lemma {:induction false} SumOfIntegers(vs: seq<Value>)
    requires forall i :: 0 <= i < |vs| ==> IsInteger(vs[i])
    ensures Sum(vs) == Some(Int(IntTotal(AsInts(vs))))
  {
    if |vs| > 0 {
      var init, last := vs[..|vs| - 1], vs[|vs| - 1];
      assert forall i :: 0 <= i < |init| ==> init[i] == vs[i];
      SumOfIntegers(init);
      var total := IntTotal(AsInts(init));
      assert Sum(vs) == Add(Int(total), last);
      IntTotalSnoc(AsInts(init), AsInt(last));
    }
  }
}
