/** JavaScript values as the popup handles them: the response envelope handed
    back by the background worker and the parsed JSON reading inside it, with
    the truthiness rules behind `||`, `??`, `!` and optional chaining `?.`. */
module JsValues {

  /** A JavaScript value. Numbers are reals: JSON never produces NaN, the one
      number whose truthiness a real cannot express. */
  datatype JsValue =
    | Undefined
    | Null
    | Bool(b: bool)
    | Num(n: real)
    | Str(s: string)
    | Arr(elems: seq<JsValue>)
    | Obj(fields: map<string, JsValue>)

  /** `null` and `undefined`: the values `??` and `?.` step over. */
  predicate IsNullish(v: JsValue) {
    v.Undefined? || v.Null?
  }

  /** The values `||` and `!` treat as false. */
  predicate IsFalsy(v: JsValue) {
    match v
    case Undefined => true
    case Null => true
    case Bool(b) => !b
    case Num(n) => n == 0.0
    case Str(s) => s == []
    case Arr(_) => false
    case Obj(_) => false
  }

  /** `v.key`. Reading a property of `null` or `undefined` throws a TypeError,
      so the caller must show that `v` is neither. None of the keys the popup
      reads is inherited from a prototype, so only own fields are looked up. */
  function Get(v: JsValue, key: string): (r: JsValue)
    requires !IsNullish(v)
    ensures v.Obj? && key in v.fields ==> r == v.fields[key]
    ensures !(v.Obj? && key in v.fields) ==> r == Undefined
  {
    if v.Obj? && key in v.fields then v.fields[key] else Undefined
  }

  /** `v?.key`: `undefined` when `v` is nullish, `v.key` otherwise. The
      result is nullish exactly when there is no object field to read or that
      field is itself nullish, which is what lets a `??` chain step past it. */
  function OptGet(v: JsValue, key: string): (r: JsValue)
    ensures IsNullish(v) ==> r == Undefined
    ensures !IsNullish(v) ==> r == Get(v, key)
    ensures IsNullish(r) <==> !(v.Obj? && key in v.fields) || IsNullish(v.fields[key])
  {
    if IsNullish(v) then Undefined else Get(v, key)
  }

  /** `a || b`: `a` unless it is falsy, and then `b`. */
  function Or(a: JsValue, b: JsValue): (r: JsValue)
    ensures r == a || r == b
    ensures !IsFalsy(a) ==> r == a
    ensures IsFalsy(a) ==> r == b
    ensures IsFalsy(r) <==> IsFalsy(a) && IsFalsy(b)
  {
    if IsFalsy(a) then b else a
  }

  /** `a ?? b`: `a` unless it is nullish, and then `b`. */
  function Coalesce(a: JsValue, b: JsValue): (r: JsValue)
    ensures r == a || r == b
    ensures !IsNullish(a) ==> r == a
    ensures IsNullish(a) ==> r == b
    ensures IsNullish(r) <==> IsNullish(a) && IsNullish(b)
  {
    if IsNullish(a) then b else a
  }

  /** Which candidates a fallback chain steps over: `||` steps over falsy
      values, `??` over nullish ones. */
  datatype Skip = SkipFalsy | SkipNullish

  predicate Skipped(rule: Skip, v: JsValue) {
    match rule
    case SkipFalsy => IsFalsy(v)
    case SkipNullish => IsNullish(v)
  }

  /** The position of the first candidate the rule does not step over, or
      `|cands|` when it steps over all of them. */
  function FirstKept(rule: Skip, cands: seq<JsValue>): (k: nat)
    ensures k <= |cands|
    ensures forall j :: 0 <= j < k ==> Skipped(rule, cands[j])
    ensures k < |cands| ==> !Skipped(rule, cands[k])
  {
    if cands == [] then 0
    else if !Skipped(rule, cands[0]) then 0
    else 1 + FirstKept(rule, cands[1..])
  }

  /** Reference meaning of a fallback chain `c0 op c1 op ... op last`: the
      first candidate that is kept, or `last` when every candidate is skipped
      (`last` itself is returned whatever it is). */
  function FirstOf(rule: Skip, cands: seq<JsValue>, last: JsValue): JsValue {
    var k := FirstKept(rule, cands);
    if k < |cands| then cands[k] else last
  }

  /** One `||` or `??` operator, as the rule says. */
  function Apply(rule: Skip, a: JsValue, b: JsValue): JsValue {
    match rule
    case SkipFalsy => Or(a, b)
    case SkipNullish => Coalesce(a, b)
  }

  /** A left-associated chain of binary `||` or `??` operators, as JavaScript
      parses `c0 op c1 op ... op cn`. */
  function Chain(rule: Skip, cands: seq<JsValue>): JsValue
    requires |cands| > 0
  {
    if |cands| == 1 then cands[0]
    else Apply(rule, Chain(rule, cands[..|cands| - 1]), cands[|cands| - 1])
  }

  /** Evaluating a chain left to right returns the first candidate it keeps,
      or its last operand when it keeps none of the others. */
  lemma {:induction false} ChainIsFirstOf(rule: Skip, cands: seq<JsValue>)
    requires |cands| > 0
    ensures Chain(rule, cands) == FirstOf(rule, cands[..|cands| - 1], cands[|cands| - 1])
  {
    var n := |cands|;
    if n > 1 {
      var init := cands[..n - 1];
      ChainIsFirstOf(rule, init);
      assert init[..n - 2] == cands[..n - 2];
      FirstKeptPrefix(rule, cands[..n - 2], cands[n - 2]);
      assert init == cands[..n - 2] + [cands[n - 2]];
    }
  }

  /** Appending a candidate never moves the first kept position of the prefix. */
  lemma {:induction false} FirstKeptPrefix(rule: Skip, cands: seq<JsValue>, x: JsValue)
    ensures FirstKept(rule, cands + [x]) ==
            if FirstKept(rule, cands) < |cands| then FirstKept(rule, cands) else
            if Skipped(rule, x) then |cands| + 1 else |cands|
  {
    if cands != [] {
      assert (cands + [x])[1..] == cands[1..] + [x];
      FirstKeptPrefix(rule, cands[1..], x);
    }
  }

  /** `a op b op c` returns the first of `a`, `b` the rule keeps, else `c`. */
  lemma ChainOfThree(rule: Skip, a: JsValue, b: JsValue, c: JsValue)
    ensures Apply(rule, Apply(rule, a, b), c) == FirstOf(rule, [a, b], c)
  {
    var cands := [a, b, c];
    ChainIsFirstOf(rule, cands);
    assert cands[..2] == [a, b] && cands[..2][..1] == [a];
  }

  /** `a op b op c op d` returns the first of `a`, `b`, `c` the rule keeps,
      else `d`. */
  lemma ChainOfFour(rule: Skip, a: JsValue, b: JsValue, c: JsValue, d: JsValue)
    ensures Apply(rule, Apply(rule, Apply(rule, a, b), c), d) == FirstOf(rule, [a, b, c], d)
  {
    var cands := [a, b, c, d];
    ChainIsFirstOf(rule, cands);
    assert cands[..3] == [a, b, c] && cands[..3][..2] == [a, b] && cands[..3][..2][..1] == [a];
    assert Chain(rule, [a, b]) == Apply(rule, a, b);
    assert Chain(rule, [a, b, c]) == Apply(rule, Apply(rule, a, b), c);
  }
}
