/**
 Predicates as expression trees: swapping parameters, combining predicates, and the rewriting of `LikeAny` and
 its relatives into comparisons that a database understands.

 Parameters are numbered; expressions have values, of which `Fail` is an exception.  Changing the case of a
 text depends on the culture, which is a parameter.
 */
module Expressions {
  import opened Wrappers

  datatype Value =
    | Fail
    | Null
    | Bool(b: bool)
    | Str(s: string)
    | List(items: seq<Value>)
    | Obj(fields: map<string, Value>)

  datatype Case = AsIs | Lower | Upper

  datatype Like = LikeMethod(all: bool, fold: Case)

  datatype Expr =
    | Param(id: nat)
    | Const(v: Value)
    | Member(obj: Expr, name: string)
    | NewArray(elements: seq<Expr>)
    | LikeCall(like: Like, arg: Expr, set_: Expr)
    | Contains(text: Expr, part: Expr)
    | ToCase(fold: Case, e: Expr)
    | Equal(l: Expr, r: Expr)
    | AndAlso(l: Expr, r: Expr)
    | OrElse(l: Expr, r: Expr)
    | Not(e: Expr)
    | AnyOf(list: Expr, bound: nat, body: Expr)   // list.Any(bound => body)

  type Env = map<nat, Value>

  /** `describe` is what an object that is no text says of itself. */
  datatype Culture = Culture(lower: string -> string, upper: string -> string, describe: Value -> string)

  // ----- values -----

  function Folded(c: Culture, fold: Case, s: string): string
  {
    match fold
    case AsIs => s
    case Lower => c.lower(s)
    case Upper => c.upper(s)
  }

  predicate OccursAt(s: string, t: string, i: nat)
  {
    i + |t| <= |s| && s[i..i + |t|] == t
  }

  predicate HasPart(s: string, t: string)
  {
    exists i: nat :: i <= |s| && OccursAt(s, t, i)
  }

  function ContainsValue(s: Value, t: Value): Value
  {
    if s.Str? && t.Str? then Bool(HasPart(s.s, t.s)) else Fail
  }

  /** The case methods throw on null. */
  function FoldValue(c: Culture, fold: Case, v: Value): Value
  {
    if fold == AsIs then v else if v.Str? then Str(Folded(c, fold, v.s)) else Fail
  }

  function And(a: Value, b: Value): Value
  {
    if a == Bool(false) then a else if a == Bool(true) && b.Bool? then b else Fail
  }

  function Or(a: Value, b: Value): Value
  {
    if a == Bool(true) then a else if a == Bool(false) && b.Bool? then b else Fail
  }

  function EqualValue(a: Value, b: Value): Value
  {
    if a.Fail? || b.Fail? then Fail else Bool(a == b)
  }

  function MemberValue(o: Value, name: string): Value
  {
    if o.Obj? && name in o.fields then o.fields[name] else Fail
  }

  /** Any or All over the values, one after another and no further than needed. */
  function LikeValues(c: Culture, like: Like, s: Value, vs: seq<Value>): Value
  {
    if vs == [] then Bool(like.all) else
    var front := LikeValues(c, like, s, vs[..|vs| - 1]);
    var here := ContainsValue(FoldValue(c, like.fold, s), FoldValue(c, like.fold, vs[|vs| - 1]));
    if like.all then And(front, here) else Or(front, here)
  }

  function LikeValue(c: Culture, like: Like, s: Value, set_: Value): Value
  {
    if s.Fail? || !set_.List? then Fail else LikeValues(c, like, s, set_.items)
  }

  function Look(env: Env, id: nat): Value
  {
    if id in env then env[id] else Fail
  }

  function Eval(c: Culture, e: Expr, env: Env): Value
    decreases e, 0
  {
    match e
    case Param(id) => Look(env, id)
    case Const(v) => v
    case Member(obj, name) => MemberValue(Eval(c, obj, env), name)
    case NewArray(es) => ListOf(EvalAll(c, es, env))
    case LikeCall(like, arg, set_) => LikeValue(c, like, Eval(c, arg, env), Eval(c, set_, env))
    case Contains(text, part) => ContainsValue(Eval(c, text, env), Eval(c, part, env))
    case ToCase(fold, e1) => FoldValue(c, fold, Eval(c, e1, env))
    case Equal(l, r) => EqualValue(Eval(c, l, env), Eval(c, r, env))
    case AndAlso(l, r) => And(Eval(c, l, env), Eval(c, r, env))
    case OrElse(l, r) => Or(Eval(c, l, env), Eval(c, r, env))
    case Not(e1) => var v := Eval(c, e1, env); if v.Bool? then Bool(!v.b) else Fail
    case AnyOf(list, bound, body) =>
      var v := Eval(c, list, env);
      if v.List? then EvalAny(c, bound, body, env, v.items) else Fail
  }

  function EvalAll(c: Culture, es: seq<Expr>, env: Env): (r: seq<Value>)
    ensures |r| == |es|
    decreases es, 0
  {
    if es == [] then [] else EvalAll(c, es[..|es| - 1], env) + [Eval(c, es[|es| - 1], env)]
  }

  function ListOf(vs: seq<Value>): Value
  {
    if Fail in vs then Fail else List(vs)
  }

  function EvalAny(c: Culture, bound: nat, body: Expr, env: Env, vs: seq<Value>): Value
    decreases body, 1 + |vs|
  {
    if vs == [] then Bool(false)
    else Or(EvalAny(c, bound, body, env, vs[..|vs| - 1]), Eval(c, body, env[bound := vs[|vs| - 1]]))
  }

  // ----- parameters -----

  /** Does the parameter occur free? */
  predicate Free(e: Expr, id: nat)
  {
    match e
    case Param(i) => i == id
    case Const(_) => false
    case Member(obj, _) => Free(obj, id)
    case NewArray(es) => exists i :: 0 <= i < |es| && Free(es[i], id)
    case LikeCall(_, arg, set_) => Free(arg, id) || Free(set_, id)
    case Contains(text, part) => Free(text, id) || Free(part, id)
    case ToCase(_, e1) => Free(e1, id)
    case Equal(l, r) => Free(l, id) || Free(r, id)
    case AndAlso(l, r) => Free(l, id) || Free(r, id)
    case OrElse(l, r) => Free(l, id) || Free(r, id)
    case Not(e1) => Free(e1, id)
    case AnyOf(list, bound, body) => Free(list, id) || (bound != id && Free(body, id))
  }

  /** Is the parameter bound somewhere inside? */
  predicate Binds(e: Expr, id: nat)
  {
    match e
    case Param(_) => false
    case Const(_) => false
    case Member(obj, _) => Binds(obj, id)
    case NewArray(es) => exists i :: 0 <= i < |es| && Binds(es[i], id)
    case LikeCall(_, arg, set_) => Binds(arg, id) || Binds(set_, id)
    case Contains(text, part) => Binds(text, id) || Binds(part, id)
    case ToCase(_, e1) => Binds(e1, id)
    case Equal(l, r) => Binds(l, id) || Binds(r, id)
    case AndAlso(l, r) => Binds(l, id) || Binds(r, id)
    case OrElse(l, r) => Binds(l, id) || Binds(r, id)
    case Not(e1) => Binds(e1, id)
    case AnyOf(list, bound, body) => bound == id || Binds(list, id) || Binds(body, id)
  }

  /** The visitor that puts `to` for `from`, in binders as well. */
  function Swap(e: Expr, from: nat, to: nat): Expr
  {
    match e
    case Param(i) => if i == from then Param(to) else e
    case Const(_) => e
    case Member(obj, name) => Member(Swap(obj, from, to), name)
    case NewArray(es) => NewArray(seq(|es|, i requires 0 <= i < |es| => Swap(es[i], from, to)))
    case LikeCall(like, arg, set_) => LikeCall(like, Swap(arg, from, to), Swap(set_, from, to))
    case Contains(text, part) => Contains(Swap(text, from, to), Swap(part, from, to))
    case ToCase(fold, e1) => ToCase(fold, Swap(e1, from, to))
    case Equal(l, r) => Equal(Swap(l, from, to), Swap(r, from, to))
    case AndAlso(l, r) => AndAlso(Swap(l, from, to), Swap(r, from, to))
    case OrElse(l, r) => OrElse(Swap(l, from, to), Swap(r, from, to))
    case Not(e1) => Not(Swap(e1, from, to))
    case AnyOf(list, bound, body) =>
      AnyOf(Swap(list, from, to), if bound == from then to else bound, Swap(body, from, to))
  }

  lemma {:induction false} SwapAll(c: Culture, es: seq<Expr>, env: Env, from: nat, to: nat)
    requires forall i :: 0 <= i < |es| ==> !Binds(es[i], from) && !Binds(es[i], to)
    ensures EvalAll(c, seq(|es|, i requires 0 <= i < |es| => Swap(es[i], from, to)), env)
         == EvalAll(c, es, env[from := Look(env, to)])
    decreases es, 0
  {
    var swapped := seq(|es|, i requires 0 <= i < |es| => Swap(es[i], from, to));
    if es != [] {
      var n := |es| - 1;
      var front := es[..n];
      assert swapped[..n] == seq(|front|, i requires 0 <= i < |front| => Swap(front[i], from, to));
      SwapAll(c, front, env, from, to);
      SwapMeans(c, es[n], env, from, to);
    }
  }

  lemma {:induction false} SwapAny(c: Culture, bound: nat, body: Expr, env: Env, vs: seq<Value>, from: nat, to: nat)
    requires !Binds(body, from) && !Binds(body, to) && bound != from && bound != to
    ensures EvalAny(c, bound, Swap(body, from, to), env, vs) == EvalAny(c, bound, body, env[from := Look(env, to)], vs)
    decreases body, 1 + |vs|
  {
    if vs != [] {
      var n := |vs| - 1;
      SwapAny(c, bound, body, env, vs[..n], from, to);
      SwapMeans(c, body, env[bound := vs[n]], from, to);
      assert env[bound := vs[n]][from := Look(env, to)] == env[from := Look(env, to)][bound := vs[n]];
    }
  }

  /** Swapping a parameter for another is evaluating with the other's value, if neither is bound inside. */
  lemma {:induction false} SwapMeans(c: Culture, e: Expr, env: Env, from: nat, to: nat)
    requires !Binds(e, from) && !Binds(e, to)
    ensures Eval(c, Swap(e, from, to), env) == Eval(c, e, env[from := Look(env, to)])
    decreases e, 0
  {
    match e
    case Param(_) =>
    case Const(_) =>
    case Member(obj, _) => SwapMeans(c, obj, env, from, to);
    case NewArray(es) => SwapAll(c, es, env, from, to);
    case LikeCall(_, arg, set_) => SwapMeans(c, arg, env, from, to); SwapMeans(c, set_, env, from, to);
    case Contains(text, part) => SwapMeans(c, text, env, from, to); SwapMeans(c, part, env, from, to);
    case ToCase(_, e1) => SwapMeans(c, e1, env, from, to);
    case Equal(l, r) => SwapMeans(c, l, env, from, to); SwapMeans(c, r, env, from, to);
    case AndAlso(l, r) => SwapMeans(c, l, env, from, to); SwapMeans(c, r, env, from, to);
    case OrElse(l, r) => SwapMeans(c, l, env, from, to); SwapMeans(c, r, env, from, to);
    case Not(e1) => SwapMeans(c, e1, env, from, to);
    case AnyOf(list, bound, body) =>
      SwapMeans(c, list, env, from, to);
      var v := Eval(c, list, env[from := Look(env, to)]);
      if v.List? {
        SwapAny(c, bound, body, env, v.items, from, to);
      }
  }

  /** Two environments that agree on what occurs free. */
  ghost predicate Agree(e: Expr, a: Env, b: Env)
  {
    forall id: nat :: Free(e, id) ==> Look(a, id) == Look(b, id)
  }

  lemma {:induction false} SameAll(c: Culture, es: seq<Expr>, a: Env, b: Env)
    requires forall i :: 0 <= i < |es| ==> Agree(es[i], a, b)
    ensures EvalAll(c, es, a) == EvalAll(c, es, b)
    decreases es, 0
  {
    if es != [] {
      var n := |es| - 1;
      SameAll(c, es[..n], a, b);
      SameValue(c, es[n], a, b);
    }
  }

  lemma {:induction false} SameAny(c: Culture, bound: nat, body: Expr, a: Env, b: Env, vs: seq<Value>)
    requires forall id: nat :: Free(body, id) && id != bound ==> Look(a, id) == Look(b, id)
    ensures EvalAny(c, bound, body, a, vs) == EvalAny(c, bound, body, b, vs)
    decreases body, 1 + |vs|
  {
    if vs != [] {
      var n := |vs| - 1;
      SameAny(c, bound, body, a, b, vs[..n]);
      SameValue(c, body, a[bound := vs[n]], b[bound := vs[n]]);
    }
  }

  /** The value depends on free parameters only. */
  lemma {:induction false} SameValue(c: Culture, e: Expr, a: Env, b: Env)
    requires Agree(e, a, b)
    ensures Eval(c, e, a) == Eval(c, e, b)
    decreases e, 0
  {
    match e
    case Param(id) => assert Free(e, id);
    case Const(_) =>
    case Member(obj, _) => SameValue(c, obj, a, b);
    case NewArray(es) =>
      forall i | 0 <= i < |es|
        ensures Agree(es[i], a, b)
      {
        assert forall id: nat :: Free(es[i], id) ==> Free(e, id);
      }
      SameAll(c, es, a, b);
    case LikeCall(_, arg, set_) => SameValue(c, arg, a, b); SameValue(c, set_, a, b);
    case Contains(text, part) => SameValue(c, text, a, b); SameValue(c, part, a, b);
    case ToCase(_, e1) => SameValue(c, e1, a, b);
    case Equal(l, r) => SameValue(c, l, a, b); SameValue(c, r, a, b);
    case AndAlso(l, r) => SameValue(c, l, a, b); SameValue(c, r, a, b);
    case OrElse(l, r) => SameValue(c, l, a, b); SameValue(c, r, a, b);
    case Not(e1) => SameValue(c, e1, a, b);
    case AnyOf(list, bound, body) =>
      SameValue(c, list, a, b);
      var v := Eval(c, list, a);
      if v.List? {
        SameAny(c, bound, body, a, b, v.items);
      }
  }

  // ----- combining predicates -----

  datatype Lambda = Lambda(param: nat, body: Expr)

  function Apply(c: Culture, f: Lambda, v: Value): Value
  {
    Eval(c, f.body, map[f.param := v])
  }

  ghost predicate Closed(f: Lambda)
  {
    forall id: nat :: Free(f.body, id) ==> id == f.param
  }

  /** The conjunction or disjunction, in terms of the second predicate's parameter. */
  function CombineBinaryExpression(expr: Option<Lambda>, toAdd: Lambda, trueAnd: bool): Lambda
  {
    if expr.None? then toAdd else
    var swapped := Swap(expr.value.body, expr.value.param, toAdd.param);
    Lambda(toAdd.param, if trueAnd then AndAlso(swapped, toAdd.body) else OrElse(swapped, toAdd.body))
  }

  lemma CombineMeans(c: Culture, p: Lambda, q: Lambda, trueAnd: bool, v: Value)
    requires Closed(p) && !Binds(p.body, p.param) && !Binds(p.body, q.param)
    ensures Apply(c, CombineBinaryExpression(Some(p), q, trueAnd), v) ==
            if trueAnd then And(Apply(c, p, v), Apply(c, q, v)) else Or(Apply(c, p, v), Apply(c, q, v))
  {
    var env: Env := map[q.param := v];
    SwapMeans(c, p.body, env, p.param, q.param);
    SameValue(c, p.body, env[p.param := v], map[p.param := v]);
  }

  lemma {:induction false} FreeAfterSwap(e: Expr, from: nat, to: nat, id: nat)
    requires !Binds(e, from) && Free(Swap(e, from, to), id)
    ensures id == to || (id != from && Free(e, id))
  {
    match e
    case Param(_) =>
    case Const(_) =>
    case Member(obj, _) => FreeAfterSwap(obj, from, to, id);
    case NewArray(es) =>
      var i :| 0 <= i < |es| && Free(Swap(es[i], from, to), id);
      FreeAfterSwap(es[i], from, to, id);
    case LikeCall(_, l, r) =>
      if Free(Swap(l, from, to), id) { FreeAfterSwap(l, from, to, id); } else { FreeAfterSwap(r, from, to, id); }
    case Contains(l, r) =>
      if Free(Swap(l, from, to), id) { FreeAfterSwap(l, from, to, id); } else { FreeAfterSwap(r, from, to, id); }
    case ToCase(_, e1) => FreeAfterSwap(e1, from, to, id);
    case Equal(l, r) =>
      if Free(Swap(l, from, to), id) { FreeAfterSwap(l, from, to, id); } else { FreeAfterSwap(r, from, to, id); }
    case AndAlso(l, r) =>
      if Free(Swap(l, from, to), id) { FreeAfterSwap(l, from, to, id); } else { FreeAfterSwap(r, from, to, id); }
    case OrElse(l, r) =>
      if Free(Swap(l, from, to), id) { FreeAfterSwap(l, from, to, id); } else { FreeAfterSwap(r, from, to, id); }
    case Not(e1) => FreeAfterSwap(e1, from, to, id);
    case AnyOf(l, _, r) =>
      if Free(Swap(l, from, to), id) { FreeAfterSwap(l, from, to, id); } else { FreeAfterSwap(r, from, to, id); }
  }

  lemma {:induction false} BindsAfterSwap(e: Expr, from: nat, to: nat, id: nat)
    requires !Binds(e, from) && Binds(Swap(e, from, to), id)
    ensures Binds(e, id)
  {
    match e
    case Param(_) =>
    case Const(_) =>
    case Member(obj, _) => BindsAfterSwap(obj, from, to, id);
    case NewArray(es) =>
      var i :| 0 <= i < |es| && Binds(Swap(es[i], from, to), id);
      BindsAfterSwap(es[i], from, to, id);
    case LikeCall(_, l, r) =>
      if Binds(Swap(l, from, to), id) { BindsAfterSwap(l, from, to, id); } else { BindsAfterSwap(r, from, to, id); }
    case Contains(l, r) =>
      if Binds(Swap(l, from, to), id) { BindsAfterSwap(l, from, to, id); } else { BindsAfterSwap(r, from, to, id); }
    case ToCase(_, e1) => BindsAfterSwap(e1, from, to, id);
    case Equal(l, r) =>
      if Binds(Swap(l, from, to), id) { BindsAfterSwap(l, from, to, id); } else { BindsAfterSwap(r, from, to, id); }
    case AndAlso(l, r) =>
      if Binds(Swap(l, from, to), id) { BindsAfterSwap(l, from, to, id); } else { BindsAfterSwap(r, from, to, id); }
    case OrElse(l, r) =>
      if Binds(Swap(l, from, to), id) { BindsAfterSwap(l, from, to, id); } else { BindsAfterSwap(r, from, to, id); }
    case Not(e1) => BindsAfterSwap(e1, from, to, id);
    case AnyOf(l, bound, r) =>
      if bound != id {
        if Binds(Swap(l, from, to), id) { BindsAfterSwap(l, from, to, id); } else { BindsAfterSwap(r, from, to, id); }
      }
  }

  /** Predicates added one by one to an expression that is null at first. */
  function CombineAll(ps: seq<Lambda>, trueAnd: bool): Option<Lambda>
  {
    if ps == [] then None
    else Some(CombineBinaryExpression(CombineAll(ps[..|ps| - 1], trueAnd), ps[|ps| - 1], trueAnd))
  }

  function ApplyAll(c: Culture, ps: seq<Lambda>, trueAnd: bool, v: Value): Value
    requires ps != []
  {
    var last := Apply(c, ps[|ps| - 1], v);
    if |ps| == 1 then last else
    var front := ApplyAll(c, ps[..|ps| - 1], trueAnd, v);
    if trueAnd then And(front, last) else Or(front, last)
  }

  /** Each predicate has one parameter, which no predicate of the list binds again. */
  ghost predicate Apart(ps: seq<Lambda>)
  {
    && (forall i :: 0 <= i < |ps| ==> Closed(ps[i]))
    && forall i, k :: 0 <= i < |ps| && 0 <= k < |ps| ==> !Binds(ps[i].body, ps[k].param)
  }

  /** Any number of predicates combined mean all, or any, of them. */
  lemma {:induction false} CombineAllMeans(c: Culture, ps: seq<Lambda>, all: seq<Lambda>, trueAnd: bool, v: Value)
    requires ps != [] && ps <= all && Apart(all)
    ensures var f := CombineAll(ps, trueAnd);
            && f.Some? && f.value.param == ps[|ps| - 1].param && Closed(f.value)
            && (forall k :: 0 <= k < |all| ==> !Binds(f.value.body, all[k].param))
            && Apply(c, f.value, v) == ApplyAll(c, ps, trueAnd, v)
    decreases |ps|
  {
    var n := |ps| - 1;
    var q := ps[n];
    assert q == all[n] && Closed(q);
    if n > 0 {
      CombineAllMeans(c, ps[..n], all, trueAnd, v);
      var p := CombineAll(ps[..n], trueAnd).value;
      assert p.param == all[n - 1].param;
      CombineMeans(c, p, q, trueAnd, v);
      var f := CombineBinaryExpression(Some(p), q, trueAnd);
      forall id: nat | Free(f.body, id)
        ensures id == f.param
      {
        if Free(q.body, id) {
          assert Closed(q);
        } else {
          assert Free(Swap(p.body, p.param, q.param), id);
          FreeAfterSwap(p.body, p.param, q.param, id);
          assert Free(p.body, id) ==> id == p.param;
        }
      }
      forall k | 0 <= k < |all|
        ensures !Binds(f.body, all[k].param)
      {
        if Binds(Swap(p.body, p.param, q.param), all[k].param) {
          BindsAfterSwap(p.body, p.param, q.param, all[k].param);
        }
      }
    } else {
      assert ps[..n] == [];
    }
  }
}
