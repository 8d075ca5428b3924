/**
 The visitor that replaces `LikeAny`, `LikeAll` and their variants by chains of `Contains` comparisons.

 The values to compare with are taken when the visitor runs: from a member by evaluating it, from anything
 else by collecting its constants.  An exception of the visitor is `None`.
 */
module LikeRewriting {
  import opened Wrappers
  import opened Expressions

  /** The constants of an expression, in the order in which they are visited. */
  function GetValues(e: Expr): seq<Value>
    decreases e, 0
  {
    match e
    case Param(_) => []
    case Const(v) => [v]
    case Member(obj, _) => GetValues(obj)
    case NewArray(es) => GetAllValues(es)
    case LikeCall(_, arg, set_) => GetValues(arg) + GetValues(set_)
    case Contains(text, part) => GetValues(text) + GetValues(part)
    case ToCase(_, e1) => GetValues(e1)
    case Equal(l, r) => GetValues(l) + GetValues(r)
    case AndAlso(l, r) => GetValues(l) + GetValues(r)
    case OrElse(l, r) => GetValues(l) + GetValues(r)
    case Not(e1) => GetValues(e1)
    case AnyOf(list, _, body) => GetValues(list) + GetValues(body)
  }

  function GetAllValues(es: seq<Expr>): seq<Value>
    decreases es, 0
  {
    if es == [] then [] else GetAllValues(es[..|es| - 1]) + GetValues(es[|es| - 1])
  }

  datatype Found = Error | NoValues | Values(vs: seq<Value>)

  /** Is nothing free in the expression? */
  ghost predicate Ground(e: Expr)
  {
    forall id: nat :: !Free(e, id)
  }

  /** A member is compiled and run, which fails if it depends on a parameter. */
  ghost function ValuesOf(c: Culture, obj: Expr): Found
  {
    if obj.Member? then
      if !Ground(obj) then Error else
      var v := Eval(c, obj, map[]);
      if v.Fail? then Error else if v.List? then Values(v.items) else NoValues
    else Values(GetValues(obj))
  }

  /** The value as it goes into the comparison: unchanged if it is text or null, or as text in the right case. */
  function NewValue(c: Culture, fold: Case, o: Value): Option<Value>
  {
    if fold == AsIs then if o.Str? || o.Null? then Some(o) else None
    else if o.Null? || o.Fail? then None
    else Some(Str(Folded(c, fold, if o.Str? then o.s else c.describe(o))))
  }

  function NewValues(c: Culture, fold: Case, vs: seq<Value>): Option<seq<Value>>
  {
    if vs == [] then Some([]) else
    var front, last := NewValues(c, fold, vs[..|vs| - 1]), NewValue(c, fold, vs[|vs| - 1]);
    if front.Some? && last.Some? then Some(front.value + [last.value]) else None
  }

  function Comparison(argMember: Expr, v: Value): Expr
  {
    Equal(Contains(argMember, Member(Const(Obj(map["Value" := v])), "Value")), Const(Bool(true)))
  }

  /** Only the plain variants grow beyond the first value. */
  function Chain(like: Like, argMember: Expr, vs: seq<Value>): Option<Expr>
  {
    if vs == [] then None else
    var res, equals := Chain(like, argMember, vs[..|vs| - 1]), Comparison(argMember, vs[|vs| - 1]);
    if res.None? then Some(equals)
    else if like.fold != AsIs then res
    else if like.all then Some(AndAlso(res.value, equals))
    else Some(OrElse(res.value, equals))
  }

  /** One more round of the loop: the values converted so far, and the chain over them. */
  lemma ChainGrows(c: Culture, like: Like, argMember: Expr, values: seq<Value>, done: seq<Value>, i: nat, v: Value)
    requires i < |values| && NewValues(c, like.fold, values[..i]) == Some(done) && NewValue(c, like.fold, values[i]) == Some(v)
    ensures NewValues(c, like.fold, values[..i + 1]) == Some(done + [v])
    ensures var res, equals := Chain(like, argMember, done), Comparison(argMember, v);
            Chain(like, argMember, done + [v]) ==
            Some(if res.None? then equals
                 else if like.fold != AsIs then res.value
                 else if like.all then AndAlso(res.value, equals) else OrElse(res.value, equals))
  {
    hide Comparison, NewValue;
    assert values[..i + 1][..i] == values[..i];
    assert (done + [v])[..|done|] == done;
  }

  lemma NoneYet(c: Culture, like: Like, argMember: Expr, values: seq<Value>)
    ensures NewValues(c, like.fold, values[..0]) == Some([]) && Chain(like, argMember, []) == None
    ensures values[..|values|] == values
  {
  }

  /** The loop over the values. */
  method BuildChain(c: Culture, like: Like, argMember: Expr, values: seq<Value>) returns (ok: bool, res: Option<Expr>)
    ensures ok <==> NewValues(c, like.fold, values).Some?
    ensures ok ==> res == Chain(like, argMember, NewValues(c, like.fold, values).value)
  {
    hide NewValues, Chain, Comparison, NewValue;
    res := None;
    ghost var done: seq<Value> := [];
    NoneYet(c, like, argMember, values);
    for i := 0 to |values|
      invariant NewValues(c, like.fold, values[..i]) == Some(done)
      invariant res == Chain(like, argMember, done)
    {
      var newVal := NewValue(c, like.fold, values[i]);
      if newVal.None? {
        NewValuesFail(c, like.fold, values, i);
        return false, None;
      }
      ChainGrows(c, like, argMember, values, done, i, newVal.value);
      var equalsExpr := Comparison(argMember, newVal.value);
      if res.None? {
        res := Some(equalsExpr);
      } else {
        if !like.all && like.fold == AsIs {
          res := Some(OrElse(res.value, equalsExpr));
        } else if like.all && like.fold == AsIs {
          res := Some(AndAlso(res.value, equalsExpr));
        }
      }
      done := done + [newVal.value];
    }
    return true, res;
  }

  lemma {:induction false} NewValuesFail(c: Culture, fold: Case, vs: seq<Value>, i: nat)
    requires i < |vs| && NewValue(c, fold, vs[i]).None?
    ensures NewValues(c, fold, vs).None?
    decreases |vs|
  {
    if i < |vs| - 1 {
      NewValuesFail(c, fold, vs[..|vs| - 1], i);
    }
  }

  function ArgMember(like: Like, arg: Expr): Expr
  {
    if like.fold == AsIs then arg else ToCase(like.fold, arg)
  }

  /** The replacement of a call, if there is one; `None` inside means that the call stays. */
  ghost function Replacement(c: Culture, like: Like, arg: Expr, obj: Expr): Option<Option<Expr>>
  {
    if !arg.Member? then Some(None) else
    match ValuesOf(c, obj)
    case Error => None
    case NoValues => Some(None)
    case Values(vs) =>
      var nv := NewValues(c, like.fold, vs);
      if nv.None? then None else Some(Chain(like, ArgMember(like, arg), nv.value))
  }

  ghost function Visit(c: Culture, e: Expr): Option<Expr>
    decreases e, 0
  {
    match e
    case Param(_) => Some(e)
    case Const(_) => Some(e)
    case Member(obj, name) =>
      var o := Visit(c, obj);
      if o.Some? then Some(Member(o.value, name)) else None
    case NewArray(es) =>
      var o := VisitAll(c, es);
      if o.Some? then Some(NewArray(o.value)) else None
    case LikeCall(like, arg, obj) =>
      var r := Replacement(c, like, arg, obj);
      if r.None? then None
      else if r.value.Some? then r.value
      else
        var a, o := Visit(c, arg), Visit(c, obj);
        if a.Some? && o.Some? then Some(LikeCall(like, a.value, o.value)) else None
    case Contains(l, r) =>
      var a, b := Visit(c, l), Visit(c, r);
      if a.Some? && b.Some? then Some(Contains(a.value, b.value)) else None
    case ToCase(fold, e1) =>
      var o := Visit(c, e1);
      if o.Some? then Some(ToCase(fold, o.value)) else None
    case Equal(l, r) =>
      var a, b := Visit(c, l), Visit(c, r);
      if a.Some? && b.Some? then Some(Equal(a.value, b.value)) else None
    case AndAlso(l, r) =>
      var a, b := Visit(c, l), Visit(c, r);
      if a.Some? && b.Some? then Some(AndAlso(a.value, b.value)) else None
    case OrElse(l, r) =>
      var a, b := Visit(c, l), Visit(c, r);
      if a.Some? && b.Some? then Some(OrElse(a.value, b.value)) else None
    case Not(e1) =>
      var o := Visit(c, e1);
      if o.Some? then Some(Not(o.value)) else None
    case AnyOf(list, bound, body) =>
      var a, b := Visit(c, list), Visit(c, body);
      if a.Some? && b.Some? then Some(AnyOf(a.value, bound, b.value)) else None
  }

  ghost function VisitAll(c: Culture, es: seq<Expr>): (r: Option<seq<Expr>>)
    ensures r.Some? ==> |r.value| == |es|
    decreases es, 0
  {
    if es == [] then Some([]) else
    var front, last := VisitAll(c, es[..|es| - 1]), Visit(c, es[|es| - 1]);
    if front.Some? && last.Some? then Some(front.value + [last.value]) else None
  }

  // ----- what the chains mean -----

  /** The reference: some, or every, value of the list occurs in the text. */
  lemma {:induction false} LikeMeans(c: Culture, like: Like, s: string, vs: seq<Value>)
    requires forall i :: 0 <= i < |vs| ==> vs[i].Str?
    ensures LikeValues(c, like, Str(s), vs) ==
            Bool(if like.all
                 then forall i :: 0 <= i < |vs| ==> HasPart(Folded(c, like.fold, s), Folded(c, like.fold, vs[i].s))
                 else exists i :: 0 <= i < |vs| && HasPart(Folded(c, like.fold, s), Folded(c, like.fold, vs[i].s)))
  {
    if vs != [] {
      LikeMeans(c, like, s, vs[..|vs| - 1]);
    }
  }

  ghost predicate Within(t: string, s: string)
  {
    exists a: string, b: string :: s == a + t + b
  }

  lemma PartIsWithin(s: string, t: string)
    ensures HasPart(s, t) <==> Within(t, s)
  {
    if HasPart(s, t) {
      var i: nat :| i <= |s| && OccursAt(s, t, i);
      assert s == s[..i] + t + s[i + |t|..];
    }
    if Within(t, s) {
      var a: string, b: string :| s == a + t + b;
      assert OccursAt(s, t, |a|);
    }
  }

  /** Is `t` within `s`, as they are, in lower case, or in upper case? */
  ghost predicate WithinInCase(c: Culture, fold: Case, t: string, s: string)
  {
    && (fold == AsIs ==> Within(t, s))
    && (fold == Lower ==> Within(c.lower(t), c.lower(s)))
    && (fold == Upper ==> Within(c.upper(t), c.upper(s)))
  }

  lemma LikeMeansPlainly(c: Culture, like: Like, s: string, vs: seq<Value>)
    requires forall i :: 0 <= i < |vs| ==> vs[i].Str?
    ensures LikeValues(c, like, Str(s), vs) ==
            Bool(if like.all then forall i :: 0 <= i < |vs| ==> WithinInCase(c, like.fold, vs[i].s, s)
                 else exists i :: 0 <= i < |vs| && WithinInCase(c, like.fold, vs[i].s, s))
  {
    hide LikeValues, HasPart, Within;
    LikeMeans(c, like, s, vs);
    forall i | 0 <= i < |vs|
      ensures HasPart(Folded(c, like.fold, s), Folded(c, like.fold, vs[i].s)) <==> WithinInCase(c, like.fold, vs[i].s, s)
    {
      PartIsWithin(Folded(c, like.fold, s), Folded(c, like.fold, vs[i].s));
    }
  }

  lemma ComparisonMeans(c: Culture, argMember: Expr, v: Value, env: Env)
    ensures Eval(c, Comparison(argMember, v), env) == ContainsValue(Eval(c, argMember, env), v)
  {
    assert Eval(c, Member(Const(Obj(map["Value" := v])), "Value"), env) == v;
  }

  /** A plain chain means the call it replaces, exceptions included. */
  lemma {:induction false} PlainChainMeans(c: Culture, like: Like, arg: Expr, vs: seq<Value>, env: Env)
    requires like.fold == AsIs && vs != []
    ensures Chain(like, arg, vs).Some?
    ensures Eval(c, Chain(like, arg, vs).value, env) == LikeValues(c, like, Eval(c, arg, env), vs)
  {
    var front := vs[..|vs| - 1];
    ComparisonMeans(c, arg, vs[|vs| - 1], env);
    if front != [] {
      PlainChainMeans(c, like, arg, front, env);
    } else {
      assert LikeValues(c, like, Eval(c, arg, env), front) == Bool(like.all);
    }
  }

  lemma {:induction false} FoldedChainIsFirst(c: Culture, like: Like, argMember: Expr, vs: seq<Value>)
    requires like.fold != AsIs && vs != []
    ensures Chain(like, argMember, vs) == Some(Comparison(argMember, vs[0]))
  {
    if |vs| > 1 {
      FoldedChainIsFirst(c, like, argMember, vs[..|vs| - 1]);
    }
  }

  /** Every text that matches the kept value, and no other, matches the list. */
  ghost predicate Covers(c: Culture, like: Like, vs: seq<Value>)
    requires vs != [] && forall i :: 0 <= i < |vs| ==> vs[i].Str?
  {
    var first := Folded(c, like.fold, vs[0].s);
    forall i :: 0 <= i < |vs| ==>
      var each := Folded(c, like.fold, vs[i].s);
      if like.all then HasPart(first, each) else HasPart(each, first)
  }

  lemma PartTrans(a: string, b: string, d: string)
    requires HasPart(a, b) && HasPart(b, d)
    ensures HasPart(a, d)
  {
    var i: nat :| i <= |a| && OccursAt(a, b, i);
    var k: nat :| k <= |b| && OccursAt(b, d, k);
    forall j | 0 <= j < |d|
      ensures a[i + k + j] == d[j]
    {
      assert a[i..i + |b|][k + j] == b[k + j] == b[k..k + |d|][j];
    }
    assert OccursAt(a, d, i + k);
  }

  lemma PartRefl(a: string)
    ensures HasPart(a, a)
  {
    assert a[0..0 + |a|] == a;
    assert OccursAt(a, a, 0);
  }

  /**
   The variants that ignore case compare with the first value alone.  That is right for every text exactly if
   each later value contains the first, for LikeAny, or is contained in it, for LikeAll.
   */
  lemma FirstValueSuffices(c: Culture, like: Like, vs: seq<Value>)
    requires vs != [] && forall i :: 0 <= i < |vs| ==> vs[i].Str?
    ensures (forall s: string :: KeptAgrees(c, like, s, vs)) <==> Covers(c, like, vs)
  {
    if Covers(c, like, vs) {
      forall s: string
        ensures KeptAgrees(c, like, s, vs)
      {
        CoveredAgrees(c, like, s, vs);
      }
    }
    if forall s: string :: KeptAgrees(c, like, s, vs) {
      forall i | 0 <= i < |vs|
        ensures var first, each := Folded(c, like.fold, vs[0].s), Folded(c, like.fold, vs[i].s);
                if like.all then HasPart(first, each) else HasPart(each, first)
      {
        var s := if like.all then vs[0].s else vs[i].s;
        assert KeptAgrees(c, like, s, vs);
        LikeMeans(c, like, s, vs);
        PartRefl(Folded(c, like.fold, s));
      }
    }
  }

  ghost predicate KeptAgrees(c: Culture, like: Like, s: string, vs: seq<Value>)
    requires vs != [] && forall i :: 0 <= i < |vs| ==> vs[i].Str?
  {
    LikeValues(c, like, Str(s), vs) == Bool(HasPart(Folded(c, like.fold, s), Folded(c, like.fold, vs[0].s)))
  }

  lemma CoveredAgrees(c: Culture, like: Like, s: string, vs: seq<Value>)
    requires vs != [] && (forall i :: 0 <= i < |vs| ==> vs[i].Str?) && Covers(c, like, vs)
    ensures KeptAgrees(c, like, s, vs)
  {
    LikeMeans(c, like, s, vs);
    var text, first := Folded(c, like.fold, s), Folded(c, like.fold, vs[0].s);
    forall i | 0 <= i < |vs|
      ensures var each := Folded(c, like.fold, vs[i].s);
              if like.all then HasPart(text, first) ==> HasPart(text, each) else HasPart(text, each) ==> HasPart(text, first)
    {
      var each := Folded(c, like.fold, vs[i].s);
      if like.all && HasPart(text, first) {
        PartTrans(text, first, each);
      } else if !like.all && HasPart(text, each) {
        PartTrans(text, each, first);
      }
    }
  }

  // ----- the whole visitor -----

  ghost predicate Texts(vs: seq<Value>)
  {
    forall i :: 0 <= i < |vs| ==> vs[i].Str? || vs[i].Null?
  }

  ghost predicate ConstantArray(e: Expr)
  {
    e.NewArray? && forall i :: 0 <= i < |e.elements| ==> e.elements[i].Const? && (e.elements[i].v.Str? || e.elements[i].v.Null?)
  }

  /**
   A call that the visitor understands: its list is a member or an array of constants, and if case is
   ignored, the first value speaks for all; or its list has no constants at all, and the call stays.
   */
  ghost predicate Understood(c: Culture, like: Like, arg: Expr, obj: Expr)
  {
    arg.Member? ==>
      && (obj.Member? || ConstantArray(obj) || GetValues(obj) == [])
      && (ValuesOf(c, obj).Values? ==>
            var vs := ValuesOf(c, obj).vs;
            Texts(vs) && (like.fold != AsIs && vs != [] && (forall i :: 0 <= i < |vs| ==> vs[i].Str?) ==> Covers(c, like, vs)))
  }

  ghost predicate Plain(c: Culture, e: Expr)
    decreases e
  {
    match e
    case Param(_) => true
    case Const(_) => true
    case Member(obj, _) => Plain(c, obj)
    case NewArray(es) => forall i :: 0 <= i < |es| ==> Plain(c, es[i])
    case LikeCall(like, arg, obj) => Understood(c, like, arg, obj) && Plain(c, arg) && Plain(c, obj)
    case Contains(l, r) => Plain(c, l) && Plain(c, r)
    case ToCase(_, e1) => Plain(c, e1)
    case Equal(l, r) => Plain(c, l) && Plain(c, r)
    case AndAlso(l, r) => Plain(c, l) && Plain(c, r)
    case OrElse(l, r) => Plain(c, l) && Plain(c, r)
    case Not(e1) => Plain(c, e1)
    case AnyOf(list, _, body) => Plain(c, list) && Plain(c, body)
  }

  lemma {:induction false} ConstantArrayValues(c: Culture, es: seq<Expr>, env: Env)
    requires ConstantArray(NewArray(es))
    ensures EvalAll(c, es, env) == GetAllValues(es) && Texts(GetAllValues(es))
  {
    if es != [] {
      var n := |es| - 1;
      ConstantArrayValues(c, es[..n], env);
      assert es[n].Const?;
    }
  }

  /** The values found when the visitor runs are those of the list when the expression is evaluated. */
  lemma ValuesAreRight(c: Culture, obj: Expr, env: Env)
    requires (obj.Member? || ConstantArray(obj)) && ValuesOf(c, obj).Values?
    ensures Eval(c, obj, env) == List(ValuesOf(c, obj).vs)
  {
    if obj.Member? {
      SameValue(c, obj, map[], env);
    } else {
      ConstantArrayValues(c, obj.elements, env);
    }
  }

  lemma {:induction false} NewValuesAre(c: Culture, fold: Case, vs: seq<Value>)
    requires Texts(vs) && NewValues(c, fold, vs).Some?
    ensures var nv := NewValues(c, fold, vs).value;
            && |nv| == |vs|
            && (fold == AsIs ==> nv == vs)
            && (fold != AsIs ==> forall i :: 0 <= i < |vs| ==> vs[i].Str? && nv[i] == Str(Folded(c, fold, vs[i].s)))
  {
    if vs != [] {
      NewValuesAre(c, fold, vs[..|vs| - 1]);
    }
  }

  lemma {:induction false} LikeOfNoText(c: Culture, like: Like, s: Value, vs: seq<Value>)
    requires !s.Str? && vs != []
    ensures LikeValues(c, like, s, vs) == Fail
  {
    if |vs| > 1 {
      LikeOfNoText(c, like, s, vs[..|vs| - 1]);
    } else {
      assert LikeValues(c, like, s, vs[..0]) == Bool(like.all);
    }
  }

  lemma FoldedChainMeans(c: Culture, like: Like, arg: Expr, vs: seq<Value>, nv: seq<Value>, env: Env)
    requires like.fold != AsIs && vs != [] && (forall i :: 0 <= i < |vs| ==> vs[i].Str?) && Covers(c, like, vs)
    requires |nv| == |vs| && nv[0] == Str(Folded(c, like.fold, vs[0].s))
    ensures Chain(like, ArgMember(like, arg), nv).Some?
    ensures Eval(c, Chain(like, ArgMember(like, arg), nv).value, env) == LikeValues(c, like, Eval(c, arg, env), vs)
  {
    FoldedChainIsFirst(c, like, ArgMember(like, arg), nv);
    ComparisonMeans(c, ArgMember(like, arg), nv[0], env);
    var s := Eval(c, arg, env);
    if s.Str? {
      CoveredAgrees(c, like, s.s, vs);
    } else {
      LikeOfNoText(c, like, s, vs);
    }
  }

  lemma ReplacementIs(c: Culture, like: Like, arg: Expr, obj: Expr)
    requires Understood(c, like, arg, obj) && arg.Member? && Replacement(c, like, arg, obj).Some?
    requires Replacement(c, like, arg, obj).value.Some?
    ensures ValuesOf(c, obj).Values? && (obj.Member? || ConstantArray(obj))
    ensures var vs := ValuesOf(c, obj).vs;
            && vs != [] && Texts(vs) && NewValues(c, like.fold, vs).Some?
            && Replacement(c, like, arg, obj).value == Chain(like, ArgMember(like, arg), NewValues(c, like.fold, vs).value)
  {
  }

  lemma PlainReplacementMeans(c: Culture, like: Like, arg: Expr, vs: seq<Value>, env: Env)
    requires like.fold == AsIs && vs != [] && Texts(vs) && NewValues(c, AsIs, vs).Some?
    ensures Chain(like, ArgMember(like, arg), NewValues(c, AsIs, vs).value).Some?
    ensures Eval(c, Chain(like, ArgMember(like, arg), NewValues(c, AsIs, vs).value).value, env)
         == LikeValue(c, like, Eval(c, arg, env), List(vs))
  {
    hide Chain, LikeValues, Eval, NewValues, Texts;
    NewValuesAre(c, AsIs, vs);
    PlainChainMeans(c, like, arg, vs, env);
    if Eval(c, arg, env).Fail? {
      LikeOfNoText(c, like, Eval(c, arg, env), vs);
    }
  }

  lemma FoldedReplacementMeans(c: Culture, like: Like, arg: Expr, vs: seq<Value>, env: Env)
    requires like.fold != AsIs && vs != [] && Texts(vs) && NewValues(c, like.fold, vs).Some?
    requires (forall i :: 0 <= i < |vs| ==> vs[i].Str?) ==> Covers(c, like, vs)
    ensures Chain(like, ArgMember(like, arg), NewValues(c, like.fold, vs).value).Some?
    ensures Eval(c, Chain(like, ArgMember(like, arg), NewValues(c, like.fold, vs).value).value, env)
         == LikeValue(c, like, Eval(c, arg, env), List(vs))
  {
    hide Chain, LikeValues, Eval, NewValues, Covers;
    NewValuesAre(c, like.fold, vs);
    FoldedChainMeans(c, like, arg, vs, NewValues(c, like.fold, vs).value, env);
    if Eval(c, arg, env).Fail? {
      LikeOfNoText(c, like, Eval(c, arg, env), vs);
    }
  }

  lemma CallMeans(c: Culture, like: Like, arg: Expr, obj: Expr, env: Env)
    ensures Eval(c, LikeCall(like, arg, obj), env) == LikeValue(c, like, Eval(c, arg, env), Eval(c, obj, env))
  {
  }

  lemma ReplacementMeans(c: Culture, like: Like, arg: Expr, obj: Expr, env: Env)
    requires Understood(c, like, arg, obj) && arg.Member? && Replacement(c, like, arg, obj).Some?
    requires Replacement(c, like, arg, obj).value.Some?
    ensures Eval(c, Replacement(c, like, arg, obj).value.value, env) == Eval(c, LikeCall(like, arg, obj), env)
  {
    hide Chain, LikeValue, LikeValues, Eval, NewValues, Covers, ValuesOf, Replacement, Texts, ConstantArray;
    ReplacementIs(c, like, arg, obj);
    ValuesAreRight(c, obj, env);
    CallMeans(c, like, arg, obj, env);
    if like.fold == AsIs {
      PlainReplacementMeans(c, like, arg, ValuesOf(c, obj).vs, env);
    } else {
      FoldedReplacementMeans(c, like, arg, ValuesOf(c, obj).vs, env);
    }
  }

  lemma {:induction false} VisitAllMeans(c: Culture, es: seq<Expr>, env: Env)
    requires (forall i :: 0 <= i < |es| ==> Plain(c, es[i])) && VisitAll(c, es).Some?
    ensures EvalAll(c, VisitAll(c, es).value, env) == EvalAll(c, es, env)
    decreases es, 0
  {
    if es != [] {
      var n := |es| - 1;
      VisitAllMeans(c, es[..n], env);
      VisitMeans(c, es[n], env);
      assert VisitAll(c, es).value[..n] == VisitAll(c, es[..n]).value;
    }
  }

  lemma {:induction false} VisitAnyMeans(c: Culture, bound: nat, body: Expr, env: Env, vs: seq<Value>)
    requires Plain(c, body) && Visit(c, body).Some?
    ensures EvalAny(c, bound, Visit(c, body).value, env, vs) == EvalAny(c, bound, body, env, vs)
    decreases body, 1 + |vs|
  {
    if vs != [] {
      var n := |vs| - 1;
      VisitAnyMeans(c, bound, body, env, vs[..n]);
      VisitMeans(c, body, env[bound := vs[n]]);
    }
  }

  /** What the visitor returns for an expression whose calls it understands means the same, exceptions included. */
  lemma {:induction false} VisitMeans(c: Culture, e: Expr, env: Env)
    requires Plain(c, e) && Visit(c, e).Some?
    ensures Eval(c, Visit(c, e).value, env) == Eval(c, e, env)
    decreases e, 0
  {
    match e
    case Param(_) =>
    case Const(_) =>
    case Member(obj, _) => VisitMeans(c, obj, env);
    case NewArray(es) => VisitAllMeans(c, es, env);
    case LikeCall(like, arg, obj) =>
      if Replacement(c, like, arg, obj).value.Some? {
        ReplacementMeans(c, like, arg, obj, env);
      } else {
        VisitMeans(c, arg, env);
        VisitMeans(c, obj, env);
      }
    case Contains(l, r) => VisitMeans(c, l, env); VisitMeans(c, r, env);
    case ToCase(_, e1) => VisitMeans(c, e1, env);
    case Equal(l, r) => VisitMeans(c, l, env); VisitMeans(c, r, env);
    case AndAlso(l, r) => VisitMeans(c, l, env); VisitMeans(c, r, env);
    case OrElse(l, r) => VisitMeans(c, l, env); VisitMeans(c, r, env);
    case Not(e1) => VisitMeans(c, e1, env);
    case AnyOf(list, bound, body) =>
      VisitMeans(c, list, env);
      var v := Eval(c, list, env);
      if v.List? {
        VisitAnyMeans(c, bound, body, env, v.items);
      }
  }

  // ----- lists that are neither members nor arrays of constants -----

  /** The value cannot be stored for a comparison: the plain variants take texts and nulls, the others no nulls. */
  predicate Unstorable(fold: Case, v: Value)
  {
    if fold == AsIs then !v.Str? && !v.Null? else v.Null? || v.Fail?
  }

  lemma {:induction false} NewValuesExist(c: Culture, fold: Case, vs: seq<Value>)
    ensures NewValues(c, fold, vs).None? <==> AnyUnstorable(fold, vs)
  {
    if vs != [] {
      NewValuesExist(c, fold, vs[..|vs| - 1]);
    }
  }

  ghost predicate AnyUnstorable(fold: Case, vs: seq<Value>)
  {
    exists i :: 0 <= i < |vs| && Unstorable(fold, vs[i])
  }

  /** The visitor throws on a call if its list is a member that cannot be run, or if a value found cannot be stored. */
  ghost predicate CallThrows(c: Culture, like: Like, arg: Expr, obj: Expr)
  {
    && arg.Member?
    && if obj.Member? then
         || !Ground(obj)
         || Eval(c, obj, map[]).Fail?
         || (Eval(c, obj, map[]).List? && AnyUnstorable(like.fold, Eval(c, obj, map[]).items))
       else AnyUnstorable(like.fold, GetValues(obj))
  }

  /** Some call that the visitor comes to throws; it does not look into a call that it replaces. */
  ghost predicate Throws(c: Culture, e: Expr)
    decreases e
  {
    match e
    case Param(_) => false
    case Const(_) => false
    case Member(obj, _) => Throws(c, obj)
    case NewArray(es) => exists i :: 0 <= i < |es| && Throws(c, es[i])
    case LikeCall(like, arg, obj) =>
      || CallThrows(c, like, arg, obj)
      || (Replacement(c, like, arg, obj) == Some(None) && (Throws(c, arg) || Throws(c, obj)))
    case Contains(l, r) => Throws(c, l) || Throws(c, r)
    case ToCase(_, e1) => Throws(c, e1)
    case Equal(l, r) => Throws(c, l) || Throws(c, r)
    case AndAlso(l, r) => Throws(c, l) || Throws(c, r)
    case OrElse(l, r) => Throws(c, l) || Throws(c, r)
    case Not(e1) => Throws(c, e1)
    case AnyOf(list, _, body) => Throws(c, list) || Throws(c, body)
  }

  lemma CallThrowsExactly(c: Culture, like: Like, arg: Expr, obj: Expr)
    ensures Replacement(c, like, arg, obj).None? <==> CallThrows(c, like, arg, obj)
  {
    if ValuesOf(c, obj).Values? {
      NewValuesExist(c, like.fold, ValuesOf(c, obj).vs);
    }
  }

  lemma {:induction false} VisitAllThrows(c: Culture, es: seq<Expr>)
    ensures VisitAll(c, es).None? <==> exists i :: 0 <= i < |es| && Throws(c, es[i])
    decreases es, 0
  {
    if es != [] {
      VisitAllThrows(c, es[..|es| - 1]);
      VisitThrowsExactly(c, es[|es| - 1]);
    }
  }

  /** When the visitor throws. */
  lemma {:induction false} VisitThrowsExactly(c: Culture, e: Expr)
    ensures Visit(c, e).None? <==> Throws(c, e)
    decreases e, 0
  {
    match e
    case Param(_) =>
    case Const(_) =>
    case Member(obj, _) => VisitThrowsExactly(c, obj);
    case NewArray(es) => VisitAllThrows(c, es);
    case LikeCall(like, arg, obj) =>
      CallThrowsExactly(c, like, arg, obj);
      VisitThrowsExactly(c, arg);
      VisitThrowsExactly(c, obj);
    case Contains(l, r) => VisitThrowsExactly(c, l); VisitThrowsExactly(c, r);
    case ToCase(_, e1) => VisitThrowsExactly(c, e1);
    case Equal(l, r) => VisitThrowsExactly(c, l); VisitThrowsExactly(c, r);
    case AndAlso(l, r) => VisitThrowsExactly(c, l); VisitThrowsExactly(c, r);
    case OrElse(l, r) => VisitThrowsExactly(c, l); VisitThrowsExactly(c, r);
    case Not(e1) => VisitThrowsExactly(c, e1);
    case AnyOf(list, _, body) => VisitThrowsExactly(c, list); VisitThrowsExactly(c, body);
  }

  ghost predicate AllText(vs: seq<Value>)
  {
    forall i :: 0 <= i < |vs| ==> vs[i].Str?
  }

  /** Does the text match the values, some or all of them? */
  ghost predicate Matches(c: Culture, like: Like, y: string, vs: seq<Value>)
    requires AllText(vs)
  {
    if like.all
    then forall i :: 0 <= i < |vs| ==> HasPart(Folded(c, like.fold, y), Folded(c, like.fold, vs[i].s))
    else exists i :: 0 <= i < |vs| && HasPart(Folded(c, like.fold, y), Folded(c, like.fold, vs[i].s))
  }

  /** Of the values found, those that the chain compares with. */
  function Kept(like: Like, found: seq<Value>): (r: seq<Value>)
    requires found != []
    ensures r != [] && r <= found
  {
    if like.fold == AsIs then found else found[..1]
  }

  lemma PlainChainOfTexts(c: Culture, like: Like, arg: Expr, found: seq<Value>, env: Env, y: string)
    requires like.fold == AsIs && found != [] && AllText(found) && Eval(c, arg, env) == Str(y)
    ensures Chain(like, arg, found).Some? && Eval(c, Chain(like, arg, found).value, env) == Bool(Matches(c, like, y, found))
  {
    hide Chain, LikeValues, Matches;
    PlainChainMeans(c, like, arg, found, env);
    PlainTextsMatch(c, like, y, found);
  }

  lemma PlainTextsMatch(c: Culture, like: Like, y: string, vs: seq<Value>)
    requires vs != [] && AllText(vs)
    ensures LikeValues(c, like, Str(y), vs) == Bool(Matches(c, like, y, vs))
  {
    LikeMeans(c, like, y, vs);
  }

  lemma FoldedChainOfTexts(c: Culture, like: Like, argMember: Expr, nv: seq<Value>, env: Env, y: string)
    requires like.fold != AsIs && nv != [] && nv[0].Str? && Eval(c, argMember, env) == Str(y)
    ensures Chain(like, argMember, nv).Some?
    ensures Eval(c, Chain(like, argMember, nv).value, env) == Bool(HasPart(y, nv[0].s))
  {
    hide Chain;
    FoldedChainIsFirst(c, like, argMember, nv);
    ComparisonMeans(c, argMember, nv[0], env);
  }

  lemma ChainOfTexts(c: Culture, like: Like, arg: Expr, found: seq<Value>, env: Env, y: string)
    requires found != [] && AllText(found) && Eval(c, arg, env) == Str(y)
    ensures NewValues(c, like.fold, found).Some? && Chain(like, ArgMember(like, arg), NewValues(c, like.fold, found).value).Some?
    ensures Eval(c, Chain(like, ArgMember(like, arg), NewValues(c, like.fold, found).value).value, env)
         == Bool(Matches(c, like, y, Kept(like, found)))
  {
    hide Chain, LikeValues, NewValues;
    NewValuesExist(c, like.fold, found);
    NewValuesAre(c, like.fold, found);
    var nv := NewValues(c, like.fold, found).value;
    if like.fold == AsIs {
      PlainChainOfTexts(c, like, arg, found, env, y);
    } else {
      FoldedChainOfTexts(c, like, ArgMember(like, arg), nv, env, Folded(c, like.fold, y));
      assert Kept(like, found)[0] == found[0];
    }
  }

  lemma ArrayMeans(c: Culture, es: seq<Expr>, env: Env)
    requires AllText(EvalAll(c, es, env))
    ensures Eval(c, NewArray(es), env) == List(EvalAll(c, es, env))
  {
  }

  /**
   A call over any array that evaluates to texts, with text constants in it: what the call means, and what
   the visitor makes of it.  The two agree exactly if the texts found match when the elements do.
   */
  lemma ArrayCallExactly(c: Culture, like: Like, arg: Expr, es: seq<Expr>, env: Env, y: string)
    requires arg.Member? && Eval(c, arg, env) == Str(y) && AllText(EvalAll(c, es, env))
    requires GetAllValues(es) != [] && AllText(GetAllValues(es))
    ensures var call := LikeCall(like, arg, NewArray(es));
            && Visit(c, call).Some?
            && Eval(c, call, env) == Bool(Matches(c, like, y, EvalAll(c, es, env)))
            && Eval(c, Visit(c, call).value, env) == Bool(Matches(c, like, y, Kept(like, GetAllValues(es))))
  {
    hide Chain, LikeValues, NewValues, EvalAll, GetAllValues, AllText, Matches;
    var obj, found, elements := NewArray(es), GetAllValues(es), EvalAll(c, es, env);
    assert GetValues(obj) == found;
    ChainOfTexts(c, like, arg, found, env, y);
    ArrayMeans(c, es, env);
    CallMeans(c, like, arg, obj, env);
    TextsMatch(c, like, y, elements);
  }

  lemma TextsMatch(c: Culture, like: Like, y: string, vs: seq<Value>)
    requires AllText(vs)
    ensures LikeValue(c, like, Str(y), List(vs)) == Bool(Matches(c, like, y, vs))
  {
    LikeMeans(c, like, y, vs);
  }

  /** Each element is a constant text or has no constants in it. */
  ghost predicate Flat(es: seq<Expr>)
  {
    forall i :: 0 <= i < |es| ==> (es[i].Const? && es[i].v.Str?) || GetValues(es[i]) == []
  }

  lemma {:induction false} FlatFound(c: Culture, es: seq<Expr>, env: Env)
    requires Flat(es)
    ensures AllText(GetAllValues(es)) && forall v :: v in GetAllValues(es) ==> v in EvalAll(c, es, env)
  {
    if es != [] {
      var n := |es| - 1;
      FlatFound(c, es[..n], env);
      assert (es[n].Const? && es[n].v.Str?) || GetValues(es[n]) == [];
    }
  }

  /** Does the text lack some value that should be there (all), or have one of the values (some)? */
  ghost predicate Decides(c: Culture, like: Like, y: string, vs: seq<Value>)
    requires AllText(vs)
  {
    exists i :: 0 <= i < |vs| && HasPart(Folded(c, like.fold, y), Folded(c, like.fold, vs[i].s)) != like.all
  }

  lemma DecidesMatches(c: Culture, like: Like, y: string, vs: seq<Value>)
    requires AllText(vs)
    ensures Decides(c, like, y, vs) <==> Matches(c, like, y, vs) != like.all
  {
  }

  /**
   In such an array the elements without constants are lost.  The rewritten call agrees with the call at a
   text exactly if a value kept decides, or no element does: for LikeAny, if a value kept occurs in the text
   or no element does; for LikeAll, if a value kept does not occur or every element does.
   */
  lemma FlatArrayExactly(c: Culture, like: Like, arg: Expr, es: seq<Expr>, env: Env, y: string)
    requires arg.Member? && Eval(c, arg, env) == Str(y) && AllText(EvalAll(c, es, env))
    requires Flat(es) && GetAllValues(es) != []
    ensures AllText(GetAllValues(es))
    ensures var call := LikeCall(like, arg, NewArray(es));
            && Visit(c, call).Some?
            && (Eval(c, Visit(c, call).value, env) == Eval(c, call, env) <==>
                Decides(c, like, y, Kept(like, GetAllValues(es))) || !Decides(c, like, y, EvalAll(c, es, env)))
  {
    hide Chain, LikeValues, NewValues, EvalAll, GetAllValues, Visit, Eval, Matches, Flat;
    var found, elements := GetAllValues(es), EvalAll(c, es, env);
    FlatFound(c, es, env);
    ArrayCallExactly(c, like, arg, es, env, y);
    var kept := Kept(like, found);
    DecidesMatches(c, like, y, kept);
    DecidesMatches(c, like, y, elements);
    if Decides(c, like, y, kept) {
      var i :| 0 <= i < |kept| && HasPart(Folded(c, like.fold, y), Folded(c, like.fold, kept[i].s)) != like.all;
      assert kept[i] == found[i] && found[i] in found;
      var k :| 0 <= k < |elements| && elements[k] == found[i];
      assert HasPart(Folded(c, like.fold, y), Folded(c, like.fold, elements[k].s)) != like.all;
    }
  }

  /** A call over a list without constants stays, and keeps its meaning with its parts. */
  lemma CallStays(c: Culture, like: Like, arg: Expr, obj: Expr)
    requires !obj.Member? && GetValues(obj) == []
    ensures Replacement(c, like, arg, obj) == Some(None)
    ensures Understood(c, like, arg, obj)
  {
  }

  /** A captured local: a member of the object that holds the locals. */
  ghost predicate Captured(e: Expr)
  {
    e.Member? && e.obj.Const? && e.obj.v.Obj?
  }

  lemma {:induction false} FoundAt(es: seq<Expr>, k: nat)
    requires k < |es| && Captured(es[k])
    ensures es[k].obj.v in GetAllValues(es)
    ensures k == 0 ==> GetAllValues(es)[0] == es[0].obj.v
  {
    var n := |es| - 1;
    if k < n {
      FoundAt(es[..n], k);
      assert GetAllValues(es) == GetAllValues(es[..n]) + GetValues(es[n]);
    } else {
      assert GetValues(es[n]) == [es[n].obj.v];
      if k == 0 {
        assert es[..0] == [];
      }
    }
  }

  /**
   An array with a captured local in it yields the object that holds the locals in place of the local's
   value.  The plain variants cannot store it, so the visitor throws; the others compare with what the object
   says of itself, if it comes first.
   */
  lemma CapturedLocals(c: Culture, like: Like, arg: Expr, es: seq<Expr>, k: nat)
    requires arg.Member? && k < |es| && Captured(es[k])
    ensures like.fold == AsIs ==> Visit(c, LikeCall(like, arg, NewArray(es))).None?
    ensures like.fold != AsIs && k == 0 && !CallThrows(c, like, arg, NewArray(es)) ==>
              Visit(c, LikeCall(like, arg, NewArray(es))) ==
              Some(Comparison(ToCase(like.fold, arg), Str(Folded(c, like.fold, c.describe(es[0].obj.v)))))
  {
    hide GetAllValues, NewValues, Chain;
    var found := GetAllValues(es);
    assert GetValues(NewArray(es)) == found;
    FoundAt(es, k);
    CallThrowsExactly(c, like, arg, NewArray(es));
    if like.fold == AsIs {
      var i :| 0 <= i < |found| && found[i] == es[k].obj.v;
      assert Unstorable(like.fold, found[i]) && AnyUnstorable(like.fold, found);
      assert CallThrows(c, like, arg, NewArray(es));
    } else if k == 0 && !CallThrows(c, like, arg, NewArray(es)) {
      FirstNewValue(c, like.fold, found);
      FoldedChainIsFirst(c, like, ArgMember(like, arg), NewValues(c, like.fold, found).value);
    }
  }

  lemma {:induction false} FirstNewValue(c: Culture, fold: Case, vs: seq<Value>)
    requires vs != [] && NewValues(c, fold, vs).Some?
    ensures |NewValues(c, fold, vs).value| == |vs| && Some(NewValues(c, fold, vs).value[0]) == NewValue(c, fold, vs[0])
  {
    if |vs| > 1 {
      FirstNewValue(c, fold, vs[..|vs| - 1]);
    } else {
      assert NewValues(c, fold, vs[..0]) == Some([]);
    }
  }

  const ANY := LikeMethod(false, AsIs)

  lemma TwoElements(c: Culture, a: Expr, b: Expr, env: Env)
    ensures EvalAll(c, [a, b], env) == [Eval(c, a, env), Eval(c, b, env)]
    ensures GetAllValues([a, b]) == GetValues(a) + GetValues(b)
  {
    var es := [a, b];
    assert es[..1] == [a] && es[..1][..0] == [];
    assert EvalAll(c, es[..1][..0], env) == [] && GetAllValues(es[..1][..0]) == [];
    assert GetAllValues(es[..1]) == GetValues(a);
  }

  lemma OneValue(c: Culture, arg: Expr, x: string)
    ensures NewValues(c, AsIs, [Str(x)]) == Some([Str(x)])
    ensures Chain(ANY, arg, [Str(x)]) == Some(Comparison(arg, Str(x)))
  {
    var vs := [Str(x)];
    assert vs[..0] == [] && NewValues(c, AsIs, vs[..0]) == Some([]) && Chain(ANY, arg, vs[..0]).None?;
    var none: seq<Value> := [];
    assert none + vs == vs;
  }

  /** An array with anything but constants in it loses these elements, and with them the matches they give. */
  lemma DroppedElement(c: Culture, arg: Expr, x: string, other: Expr, env: Env, y: string)
    requires arg.Member? && GetValues(other) == [] && !HasPart(y, x)
    requires Eval(c, arg, env) == Str(y) && Eval(c, other, env) == Str(y)
    ensures var call := LikeCall(ANY, arg, NewArray([Const(Str(x)), other]));
            && Eval(c, call, env) == Bool(true)
            && Visit(c, call).Some? && Eval(c, Visit(c, call).value, env) == Bool(false)
  {
    hide EvalAll, GetAllValues, NewValues, Chain, LikeValues, Comparison;
    var obj, vs := NewArray([Const(Str(x)), other]), [Str(x), Str(y)];
    TwoElements(c, Const(Str(x)), other, env);
    assert GetValues(obj) == [Str(x)];
    OneValue(c, arg, x);
    ComparisonMeans(c, arg, Str(x), env);
    LikeMeans(c, ANY, y, vs);
    PartRefl(y);
    assert vs[1] == Str(y) && HasPart(Folded(c, AsIs, y), Folded(c, AsIs, vs[1].s));
  }

  lemma OneElement(c: Culture, e: Expr, env: Env)
    ensures EvalAll(c, [e], env) == [Eval(c, e, env)]
    ensures GetAllValues([e]) == GetValues(e)
  {
    assert [e][..0] == [] && EvalAll(c, [e][..0], env) == [] && GetAllValues([e][..0]) == [];
  }

  /**
   What is found need not be an element: of a lower-case conversion the text that it converts is found.  A text
   that has it, but not the converted one, matches the rewritten call and not the call.
   */
  lemma FoundInside(c: Culture, arg: Expr, x: string, env: Env)
    requires arg.Member? && Eval(c, arg, env) == Str(x) && !HasPart(x, Folded(c, Lower, x))
    ensures var call := LikeCall(ANY, arg, NewArray([ToCase(Lower, Const(Str(x)))]));
            && Eval(c, call, env) == Bool(false)
            && Visit(c, call).Some? && Eval(c, Visit(c, call).value, env) == Bool(true)
  {
    hide Visit;
    var lower := ToCase(Lower, Const(Str(x)));
    var es := [lower];
    assert Eval(c, lower, env) == Str(Folded(c, Lower, x));
    OneElement(c, lower, env);
    ArrayCallExactly(c, ANY, arg, es, env, x);
    PartRefl(x);
    assert Kept(ANY, GetAllValues(es))[0] == Str(x) && Folded(c, AsIs, x) == x;
  }

  // ----- no call is left -----

  predicate CallFree(e: Expr)
  {
    match e
    case Param(_) => true
    case Const(_) => true
    case Member(obj, _) => CallFree(obj)
    case NewArray(es) => forall i :: 0 <= i < |es| ==> CallFree(es[i])
    case LikeCall(_, _, _) => false
    case Contains(l, r) => CallFree(l) && CallFree(r)
    case ToCase(_, e1) => CallFree(e1)
    case Equal(l, r) => CallFree(l) && CallFree(r)
    case AndAlso(l, r) => CallFree(l) && CallFree(r)
    case OrElse(l, r) => CallFree(l) && CallFree(r)
    case Not(e1) => CallFree(e1)
    case AnyOf(list, _, body) => CallFree(list) && CallFree(body)
  }

  /** Each call asks about a member, and its list has values. */
  ghost predicate Translatable(c: Culture, e: Expr)
    decreases e
  {
    match e
    case Param(_) => true
    case Const(_) => true
    case Member(obj, _) => Translatable(c, obj)
    case NewArray(es) => forall i :: 0 <= i < |es| ==> Translatable(c, es[i])
    case LikeCall(_, arg, obj) =>
      arg.Member? && CallFree(arg) && ValuesOf(c, obj).Values? && ValuesOf(c, obj).vs != []
    case Contains(l, r) => Translatable(c, l) && Translatable(c, r)
    case ToCase(_, e1) => Translatable(c, e1)
    case Equal(l, r) => Translatable(c, l) && Translatable(c, r)
    case AndAlso(l, r) => Translatable(c, l) && Translatable(c, r)
    case OrElse(l, r) => Translatable(c, l) && Translatable(c, r)
    case Not(e1) => Translatable(c, e1)
    case AnyOf(list, _, body) => Translatable(c, list) && Translatable(c, body)
  }

  lemma ComparisonIsFree(argMember: Expr, v: Value)
    requires CallFree(argMember)
    ensures CallFree(Comparison(argMember, v))
  {
    var value := Member(Const(Obj(map["Value" := v])), "Value");
    assert CallFree(value);
    assert CallFree(Contains(argMember, value));
  }

  lemma {:induction false} ChainIsFree(like: Like, argMember: Expr, vs: seq<Value>)
    requires CallFree(argMember) && vs != []
    ensures Chain(like, argMember, vs).Some? && CallFree(Chain(like, argMember, vs).value)
  {
    hide Comparison;
    ComparisonIsFree(argMember, vs[|vs| - 1]);
    if |vs| > 1 {
      ChainIsFree(like, argMember, vs[..|vs| - 1]);
    }
  }

  lemma {:induction false} NewValuesCount(c: Culture, fold: Case, vs: seq<Value>)
    requires NewValues(c, fold, vs).Some?
    ensures |NewValues(c, fold, vs).value| == |vs|
  {
    if vs != [] {
      NewValuesCount(c, fold, vs[..|vs| - 1]);
    }
  }

  lemma {:induction false} AllAreReplaced(c: Culture, es: seq<Expr>)
    requires (forall i :: 0 <= i < |es| ==> Translatable(c, es[i])) && VisitAll(c, es).Some?
    ensures forall i :: 0 <= i < |es| ==> CallFree(VisitAll(c, es).value[i])
    decreases es, 0
  {
    if es != [] {
      AllAreReplaced(c, es[..|es| - 1]);
      CallsAreReplaced(c, es[|es| - 1]);
    }
  }

  /** Of an expression whose calls can be translated, nothing is left for the database to refuse. */
  lemma {:induction false} CallsAreReplaced(c: Culture, e: Expr)
    requires Translatable(c, e) && Visit(c, e).Some?
    ensures CallFree(Visit(c, e).value)
    decreases e, 0
  {
    match e
    case Param(_) =>
    case Const(_) =>
    case Member(obj, _) => CallsAreReplaced(c, obj);
    case NewArray(es) => AllAreReplaced(c, es);
    case LikeCall(like, arg, obj) => CallIsReplaced(c, like, arg, obj);
    case Contains(l, r) => CallsAreReplaced(c, l); CallsAreReplaced(c, r);
    case ToCase(_, e1) => CallsAreReplaced(c, e1);
    case Equal(l, r) => CallsAreReplaced(c, l); CallsAreReplaced(c, r);
    case AndAlso(l, r) => CallsAreReplaced(c, l); CallsAreReplaced(c, r);
    case OrElse(l, r) => CallsAreReplaced(c, l); CallsAreReplaced(c, r);
    case Not(e1) => CallsAreReplaced(c, e1);
    case AnyOf(list, _, body) => CallsAreReplaced(c, list); CallsAreReplaced(c, body);
  }

  lemma CallIsReplaced(c: Culture, like: Like, arg: Expr, obj: Expr)
    requires Translatable(c, LikeCall(like, arg, obj)) && Replacement(c, like, arg, obj).Some?
    ensures Replacement(c, like, arg, obj).value.Some? && CallFree(Replacement(c, like, arg, obj).value.value)
  {
    hide Chain, NewValues;
    var vs := ValuesOf(c, obj).vs;
    NewValuesCount(c, like.fold, vs);
    ChainIsFree(like, ArgMember(like, arg), NewValues(c, like.fold, vs).value);
  }
}
