/**
 Router combinators: parsers and printers of routes that belong together.

 A router's printer gives the pieces of a route; its parser gives the values that a route may start with, each
 with the route that is left.  A router round-trips if the parser, given what the printer wrote followed by
 anything, finds the value and leaves what followed; it is exact if it finds nothing else.
 */
module Routers {
  import opened Wrappers
  import opened Sequences
  import opened StringEncoding
  import opened Routes

  datatype Router<!T> = Router(parse: Route -> seq<(Route, T)>, write: T -> Option<seq<Route>>)

  /** A router without a value. */
  datatype PlainRouter = PlainRouter(parse: Route -> seq<Route>, segment: seq<Route>)

  /** The route of some pieces, followed by `rest`. */
  function Before(pieces: seq<Route>, rest: Route): Route
  {
    Append(AppendAll(pieces), rest)
  }

  ghost predicate RoundTripsAt<T>(r: Router<T>, v: T, rest: Route)
  {
    r.write(v).Some? ==> (rest, v) in r.parse(Before(r.write(v).value, rest))
  }

  ghost predicate ExactAt<T>(r: Router<T>, v: T, rest: Route)
  {
    r.write(v).Some? ==> r.parse(Before(r.write(v).value, rest)) == [(rest, v)]
  }

  ghost predicate RoundTrips<T(!new)>(r: Router<T>)
  {
    forall v: T, rest: Route :: RoundTripsAt(r, v, rest)
  }

  ghost predicate Exact<T(!new)>(r: Router<T>)
  {
    forall v: T, rest: Route :: ExactAt(r, v, rest)
  }

  ghost predicate PlainRoundTrips(r: PlainRouter)
  {
    forall rest: Route :: PlainRoundTripsAt(r, rest)
  }

  ghost predicate PlainRoundTripsAt(r: PlainRouter, rest: Route)
  {
    rest in r.parse(Before(r.segment, rest))
  }

  ghost predicate PlainExact(r: PlainRouter)
  {
    forall rest: Route :: PlainExactAt(r, rest)
  }

  ghost predicate PlainExactAt(r: PlainRouter, rest: Route)
  {
    r.parse(Before(r.segment, rest)) == [rest]
  }

  lemma ExactRoundTrips<T(!new)>(r: Router<T>)
    requires Exact(r)
    ensures RoundTrips(r)
  {
    forall v: T, rest: Route
      ensures RoundTripsAt(r, v, rest)
    {
      assert ExactAt(r, v, rest);
    }
  }

  // ----- collecting -----

  function Collect<A, B>(f: A -> seq<B>, s: seq<A>): seq<B>
  {
    if s == [] then [] else f(s[0]) + Collect(f, s[1..])
  }

  lemma {:induction false} CollectMember<A, B>(f: A -> seq<B>, s: seq<A>, x: A, y: B)
    requires x in s && y in f(x)
    ensures y in Collect(f, s)
  {
    if s[0] != x {
      CollectMember(f, s[1..], x, y);
    }
  }

  lemma CollectOne<A, B>(f: A -> seq<B>, x: A)
    ensures Collect(f, [x]) == f(x)
  {
    assert [x][1..] == [];
    assert f(x) + [] == f(x);
  }

  lemma BeforeTwice(a: seq<Route>, b: seq<Route>, rest: Route)
    ensures Before(a + b, rest) == Before(a, Before(b, rest))
  {
    AppendAllSplits(a, b);
    AppendAssociates(AppendAll(a), AppendAll(b), rest);
  }

  lemma BeforeNothing(rest: Route)
    ensures Before([], rest) == rest
  {
    AppendEmpty(rest);
  }

  lemma AppendAllOne(p: Route)
    ensures AppendAll([p]) == p
  {
    assert [p][..0] == [];
    AppendEmpty(p);
  }

  lemma BeforeSegments(s: seq<Text>, rest: Route)
    ensures Before([SegmentList(s)], rest) == rest.(segments := s + rest.segments)
  {
    AppendAllOne(SegmentList(s));
  }

  // ----- pairs -----

  function PairStep<A, B>(after: Router<B>, px: (Route, A)): seq<(Route, (A, B))>
  {
    Map((py: (Route, B)) => (py.0, (px.1, py.1)), after.parse(px.0))
  }

  function Both(a: Option<seq<Route>>, b: Option<seq<Route>>): Option<seq<Route>>
  {
    if a.Some? && b.Some? then Some(a.value + b.value) else None
  }

  function Pair<A, B>(before: Router<A>, after: Router<B>): Router<(A, B)>
  {
    Router(
      path => Collect(px => PairStep(after, px), before.parse(path)),
      (v: (A, B)) => Both(before.write(v.0), after.write(v.1)))
  }

  lemma PairRoundTrips<A(!new), B(!new)>(before: Router<A>, after: Router<B>)
    requires RoundTrips(before) && RoundTrips(after)
    ensures RoundTrips(Pair(before, after))
  {
    var r := Pair(before, after);
    forall v: (A, B), rest: Route | r.write(v).Some?
      ensures RoundTripsAt(r, v, rest)
    {
      var a, b := before.write(v.0).value, after.write(v.1).value;
      var middle := Before(b, rest);
      BeforeTwice(a, b, rest);
      assert RoundTripsAt(before, v.0, middle) && RoundTripsAt(after, v.1, rest);
      var i :| 0 <= i < |after.parse(middle)| && after.parse(middle)[i] == (rest, v.1);
      assert PairStep(after, (middle, v.0))[i] == (rest, (v.0, v.1));
      CollectMember(px => PairStep(after, px), before.parse(Before(a, middle)), (middle, v.0), (rest, v));
    }
  }

  lemma PairExact<A(!new), B(!new)>(before: Router<A>, after: Router<B>)
    requires Exact(before) && Exact(after)
    ensures Exact(Pair(before, after))
  {
    var r := Pair(before, after);
    forall v: (A, B), rest: Route | r.write(v).Some?
      ensures ExactAt(r, v, rest)
    {
      var a, b := before.write(v.0).value, after.write(v.1).value;
      var middle := Before(b, rest);
      BeforeTwice(a, b, rest);
      assert ExactAt(before, v.0, middle) && ExactAt(after, v.1, rest);
      CollectOne(px => PairStep(after, px), (middle, v.0));
      assert PairStep(after, (middle, v.0)) == [(rest, (v.0, v.1))];
    }
  }

  // ----- constants before and after a value -----

  function Ahead<T>(before: PlainRouter, after: Router<T>): Router<T>
  {
    Router(
      path => Collect(after.parse, before.parse(path)),
      v => Both(Some(before.segment), after.write(v)))
  }

  function Behind<T>(before: Router<T>, after: PlainRouter): Router<T>
  {
    Router(
      path => Collect((px: (Route, T)) => Map(p => (p, px.1), after.parse(px.0)), before.parse(path)),
      v => Both(before.write(v), Some(after.segment)))
  }

  lemma AheadExact<T(!new)>(before: PlainRouter, after: Router<T>)
    requires PlainExact(before) && Exact(after)
    ensures Exact(Ahead(before, after))
  {
    var r := Ahead(before, after);
    forall v: T, rest: Route | r.write(v).Some?
      ensures ExactAt(r, v, rest)
    {
      var w := after.write(v).value;
      var middle := Before(w, rest);
      BeforeTwice(before.segment, w, rest);
      assert PlainExactAt(before, middle) && ExactAt(after, v, rest);
      CollectOne(after.parse, middle);
    }
  }

  lemma AheadRoundTrips<T(!new)>(before: PlainRouter, after: Router<T>)
    requires PlainRoundTrips(before) && RoundTrips(after)
    ensures RoundTrips(Ahead(before, after))
  {
    var r := Ahead(before, after);
    forall v: T, rest: Route | r.write(v).Some?
      ensures RoundTripsAt(r, v, rest)
    {
      var w := after.write(v).value;
      var middle := Before(w, rest);
      BeforeTwice(before.segment, w, rest);
      assert PlainRoundTripsAt(before, middle) && RoundTripsAt(after, v, rest);
      CollectMember(after.parse, before.parse(Before(before.segment, middle)), middle, (rest, v));
    }
  }

  lemma BehindExact<T(!new)>(before: Router<T>, after: PlainRouter)
    requires Exact(before) && PlainExact(after)
    ensures Exact(Behind(before, after))
  {
    var r := Behind(before, after);
    forall v: T, rest: Route | r.write(v).Some?
      ensures ExactAt(r, v, rest)
    {
      var w := before.write(v).value;
      var middle := Before(after.segment, rest);
      BeforeTwice(w, after.segment, rest);
      assert ExactAt(before, v, middle) && PlainExactAt(after, rest);
      CollectOne((px: (Route, T)) => Map(p => (p, px.1), after.parse(px.0)), (middle, v));
      assert Map(p => (p, v), [rest]) == [(rest, v)];
    }
  }

  lemma BehindRoundTrips<T(!new)>(before: Router<T>, after: PlainRouter)
    requires RoundTrips(before) && PlainRoundTrips(after)
    ensures RoundTrips(Behind(before, after))
  {
    var r := Behind(before, after);
    forall v: T, rest: Route | r.write(v).Some?
      ensures RoundTripsAt(r, v, rest)
    {
      var w := before.write(v).value;
      var middle := Before(after.segment, rest);
      BeforeTwice(w, after.segment, rest);
      assert RoundTripsAt(before, v, middle) && PlainRoundTripsAt(after, rest);
      var f := (px: (Route, T)) => Map(p => (p, px.1), after.parse(px.0));
      var i :| 0 <= i < |after.parse(middle)| && after.parse(middle)[i] == rest;
      assert f((middle, v))[i] == (rest, v);
      CollectMember(f, before.parse(Before(w, middle)), (middle, v), (rest, v));
    }
  }

  // ----- alternatives -----

  function Or<T>(a: Router<T>, b: Router<T>): Router<T>
  {
    Router(path => a.parse(path) + b.parse(path), v => if a.write(v).None? then b.write(v) else a.write(v))
  }

  lemma OrRoundTrips<T(!new)>(a: Router<T>, b: Router<T>)
    requires RoundTrips(a) && RoundTrips(b)
    ensures RoundTrips(Or(a, b))
  {
    var r := Or(a, b);
    forall v: T, rest: Route | r.write(v).Some?
      ensures RoundTripsAt(r, v, rest)
    {
      assert RoundTripsAt(a, v, rest) && RoundTripsAt(b, v, rest);
    }
  }

  function TryPickWrite<T>(routers: seq<Router<T>>, v: T): Option<seq<Route>>
  {
    if routers == [] then None
    else if routers[0].write(v).Some? then routers[0].write(v)
    else TryPickWrite(routers[1..], v)
  }

  function Sum<T>(routers: seq<Router<T>>): Router<T>
  {
    Router(path => Collect((r: Router<T>) => r.parse(path), routers), v => TryPickWrite(routers, v))
  }

  lemma {:induction false} SumFinds<T(!new)>(routers: seq<Router<T>>, v: T, rest: Route)
    requires forall i :: 0 <= i < |routers| ==> RoundTrips(routers[i])
    ensures RoundTripsAt(Sum(routers), v, rest)
  {
    if routers != [] {
      assert RoundTripsAt(routers[0], v, rest);
      SumFinds(routers[1..], v, rest);
    }
  }

  lemma SumRoundTrips<T(!new)>(routers: seq<Router<T>>)
    requires forall i :: 0 <= i < |routers| ==> RoundTrips(routers[i])
    ensures RoundTrips(Sum(routers))
  {
    forall v: T, rest: Route
      ensures RoundTripsAt(Sum(routers), v, rest)
    {
      SumFinds(routers, v, rest);
    }
  }

  // ----- options -----

  const NONE_TEXT: Text := [78, 111, 110, 101]
  const SOME_TEXT: Text := [83, 111, 109, 101]
  const NULL_TEXT: Text := [110, 117, 108, 108]

  function Wrapped<T>(rs: seq<(Route, T)>): seq<(Route, Option<T>)>
  {
    Map((p: (Route, T)) => (p.0, Some(p.1)), rs)
  }

  function ParseOption<T>(item: Router<T>, path: Route): seq<(Route, Option<T>)>
  {
    if path.segments != [] && path.segments[0] == NONE_TEXT then [(path.(segments := path.segments[1..]), None)]
    else if path.segments != [] && path.segments[0] == SOME_TEXT then
      Wrapped(item.parse(path.(segments := path.segments[1..])))
    else []
  }

  function OptionRouter<T>(item: Router<T>): Router<Option<T>>
  {
    Router(
      path => ParseOption(item, path),
      (v: Option<T>) => if v.Some? then Both(Some([Segment(SOME_TEXT)]), item.write(v.value)) else Some([Segment(NONE_TEXT)]))
  }

  lemma BeforeSegment(s: Text, rest: Route)
    ensures var path := Before([Segment(s)], rest);
            path.segments != [] && path.segments[0] == s && path.(segments := path.segments[1..]) == rest
  {
    BeforeSegments([s], rest);
    assert ([s] + rest.segments)[1..] == rest.segments;
  }

  lemma OptionParses<T>(item: Router<T>, v: Option<T>, rest: Route)
    requires OptionRouter(item).write(v).Some?
    ensures OptionRouter(item).parse(Before(OptionRouter(item).write(v).value, rest)) ==
            if v.None? then [(rest, None)] else Wrapped(item.parse(Before(item.write(v.value).value, rest)))
  {
    if v.Some? {
      BeforeTwice([Segment(SOME_TEXT)], item.write(v.value).value, rest);
      BeforeSegment(SOME_TEXT, Before(item.write(v.value).value, rest));
    } else {
      BeforeSegment(NONE_TEXT, rest);
    }
  }

  lemma WrappedMember<T>(rs: seq<(Route, T)>, rest: Route, v: T)
    ensures (rest, v) in rs <==> (rest, Some(v)) in Wrapped(rs)
  {
    if (rest, v) in rs {
      var i :| 0 <= i < |rs| && rs[i] == (rest, v);
      assert Wrapped(rs)[i] == (rest, Some(v));
    }
  }

  lemma OptionRoundTrips<T(!new)>(item: Router<T>)
    requires RoundTrips(item)
    ensures RoundTrips(OptionRouter(item))
  {
    forall v: Option<T>, rest: Route | OptionRouter(item).write(v).Some?
      ensures RoundTripsAt(OptionRouter(item), v, rest)
    {
      OptionParses(item, v, rest);
      if v.Some? {
        assert RoundTripsAt(item, v.value, rest);
        WrappedMember(item.parse(Before(item.write(v.value).value, rest)), rest, v.value);
      }
    }
  }

  lemma OptionExact<T(!new)>(item: Router<T>)
    requires Exact(item)
    ensures Exact(OptionRouter(item))
  {
    forall v: Option<T>, rest: Route | OptionRouter(item).write(v).Some?
      ensures ExactAt(OptionRouter(item), v, rest)
    {
      OptionParses(item, v, rest);
      if v.Some? {
        assert ExactAt(item, v.value, rest);
      }
    }
  }

  function ParseNullable<T>(item: Router<T>, path: Route): seq<(Route, Option<T>)>
  {
    if path.segments != [] && path.segments[0] == NULL_TEXT then [(path.(segments := path.segments[1..]), None)]
    else Wrapped(item.parse(path))
  }

  function Nullable<T>(item: Router<T>): Router<Option<T>>
  {
    Router(
      path => ParseNullable(item, path),
      (v: Option<T>) => if v.Some? then item.write(v.value) else Some([Segment(NULL_TEXT)]))
  }

  /** The pieces have a segment of their own, and it is not the one that stands for null. */
  ghost predicate NotNull(pieces: seq<Route>)
  {
    AppendAll(pieces).segments != [] && AppendAll(pieces).segments[0] != NULL_TEXT
  }

  /** A present value round-trips, whatever follows, exactly if its text has a first segment other than `null`. */
  lemma NullableRoundTripsExactly<T(!new)>(item: Router<T>, v: T)
    requires RoundTrips(item) && item.write(v).Some?
    ensures (forall rest: Route :: RoundTripsAt(Nullable(item), Some(v), rest)) <==> NotNull(item.write(v).value)
    ensures forall rest: Route :: RoundTripsAt(Nullable(item), None, rest)
  {
    var r, w := Nullable(item), item.write(v).value;
    if NotNull(w) {
      forall rest: Route
        ensures RoundTripsAt(r, Some(v), rest)
      {
        assert RoundTripsAt(item, v, rest);
        assert Before(w, rest).segments[0] == AppendAll(w).segments[0];
        WrappedMember(item.parse(Before(w, rest)), rest, v);
      }
    } else {
      var rest := Segment(NULL_TEXT);
      assert Before(w, rest).segments[0] == NULL_TEXT;
      assert !RoundTripsAt(r, Some(v), rest);
    }
    forall rest: Route
      ensures RoundTripsAt(r, None, rest)
    {
      BeforeSegment(NULL_TEXT, rest);
    }
  }

  lemma NullableExact<T(!new)>(item: Router<T>)
    requires Exact(item) && forall v: T :: item.write(v).Some? ==> NotNull(item.write(v).value)
    ensures Exact(Nullable(item))
  {
    forall v: Option<T>, rest: Route | Nullable(item).write(v).Some?
      ensures ExactAt(Nullable(item), v, rest)
    {
      if v.Some? {
        var w := item.write(v.value).value;
        assert ExactAt(item, v.value, rest);
        assert Before(w, rest).segments[0] == AppendAll(w).segments[0];
      } else {
        BeforeSegment(NULL_TEXT, rest);
      }
    }
  }
}
