/** Routers of arrays, lists and tuples: a fixed or written number of items, one after another. */
module RouterCollections {
  import opened Wrappers
  import opened Sequences
  import opened StringEncoding
  import opened Routes
  import opened Routers

  // ----- numerals -----

  const MAX_INT32 := 2147483647

  function Decimal(n: nat): (r: Text)
    ensures r != [] && forall c :: c in r ==> IsDigit(c)
  {
    if n < 10 then [48 + n] else Decimal(n / 10) + [48 + n % 10]
  }

  predicate AllDigits(s: Text)
  {
    s != [] && forall i :: 0 <= i < |s| ==> IsDigit(s[i])
  }

  function NumeralValue(s: Text): (n: nat)
    requires forall i :: 0 <= i < |s| ==> IsDigit(s[i])
  {
    if s == [] then 0 else
    assert IsDigit(s[|s| - 1]);
    10 * NumeralValue(s[..|s| - 1]) + (s[|s| - 1] as int - 48)
  }

  lemma {:induction false} DecimalValue(n: nat)
    ensures AllDigits(Decimal(n)) && NumeralValue(Decimal(n)) == n
  {
    var s := Decimal(n);
    assert forall i :: 0 <= i < |s| ==> s[i] in s;
    if n < 10 {
      assert s[..0] == [];
    } else {
      DecimalValue(n / 10);
      assert s[..|s| - 1] == Decimal(n / 10);
    }
  }

  /** Digits are read as a decimal number; what the platform makes of any other text is a parameter. */
  function TryParseInt32(other: Text -> Option<int>, s: Text): Option<int>
  {
    if AllDigits(s) then
      if NumeralValue(s) <= MAX_INT32 then Some(NumeralValue(s)) else None
    else other(s)
  }

  // ----- arrays -----

  /** `l` items from the front of the path.  For a negative `l` there is no end to it, and no result. */
  function CollectItems<T>(item: Router<T>, l: int, path: Route, acc: seq<T>): seq<(Route, seq<T>)>
    decreases l
  {
    if l < 0 then [] else if l == 0 then [(path, acc)]
    else Collect((pa: (Route, T)) => CollectItems(item, l - 1, pa.0, acc + [pa.1]), item.parse(path))
  }

  function WriteAll<T>(item: Router<T>, vs: seq<T>): Option<seq<Route>>
  {
    if vs == [] then Some([]) else Both(item.write(vs[0]), WriteAll(item, vs[1..]))
  }

  function ParseArray<T>(other: Text -> Option<int>, item: Router<T>, path: Route): seq<(Route, seq<T>)>
  {
    if path.segments == [] then [] else
    var m := TryParseInt32(other, path.segments[0]);
    if m.None? then [] else CollectItems(item, m.value, path.(segments := path.segments[1..]), [])
  }

  function Array<T>(other: Text -> Option<int>, item: Router<T>): Router<seq<T>>
  {
    Router(
      path => ParseArray(other, item, path),
      (vs: seq<T>) => Both(Some([Segment(Decimal(|vs|))]), WriteAll(item, vs)))
  }

  lemma {:induction false} ItemsExact<T(!new)>(item: Router<T>, vs: seq<T>, rest: Route, acc: seq<T>)
    requires Exact(item) && WriteAll(item, vs).Some?
    ensures CollectItems(item, |vs|, Before(WriteAll(item, vs).value, rest), acc) == [(rest, acc + vs)]
    decreases |vs|
  {
    if vs == [] {
      BeforeNothing(rest);
      assert acc + vs == acc;
    } else {
      var a, b := item.write(vs[0]).value, WriteAll(item, vs[1..]).value;
      var middle := Before(b, rest);
      BeforeTwice(a, b, rest);
      assert ExactAt(item, vs[0], middle);
      CollectOne((pa: (Route, T)) => CollectItems(item, |vs| - 1, pa.0, acc + [pa.1]), (middle, vs[0]));
      ItemsExact(item, vs[1..], rest, acc + [vs[0]]);
      assert acc + [vs[0]] + vs[1..] == acc + vs;
    }
  }

  lemma {:induction false} ItemsRoundTrip<T(!new)>(item: Router<T>, vs: seq<T>, rest: Route, acc: seq<T>)
    requires RoundTrips(item) && WriteAll(item, vs).Some?
    ensures (rest, acc + vs) in CollectItems(item, |vs|, Before(WriteAll(item, vs).value, rest), acc)
    decreases |vs|
  {
    if vs == [] {
      BeforeNothing(rest);
      assert acc + vs == acc;
    } else {
      var a, b := item.write(vs[0]).value, WriteAll(item, vs[1..]).value;
      var middle := Before(b, rest);
      BeforeTwice(a, b, rest);
      assert RoundTripsAt(item, vs[0], middle);
      ItemsRoundTrip(item, vs[1..], rest, acc + [vs[0]]);
      assert acc + [vs[0]] + vs[1..] == acc + vs;
      CollectMember((pa: (Route, T)) => CollectItems(item, |vs| - 1, pa.0, acc + [pa.1]),
                    item.parse(Before(a, middle)), (middle, vs[0]), (rest, acc + vs));
    }
  }

  lemma ArrayParses<T>(other: Text -> Option<int>, item: Router<T>, vs: seq<T>, rest: Route)
    requires WriteAll(item, vs).Some?
    ensures var r := Array(other, item);
            r.parse(Before(r.write(vs).value, rest)) ==
              if |vs| <= MAX_INT32 then CollectItems(item, |vs|, Before(WriteAll(item, vs).value, rest), []) else []
  {
    var w := WriteAll(item, vs).value;
    BeforeTwice([Segment(Decimal(|vs|))], w, rest);
    BeforeSegment(Decimal(|vs|), Before(w, rest));
    DecimalValue(|vs|);
  }

  /** An array of exact items is found, and nothing else, exactly if its length is a 32-bit number. */
  lemma ArrayExact<T(!new)>(other: Text -> Option<int>, item: Router<T>, vs: seq<T>)
    requires Exact(item) && WriteAll(item, vs).Some?
    ensures forall rest: Route :: ExactAt(Array(other, item), vs, rest) <==> |vs| < 0x8000_0000
  {
    forall rest: Route
      ensures ExactAt(Array(other, item), vs, rest) <==> |vs| <= MAX_INT32
    {
      ArrayParses(other, item, vs, rest);
      ItemsExact(item, vs, rest, []);
      assert [] + vs == vs;
    }
  }

  lemma ArrayRoundTrips<T(!new)>(other: Text -> Option<int>, item: Router<T>, vs: seq<T>)
    requires RoundTrips(item) && WriteAll(item, vs).Some?
    ensures forall rest: Route :: RoundTripsAt(Array(other, item), vs, rest) <==> |vs| < 0x8000_0000
  {
    forall rest: Route
      ensures RoundTripsAt(Array(other, item), vs, rest) <==> |vs| <= MAX_INT32
    {
      ArrayParses(other, item, vs, rest);
      ItemsRoundTrip(item, vs, rest, []);
      assert [] + vs == vs;
    }
  }

  // ----- tuples -----

  function CollectElements<T>(items: seq<Router<T>>, path: Route, acc: seq<T>): seq<(Route, seq<T>)>
    decreases |items|
  {
    if items == [] then [(path, acc)]
    else Collect((pa: (Route, T)) => CollectElements(items[1..], pa.0, acc + [pa.1]), items[0].parse(path))
  }

  /** A value with another number of elements is an error of the caller and is not written. */
  function WriteElements<T>(items: seq<Router<T>>, vs: seq<T>): Option<seq<Route>>
  {
    if items == [] && vs == [] then Some([])
    else if items == [] || vs == [] then None
    else Both(items[0].write(vs[0]), WriteElements(items[1..], vs[1..]))
  }

  function Tuple<T>(items: seq<Router<T>>): Router<seq<T>>
  {
    Router(path => CollectElements(items, path, []), (vs: seq<T>) => WriteElements(items, vs))
  }

  lemma {:induction false} ElementsExact<T(!new)>(items: seq<Router<T>>, vs: seq<T>, rest: Route, acc: seq<T>)
    requires (forall i :: 0 <= i < |items| ==> Exact(items[i])) && WriteElements(items, vs).Some?
    ensures CollectElements(items, Before(WriteElements(items, vs).value, rest), acc) == [(rest, acc + vs)]
    decreases |vs|
  {
    if vs == [] {
      BeforeNothing(rest);
      assert acc + vs == acc;
    } else {
      var a, b := items[0].write(vs[0]).value, WriteElements(items[1..], vs[1..]).value;
      var middle := Before(b, rest);
      BeforeTwice(a, b, rest);
      assert ExactAt(items[0], vs[0], middle);
      CollectOne((pa: (Route, T)) => CollectElements(items[1..], pa.0, acc + [pa.1]), (middle, vs[0]));
      ElementsExact(items[1..], vs[1..], rest, acc + [vs[0]]);
      assert acc + [vs[0]] + vs[1..] == acc + vs;
    }
  }

  lemma {:induction false} ElementsRoundTrip<T(!new)>(items: seq<Router<T>>, vs: seq<T>, rest: Route, acc: seq<T>)
    requires (forall i :: 0 <= i < |items| ==> RoundTrips(items[i])) && WriteElements(items, vs).Some?
    ensures (rest, acc + vs) in CollectElements(items, Before(WriteElements(items, vs).value, rest), acc)
    decreases |vs|
  {
    if vs == [] {
      BeforeNothing(rest);
      assert acc + vs == acc;
    } else {
      var a, b := items[0].write(vs[0]).value, WriteElements(items[1..], vs[1..]).value;
      var middle := Before(b, rest);
      BeforeTwice(a, b, rest);
      assert RoundTripsAt(items[0], vs[0], middle);
      ElementsRoundTrip(items[1..], vs[1..], rest, acc + [vs[0]]);
      assert acc + [vs[0]] + vs[1..] == acc + vs;
      CollectMember((pa: (Route, T)) => CollectElements(items[1..], pa.0, acc + [pa.1]),
                    items[0].parse(Before(a, middle)), (middle, vs[0]), (rest, acc + vs));
    }
  }

  lemma TupleExact<T(!new)>(items: seq<Router<T>>)
    requires forall i :: 0 <= i < |items| ==> Exact(items[i])
    ensures Exact(Tuple(items))
  {
    forall vs: seq<T>, rest: Route | Tuple(items).write(vs).Some?
      ensures ExactAt(Tuple(items), vs, rest)
    {
      ElementsExact(items, vs, rest, []);
      assert [] + vs == vs;
    }
  }

  lemma TupleRoundTrips<T(!new)>(items: seq<Router<T>>)
    requires forall i :: 0 <= i < |items| ==> RoundTrips(items[i])
    ensures RoundTrips(Tuple(items))
  {
    forall vs: seq<T>, rest: Route | Tuple(items).write(vs).Some?
      ensures RoundTripsAt(Tuple(items), vs, rest)
    {
      ElementsRoundTrip(items, vs, rest, []);
      assert [] + vs == vs;
    }
  }

  // ----- converted values -----

  /** Every value is converted, there and back. */
  function MapValues<A, B>(decode: A -> B, encode: B -> A, router: Router<A>): Router<B>
  {
    Router(
      path => Map((p: (Route, A)) => (p.0, decode(p.1)), router.parse(path)),
      v => router.write(encode(v)))
  }

  lemma MapValuesAt<A(!new), B(!new)>(decode: A -> B, encode: B -> A, router: Router<A>, v: B, rest: Route)
    requires decode(encode(v)) == v
    ensures ExactAt(router, encode(v), rest) ==> ExactAt(MapValues(decode, encode, router), v, rest)
    ensures RoundTripsAt(router, encode(v), rest) ==> RoundTripsAt(MapValues(decode, encode, router), v, rest)
  {
    if router.write(encode(v)).Some? {
      var found := router.parse(Before(router.write(encode(v)).value, rest));
      if (rest, encode(v)) in found {
        var i :| 0 <= i < |found| && found[i] == (rest, encode(v));
        assert Map((p: (Route, A)) => (p.0, decode(p.1)), found)[i] == (rest, v);
      }
    }
  }

  lemma MapValuesExact<A(!new), B(!new)>(decode: A -> B, encode: B -> A, router: Router<A>)
    requires forall v: B :: decode(encode(v)) == v
    ensures Exact(router) ==> Exact(MapValues(decode, encode, router))
    ensures RoundTrips(router) ==> RoundTrips(MapValues(decode, encode, router))
  {
    forall v: B, rest: Route
      ensures Exact(router) ==> ExactAt(MapValues(decode, encode, router), v, rest)
      ensures RoundTrips(router) ==> RoundTripsAt(MapValues(decode, encode, router), v, rest)
    {
      MapValuesAt(decode, encode, router, v, rest);
    }
  }

  /** A list is routed as the array of its elements. */
  function ListRouter<T>(other: Text -> Option<int>, item: Router<T>): Router<seq<T>>
  {
    MapValues((a: seq<T>) => a, (l: seq<T>) => l, Array(other, item))
  }

  lemma ListExact<T(!new)>(other: Text -> Option<int>, item: Router<T>, vs: seq<T>, rest: Route)
    requires WriteAll(item, vs).Some? && |vs| <= MAX_INT32
    ensures Exact(item) ==> ExactAt(ListRouter(other, item), vs, rest)
    ensures RoundTrips(item) ==> RoundTripsAt(ListRouter(other, item), vs, rest)
  {
    if Exact(item) {
      ArrayExact(other, item, vs);
    }
    if RoundTrips(item) {
      ArrayRoundTrips(other, item, vs);
    }
    MapValuesAt((a: seq<T>) => a, (l: seq<T>) => l, Array(other, item), vs, rest);
  }

  /** Values that decode fails on are dropped, and values that encode fails on are not written. */
  function TryMap<A, B>(decode: A -> Option<B>, encode: B -> Option<A>, router: Router<A>): Router<B>
  {
    Router(
      path => Choose((p: (Route, A)) => Decoded(decode, p), router.parse(path)),
      v => if encode(v).None? then None else router.write(encode(v).value))
  }

  function Decoded<A, B>(decode: A -> Option<B>, p: (Route, A)): Option<(Route, B)>
  {
    var v := decode(p.1);
    if v.None? then None else Some((p.0, v.value))
  }

  function Choose<A, B>(f: A -> Option<B>, s: seq<A>): seq<B>
  {
    if s == [] then [] else (if f(s[0]).Some? then [f(s[0]).value] else []) + Choose(f, s[1..])
  }

  lemma {:induction false} ChooseMember<A, B>(f: A -> Option<B>, s: seq<A>, x: A)
    requires x in s && f(x).Some?
    ensures f(x).value in Choose(f, s)
  {
    if s[0] != x {
      ChooseMember(f, s[1..], x);
    }
  }

  lemma ChooseOne<A, B>(f: A -> Option<B>, x: A)
    ensures Choose(f, [x]) == if f(x).Some? then [f(x).value] else []
  {
    assert [x][1..] == [];
  }

  /** Decoding undoes encoding. */
  ghost predicate Undoes<A(!new), B(!new)>(decode: A -> Option<B>, encode: B -> Option<A>)
  {
    forall v: B :: encode(v).Some? ==> decode(encode(v).value) == Some(v)
  }

  lemma TryMapRoundTrips<A(!new), B(!new)>(decode: A -> Option<B>, encode: B -> Option<A>, router: Router<A>)
    requires RoundTrips(router) && Undoes(decode, encode)
    ensures RoundTrips(TryMap(decode, encode, router))
  {
    var r := TryMap(decode, encode, router);
    forall v: B, rest: Route | r.write(v).Some?
      ensures RoundTripsAt(r, v, rest)
    {
      var u := encode(v).value;
      assert RoundTripsAt(router, u, rest);
      ChooseMember((p: (Route, A)) => Decoded(decode, p), router.parse(Before(router.write(u).value, rest)), (rest, u));
    }
  }

  lemma TryMapExact<A(!new), B(!new)>(decode: A -> Option<B>, encode: B -> Option<A>, router: Router<A>)
    requires Exact(router) && Undoes(decode, encode)
    ensures Exact(TryMap(decode, encode, router))
  {
    var r := TryMap(decode, encode, router);
    forall v: B, rest: Route | r.write(v).Some?
      ensures ExactAt(r, v, rest)
    {
      var u := encode(v).value;
      assert ExactAt(router, u, rest);
      ChooseOne((p: (Route, A)) => Decoded(decode, p), (rest, u));
    }
  }

  /** Only the values of a subset are read and written. */
  function FilterValues<T(!new)>(keep: T -> bool, router: Router<T>): Router<T>
  {
    Router(
      path => Filter((p: (Route, T)) => keep(p.1), router.parse(path)),
      v => if keep(v) then router.write(v) else None)
  }

  lemma FilterOne<A(!new)>(keep: A -> bool, x: A)
    ensures Filter(keep, [x]) == if keep(x) then [x] else []
  {
    assert [x][..0] == [];
  }

  lemma FilterExact<T(!new)>(keep: T -> bool, router: Router<T>)
    requires Exact(router)
    ensures Exact(FilterValues(keep, router))
  {
    var r := FilterValues(keep, router);
    forall v: T, rest: Route | r.write(v).Some?
      ensures ExactAt(r, v, rest)
    {
      assert ExactAt(router, v, rest);
      FilterOne((p: (Route, T)) => keep(p.1), (rest, v));
    }
  }

  lemma FilterRoundTrips<T(!new)>(keep: T -> bool, router: Router<T>)
    requires RoundTrips(router)
    ensures RoundTrips(FilterValues(keep, router))
  {
    var r := FilterValues(keep, router);
    forall v: T, rest: Route | r.write(v).Some?
      ensures RoundTripsAt(r, v, rest)
    {
      assert RoundTripsAt(router, v, rest);
    }
  }
}
