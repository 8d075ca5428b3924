/**
 What routers accept.

 A router is sound if whatever it parses is a route that it writes: the route is what the printer gives for the
 value, followed by what is left.

 - Constants are sound, and pairs, constants ahead and behind, options, nullable values, tuples and restrictions
   of sound routers; conversions are where encoding undoes decoding.
 - Routers of strings and arrays are not, since different texts can be read as one string or one number: here the
   exact condition on the text is given.

 Sums ask their routers in order, for writing and for parsing.
 */
module RouterSoundness {
  import opened Wrappers
  import opened Sequences
  import opened StringEncoding
  import opened Routes
  import opened Routers
  import opened RouterCollections
  import opened RouterLinks

  ghost predicate SoundAt<T>(r: Router<T>, path: Route, rest: Route, v: T)
  {
    (rest, v) in r.parse(path) ==> r.write(v).Some? && Before(r.write(v).value, rest) == path
  }

  ghost predicate Sound<T(!new)>(r: Router<T>)
  {
    forall path: Route, rest: Route, v: T :: SoundAt(r, path, rest, v)
  }

  ghost predicate PlainSoundAt(r: PlainRouter, path: Route, rest: Route)
  {
    rest in r.parse(path) ==> Before(r.segment, rest) == path
  }

  ghost predicate PlainSound(r: PlainRouter)
  {
    forall path: Route, rest: Route :: PlainSoundAt(r, path, rest)
  }

  lemma {:induction false} Collected<A, B>(f: A -> seq<B>, s: seq<A>, y: B) returns (x: A)
    requires y in Collect(f, s)
    ensures x in s && y in f(x)
  {
    if y in f(s[0]) {
      x := s[0];
    } else {
      x := Collected(f, s[1..], y);
    }
  }

  lemma Mapped<A, B>(f: A -> B, s: seq<A>, y: B) returns (x: A)
    requires y in Map(f, s)
    ensures x in s && y == f(x)
  {
    var i :| 0 <= i < |s| && Map(f, s)[i] == y;
    x := s[i];
  }

  // ----- constants -----

  lemma {:induction false} StartsWithSplits(s: seq<Text>, l: seq<Text>)
    requires StartsWith(s, l).Some?
    ensures l == s + StartsWith(s, l).value
  {
    if s != [] {
      StartsWithSplits(s[1..], l[1..]);
    }
  }

  /** A constant accepts exactly the paths that begin with it. */
  lemma FromStringSound(name: Text)
    ensures PlainSound(FromString(name))
  {
    var r, parts := FromString(name), Parts(name);
    forall path: Route, rest: Route | rest in r.parse(path)
      ensures PlainSoundAt(r, path, rest)
    {
      if parts == [] {
        BeforeNothing(rest);
      } else {
        StartsWithSplits(parts, path.segments);
        BeforeSegments(parts, rest);
      }
    }
  }

  lemma MapToSound<T(!new)>(value: T, router: PlainRouter)
    requires PlainSound(router)
    ensures Sound(MapTo(value, router))
  {
    forall path: Route, rest: Route, v: T | (rest, v) in MapTo(value, router).parse(path)
      ensures SoundAt(MapTo(value, router), path, rest, v)
    {
      var p := Mapped(p => (p, value), router.parse(path), (rest, v));
      assert PlainSoundAt(router, path, rest);
    }
  }

  // ----- combinators -----

  lemma PairSound<A(!new), B(!new)>(before: Router<A>, after: Router<B>)
    requires Sound(before) && Sound(after)
    ensures Sound(Pair(before, after))
  {
    var r := Pair(before, after);
    forall path: Route, rest: Route, v: (A, B) | (rest, v) in r.parse(path)
      ensures SoundAt(r, path, rest, v)
    {
      var px := Collected(px => PairStep(after, px), before.parse(path), (rest, v));
      var py := Mapped((py: (Route, B)) => (py.0, (px.1, py.1)), after.parse(px.0), (rest, v));
      assert SoundAt(before, path, px.0, px.1) && SoundAt(after, px.0, py.0, py.1);
      BeforeTwice(before.write(v.0).value, after.write(v.1).value, rest);
    }
  }

  lemma AheadSound<T(!new)>(before: PlainRouter, after: Router<T>)
    requires PlainSound(before) && Sound(after)
    ensures Sound(Ahead(before, after))
  {
    var r := Ahead(before, after);
    forall path: Route, rest: Route, v: T | (rest, v) in r.parse(path)
      ensures SoundAt(r, path, rest, v)
    {
      var middle := Collected(after.parse, before.parse(path), (rest, v));
      assert PlainSoundAt(before, path, middle) && SoundAt(after, middle, rest, v);
      BeforeTwice(before.segment, after.write(v).value, rest);
    }
  }

  lemma BehindSound<T(!new)>(before: Router<T>, after: PlainRouter)
    requires Sound(before) && PlainSound(after)
    ensures Sound(Behind(before, after))
  {
    var r := Behind(before, after);
    forall path: Route, rest: Route, v: T | (rest, v) in r.parse(path)
      ensures SoundAt(r, path, rest, v)
    {
      var px := Collected((px: (Route, T)) => Map(p => (p, px.1), after.parse(px.0)), before.parse(path), (rest, v));
      var p := Mapped(p => (p, px.1), after.parse(px.0), (rest, v));
      assert SoundAt(before, path, px.0, v) && PlainSoundAt(after, px.0, rest);
      BeforeTwice(before.write(v).value, after.segment, rest);
    }
  }

  lemma FirstSegment(path: Route, s: Text)
    requires path.segments != [] && path.segments[0] == s
    ensures Before([Segment(s)], path.(segments := path.segments[1..])) == path
  {
    BeforeSegments([s], path.(segments := path.segments[1..]));
    assert [s] + path.segments[1..] == path.segments;
  }

  lemma WrappedFrom<T>(rs: seq<(Route, T)>, rest: Route, v: Option<T>)
    requires (rest, v) in Wrapped(rs)
    ensures v.Some? && (rest, v.value) in rs
  {
    var p := Mapped((p: (Route, T)) => (p.0, Some(p.1)), rs, (rest, v));
  }

  lemma OptionSound<T(!new)>(item: Router<T>)
    requires Sound(item)
    ensures Sound(OptionRouter(item))
  {
    var r := OptionRouter(item);
    forall path: Route, rest: Route, v: Option<T> | (rest, v) in r.parse(path)
      ensures SoundAt(r, path, rest, v)
    {
      FirstSegment(path, path.segments[0]);
      if path.segments[0] != NONE_TEXT {
        var middle := path.(segments := path.segments[1..]);
        WrappedFrom(item.parse(middle), rest, v);
        assert SoundAt(item, middle, rest, v.value);
        BeforeTwice([Segment(SOME_TEXT)], item.write(v.value).value, rest);
      }
    }
  }

  lemma NullableSound<T(!new)>(item: Router<T>)
    requires Sound(item)
    ensures Sound(Nullable(item))
  {
    var r := Nullable(item);
    forall path: Route, rest: Route, v: Option<T> | (rest, v) in r.parse(path)
      ensures SoundAt(r, path, rest, v)
    {
      if path.segments != [] && path.segments[0] == NULL_TEXT {
        FirstSegment(path, NULL_TEXT);
      } else {
        WrappedFrom(item.parse(path), rest, v);
        assert SoundAt(item, path, rest, v.value);
      }
    }
  }

  /** What a string router reads is what it writes exactly if the segment is there and is the string's escaped form. */
  lemma StringSoundExactly(path: Route, rest: Route, v: Option<Text>)
    requires (rest, v) in StringRouter().parse(path)
    ensures v.Some? && (SoundAt(StringRouter(), path, rest, v) <==> path.segments != [] && path.segments[0] == Write(v.value))
  {
    hide Write, ReadAll;
    assert (rest, v) in ParseString(path);
    BeforeSegments([Write(v.value)], rest);
    if path.segments != [] {
      FirstSegment(path, path.segments[0]);
      assert ([Write(v.value)] + rest.segments)[0] == Write(v.value);
    }
  }

  // ----- arrays and tuples -----

  lemma {:induction false} ItemsSound<T(!new)>(item: Router<T>, l: int, path: Route, acc: seq<T>, rest: Route, all: seq<T>)
    requires Sound(item) && (rest, all) in CollectItems(item, l, path, acc)
    ensures |all| == |acc| + l && acc <= all
    ensures WriteAll(item, all[|acc|..]).Some? && Before(WriteAll(item, all[|acc|..]).value, rest) == path
    decreases l
  {
    if l == 0 {
      assert all[|acc|..] == [];
      BeforeNothing(rest);
    } else {
      var pa := Collected((pa: (Route, T)) => CollectItems(item, l - 1, pa.0, acc + [pa.1]), item.parse(path), (rest, all));
      ItemsSound(item, l - 1, pa.0, acc + [pa.1], rest, all);
      assert SoundAt(item, path, pa.0, pa.1);
      var vs := all[|acc|..];
      assert vs[0] == (acc + [pa.1])[|acc|] == pa.1 && vs[1..] == all[|acc + [pa.1]|..];
      BeforeTwice(item.write(vs[0]).value, WriteAll(item, vs[1..]).value, rest);
    }
  }

  /**
   An array router accepts a number and then that many items.  What it accepts is what it writes exactly if the
   number is in its plain decimal form.
   */
  lemma ArraySoundExactly<T(!new)>(other: Text -> Option<int>, item: Router<T>, path: Route, rest: Route, vs: seq<T>)
    requires Sound(item) && (rest, vs) in Array(other, item).parse(path)
    ensures path.segments != [] && TryParseInt32(other, path.segments[0]) == Some(|vs|)
    ensures SoundAt(Array(other, item), path, rest, vs) <==> path.segments[0] == Decimal(|vs|)
  {
    hide Sound, Decimal;
    var n, middle := path.segments[0], path.(segments := path.segments[1..]);
    ItemsSound(item, TryParseInt32(other, n).value, middle, [], rest, vs);
    assert vs[0..] == vs;
    var w := WriteAll(item, vs).value;
    BeforeTwice([Segment(Decimal(|vs|))], w, rest);
    BeforeSegment(Decimal(|vs|), middle);
    FirstSegment(path, n);
  }

  lemma {:induction false} ElementsSound<T(!new)>(items: seq<Router<T>>, path: Route, acc: seq<T>, rest: Route, all: seq<T>)
    requires (forall i :: 0 <= i < |items| ==> Sound(items[i])) && (rest, all) in CollectElements(items, path, acc)
    ensures |all| == |acc| + |items| && acc <= all
    ensures WriteElements(items, all[|acc|..]).Some? && Before(WriteElements(items, all[|acc|..]).value, rest) == path
    decreases |items|
  {
    if items == [] {
      assert all[|acc|..] == [];
      BeforeNothing(rest);
    } else {
      var pa := Collected((pa: (Route, T)) => CollectElements(items[1..], pa.0, acc + [pa.1]), items[0].parse(path), (rest, all));
      ElementsSound(items[1..], pa.0, acc + [pa.1], rest, all);
      assert SoundAt(items[0], path, pa.0, pa.1);
      var vs := all[|acc|..];
      assert vs[0] == (acc + [pa.1])[|acc|] == pa.1 && vs[1..] == all[|acc + [pa.1]|..];
      BeforeTwice(items[0].write(vs[0]).value, WriteElements(items[1..], vs[1..]).value, rest);
    }
  }

  lemma TupleSound<T(!new)>(items: seq<Router<T>>)
    requires forall i :: 0 <= i < |items| ==> Sound(items[i])
    ensures Sound(Tuple(items))
  {
    forall path: Route, rest: Route, vs: seq<T> | (rest, vs) in Tuple(items).parse(path)
      ensures SoundAt(Tuple(items), path, rest, vs)
    {
      ElementsSound(items, path, [], rest, vs);
      assert vs[0..] == vs;
    }
  }

  // ----- converted values -----

  lemma MapValuesSound<A(!new), B(!new)>(decode: A -> B, encode: B -> A, router: Router<A>)
    requires Sound(router) && forall u: A :: encode(decode(u)) == u
    ensures Sound(MapValues(decode, encode, router))
  {
    var r := MapValues(decode, encode, router);
    forall path: Route, rest: Route, v: B | (rest, v) in r.parse(path)
      ensures SoundAt(r, path, rest, v)
    {
      var p := Mapped((p: (Route, A)) => (p.0, decode(p.1)), router.parse(path), (rest, v));
      assert SoundAt(router, path, rest, p.1);
    }
  }

  lemma {:induction false} Chosen<A, B>(f: A -> Option<B>, s: seq<A>, y: B) returns (x: A)
    requires y in Choose(f, s)
    ensures x in s && f(x) == Some(y)
  {
    if f(s[0]) == Some(y) {
      x := s[0];
    } else {
      x := Chosen(f, s[1..], y);
    }
  }

  lemma TryMapSound<A(!new), B(!new)>(decode: A -> Option<B>, encode: B -> Option<A>, router: Router<A>)
    requires Sound(router) && Undoes(encode, decode)
    ensures Sound(TryMap(decode, encode, router))
  {
    var r := TryMap(decode, encode, router);
    forall path: Route, rest: Route, v: B | (rest, v) in r.parse(path)
      ensures SoundAt(r, path, rest, v)
    {
      var p := Chosen((p: (Route, A)) => Decoded(decode, p), router.parse(path), (rest, v));
      assert decode(p.1) == Some(v) && encode(v) == Some(p.1);
      assert SoundAt(router, path, rest, p.1);
    }
  }

  lemma FilterSound<T(!new)>(keep: T -> bool, router: Router<T>)
    requires Sound(router)
    ensures Sound(FilterValues(keep, router))
  {
    var r := FilterValues(keep, router);
    forall path: Route, rest: Route, v: T | (rest, v) in r.parse(path)
      ensures SoundAt(r, path, rest, v)
    {
      assert SoundAt(router, path, rest, v);
    }
  }

  // ----- alternatives -----

  /** Two alternatives are a sum of two: the first is asked first, for writing and for parsing. */
  lemma OrIsSum<T>(a: Router<T>, b: Router<T>, path: Route, v: T)
    ensures Or(a, b).parse(path) == Sum([a, b]).parse(path) && Or(a, b).write(v) == Sum([a, b]).write(v)
  {
    var f := (r: Router<T>) => r.parse(path);
    assert [a, b][1..] == [b] && [b][1..] == [];
    assert Collect(f, [b]) == f(b) + [] == f(b);
    assert Collect(f, [a, b]) == f(a) + Collect(f, [b]);
    assert TryPickWrite([b], v) == b.write(v);
  }

  /** The texts that stand for a missing, a present and a null value. */
  lemma OptionTexts(i: nat)
    requires i < 4
    ensures NONE_TEXT[i] == "None"[i] as int && SOME_TEXT[i] == "Some"[i] as int && NULL_TEXT[i] == "null"[i] as int
    ensures |NONE_TEXT| == |SOME_TEXT| == |NULL_TEXT| == 4
  {
    assert i == 0 || i == 1 || i == 2 || i == 3;
  }
}
