/**
 Routers of constants and strings, and the links that routers write and read.

 - Constants, single endpoints, strings and query arguments: when each of them is exact.
 - Links: a value comes back from its link if the router is exact for it and writes clean text.  The lemmas for
   pairs, options, arrays and constants ahead say so of the combined routers.
 - Tables of endpoints: their links come back unless an earlier entry has a name of the same parts.
 - Strings and arrays of strings: their links come back even where the text is not clean, because the
   reader makes an empty string of a missing segment.

 `Route.Concat` drops empty segments, which is why an array's empty strings come back behind the others.
 */
module RouterLinks {
  import opened Wrappers
  import opened Sequences
  import opened StringEncoding
  import opened Routes
  import opened Routers
  import opened RouterCollections

  // ----- constants -----

  /** What is left of `l` after the prefix `s`. */
  function StartsWith(s: seq<Text>, l: seq<Text>): Option<seq<Text>>
  {
    if s == [] then Some(l)
    else if l == [] || s[0] != l[0] then None
    else StartsWith(s[1..], l[1..])
  }

  lemma {:induction false} StartsWithOwn(s: seq<Text>, l: seq<Text>)
    ensures StartsWith(s, s + l) == Some(l)
  {
    if s == [] {
      assert s + l == l;
    } else {
      assert (s + l)[1..] == s[1..] + l;
      StartsWithOwn(s[1..], l);
    }
  }

  function Parts(name: Text): seq<Text>
  {
    NonEmpty(Split(SLASH, name))
  }

  function StripParts(parts: seq<Text>, path: Route): seq<Route>
  {
    var m := StartsWith(parts, path.segments);
    if m.None? then [] else [path.(segments := m.value)]
  }

  /** The constant segments of a `/`-separated name. */
  function FromString(name: Text): PlainRouter
  {
    var parts := Parts(name);
    if parts == [] then PlainRouter(path => [path], [])
    else PlainRouter(path => StripParts(parts, path), [SegmentList(parts)])
  }

  lemma FromStringExact(name: Text)
    ensures PlainExact(FromString(name))
  {
    var r, parts := FromString(name), Parts(name);
    forall rest: Route
      ensures PlainExactAt(r, rest)
    {
      if parts == [] {
        BeforeNothing(rest);
      } else {
        BeforeSegments(parts, rest);
        StartsWithOwn(parts, rest.segments);
      }
    }
  }

  /** One value, written as constant segments. */
  function MapTo<T(==)>(value: T, router: PlainRouter): Router<T>
  {
    Router(
      path => Map(p => (p, value), router.parse(path)),
      v => if v == value then Some(router.segment) else None)
  }

  function Single<T(==)>(endpoint: T, route: Text): Router<T>
  {
    MapTo(endpoint, FromString(route))
  }

  lemma MapToExact<T(!new)>(value: T, router: PlainRouter)
    requires PlainExact(router)
    ensures Exact(MapTo(value, router))
  {
    forall v: T, rest: Route | MapTo(value, router).write(v).Some?
      ensures ExactAt(MapTo(value, router), v, rest)
    {
      assert PlainExactAt(router, rest);
    }
  }

  lemma SingleExact<T(!new)>(endpoint: T, route: Text)
    ensures Exact(Single(endpoint, route))
  {
    FromStringExact(route);
    MapToExact(endpoint, FromString(route));
  }

  // ----- strings -----

  function ParseString(path: Route): seq<(Route, Option<Text>)>
  {
    if path.segments == [] then [(path, Some([]))] else
    var m := ReadAll(path.segments[0]);
    if m.None? then [] else [(path.(segments := path.segments[1..]), Some(m.value))]
  }

  /** A string in one segment; a null string is written like the text `null`. */
  function StringRouter(): Router<Option<Text>>
  {
    Router(
      path => ParseString(path),
      (v: Option<Text>) => Some([Segment(if v.None? then NULL_TEXT else Write(v.value))]))
  }

  /** Exact for every string, and for no null. */
  lemma StringExact(v: Option<Text>, rest: Route)
    ensures ExactAt(StringRouter(), v, rest) <==> v.Some?
    ensures RoundTripsAt(StringRouter(), v, rest) <==> v.Some?
  {
    var text := if v.None? then NULL_TEXT else Write(v.value);
    BeforeSegment(text, rest);
    if v.Some? {
      ReadUndoesWrite(v.value);
    } else {
      assert StringRouter().parse(Before([Segment(text)], rest)) == ParseString(Before([Segment(text)], rest));
    }
  }

  // ----- query arguments -----

  function ParseQueryArg<T>(key: Text, item: Router<T>, path: Route): seq<(Route, T)>
  {
    if key !in path.queryArgs then [] else
    var newQa := path.queryArgs - {key};
    Map((p: (Route, T)) => (path.(queryArgs := newQa), p.1), item.parse(Segment(path.queryArgs[key])))
  }

  /** A value whose text is not a single segment is written as nothing. */
  function WriteQueryArg(key: Text, w: Option<seq<Route>>): Option<seq<Route>>
  {
    if w.None? then None else
    var s := AppendAll(w.value).segments;
    Some(if |s| == 1 then [EMPTY_ROUTE.(queryArgs := map[key := s[0]])] else [])
  }

  /** A value in a query argument. */
  function QueryRouter<T>(key: Text, item: Router<T>): Router<T>
  {
    Router(path => ParseQueryArg(key, item, path), v => WriteQueryArg(key, item.write(v)))
  }

  lemma QueryPiece(key: Text, s: Text, rest: Route)
    ensures Before([EMPTY_ROUTE.(queryArgs := map[key := s])], rest) == rest.(queryArgs := rest.queryArgs[key := s])
    ensures rest.queryArgs[key := s] - {key} == rest.queryArgs - {key}
    ensures key !in rest.queryArgs <==> rest.queryArgs - {key} == rest.queryArgs
  {
    var piece := EMPTY_ROUTE.(queryArgs := map[key := s]);
    AppendAllOne(piece);
    assert [] + rest.segments == rest.segments && rest.formData + map[] == rest.formData;
    assert rest.queryArgs + map[key := s] == rest.queryArgs[key := s];
  }

  /** From the text of one segment, the item parser gives the value. */
  ghost predicate Finds<T>(item: Router<T>, s: Text, v: T)
  {
    exists i :: 0 <= i < |item.parse(Segment(s))| && item.parse(Segment(s))[i].1 == v
  }

  /** From the text of one segment, the item parser gives the value and no other. */
  predicate FindsOnly<T(==)>(item: Router<T>, s: Text, v: T)
  {
    |item.parse(Segment(s))| == 1 && item.parse(Segment(s))[0].1 == v
  }

  lemma ExactFindsOnly<T(!new)>(item: Router<T>, v: T, s: Text)
    requires Exact(item) && item.write(v).Some? && AppendAll(item.write(v).value) == Segment(s)
    ensures FindsOnly(item, s, v)
  {
    hide Exact;
    AppendEmpty(Segment(s));
    assert Before(item.write(v).value, EMPTY_ROUTE) == Segment(s);
    ExactHere(item, v, EMPTY_ROUTE);
  }

  lemma QueryParses<T>(key: Text, item: Router<T>, v: T, rest: Route, s: Text)
    ensures var found := ParseQueryArg(key, item, rest.(queryArgs := rest.queryArgs[key := s]));
            && (found == [(rest, v)] <==> key !in rest.queryArgs && FindsOnly(item, s, v))
            && ((rest, v) in found <==> key !in rest.queryArgs && Finds(item, s, v))
  {
    var found := ParseQueryArg(key, item, rest.(queryArgs := rest.queryArgs[key := s]));
    var left := rest.(queryArgs := rest.queryArgs[key := s] - {key});
    QueryPiece(key, s, rest);
    assert |found| == |item.parse(Segment(s))|;
    assert forall i :: 0 <= i < |found| ==> found[i] == (left, item.parse(Segment(s))[i].1);
    assert left == rest <==> key !in rest.queryArgs;
    assert found == [(rest, v)] <==> |found| == 1 && found[0] == (rest, v);
  }

  lemma QueryWithoutKey<T>(key: Text, item: Router<T>, v: T, rest: Route)
    ensures (rest, v) !in ParseQueryArg(key, item, rest)
  {
  }

  /**
     The exact case in which a query argument comes back: the value is written as one segment, what follows lacks
     the key, and the segment alone is read as the value.  An exact item with nothing but a segment is read so.
     */
  lemma QueryExactly<T(!new)>(key: Text, item: Router<T>, v: T, rest: Route)
    requires item.write(v).Some?
    ensures var r, s := QueryRouter(key, item), AppendAll(item.write(v).value).segments;
            && (ExactAt(r, v, rest) <==> |s| == 1 && key !in rest.queryArgs && FindsOnly(item, s[0], v))
            && (RoundTripsAt(r, v, rest) <==> |s| == 1 && key !in rest.queryArgs && Finds(item, s[0], v))
            && (Exact(item) && |s| == 1 && AppendAll(item.write(v).value) == Segment(s[0]) ==> FindsOnly(item, s[0], v))
  {
    hide Exact, Before, ParseQueryArg, FindsOnly, Finds;
    var r, s := QueryRouter(key, item), AppendAll(item.write(v).value).segments;
    if |s| == 1 {
      QueryPiece(key, s[0], rest);
      QueryParses(key, item, v, rest, s[0]);
      assert r.write(v) == Some([EMPTY_ROUTE.(queryArgs := map[key := s[0]])]);
      if Exact(item) && AppendAll(item.write(v).value) == Segment(s[0]) {
        ExactFindsOnly(item, v, s[0]);
      }
    } else {
      BeforeNothing(rest);
      QueryWithoutKey(key, item, v, rest);
      assert r.write(v) == Some([]);
    }
  }

  // ----- links -----

  /** A route that a link can carry: clean text, and no form data, method or body. */
  ghost predicate Linkable(r: Route)
  {
    r == EMPTY_ROUTE.(segments := r.segments, queryArgs := r.queryArgs) && CleanSegments(r.segments) && CleanArgs(r.queryArgs)
  }

  ghost predicate WritesLinkableAt<T>(r: Router<T>, v: T)
  {
    r.write(v).Some? ==> Linkable(AppendAll(r.write(v).value))
  }

  /** The link of a value; empty if the router does not write it. */
  function Link<T>(router: Router<T>, endpoint: T, order: seq<Text>): Text
    requires router.write(endpoint).Some? ==> Lists(order, AppendAll(router.write(endpoint).value).queryArgs)
  {
    var m := router.write(endpoint);
    if m.None? then [] else ToLink(AppendAll(m.value), order)
  }

  function TryPickWhole<T>(found: seq<(Route, T)>): Option<T>
  {
    if found == [] then None
    else if found[0].0.segments == [] then Some(found[0].1)
    else TryPickWhole(found[1..])
  }

  /** The first value for which no segment is left. */
  function Parse<T>(router: Router<T>, path: Route): Option<T>
  {
    TryPickWhole(router.parse(path))
  }

  /** The link that a router writes for a value is read back as this value, if the router is exact for it. */
  lemma LinksAreReadBack<T(!new)>(router: Router<T>, v: T, order: seq<Text>)
    requires ExactAt(router, v, EMPTY_ROUTE) && router.write(v).Some? && WritesLinkableAt(router, v)
    requires Lists(order, AppendAll(router.write(v).value).queryArgs)
    ensures Parse(router, FromUrl(Link(router, v, order), false)) == Some(v)
  {
    var w := router.write(v).value;
    var r := AppendAll(w);
    hide FromUrl, ToLink, CleanSegments, CleanArgs, Lists;
    CleanLink(r, order);
    AppendEmpty(r);
    assert Before(w, EMPTY_ROUTE) == r;
  }

  lemma ExactHere<T(!new)>(router: Router<T>, v: T, rest: Route)
    requires Exact(router)
    ensures ExactAt(router, v, rest)
  {
  }

  lemma AppendLinkable(a: Route, b: Route)
    requires Linkable(a) && Linkable(b)
    ensures Linkable(Append(a, b))
  {
    assert b.formData + a.formData == map[];
  }

  lemma AppendAllLinkable(a: seq<Route>, b: seq<Route>)
    requires Linkable(AppendAll(a)) && Linkable(AppendAll(b))
    ensures Linkable(AppendAll(a + b))
  {
    AppendAllSplits(a, b);
    AppendLinkable(AppendAll(a), AppendAll(b));
  }

  lemma OneSegmentLinkable(s: Text)
    requires s != [] && SLASH !in s && QUESTION !in s
    ensures Linkable(AppendAll([Segment(s)]))
  {
    AppendAllOne(Segment(s));
  }

  /** Every link of the value, whatever the order of its arguments, is parsed as the value. */
  ghost predicate LinkComesBack<T>(router: Router<T>, v: T)
  {
    router.write(v).Some? ==>
      forall order :: Lists(order, AppendAll(router.write(v).value).queryArgs) ==>
        Parse(router, FromUrl(Link(router, v, order), false)) == Some(v)
  }

  lemma CleanComesBack<T(!new)>(router: Router<T>, v: T)
    requires Exact(router) && WritesLinkableAt(router, v)
    ensures LinkComesBack(router, v)
  {
    hide Exact, WritesLinkableAt, Lists, Parse, FromUrl, Link;
    if router.write(v).Some? {
      forall order | Lists(order, AppendAll(router.write(v).value).queryArgs)
        ensures Parse(router, FromUrl(Link(router, v, order), false)) == Some(v)
      {
        ExactHere(router, v, EMPTY_ROUTE);
        LinksAreReadBack(router, v, order);
      }
    }
  }

  lemma PairLink<A(!new), B(!new)>(before: Router<A>, after: Router<B>, v: (A, B))
    requires Exact(before) && Exact(after) && WritesLinkableAt(before, v.0) && WritesLinkableAt(after, v.1)
    ensures LinkComesBack(Pair(before, after), v)
  {
    hide Exact, Linkable, LinkComesBack;
    if before.write(v.0).Some? && after.write(v.1).Some? {
      AppendAllLinkable(before.write(v.0).value, after.write(v.1).value);
    }
    PairExact(before, after);
    CleanComesBack(Pair(before, after), v);
  }

  lemma AheadLink<T(!new)>(name: Text, after: Router<T>, v: T)
    requires QUESTION !in name && Exact(after) && WritesLinkableAt(after, v)
    ensures LinkComesBack(Ahead(FromString(name), after), v)
  {
    hide Exact, PlainExact, Linkable, LinkComesBack, FromString;
    FromStringExact(name);
    FromStringLinkable(name);
    if after.write(v).Some? {
      AppendAllLinkable(FromString(name).segment, after.write(v).value);
    }
    AheadExact(FromString(name), after);
    CleanComesBack(Ahead(FromString(name), after), v);
  }

  lemma OptionLink<T(!new)>(item: Router<T>, v: Option<T>)
    requires Exact(item) && (v.Some? ==> WritesLinkableAt(item, v.value))
    ensures LinkComesBack(OptionRouter(item), v)
  {
    hide Exact, Linkable, LinkComesBack;
    OneSegmentLinkable(SOME_TEXT);
    OneSegmentLinkable(NONE_TEXT);
    if v.Some? && item.write(v.value).Some? {
      AppendAllLinkable([Segment(SOME_TEXT)], item.write(v.value).value);
    }
    OptionExact(item);
    CleanComesBack(OptionRouter(item), v);
  }

  lemma {:induction false} ItemsLinkable<T(!new)>(item: Router<T>, vs: seq<T>)
    requires (forall i :: 0 <= i < |vs| ==> WritesLinkableAt(item, vs[i])) && WriteAll(item, vs).Some?
    ensures Linkable(AppendAll(WriteAll(item, vs).value))
  {
    if vs != [] {
      ItemsLinkable(item, vs[1..]);
      assert WritesLinkableAt(item, vs[0]);
      AppendAllLinkable(item.write(vs[0]).value, WriteAll(item, vs[1..]).value);
    }
  }

  lemma ArrayLink<T(!new)>(other: Text -> Option<int>, item: Router<T>, vs: seq<T>, order: seq<Text>)
    requires Exact(item) && (forall i :: 0 <= i < |vs| ==> WritesLinkableAt(item, vs[i]))
    requires |vs| <= MAX_INT32 && WriteAll(item, vs).Some?
    requires Lists(order, AppendAll(Array(other, item).write(vs).value).queryArgs)
    ensures Parse(Array(other, item), FromUrl(Link(Array(other, item), vs, order), false)) == Some(vs)
  {
    hide Exact, Linkable, Lists, Parse, FromUrl;
    ItemsLinkable(item, vs);
    DecimalValue(|vs|);
    OneSegmentLinkable(Decimal(|vs|));
    AppendAllLinkable([Segment(Decimal(|vs|))], WriteAll(item, vs).value);
    ArrayExact(other, item, vs);
    LinksAreReadBack(Array(other, item), vs, order);
  }

  /** A constant is clean whatever its name, except for a `?` in it. */
  lemma FromStringLinkable(name: Text)
    ensures Linkable(AppendAll(FromString(name).segment)) <==> QUESTION !in name
  {
    var parts := Parts(name);
    if parts != [] {
      AppendAllOne(SegmentList(parts));
    }
    if QUESTION in name {
      QuestionSurvives(name);
    }
  }

  lemma QuestionSurvives(s: Text)
    requires QUESTION in s
    ensures exists p :: p in NonEmpty(Split(SLASH, s)) && QUESTION in p
  {
    var p := SplitKeeps(s);
    assert p in NonEmpty(Split(SLASH, s));
  }

  lemma SplitStep(s: Text)
    requires s != []
    ensures var rest := Split(SLASH, s[1..]);
            Split(SLASH, s) == if s[0] == SLASH then [[]] + rest else [[s[0]] + rest[0]] + rest[1..]
  {
  }

  lemma {:induction false} SplitKeeps(s: Text) returns (p: Text)
    requires QUESTION in s
    ensures p in Split(SLASH, s) && QUESTION in p
  {
    hide Split;
    SplitStep(s);
    var rest := Split(SLASH, s[1..]);
    if s[0] == QUESTION {
      p := [s[0]] + rest[0];
      assert Split(SLASH, s)[0] == p;
    } else {
      p := SplitKeeps(s[1..]);
      var i :| 0 <= i < |rest| && rest[i] == p;
      if s[0] == SLASH {
        assert Split(SLASH, s)[i + 1] == p;
      } else if i == 0 {
        p := [s[0]] + p;
        assert Split(SLASH, s)[0] == p;
      } else {
        assert Split(SLASH, s)[i] == p;
      }
    }
  }

  /** A string's segment is clean exactly if the string is not empty. */
  lemma StringLinkable(v: Option<Text>)
    ensures WritesLinkableAt(StringRouter(), v) <==> v != Some([])
  {
    var text := if v.None? then NULL_TEXT else Write(v.value);
    AppendAllOne(Segment(text));
    assert Segment(text).segments == [text];
    if v.Some? {
      WriteIsUnreserved(v.value);
      if v.value == [] {
        assert text in Segment(text).segments;
      } else {
        assert forall c :: c in text ==> Unreserved(c);
        OneSegmentLinkable(text);
      }
    } else {
      OneSegmentLinkable(text);
    }
  }

  // ----- tables -----

  /** Endpoints by name. */
  function Table<T(==)>(mapping: seq<(T, Text)>): Router<T>
  {
    Sum(Map((p: (T, Text)) => MapTo(p.0, FromString(p.1)), mapping))
  }

  lemma TableRoundTrips<T(!new)>(mapping: seq<(T, Text)>)
    ensures RoundTrips(Table(mapping))
  {
    var routers := Map((p: (T, Text)) => MapTo(p.0, FromString(p.1)), mapping);
    forall i | 0 <= i < |routers|
      ensures RoundTrips(routers[i])
    {
      FromStringExact(mapping[i].1);
      MapToExact(mapping[i].0, FromString(mapping[i].1));
      ExactRoundTrips(routers[i]);
    }
    SumRoundTrips(routers);
  }

  lemma {:induction false} StartsWithWhole(s: seq<Text>, l: seq<Text>)
    ensures StartsWith(s, l) == Some([]) <==> s == l
  {
    if s != [] && l != [] && s[0] == l[0] {
      StartsWithWhole(s[1..], l[1..]);
      assert s == [s[0]] + s[1..] && l == [l[0]] + l[1..];
    }
  }

  /** The endpoint of the first entry whose name has these parts. */
  function NamedBy<T>(mapping: seq<(T, Text)>, parts: seq<Text>): Option<T>
  {
    if mapping == [] then None
    else if Parts(mapping[0].1) == parts then Some(mapping[0].0)
    else NamedBy(mapping[1..], parts)
  }

  lemma EntryParses<T(!new)>(p: (T, Text), path: Route, more: seq<(Route, T)>)
    ensures TryPickWhole(MapTo(p.0, FromString(p.1)).parse(path) + more) ==
            if Parts(p.1) == path.segments then Some(p.0) else TryPickWhole(more)
  {
    var found := MapTo(p.0, FromString(p.1)).parse(path);
    assert FromString(p.1).parse(path) == StripParts(Parts(p.1), path);
    StartsWithWhole(Parts(p.1), path.segments);
    assert |found| <= 1 && (found == [] ==> found + more == more);
    assert |found| == 1 ==> (found + more)[0] == found[0] && (found + more)[1..] == more;
  }

  lemma {:induction false} TableParses<T(!new)>(mapping: seq<(T, Text)>, path: Route)
    ensures Parse(Table(mapping), path) == NamedBy(mapping, path.segments)
  {
    hide FromString, MapTo, TryPickWhole;
    var f := (p: (T, Text)) => MapTo(p.0, FromString(p.1));
    if mapping == [] {
      NothingToPick<T>();
    } else {
      TableParses(mapping[1..], path);
      assert Map(f, mapping)[1..] == Map(f, mapping[1..]);
      assert Table(mapping).parse(path) == f(mapping[0]).parse(path) + Table(mapping[1..]).parse(path);
      EntryParses(mapping[0], path, Table(mapping[1..]).parse(path));
    }
  }

  lemma NothingToPick<T>()
    ensures TryPickWhole<T>([]) == None
  {
  }

  lemma {:induction false} TableWrites<T(!new)>(mapping: seq<(T, Text)>, n: nat)
    requires n < |mapping| && forall k :: 0 <= k < n ==> mapping[k].0 != mapping[n].0
    ensures Table(mapping).write(mapping[n].0) == Some(FromString(mapping[n].1).segment)
  {
    hide FromString;
    var f := (p: (T, Text)) => MapTo(p.0, FromString(p.1));
    assert Map(f, mapping)[1..] == Map(f, mapping[1..]);
    if n > 0 {
      TableWrites(mapping[1..], n - 1);
    }
  }

  lemma {:induction false} NamedByFirst<T(!new)>(mapping: seq<(T, Text)>, n: nat)
    requires n < |mapping| && forall k :: 0 <= k < n ==> mapping[k].0 != mapping[n].0
    ensures NamedBy(mapping, Parts(mapping[n].1)) == Some(mapping[n].0) <==>
            forall k :: 0 <= k < n ==> Parts(mapping[k].1) != Parts(mapping[n].1)
  {
    hide Parts;
    if n > 0 {
      NamedByFirst(mapping[1..], n - 1);
      assert forall k :: 1 <= k < n ==> mapping[k] == mapping[1..][k - 1];
      assert forall k :: 0 <= k < n - 1 ==> mapping[1..][k] == mapping[k + 1];
    }
  }

  /**
     The link of an endpoint is that of its first entry.  It is parsed as the endpoint exactly if no earlier entry
     has a name of the same parts.
     */
  lemma TableLinkExactly<T(!new)>(mapping: seq<(T, Text)>, n: nat)
    requires n < |mapping| && QUESTION !in mapping[n].1
    requires forall k :: 0 <= k < n ==> mapping[k].0 != mapping[n].0
    ensures var r, v := Table(mapping), mapping[n].0;
            && r.write(v).Some? && Lists([], AppendAll(r.write(v).value).queryArgs)
            && (Parse(r, FromUrl(Link(r, v, []), false)) == Some(v) <==>
                forall k :: 0 <= k < n ==> Parts(mapping[k].1) != Parts(mapping[n].1))
  {
    hide Table, Parse, FromUrl, ToLink, NamedBy, CleanSegments, CleanArgs, Parts;
    var name := mapping[n].1;
    TableWrites(mapping, n);
    NameRoute(name);
    FromStringLinkable(name);
    CleanLink(SegmentList(Parts(name)), []);
    TableParses(mapping, SegmentList(Parts(name)));
    NamedByFirst(mapping, n);
  }

  lemma NameRoute(name: Text)
    ensures AppendAll(FromString(name).segment) == SegmentList(Parts(name))
  {
    AppendAllOne(SegmentList(Parts(name)));
  }

  // ----- strings, one or many -----

  /** A string comes back from its link, whatever its characters; a null string comes back as the text `null`. */
  lemma StringLink(v: Option<Text>)
    ensures var r := StringRouter();
            && Lists([], AppendAll(r.write(v).value).queryArgs)
            && Parse(r, FromUrl(Link(r, v, []), false)) == Some(Some(if v.Some? then v.value else NULL_TEXT))
  {
    hide FromUrl, ToLink, Write, ReadAll;
    var text := if v.Some? then v.value else NULL_TEXT;
    NullIsWritten();
    WrittenIsClean(text);
    ReadUndoesWrite(text);
    AppendAllOne(Segment(Write(text)));
    NonEmptyAppends(Write(text), []);
    EmptiesAreDropped([Write(text)]);
    assert [Write(text)] + [] == [Write(text)];
  }

  lemma NullIsWritten()
    ensures Write(NULL_TEXT) == NULL_TEXT
  {
    assert NULL_TEXT[1..] == [117, 108, 108] && NULL_TEXT[1..][1..] == [108, 108] && NULL_TEXT[1..][1..][1..] == [108];
  }

  /** Strings other than null. */
  function TextRouter(): Router<Text>
  {
    MapValues((o: Option<Text>) => if o.Some? then o.value else [], (s: Text) => Some(s), StringRouter())
  }

  function Written(vs: seq<Text>): seq<Text>
  {
    if vs == [] then [] else [Write(vs[0])] + Written(vs[1..])
  }

  function Empties(n: nat): (r: seq<Text>)
    ensures |r| == n && forall i :: 0 <= i < n ==> r[i] == []
  {
    if n == 0 then [] else [[]] + Empties(n - 1)
  }

  lemma {:induction false} TextsAreWritten(vs: seq<Text>)
    ensures WriteAll(TextRouter(), vs).Some? && AppendAll(WriteAll(TextRouter(), vs).value) == SegmentList(Written(vs))
  {
    if vs != [] {
      TextsAreWritten(vs[1..]);
      AppendAllOne(Segment(Write(vs[0])));
      AppendAllSplits([Segment(Write(vs[0]))], WriteAll(TextRouter(), vs[1..]).value);
    }
  }

  lemma WrittenIsClean(v: Text)
    ensures Write(v) == [] <==> v == []
    ensures SLASH !in Write(v) && QUESTION !in Write(v)
  {
    WriteIsUnreserved(v);
    assert forall c :: c in Write(v) ==> Unreserved(c);
  }

  lemma {:induction false} WrittenAreClean(vs: seq<Text>)
    ensures NonEmpty(Written(vs)) == Written(NonEmpty(vs)) && CleanSegments(NonEmpty(Written(vs)))
  {
    hide Write;
    if vs != [] {
      WrittenAreClean(vs[1..]);
      WrittenIsClean(vs[0]);
      NonEmptyAppends(Write(vs[0]), Written(vs[1..]));
      assert NonEmpty(vs) == if vs[0] == [] then NonEmpty(vs[1..]) else [vs[0]] + NonEmpty(vs[1..]);
      assert ([vs[0]] + NonEmpty(vs[1..]))[1..] == NonEmpty(vs[1..]);
      assert Written([vs[0]] + NonEmpty(vs[1..])) == [Write(vs[0])] + Written(NonEmpty(vs[1..]));
    }
  }

  lemma TextIsRead(xs: seq<Text>)
    ensures TextRouter().parse(SegmentList(Written(xs))) ==
            if xs == [] then [(EMPTY_ROUTE, [])] else [(SegmentList(Written(xs[1..])), xs[0])]
  {
    hide Write, ReadAll;
    var path := SegmentList(Written(xs));
    if xs != [] {
      ReadUndoesWrite(xs[0]);
      assert path.segments[1..] == Written(xs[1..]);
      assert ParseString(path) == [(SegmentList(Written(xs[1..])), Some(xs[0]))];
    }
  }

  /** Reading strings from a path of some, and then from the empty path, which gives empty strings. */
  lemma {:induction false} TextsAreRead(xs: seq<Text>, more: nat, acc: seq<Text>)
    ensures CollectItems(TextRouter(), |xs| + more, SegmentList(Written(xs)), acc) == [(EMPTY_ROUTE, acc + (xs + Empties(more)))]
    decreases |xs| + more
  {
    hide TextRouter, Written, Collect;
    var n := |xs| + more;
    TextIsRead(xs);
    if n == 0 {
      NoTextWritten();
      assert acc + (xs + Empties(more)) == acc;
    } else {
      var (x, xs', more') := if xs != [] then (xs[0], xs[1..], more) else ([], [], more - 1);
      NoTextWritten();
      assert [x] + (xs' + Empties(more')) == xs + Empties(more);
      CollectOne((pa: (Route, Text)) => CollectItems(TextRouter(), n - 1, pa.0, acc + [pa.1]), (SegmentList(Written(xs')), x));
      TextsAreRead(xs', more', acc + [x]);
      assert acc + [x] + (xs' + Empties(more')) == acc + ([x] + (xs' + Empties(more')));
    }
  }

  lemma NoTextWritten()
    ensures SegmentList(Written([])) == EMPTY_ROUTE
  {
  }

  /** The nonempty elements, and then as many empty ones as there were. */
  function EmptiesLast(vs: seq<Text>): (r: seq<Text>)
  {
    NonEmptyIsShorter(vs);
    NonEmpty(vs) + Empties(|vs| - |NonEmpty(vs)|)
  }

  lemma {:induction false} NonEmptyIsShorter(vs: seq<Text>)
    ensures |NonEmpty(vs)| <= |vs|
    ensures NonEmpty(vs) == [] <==> forall i :: 0 <= i < |vs| ==> vs[i] == []
  {
    if vs != [] {
      NonEmptyIsShorter(vs[1..]);
    }
  }

  predicate EmptiesTrail(vs: seq<Text>)
  {
    forall i, k :: 0 <= i < k < |vs| && vs[i] == [] ==> vs[k] == []
  }

  lemma {:induction false} EmptiesAreLast(vs: seq<Text>)
    ensures EmptiesLast(vs) == vs <==> EmptiesTrail(vs)
  {
    NonEmptyIsShorter(vs);
    if EmptiesTrail(vs) {
      if vs != [] && vs[0] != [] {
        EmptiesAreLast(vs[1..]);
        assert EmptiesTrail(vs[1..]);
        assert EmptiesLast(vs) == [vs[0]] + EmptiesLast(vs[1..]);
      }
    } else {
      var i, k :| 0 <= i < k < |vs| && vs[i] == [] && vs[k] != [];
      assert i < |NonEmpty(vs)| ==> NonEmpty(vs)[i] in NonEmpty(vs);
    }
  }

  /** The link of an array of strings is that of its count and its nonempty elements. */
  lemma TextArrayRoute(other: Text -> Option<int>, vs: seq<Text>)
    ensures var r := Array(other, TextRouter());
            && r.write(vs).Some? && AppendAll(r.write(vs).value) == SegmentList([Decimal(|vs|)] + Written(vs))
  {
    hide AppendAll, Written, TextRouter, WriteAll, Decimal;
    TextsAreWritten(vs);
    AppendAllOne(Segment(Decimal(|vs|)));
    AppendAllSplits([Segment(Decimal(|vs|))], WriteAll(TextRouter(), vs).value);
  }

  lemma NonEmptyAppends(x: Text, xs: seq<Text>)
    ensures NonEmpty([x] + xs) == (if x == [] then [] else [x]) + NonEmpty(xs)
  {
    assert ([x] + xs)[1..] == xs;
  }

  /** Segments that are nowhere written with `/` or `?` come back without the empty ones. */
  lemma EmptiesAreDropped(segments: seq<Text>)
    requires CleanSegments(NonEmpty(segments))
    ensures Lists([], map[]) && FromUrl(ToLink(SegmentList(segments), []), false) == SegmentList(NonEmpty(segments))
  {
    hide FromUrl, NonEmpty, CleanSegments, Join;
    AllAreNonEmpty(segments);
    CleanLink(SegmentList(NonEmpty(segments)), []);
  }

  lemma AllAreNonEmpty(segments: seq<Text>)
    ensures NonEmpty(NonEmpty(segments)) == NonEmpty(segments)
  {
    NonEmptyOfAll(NonEmpty(segments));
  }

  lemma TextArrayUrl(other: Text -> Option<int>, vs: seq<Text>)
    ensures var r := Array(other, TextRouter());
            && r.write(vs).Some? && Lists([], AppendAll(r.write(vs).value).queryArgs)
            && FromUrl(Link(r, vs, []), false) == SegmentList([Decimal(|vs|)] + Written(NonEmpty(vs)))
  {
    hide FromUrl, ToLink, NonEmpty, Written, TextRouter, Array, AppendAll;
    var n := Decimal(|vs|);
    TextArrayRoute(other, vs);
    WrittenAreClean(vs);
    NonEmptyAppends(n, Written(vs));
    DigitsAreClean(|vs|);
    EmptiesAreDropped([n] + Written(vs));
  }

  lemma DigitsAreClean(n: nat)
    ensures Decimal(n) != [] && SLASH !in Decimal(n) && QUESTION !in Decimal(n)
  {
  }

  lemma TextArrayParses(other: Text -> Option<int>, n: nat, segments: seq<Text>)
    ensures ParseArray(other, TextRouter(), SegmentList([Decimal(n)] + segments)) ==
            if n <= MAX_INT32 then CollectItems(TextRouter(), n, SegmentList(segments), []) else []
  {
    hide CollectItems, TextRouter;
    DecimalValue(n);
    var path := SegmentList([Decimal(n)] + segments);
    assert path.segments[1..] == segments;
    assert path.(segments := path.segments[1..]) == SegmentList(segments);
  }

  lemma ItemsOfTexts(vs: seq<Text>)
    ensures CollectItems(TextRouter(), |vs|, SegmentList(Written(NonEmpty(vs))), []) == [(EMPTY_ROUTE, EmptiesLast(vs))]
  {
    hide CollectItems, TextRouter, Written, NonEmpty, Empties, SegmentList, EmptiesLast;
    EmptiesLastIs(vs);
    TextsAreRead(NonEmpty(vs), |vs| - |NonEmpty(vs)|, []);
  }

  lemma EmptiesLastIs(vs: seq<Text>)
    ensures |NonEmpty(vs)| <= |vs|
    ensures [] + (NonEmpty(vs) + Empties(|vs| - |NonEmpty(vs)|)) == EmptiesLast(vs)
  {
    hide NonEmpty, Empties;
    NonEmptyIsShorter(vs);
    assert [] + EmptiesLast(vs) == EmptiesLast(vs);
  }

  lemma TextArrayReads(other: Text -> Option<int>, vs: seq<Text>)
    ensures Array(other, TextRouter()).parse(SegmentList([Decimal(|vs|)] + Written(NonEmpty(vs)))) ==
            if |vs| <= MAX_INT32 then [(EMPTY_ROUTE, EmptiesLast(vs))] else []
  {
    hide NonEmpty, Written, TextRouter, CollectItems, Decimal, ParseArray, EmptiesLast, SegmentList;
    TextArrayParses(other, |vs|, Written(NonEmpty(vs)));
    ItemsOfTexts(vs);
  }

  /**
     What comes back from the link of an array of strings has its empty strings last.  So the array itself comes
     back exactly if it is short enough and no nonempty string follows an empty one.
     */
  lemma TextArrayLink(other: Text -> Option<int>, vs: seq<Text>)
    ensures var r := Array(other, TextRouter());
            && r.write(vs).Some? && Lists([], AppendAll(r.write(vs).value).queryArgs)
            && Parse(r, FromUrl(Link(r, vs, []), false)) == (if |vs| < 0x8000_0000 then Some(EmptiesLast(vs)) else None)
            && (Parse(r, FromUrl(Link(r, vs, []), false)) == Some(vs) <==> |vs| < 0x8000_0000 && EmptiesTrail(vs))
  {
    hide FromUrl, NonEmpty, Written, TextRouter, Array, EmptiesTrail, EmptiesLast, Lists, Link, SegmentList;
    TextArrayUrl(other, vs);
    TextArrayReads(other, vs);
    EmptiesAreLast(vs);
  }
}
