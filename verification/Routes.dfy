/**
 Routes and their links.

 A route's query arguments are a finite map; a link writes them in the order in which the map enumerates its
 keys, which is a parameter here: what is proved holds for every order.
 */
module Routes {
  import opened Wrappers
  import opened StringEncoding

  const SLASH: CodeUnit := 47
  const QUESTION: CodeUnit := 63
  const AMPERSAND: CodeUnit := 38
  const EQUALS: CodeUnit := 61

  type Args = map<Text, Text>

  datatype Route = Route(
    segments: seq<Text>,
    queryArgs: Args,
    formData: Args,
    httpMethod: Option<Text>,
    body: Option<Text>)

  const EMPTY_ROUTE := Route([], map[], map[], None, None)

  function Segment(s: Text): Route
  {
    EMPTY_ROUTE.(segments := [s])
  }

  function SegmentList(s: seq<Text>): Route
  {
    EMPTY_ROUTE.(segments := s)
  }

  // ----- joining and splitting -----

  function Join(sep: CodeUnit, parts: seq<Text>): Text
  {
    if |parts| == 0 then [] else if |parts| == 1 then parts[0] else parts[0] + [sep] + Join(sep, parts[1..])
  }

  function Split(sep: CodeUnit, s: Text): (r: seq<Text>)
    ensures |r| > 0
    ensures forall p :: p in r ==> sep !in p
    ensures forall p, c :: p in r && c in p ==> c in s
  {
    if s == [] then [[]] else
    var rest := Split(sep, s[1..]);
    if s[0] == sep then [[]] + rest else [[s[0]] + rest[0]] + rest[1..]
  }

  function NonEmpty(xs: seq<Text>): (r: seq<Text>)
    ensures forall x :: x in r <==> x in xs && x != []
  {
    if xs == [] then [] else (if xs[0] == [] then [] else [xs[0]]) + NonEmpty(xs[1..])
  }

  lemma SplitPrefix(sep: CodeUnit, p: Text, s: Text)
    requires sep !in p
    ensures Split(sep, p + s) == [p + Split(sep, s)[0]] + Split(sep, s)[1..]
  {
    if p == [] {
      assert p + s == s;
      assert [] + Split(sep, s)[0] == Split(sep, s)[0];
    } else {
      assert (p + s)[1..] == p[1..] + s;
      SplitPrefix(sep, p[1..], s);
      assert [p[0]] + (p[1..] + Split(sep, s)[0]) == p + Split(sep, s)[0];
    }
  }

  /** Splitting undoes joining, if no part contains the separator. */
  lemma {:induction false} SplitUndoesJoin(sep: CodeUnit, parts: seq<Text>)
    requires parts != [] && forall p :: p in parts ==> sep !in p
    ensures Split(sep, Join(sep, parts)) == parts
  {
    var p, rest := parts[0], parts[1..];
    assert p in parts && parts == [p] + rest;
    if rest == [] {
      SplitPrefix(sep, p, []);
      assert p + [] == p;
    } else {
      var tail := [sep] + Join(sep, rest);
      SplitUndoesJoin(sep, rest);
      assert tail[1..] == Join(sep, rest) && tail[0] == sep;
      assert Split(sep, tail) == [[]] + rest;
      SplitPrefix(sep, p, tail);
      assert p + [sep] + Join(sep, rest) == p + tail;
      assert p + [] == p;
    }
  }

  lemma {:induction false} NonEmptyOfAll(xs: seq<Text>)
    requires forall x :: x in xs ==> x != []
    ensures NonEmpty(xs) == xs
  {
    if xs != [] {
      assert xs[0] in xs && forall x :: x in xs[1..] ==> x in xs;
      NonEmptyOfAll(xs[1..]);
    }
  }

  // ----- links -----

  function Flatten(xs: seq<Text>): Text
  {
    if xs == [] then [] else Flatten(xs[..|xs| - 1]) + xs[|xs| - 1]
  }

  lemma {:induction false} JoinSnoc(sep: CodeUnit, xs: seq<Text>, x: Text)
    ensures Join(sep, xs + [x]) == if xs == [] then x else Join(sep, xs) + [sep] + x
  {
    if |xs| > 0 {
      assert (xs + [x])[1..] == xs[1..] + [x];
      JoinSnoc(sep, xs[1..], x);
      if |xs| > 1 {
        assert xs[0] + [sep] + (Join(sep, xs[1..]) + [sep] + x) == xs[0] + [sep] + Join(sep, xs[1..]) + [sep] + x;
      }
    }
  }

  lemma {:induction false} NonEmptySnoc(xs: seq<Text>, x: Text)
    ensures NonEmpty(xs + [x]) == NonEmpty(xs) + if x == [] then [] else [x]
  {
    if xs == [] {
      assert xs + [x] == [x];
    } else {
      assert (xs + [x])[1..] == xs[1..] + [x];
      NonEmptySnoc(xs[1..], x);
    }
  }

  lemma FlattenSnoc(xs: seq<Text>, x: Text)
    ensures Flatten(xs + [x]) == Flatten(xs) + x
  {
    assert (xs + [x])[..|xs|] == xs;
  }

  method Concat(xs: seq<Text>) returns (r: Text)
    ensures r == Join(SLASH, NonEmpty(xs))
  {
    hide Flatten, Join, NonEmpty;
    var sb: seq<Text> := [];
    var start := true;
    EmptyBuffers();
    for i := 0 to |xs|
      invariant start <==> NonEmpty(xs[..i]) == []
      invariant Flatten(sb) == Join(SLASH, NonEmpty(xs[..i]))
      invariant start ==> sb == []
    {
      assert xs[..i + 1] == xs[..i] + [xs[i]] && NonEmpty(xs[..i]) + [] == NonEmpty(xs[..i]);
      NonEmptySnoc(xs[..i], xs[i]);
      if xs[i] != [] {
        JoinSnoc(SLASH, NonEmpty(xs[..i]), xs[i]);
        assert [] + xs[i] == xs[i];
        if start {
          start := false;
        } else {
          FlattenSnoc(sb, [SLASH]);
          sb := sb + [[SLASH]];
        }
        FlattenSnoc(sb, xs[i]);
        sb := sb + [xs[i]];
      }
    }
    assert xs[..|xs|] == xs;
    r := Flatten(sb);
  }

  lemma EmptyBuffers()
    ensures Flatten([]) == [] && NonEmpty([]) == [] && Join(SLASH, []) == []
  {
  }

  /** `order` lists the keys of `q`, each once. */
  ghost predicate Lists(order: seq<Text>, q: Args)
  {
    && (forall i :: 0 <= i < |order| ==> order[i] in q)
    && (forall k :: k in q ==> k in order)
    && forall i, j :: 0 <= i < j < |order| ==> order[i] != order[j]
  }

  function Pairs(q: Args, order: seq<Text>): (r: seq<Text>)
    requires forall i :: 0 <= i < |order| ==> order[i] in q
    ensures |r| == |order| && forall i :: 0 <= i < |r| ==> r[i] == order[i] + [EQUALS] + q[order[i]]
  {
    seq(|order|, i requires 0 <= i < |order| => order[i] + [EQUALS] + q[order[i]])
  }

  function WriteQuery(q: Args, order: seq<Text>): Text
    requires Lists(order, q)
  {
    Join(AMPERSAND, Pairs(q, order))
  }

  function WriteLink(s: seq<Text>, q: Args, order: seq<Text>): Text
    requires Lists(order, q)
  {
    [SLASH] + Join(SLASH, NonEmpty(s)) + if q == map[] then [] else [QUESTION] + WriteQuery(q, order)
  }

  function ToLink(r: Route, order: seq<Text>): Text
    requires Lists(order, r.queryArgs)
  {
    WriteLink(r.segments, r.queryArgs, order)
  }

  // ----- the text of a link -----

  function PathText(s: seq<Text>): Text
  {
    if s == [] then [] else PathText(s[..|s| - 1]) + if s[|s| - 1] == [] then [] else ['/' as int] + s[|s| - 1]
  }

  function QueryText(q: Args, order: seq<Text>): Text
    requires forall i :: 0 <= i < |order| ==> order[i] in q
  {
    if order == [] then [] else
    var n := |order| - 1;
    QueryText(q, order[..n]) + [(if n == 0 then '?' else '&') as int] + order[n] + ['=' as int] + q[order[n]]
  }

  /** What joining with a slash ahead comes to, one more part. */
  lemma SlashSnoc(parts: seq<Text>, x: Text)
    ensures [SLASH] + Join(SLASH, parts + [x]) == (if parts == [] then [] else [SLASH] + Join(SLASH, parts)) + ([SLASH] + x)
  {
    hide Join;
    JoinSnoc(SLASH, parts, x);
    var front := Join(SLASH, parts);
    assert [SLASH] + (front + [SLASH] + x) == [SLASH] + front + ([SLASH] + x);
    assert [] + ([SLASH] + x) == [SLASH] + x;
  }

  lemma {:induction false} PathTextJoins(s: seq<Text>)
    ensures PathText(s) == if NonEmpty(s) == [] then [] else [SLASH] + Join(SLASH, NonEmpty(s))
  {
    hide Join, NonEmpty;
    EmptyBuffers();
    if s != [] {
      var front, x := s[..|s| - 1], s[|s| - 1];
      PathTextJoins(front);
      assert s == front + [x];
      NonEmptySnoc(front, x);
      if x == [] {
        assert NonEmpty(s) == NonEmpty(front) && PathText(s) == PathText(front);
      } else {
        SlashSnoc(NonEmpty(front), x);
        assert NonEmpty(s) == NonEmpty(front) + [x] && PathText(s) == PathText(front) + ([SLASH] + x);
      }
    }
  }

  lemma {:induction false} QueryTextJoins(q: Args, order: seq<Text>)
    requires forall i :: 0 <= i < |order| ==> order[i] in q
    ensures QueryText(q, order) == if order == [] then [] else [QUESTION] + Join(AMPERSAND, Pairs(q, order))
  {
    hide Join;
    if order != [] {
      var n := |order| - 1;
      var front, last := Pairs(q, order[..n]), order[n] + [EQUALS] + q[order[n]];
      QueryTextJoins(q, order[..n]);
      assert Pairs(q, order) == front + [last];
      JoinSnoc(AMPERSAND, front, last);
      Reassociate(QueryText(q, order[..n]), (if n == 0 then '?' else '&') as int, order[n], q[order[n]]);
      MarkSnoc(Join(AMPERSAND, front), last);
    }
  }

  lemma MarkSnoc(front: Text, last: Text)
    ensures [QUESTION] + front + [AMPERSAND] + last == [QUESTION] + (front + [AMPERSAND] + last)
    ensures [] + [QUESTION] + last == [QUESTION] + last
  {
  }

  lemma Reassociate(a: Text, c: CodeUnit, k: Text, v: Text)
    ensures a + [c] + k + [EQUALS] + v == a + [c] + (k + [EQUALS] + v)
  {
  }

  lemma NothingToList(q: Args, order: seq<Text>)
    requires Lists(order, q)
    ensures order == [] <==> q == map[]
  {
    assert order != [] ==> order[0] in q;
    if q != map[] {
      var k :| k in q;
      assert k in order;
    }
  }

  /**
   The text of a link, piece by piece: a slash before each nonempty segment, or one alone if there is none; then
   the arguments, the first behind a question mark and the others behind ampersands.
   */
  lemma LinkExactly(r: Route, order: seq<Text>)
    requires Lists(order, r.queryArgs)
    ensures ToLink(r, order) ==
            (if PathText(r.segments) == [] then ['/' as int] else PathText(r.segments)) + QueryText(r.queryArgs, order)
  {
    hide PathText, QueryText, NonEmpty, Join;
    PathTextJoins(r.segments);
    QueryTextJoins(r.queryArgs, order);
    EmptyBuffers();
    var path := [SLASH] + Join(SLASH, NonEmpty(r.segments));
    assert [SLASH] + [] == [SLASH];
    NothingToList(r.queryArgs, order);
    if r.queryArgs == map[] {
      assert path + [] == path;
    } else {
      assert ToLink(r, order) == path + QueryText(r.queryArgs, order);
    }
  }

  // ----- reading links -----

  /** Where `c` first occurs; -1 if nowhere. */
  function IndexOf(s: Text, c: CodeUnit): (i: int)
    ensures -1 <= i < |s|
    ensures i >= 0 ==> s[i] == c
    ensures forall k :: 0 <= k < (if i >= 0 then i else |s|) ==> s[k] != c
  {
    if s == [] then -1
    else if s[0] == c then 0
    else
    var i := IndexOf(s[1..], c);
    if i == -1 then -1 else i + 1
  }

  /** The arguments among the pieces; a piece without exactly one `=` is dropped, and the first of equal keys wins. */
  function ParsePairs(kvs: seq<Text>): Args
  {
    if kvs == [] then map[] else
    var q, m := ParsePairs(kvs[1..]), Split(EQUALS, kvs[0]);
    if |m| == 2 then q[m[0] := m[1]] else q
  }

  function ParseQuery(q: Text): Args
  {
    ParsePairs(Split(AMPERSAND, q))
  }

  /** Empty segments are dropped unless `strict`. */
  function FromUrl(path: Text, strict: bool): Route
  {
    var m := IndexOf(path, QUESTION);
    var (p, q) := if m == -1 then (path, map[]) else (path[..m], ParseQuery(path[m + 1..]));
    var parts := Split(SLASH, p);
    EMPTY_ROUTE.(segments := if strict then parts else NonEmpty(parts), queryArgs := q)
  }

  ghost predicate CleanSegments(s: seq<Text>)
  {
    forall x :: x in s ==> x != [] && SLASH !in x && QUESTION !in x
  }

  ghost predicate CleanArgs(q: Args)
  {
    forall k :: k in q ==> AMPERSAND !in k && EQUALS !in k && AMPERSAND !in q[k] && EQUALS !in q[k]
  }

  lemma PairSplits(k: Text, v: Text)
    requires EQUALS !in k && EQUALS !in v
    ensures Split(EQUALS, k + [EQUALS] + v) == [k, v]
  {
    assert [k, v][1..] == [v];
    assert Join(EQUALS, [v]) == v;
    assert Join(EQUALS, [k, v]) == k + [EQUALS] + v;
    SplitUndoesJoin(EQUALS, [k, v]);
  }

  lemma {:induction false} ParsePairsReads(q: Args, order: seq<Text>)
    requires (forall i :: 0 <= i < |order| ==> order[i] in q) && CleanArgs(q)
    requires forall i, j :: 0 <= i < j < |order| ==> order[i] != order[j]
    ensures var r := ParsePairs(Pairs(q, order));
            forall k :: (k in r <==> k in order) && (k in order ==> r[k] == q[k])
  {
    if order != [] {
      assert Pairs(q, order)[1..] == Pairs(q, order[1..]);
      ParsePairsReads(q, order[1..]);
      PairSplits(order[0], q[order[0]]);
      assert order == [order[0]] + order[1..];
    }
  }

  /** Of several pieces with the same key, the first decides; a piece without exactly one `=` counts for nothing. */
  lemma {:induction false} FirstPairWins(kvs: seq<Text>, i: nat, k: Text, v: Text)
    requires i < |kvs| && Split(EQUALS, kvs[i]) == [k, v]
    requires forall j :: 0 <= j < i && |Split(EQUALS, kvs[j])| == 2 ==> Split(EQUALS, kvs[j])[0] != k
    ensures k in ParsePairs(kvs) && ParsePairs(kvs)[k] == v
  {
    hide Split;
    if i > 0 {
      assert kvs[1..][i - 1] == kvs[i] && forall j :: 0 <= j < i - 1 ==> kvs[1..][j] == kvs[j + 1];
      FirstPairWins(kvs[1..], i - 1, k, v);
    }
  }

  lemma {:induction false} PairsAreFound(kvs: seq<Text>, k: Text)
    ensures k in ParsePairs(kvs) <==>
              exists i :: 0 <= i < |kvs| && |Split(EQUALS, kvs[i])| == 2 && Split(EQUALS, kvs[i])[0] == k
  {
    hide Split;
    if kvs != [] {
      PairsAreFound(kvs[1..], k);
      assert forall i :: 1 <= i < |kvs| ==> kvs[i] == kvs[1..][i - 1];
      assert forall i :: 0 <= i < |kvs| - 1 ==> kvs[1..][i] == kvs[i + 1];
    }
  }

  lemma PairsAreClean(q: Args, order: seq<Text>, p: Text)
    requires Lists(order, q) && CleanArgs(q) && p in Pairs(q, order)
    ensures AMPERSAND !in p
  {
    var i :| 0 <= i < |order| && Pairs(q, order)[i] == p;
    assert order[i] in q;
  }

  lemma QueryRoundTrip(q: Args, order: seq<Text>)
    requires Lists(order, q) && CleanArgs(q) && q != map[]
    ensures ParseQuery(WriteQuery(q, order)) == q
  {
    forall p | p in Pairs(q, order)
      ensures AMPERSAND !in p
    {
      PairsAreClean(q, order, p);
    }
    assert order != [];
    SplitUndoesJoin(AMPERSAND, Pairs(q, order));
    ParsePairsReads(q, order);
  }

  lemma SegmentsRoundTrip(s: seq<Text>)
    requires CleanSegments(s)
    ensures NonEmpty(Split(SLASH, [SLASH] + Join(SLASH, s))) == s
    ensures QUESTION !in Join(SLASH, s)
  {
    var text := [SLASH] + Join(SLASH, s);
    assert text[1..] == Join(SLASH, s);
    if s == [] {
      var two: seq<Text> := [[], []];
      assert two[1..] == [[]] && Split(SLASH, text) == two;
    } else {
      SplitUndoesJoin(SLASH, s);
      NonEmptyOfAll(s);
      assert ([[]] + s)[1..] == s;
    }
    JoinLacks(s);
  }

  lemma {:induction false} JoinLacks(s: seq<Text>)
    requires forall x :: x in s ==> QUESTION !in x
    ensures QUESTION !in Join(SLASH, s)
  {
    if |s| > 0 {
      assert s[0] in s;
      JoinLacks(s[1..]);
    }
  }

  lemma PartsAreClean(p: Text)
    requires QUESTION !in p
    ensures CleanSegments(NonEmpty(Split(SLASH, p)))
  {
  }

  lemma QueryIsClean(q: Text)
    ensures CleanArgs(ParseQuery(q)) && CleanArgs(map[])
  {
    ParsePairsAreClean(Split(AMPERSAND, q));
  }

  /** A strict reading keeps the empty segments. */
  lemma StrictKeepsAll(s: seq<Text>)
    requires s != [] && forall x :: x in s ==> SLASH !in x && QUESTION !in x
    ensures FromUrl(Join(SLASH, s), true) == EMPTY_ROUTE.(segments := s)
  {
    hide Split, Join;
    SplitUndoesJoin(SLASH, s);
    JoinLacks(s);
  }

  /** What comes out of a link is always clean. */
  lemma FromUrlIsClean(path: Text)
    ensures CleanSegments(FromUrl(path, false).segments) && CleanArgs(FromUrl(path, false).queryArgs)
  {
    hide Split, NonEmpty, ParseQuery, CleanArgs, CleanSegments;
    var m := IndexOf(path, QUESTION);
    if m == -1 {
      PartsAreClean(path);
      QueryIsClean([]);
    } else {
      PartsAreClean(path[..m]);
      QueryIsClean(path[m + 1..]);
    }
  }

  lemma {:induction false} ParsePairsAreClean(kvs: seq<Text>)
    requires forall kv :: kv in kvs ==> AMPERSAND !in kv
    ensures CleanArgs(ParsePairs(kvs))
  {
    if kvs != [] {
      ParsePairsAreClean(kvs[1..]);
      var m := Split(EQUALS, kvs[0]);
      if |m| == 2 {
        assert kvs[0] in kvs && m[0] in m && m[1] in m;
      }
    }
  }

  lemma FromUrlParts(p: Text, q: Text)
    requires QUESTION !in p
    ensures FromUrl(p, false) == EMPTY_ROUTE.(segments := NonEmpty(Split(SLASH, p)))
    ensures FromUrl(p + [QUESTION] + q, false) ==
            EMPTY_ROUTE.(segments := NonEmpty(Split(SLASH, p)), queryArgs := ParseQuery(q))
  {
    hide Split, NonEmpty, ParseQuery;
    FirstQuestion(p, q);
  }

  lemma CleanLink(r: Route, order: seq<Text>)
    requires Lists(order, r.queryArgs) && CleanSegments(r.segments) && CleanArgs(r.queryArgs)
    ensures FromUrl(ToLink(r, order), false) == EMPTY_ROUTE.(segments := r.segments, queryArgs := r.queryArgs)
  {
    hide Split, NonEmpty, ParseQuery, WriteQuery, FromUrl, Join, CleanArgs;
    NonEmptyOfAll(r.segments);
    SegmentsRoundTrip(r.segments);
    var p := [SLASH] + Join(SLASH, r.segments);
    FromUrlParts(p, WriteQuery(r.queryArgs, order));
    if r.queryArgs == map[] {
      assert ToLink(r, order) == p;
    } else {
      assert ToLink(r, order) == p + [QUESTION] + WriteQuery(r.queryArgs, order);
      QueryRoundTrip(r.queryArgs, order);
    }
  }

  /**
   A link gives back the segments and the query arguments of its route exactly if every segment is nonempty
   and without `/` and `?`, and keys and values are without `&` and `=`.
   */
  lemma LinkRoundTrip(r: Route, order: seq<Text>)
    requires Lists(order, r.queryArgs)
    ensures var r' := FromUrl(ToLink(r, order), false);
            r'.segments == r.segments && r'.queryArgs == r.queryArgs <==>
            CleanSegments(r.segments) && CleanArgs(r.queryArgs)
  {
    hide FromUrl, ToLink, CleanSegments, CleanArgs;
    FromUrlIsClean(ToLink(r, order));
    if CleanSegments(r.segments) && CleanArgs(r.queryArgs) {
      CleanLink(r, order);
    }
  }

  lemma FirstQuestion(p: Text, q: Text)
    requires QUESTION !in p
    ensures var s := p + [QUESTION] + q; IndexOf(s, QUESTION) == |p| && s[..|p|] == p && s[|p| + 1..] == q
  {
    var s := p + [QUESTION] + q;
    assert s[|p|] == QUESTION;
    assert forall k :: 0 <= k < |p| ==> s[k] == p[k];
  }

  // ----- combining -----

  function Later<T>(a: Option<T>, b: Option<T>): Option<T>
  {
    if b.Some? then b else a
  }

  /** Segments are appended; of equal keys the earlier wins, of methods and bodies the later. */
  function Append(a: Route, b: Route): Route
  {
    Route(a.segments + b.segments, b.queryArgs + a.queryArgs, b.formData + a.formData,
          Later(a.httpMethod, b.httpMethod), Later(a.body, b.body))
  }

  function AppendAll(paths: seq<Route>): Route
  {
    if paths == [] then EMPTY_ROUTE else Append(AppendAll(paths[..|paths| - 1]), paths[|paths| - 1])
  }

  method Combine(paths: seq<Route>) returns (r: Route)
    ensures r == AppendAll(paths)
  {
    if |paths| == 0 {
      r := EMPTY_ROUTE;
    } else if |paths| == 1 {
      r := paths[0];
      AppendEmpty(r);
      assert paths[..0] == [];
    } else {
      var m, body: Option<Text> := None, None;
      var segments: seq<Text> := [];
      var queryArgs, formData: Args := map[], map[];
      for i := 0 to |paths|
        invariant Route(segments, queryArgs, formData, m, body) == AppendAll(paths[..i])
      {
        var p := paths[i];
        assert paths[..i + 1][..i] == paths[..i];
        if p.httpMethod.Some? {
          m := p.httpMethod;
        }
        if p.body.Some? {
          body := p.body;
        }
        queryArgs := p.queryArgs + queryArgs;
        formData := p.formData + formData;
        segments := segments + p.segments;
      }
      assert paths[..|paths|] == paths;
      r := Route(segments, queryArgs, formData, m, body);
    }
  }

  lemma AppendEmpty(r: Route)
    ensures Append(r, EMPTY_ROUTE) == r && Append(EMPTY_ROUTE, r) == r
  {
    assert r.segments + [] == r.segments && [] + r.segments == r.segments;
  }

  lemma AppendAssociates(a: Route, b: Route, c: Route)
    ensures Append(Append(a, b), c) == Append(a, Append(b, c))
  {
    assert (a.segments + b.segments) + c.segments == a.segments + (b.segments + c.segments);
    assert c.queryArgs + (b.queryArgs + a.queryArgs) == (c.queryArgs + b.queryArgs) + a.queryArgs;
    assert c.formData + (b.formData + a.formData) == (c.formData + b.formData) + a.formData;
  }

  /** Combining in two halves is combining at once. */
  lemma {:induction false} AppendAllSplits(a: seq<Route>, b: seq<Route>)
    ensures AppendAll(a + b) == Append(AppendAll(a), AppendAll(b))
    decreases |b|
  {
    if b == [] {
      assert a + b == a;
      AppendEmpty(AppendAll(a));
    } else {
      var n := |b| - 1;
      assert (a + b)[..|a| + n] == a + b[..n];
      AppendAllSplits(a, b[..n]);
      AppendAssociates(AppendAll(a), AppendAll(b[..n]), b[n]);
    }
  }

  /** Of several routes with the same key, the first decides. */
  lemma {:induction false} FirstArgumentWins(paths: seq<Route>, i: nat, k: Text)
    requires i < |paths| && k in paths[i].queryArgs
    requires forall j :: 0 <= j < i ==> k !in paths[j].queryArgs
    ensures k in AppendAll(paths).queryArgs && AppendAll(paths).queryArgs[k] == paths[i].queryArgs[k]
  {
    var n := |paths| - 1;
    if i < n {
      FirstArgumentWins(paths[..n], i, k);
    } else {
      NoArgument(paths[..n], k);
    }
  }

  /** Likewise for form data. */
  lemma {:induction false} FirstFormDataWins(paths: seq<Route>, i: nat, k: Text)
    requires i < |paths| && k in paths[i].formData
    requires forall j :: 0 <= j < i ==> k !in paths[j].formData
    ensures k in AppendAll(paths).formData && AppendAll(paths).formData[k] == paths[i].formData[k]
  {
    var n := |paths| - 1;
    if i < n {
      FirstFormDataWins(paths[..n], i, k);
    } else {
      NoFormData(paths[..n], k);
    }
  }

  lemma {:induction false} NoFormData(paths: seq<Route>, k: Text)
    requires forall j :: 0 <= j < |paths| ==> k !in paths[j].formData
    ensures k !in AppendAll(paths).formData
  {
    if paths != [] {
      NoFormData(paths[..|paths| - 1], k);
    }
  }

  lemma {:induction false} NoArgument(paths: seq<Route>, k: Text)
    requires forall j :: 0 <= j < |paths| ==> k !in paths[j].queryArgs
    ensures k !in AppendAll(paths).queryArgs
  {
    if paths != [] {
      NoArgument(paths[..|paths| - 1], k);
    }
  }

  /** Of several routes with a body, the last decides. */
  lemma {:induction false} LastBodyWins(paths: seq<Route>, i: nat)
    requires i < |paths| && paths[i].body.Some?
    requires forall j :: i < j < |paths| ==> paths[j].body.None?
    ensures AppendAll(paths).body == paths[i].body
  {
    if i < |paths| - 1 {
      LastBodyWins(paths[..|paths| - 1], i);
    }
  }

  /** Of several routes with a method, the last decides. */
  lemma {:induction false} LastMethodWins(paths: seq<Route>, i: nat)
    requires i < |paths| && paths[i].httpMethod.Some?
    requires forall j :: i < j < |paths| ==> paths[j].httpMethod.None?
    ensures AppendAll(paths).httpMethod == paths[i].httpMethod
  {
    if i < |paths| - 1 {
      LastMethodWins(paths[..|paths| - 1], i);
    }
  }
}
