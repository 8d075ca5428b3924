/**
 The hash-bucket dictionary and set.

 Buckets are sequences of entries, found under the hash of their keys.  Keys are compared by any equivalence
 `eq`, and `hash` is any function that gives equal keys the same hash.  The ghost `model` is the finite map
 from the keys as they are stored; keys equal to a stored one find its entry.
 */
module HashCollections {
  import opened Wrappers

  datatype Entry<K, V> = Entry(key: K, value: V)

  type Buckets<K, V> = map<int, seq<Entry<K, V>>>

  /** The comparer of a collection. */
  datatype Comparer<!K> = Comparer(eq: (K, K) -> bool, hash: K -> int)

  predicate Eq<K>(c: Comparer<K>, a: K, b: K)
  {
    c.eq(a, b)
  }

  function Hash<K>(c: Comparer<K>, k: K): int
  {
    c.hash(k)
  }

  ghost predicate Compatible<K(!new)>(c: Comparer<K>)
  {
    && (forall a :: Eq(c, a, a))
    && (forall a, b :: Eq(c, a, b) ==> Eq(c, b, a) && Hash(c, a) == Hash(c, b))
    && (forall a, b, d :: Eq(c, a, b) && Eq(c, b, d) ==> Eq(c, a, d))
  }

  // ----- the abstract map -----

  /** Is a key equal to `k` stored? */
  ghost predicate Has<K, V>(c: Comparer<K>, model: map<K, V>, k: K)
  {
    exists r :: r in model && Eq(c, r, k)
  }

  /** The model without what is stored under keys equal to `k`. */
  ghost function Without<K, V>(c: Comparer<K>, model: map<K, V>, k: K): map<K, V>
  {
    map r | r in model && !Eq(c, r, k) :: model[r]
  }

  /** The value found for `k`, if any. */
  ghost predicate Finds<K, V>(c: Comparer<K>, model: map<K, V>, k: K, v: V)
  {
    exists r :: r in model && Eq(c, r, k) && model[r] == v
  }

  ghost predicate OneEach<K, V>(c: Comparer<K>, model: map<K, V>)
  {
    forall a, b :: a in model && b in model && Eq(c, a, b) ==> a == b
  }

  // ----- representation -----

  function Bucket<K, V>(data: Buckets<K, V>, h: int): seq<Entry<K, V>>
  {
    if h in data then data[h] else []
  }

  ghost predicate Distinct<K, V>(d: seq<Entry<K, V>>)
  {
    forall i, k :: 0 <= i < k < |d| ==> d[i].key != d[k].key
  }

  /** The entry belongs to the model, in the bucket of hash `h`. */
  ghost predicate Belongs<K, V>(c: Comparer<K>, model: map<K, V>, h: int, e: Entry<K, V>)
  {
    Hash(c, e.key) == h && e.key in model && model[e.key] == e.value
  }

  /** Each bucket holds exactly the entries that belong to it, once each. */
  ghost predicate Represents<K(!new), V(!new)>(c: Comparer<K>, data: Buckets<K, V>, model: map<K, V>)
  {
    && (forall h: int, e: Entry<K, V> :: e in Bucket(data, h) <==> Belongs(c, model, h, e))
    && (forall h: int :: Distinct(Bucket(data, h)))
    && OneEach(c, model)
  }

  lemma Reflexive<K(!new)>(c: Comparer<K>, k: K)
    requires Compatible(c)
    ensures Eq(c, k, k)
  {
  }

  lemma SameHash<K(!new)>(c: Comparer<K>, a: K, b: K)
    requires Compatible(c) && Eq(c, a, b)
    ensures Hash(c, a) == Hash(c, b) && Eq(c, b, a)
  {
  }

  lemma Transitive<K(!new)>(c: Comparer<K>, a: K, b: K, k: K)
    requires Compatible(c) && Eq(c, a, k) && Eq(c, b, k)
    ensures Eq(c, a, b)
  {
  }

  lemma BothEqual<K(!new)>(c: Comparer<K>, r: K, a: K, b: K)
    requires Compatible(c)
    ensures Eq(c, r, a) && Eq(c, r, b) ==> Eq(c, a, b)
  {
  }

  /** One bucket is exchanged for another; the rest of the model stays. */
  lemma BucketUpdated<K(!new), V(!new)>(c: Comparer<K>, data: Buckets<K, V>, model: map<K, V>, h: int,
                                  d: seq<Entry<K, V>>, model': map<K, V>)
    requires Represents(c, data, model) && Distinct(d) && OneEach(c, model')
    requires forall e: Entry<K, V> :: e in d <==> Belongs(c, model', h, e)
    requires forall r: K :: Hash(c, r) != h ==> (r in model' <==> r in model) && (r in model ==> model'[r] == model[r])
    ensures Represents(c, data[h := d], model')
  {
    var data' := data[h := d];
    forall h': int, e: Entry<K, V>
      ensures e in Bucket(data', h') <==> Belongs(c, model', h', e)
    {
      if h' != h {
        assert Bucket(data', h') == Bucket(data, h');
        assert e in Bucket(data, h') <==> Belongs(c, model, h', e);
      }
    }
    forall h': int
      ensures Distinct(Bucket(data', h'))
    {
      assert Bucket(data', h') == if h' == h then d else Bucket(data, h');
    }
  }

  /** Searching the one bucket decides about the whole model. */
  lemma BucketDecides<K(!new), V(!new)>(c: Comparer<K>, data: Buckets<K, V>, model: map<K, V>, k: K)
    requires Compatible(c) && Represents(c, data, model)
    ensures var d := Bucket(data, Hash(c, k));
            && (Has(c, model, k) <==> exists i :: 0 <= i < |d| && Eq(c, d[i].key, k))
            && (forall i :: 0 <= i < |d| && Eq(c, d[i].key, k) ==>
                  && d[i].key in model && model[d[i].key] == d[i].value
                  && (forall r :: r in model && Eq(c, r, k) ==> r == d[i].key))
  {
    hide Compatible, Represents;
    var d := Bucket(data, Hash(c, k));
    if Has(c, model, k) {
      var r :| r in model && Eq(c, r, k);
      SameHash(c, r, k);
      EntryAt(c, data, model, Entry(r, model[r]));
      var i :| 0 <= i < |d| && d[i] == Entry(r, model[r]);
    }
    forall i | 0 <= i < |d| && Eq(c, d[i].key, k)
      ensures d[i].key in model && model[d[i].key] == d[i].value
      ensures forall r :: r in model && Eq(c, r, k) ==> r == d[i].key
    {
      BelongsAt(c, data, model, Hash(c, k), d[i]);
      forall r | r in model && Eq(c, r, k)
        ensures r == d[i].key
      {
        Transitive(c, r, d[i].key, k);
        OneOnly(c, data, model, r, d[i].key);
      }
    }
  }

  lemma EntryAt<K(!new), V(!new)>(c: Comparer<K>, data: Buckets<K, V>, model: map<K, V>, e: Entry<K, V>)
    requires Represents(c, data, model) && e.key in model && e.value == model[e.key]
    ensures e in Bucket(data, Hash(c, e.key))
  {
    assert Belongs(c, model, Hash(c, e.key), e);
  }

  lemma BelongsAt<K(!new), V(!new)>(c: Comparer<K>, data: Buckets<K, V>, model: map<K, V>, h: int, e: Entry<K, V>)
    requires Represents(c, data, model) && e in Bucket(data, h)
    ensures Belongs(c, model, h, e)
  {
  }

  lemma OneOnly<K(!new), V(!new)>(c: Comparer<K>, data: Buckets<K, V>, model: map<K, V>, a: K, b: K)
    requires Represents(c, data, model) && a in model && b in model && Eq(c, a, b)
    ensures a == b
  {
  }

  lemma NotStored<K(!new), V(!new)>(c: Comparer<K>, model: map<K, V>, k: K)
    requires Compatible(c) && !Has(c, model, k)
    ensures k !in model && forall r :: r in model ==> !Eq(c, r, k) && !Eq(c, k, r)
  {
    Reflexive(c, k);
  }

  lemma OneEachKept<K(!new), V(!new)>(c: Comparer<K>, data: Buckets<K, V>, model: map<K, V>)
    requires Represents(c, data, model)
    ensures OneEach(c, model)
  {
  }

  lemma InsertRepresents<K(!new), V(!new)>(c: Comparer<K>, data: Buckets<K, V>, model: map<K, V>, k: K, v: V)
    requires Compatible(c) && Represents(c, data, model) && !Has(c, model, k)
    ensures Represents(c, data[Hash(c, k) := Bucket(data, Hash(c, k)) + [Entry(k, v)]], model[k := v])
  {
    hide Compatible, Has;
    var h := Hash(c, k);
    var d := Bucket(data, h) + [Entry(k, v)];
    NotStored(c, model, k);
    forall e: Entry<K, V>
      ensures e in d <==> Belongs(c, model[k := v], h, e)
    {
      assert e in Bucket(data, h) <==> Belongs(c, model, h, e);
    }
    forall i | 0 <= i < |Bucket(data, h)|
      ensures d[i].key != k
    {
      assert Belongs(c, model, h, Bucket(data, h)[i]);
    }
    assert Distinct(Bucket(data, h));
    BucketUpdated(c, data, model, h, d, model[k := v]);
  }

  lemma ReplacedMembers<K(!new), V(!new)>(d: seq<Entry<K, V>>, m: nat, x: Entry<K, V>)
    requires m < |d| && Distinct(d)
    ensures forall e: Entry<K, V> :: e in d[m := x] <==> e == x || (e in d && e.key != d[m].key)
  {
    forall e: Entry<K, V>
      ensures e in d[m := x] <==> e == x || (e in d && e.key != d[m].key)
    {
      if e in d && e.key != d[m].key {
        var i :| 0 <= i < |d| && d[i] == e;
        assert d[m := x][i] == e;
      }
      if e == x {
        assert d[m := x][m] == x;
      }
    }
  }

  lemma ReplaceRepresents<K(!new), V(!new)>(c: Comparer<K>, data: Buckets<K, V>, model: map<K, V>, k: K, v: V, m: nat)
    requires Compatible(c) && Represents(c, data, model)
    requires m < |Bucket(data, Hash(c, k))| && Eq(c, Bucket(data, Hash(c, k))[m].key, k)
    ensures Represents(c, data[Hash(c, k) := Bucket(data, Hash(c, k))[m := Entry(k, v)]], Without(c, model, k)[k := v])
  {
    hide Compatible, Has;
    var h := Hash(c, k);
    var d := Bucket(data, h);
    var r, model' := d[m].key, Without(c, model, k)[k := v];
    BucketDecides(c, data, model, k);
    Reflexive(c, k);
    assert Distinct(d);
    ReplacedMembers(d, m, Entry(k, v));
    forall e: Entry<K, V>
      ensures e in d[m := Entry(k, v)] <==> Belongs(c, model', h, e)
    {
      assert e in d <==> Belongs(c, model, h, e);
    }
    assert Belongs(c, model, h, d[m]);
    forall i | 0 <= i < |d| && i != m
      ensures d[i].key != k
    {
      assert Belongs(c, model, h, d[i]);
    }
    forall q | q in model && Hash(c, q) != h
      ensures !Eq(c, q, k)
    {
      if Eq(c, q, k) {
        SameHash(c, q, k);
      }
    }
    forall a, b | a in model' && b in model' && Eq(c, a, b)
      ensures a == b
    {
      if (a == k) != (b == k) {
        assert Eq(c, a, b) && Eq(c, b, a) by { SameHash(c, a, b); }
      }
    }
    BucketUpdated(c, data, model, h, d[m := Entry(k, v)], model');
  }

  /** The entries of a bucket whose keys are not equal to `k`. */
  function Others<K(!new), V(!new)>(c: Comparer<K>, d: seq<Entry<K, V>>, k: K): (r: seq<Entry<K, V>>)
    ensures |r| <= |d|
    ensures forall e :: e in r <==> e in d && !Eq(c, e.key, k)
    ensures |r| == |d| <==> forall i :: 0 <= i < |d| ==> !Eq(c, d[i].key, k)
  {
    if d == [] then [] else
    var n := |d| - 1;
    var front := Others(c, d[..n], k);
    assert d == d[..n] + [d[n]];
    assert forall i :: 0 <= i < n ==> d[..n][i] == d[i];
    front + if Eq(c, d[n].key, k) then [] else [d[n]]
  }

  lemma {:induction false} OthersDistinct<K(!new), V(!new)>(c: Comparer<K>, d: seq<Entry<K, V>>, k: K)
    requires Distinct(d)
    ensures Distinct(Others(c, d, k))
  {
    hide Others;
    if d == [] {
      assert Others(c, d, k) == [];
    } else {
      var n := |d| - 1;
      var front := Others(c, d[..n], k);
      OthersDistinct(c, d[..n], k);
      assert d == d[..n] + [d[n]];
      OthersSnoc(c, d[..n], [d[n]], k);
      forall i | 0 <= i < |front|
        ensures front[i].key != d[n].key
      {
        assert front[i] in front;
        var j :| 0 <= j < n && d[..n][j] == front[i];
      }
    }
  }

  lemma RemoveRepresents<K(!new), V(!new)>(c: Comparer<K>, data: Buckets<K, V>, model: map<K, V>, k: K)
    requires Compatible(c) && Represents(c, data, model)
    ensures var h := Hash(c, k); Represents(c, data[h := Others(c, Bucket(data, h), k)], Without(c, model, k))
  {
    hide Compatible, Others;
    var h := Hash(c, k);
    var d, model' := Bucket(data, h), Without(c, model, k);
    assert Distinct(d);
    OthersDistinct(c, d, k);
    forall e: Entry<K, V>
      ensures e in Others(c, d, k) <==> Belongs(c, model', h, e)
    {
      assert e in d <==> Belongs(c, model, h, e);
    }
    forall q | q in model && Hash(c, q) != h
      ensures !Eq(c, q, k)
    {
      if Eq(c, q, k) {
        SameHash(c, q, k);
      }
    }
    BucketUpdated(c, data, model, h, Others(c, d, k), model');
  }

  /** Exactly one stored key goes, if there is one to go. */
  lemma WithoutCount<K(!new), V(!new)>(c: Comparer<K>, model: map<K, V>, k: K)
    requires Compatible(c) && OneEach(c, model)
    ensures |Without(c, model, k)| == |model| - if Has(c, model, k) then 1 else 0
  {
    if Has(c, model, k) {
      var r :| r in model && Eq(c, r, k);
      forall q
        ensures q in Without(c, model, k) <==> q in model && q != r
      {
        if q in model && Eq(c, q, k) {
          assert Eq(c, q, r);
        }
      }
      assert Without(c, model, k).Keys == model.Keys - {r};
      assert |model.Keys - {r}| == |model| - 1;
    } else {
      assert Without(c, model, k) == model;
    }
  }

  // ----- laws of the abstract map -----

  /** After a set, every key equal to `k` finds the new value, and every other key what it found before. */
  lemma FindsAfterSet<K(!new), V(!new)>(c: Comparer<K>, model: map<K, V>, k: K, v: V, j: K, w: V)
    requires Compatible(c)
    ensures var model' := Without(c, model, k)[k := v];
            Finds(c, model', j, w) <==> if Eq(c, k, j) then w == v else Finds(c, model, j, w)
  {
    var model' := Without(c, model, k)[k := v];
    if Eq(c, k, j) {
      assert model'[k] == v;
      forall r | r in model' && Eq(c, r, j)
        ensures r == k
      {
        Transitive(c, r, k, j);
      }
    } else {
      if Finds(c, model, j, w) {
        var r :| r in model && Eq(c, r, j) && model[r] == w;
        BothEqual(c, r, k, j);
        assert r in model' && model'[r] == w;
      }
    }
  }

  lemma FindsAfterRemove<K(!new), V(!new)>(c: Comparer<K>, model: map<K, V>, k: K, j: K, w: V)
    requires Compatible(c)
    ensures Finds(c, Without(c, model, k), j, w) <==> !Eq(c, k, j) && Finds(c, model, j, w)
  {
    var model' := Without(c, model, k);
    if Finds(c, model', j, w) {
      var r :| r in model' && Eq(c, r, j) && model'[r] == w;
      if Eq(c, k, j) {
        Transitive(c, r, k, j);
      }
    }
    if !Eq(c, k, j) && Finds(c, model, j, w) {
      var r :| r in model && Eq(c, r, j) && model[r] == w;
      BothEqual(c, r, k, j);
      assert r in model' && model'[r] == w;
    }
  }

  /** A key finds at most one value. */
  lemma FindsOne<K(!new), V(!new)>(c: Comparer<K>, model: map<K, V>, k: K, v: V, w: V)
    requires Compatible(c) && OneEach(c, model) && Finds(c, model, k, v) && Finds(c, model, k, w)
    ensures v == w
  {
    var a :| a in model && Eq(c, a, k) && model[a] == v;
    var b :| b in model && Eq(c, b, k) && model[b] == w;
    Transitive(c, a, b, k);
  }

  // ----- searching a bucket -----

  method Exists<K, V>(c: Comparer<K>, d: seq<Entry<K, V>>, k: K) returns (e: bool)
    ensures e <==> exists i :: 0 <= i < |d| && Eq(c, d[i].key, k)
  {
    e := false;
    var i := 0;
    while !e && i < |d|
      invariant 0 <= i <= |d|
      invariant e ==> i < |d| && Eq(c, d[i].key, k)
      invariant forall j :: 0 <= j < i ==> !Eq(c, d[j].key, k)
      decreases |d| - i, !e
    {
      if Eq(c, d[i].key, k) {
        e := true;
      } else {
        i := i + 1;
      }
    }
  }

  method TryFindIndex<K, V>(c: Comparer<K>, d: seq<Entry<K, V>>, k: K) returns (res: Option<nat>)
    ensures res.Some? ==> res.value < |d| && Eq(c, d[res.value].key, k) && forall j :: 0 <= j < res.value ==> !Eq(c, d[j].key, k)
    ensures res.None? ==> forall j :: 0 <= j < |d| ==> !Eq(c, d[j].key, k)
  {
    res := None;
    var i := 0;
    while i < |d| && res.None?
      invariant 0 <= i <= |d|
      invariant res.Some? ==> res.value == i - 1 && Eq(c, d[i - 1].key, k)
      invariant forall j :: 0 <= j < i && res != Some(j) ==> !Eq(c, d[j].key, k)
    {
      if Eq(c, d[i].key, k) {
        res := Some(i);
      }
      i := i + 1;
    }
  }

  /** The value of the first entry whose key is equal. */
  method TryPick<K, V>(c: Comparer<K>, d: seq<Entry<K, V>>, k: K) returns (res: Option<V>)
    ensures res.Some? ==> exists i :: 0 <= i < |d| && Eq(c, d[i].key, k) && d[i].value == res.value
    ensures res.None? ==> forall j :: 0 <= j < |d| ==> !Eq(c, d[j].key, k)
  {
    res := None;
    var i := 0;
    while i < |d| && res.None?
      invariant 0 <= i <= |d|
      invariant res.Some? ==> i > 0 && Eq(c, d[i - 1].key, k) && d[i - 1].value == res.value
      invariant res.None? ==> forall j :: 0 <= j < i ==> !Eq(c, d[j].key, k)
    {
      if Eq(c, d[i].key, k) {
        res := Some(d[i].value);
      }
      i := i + 1;
    }
  }

  lemma OthersSnoc<K(!new), V(!new)>(c: Comparer<K>, d: seq<Entry<K, V>>, x: seq<Entry<K, V>>, k: K)
    ensures Others<K, V>(c, [], k) == []
    ensures |x| == 1 ==> Others(c, d + x, k) == Others(c, d, k) + if Eq(c, x[0].key, k) then [] else x
  {
    if |x| == 1 {
      assert (d + x)[..|d|] == d && [x[0]] == x;
    }
  }

  method FilterOthers<K(!new), V(!new)>(c: Comparer<K>, d: seq<Entry<K, V>>, k: K) returns (r: seq<Entry<K, V>>)
    ensures r == Others(c, d, k)
  {
    hide Others;
    r := [];
    OthersSnoc(c, [], d, k);
    for i := 0 to |d|
      invariant r == Others(c, d[..i], k)
    {
      assert d[..i + 1] == d[..i] + [d[i]];
      OthersSnoc(c, d[..i], [d[i]], k);
      if !Eq(c, d[i].key, k) {
        r := r + [d[i]];
      }
    }
    assert d[..|d|] == d;
  }

  /** What the search of a bucket picks is what the map finds. */
  lemma PickedIsFound<K(!new), V(!new)>(c: Comparer<K>, data: Buckets<K, V>, model: map<K, V>, k: K, res: Option<V>)
    requires Compatible(c) && Represents(c, data, model)
    requires var d := Bucket(data, Hash(c, k));
             && (res.Some? ==> exists i :: 0 <= i < |d| && Eq(c, d[i].key, k) && d[i].value == res.value)
             && (res.None? ==> forall i :: 0 <= i < |d| ==> !Eq(c, d[i].key, k))
    ensures res.Some? <==> Has(c, model, k)
    ensures res.Some? ==> Finds(c, model, k, res.value)
  {
    hide Compatible, Represents, Has;
    BucketDecides(c, data, model, k);
    if res.Some? {
      var d := Bucket(data, Hash(c, k));
      var i :| 0 <= i < |d| && Eq(c, d[i].key, k) && d[i].value == res.value;
      assert d[i].key in model && model[d[i].key] == res.value;
    }
  }

  // ----- the dictionary -----

  datatype Failure = AlreadyAdded | NotPresent | KeyNotFound

  class Dictionary<K(!new), V(!new)> {
    const comparer: Comparer<K>
    var data: Buckets<K, V>
    var count: int
    ghost var model: map<K, V>

    ghost predicate Valid()
      reads this
    {
      Compatible(comparer) && Represents(comparer, data, model) && count == |model|
    }

    constructor (comparer: Comparer<K>, init: seq<Entry<K, V>>)
      requires Compatible(comparer)
      ensures this.comparer == comparer && Valid()
      ensures model == SetAll(comparer, init)
    {
      this.comparer := comparer;
      count, data, model := 0, map[], map[];
      new;
      for i := 0 to |init|
        invariant Valid() && model == SetAll(comparer, init[..i])
      {
        assert init[..i + 1][..i] == init[..i];
        Set(init[i].key, init[i].value);
      }
      assert init[..|init|] == init;
    }

    /** Adding a key that is there, or one equal to it, fails and changes nothing. */
    method Add(k: K, v: V) returns (r: Result<(), Failure>)
      requires Valid()
      modifies this
      ensures Valid()
      ensures r == if Has(comparer, old(model), k) then Err(AlreadyAdded) else Ok(())
      ensures model == if r.Ok? then old(model)[k := v] else old(model)
    {
      hide Compatible, Represents;
      BucketDecides(comparer, data, model, k);
      var h := Hash(comparer, k);
      if h !in data {
        assert Bucket(data, h) + [Entry(k, v)] == [Entry(k, v)];
        InsertRepresents(comparer, data, model, k, v);
        count := count + 1;
        data := data[h := [Entry(k, v)]];
      } else {
        var e := Exists(comparer, data[h], k);
        if e {
          return Err(AlreadyAdded);
        }
        InsertRepresents(comparer, data, model, k, v);
        count := count + 1;
        data := data[h := data[h] + [Entry(k, v)]];
      }
      NotStored(comparer, model, k);
      model := model[k := v];
      return Ok(());
    }

    /** The new key takes the place of the old one along with its value. */
    method Set(k: K, v: V)
      requires Valid()
      modifies this
      ensures Valid()
      ensures model == Without(comparer, old(model), k)[k := v]
    {
      hide Compatible, Represents;
      BucketDecides(comparer, data, model, k);
      OneEachKept(comparer, data, model);
      WithoutCount(comparer, model, k);
      WithoutLacks(comparer, model, k);
      var h := Hash(comparer, k);
      if h !in data {
        assert Bucket(data, h) + [Entry(k, v)] == [Entry(k, v)];
        InsertRepresents(comparer, data, model, k, v);
        count := count + 1;
        data := data[h := [Entry(k, v)]];
      } else {
        var m := TryFindIndex(comparer, data[h], k);
        if m.None? {
          InsertRepresents(comparer, data, model, k, v);
          count := count + 1;
          data := data[h := data[h] + [Entry(k, v)]];
        } else {
          ReplaceRepresents(comparer, data, model, k, v, m.value);
          data := data[h := data[h][m.value := Entry(k, v)]];
        }
      }
      model := Without(comparer, model, k)[k := v];
    }

    method Remove(k: K) returns (removed: bool)
      requires Valid()
      modifies this
      ensures Valid() && removed == Has(comparer, old(model), k)
      ensures model == Without(comparer, old(model), k)
    {
      hide Compatible, Represents;
      BucketDecides(comparer, data, model, k);
      OneEachKept(comparer, data, model);
      WithoutCount(comparer, model, k);
      WithoutLacks(comparer, model, k);
      var h := Hash(comparer, k);
      if h !in data {
        return false;
      }
      var r := FilterOthers(comparer, data[h], k);
      if |r| < |data[h]| {
        RemoveRepresents(comparer, data, model, k);
        count := count - 1;
        data := data[h := r];
        model := Without(comparer, model, k);
        return true;
      }
      return false;
    }

    method TryGetValue(k: K) returns (res: Option<V>)
      requires Valid()
      ensures res.Some? <==> Has(comparer, model, k)
      ensures res.Some? ==> Finds(comparer, model, k, res.value)
    {
      hide Compatible, Represents, Has;
      BucketDecides(comparer, data, model, k);
      var h := Hash(comparer, k);
      if h !in data {
        return None;
      }
      var d := data[h];
      assert d == Bucket(data, h);
      res := TryPick(comparer, d, k);
      PickedIsFound(comparer, data, model, k, res);
    }

    /** Neither a missing bucket nor a bucket without the key has a value to return. */
    method Get(k: K) returns (r: Result<V, Failure>)
      requires Valid()
      ensures r.Ok? <==> Has(comparer, model, k)
      ensures r.Ok? ==> Finds(comparer, model, k, r.value)
      ensures r.Err? ==> r.error == if Hash(comparer, k) in data then KeyNotFound else NotPresent
    {
      hide Compatible, Represents, Has;
      BucketDecides(comparer, data, model, k);
      var h := Hash(comparer, k);
      if h !in data {
        return Err(NotPresent);
      }
      var d := data[h];
      assert d == Bucket(data, h);
      var picked := TryPick(comparer, d, k);
      PickedIsFound(comparer, data, model, k, picked);
      r := if picked.None? then Err(KeyNotFound) else Ok(picked.value);
    }

    method ContainsKey(k: K) returns (found: bool)
      requires Valid()
      ensures found <==> Has(comparer, model, k)
    {
      hide Compatible, Represents, Has;
      BucketDecides(comparer, data, model, k);
      var h := Hash(comparer, k);
      if h !in data {
        return false;
      }
      var d := data[h];
      assert d == Bucket(data, h);
      found := Exists(comparer, d, k);
    }

    method Clear()
      requires Valid()
      modifies this
      ensures Valid() && model == map[]
    {
      data, count, model := map[], 0, map[];
    }
  }

  ghost function SetAll<K, V>(c: Comparer<K>, es: seq<Entry<K, V>>): map<K, V>
  {
    if es == [] then map[] else
    var e := es[|es| - 1];
    Without(c, SetAll(c, es[..|es| - 1]), e.key)[e.key := e.value]
  }

  lemma WithoutLacks<K(!new), V(!new)>(c: Comparer<K>, model: map<K, V>, k: K)
    requires Compatible(c)
    ensures k !in Without(c, model, k)
    ensures !Has(c, model, k) ==> Without(c, model, k) == model
  {
    Reflexive(c, k);
  }

  // ----- the set -----

  lemma {:induction false} NoOthers<K(!new), V(!new)>(c: Comparer<K>, d: seq<Entry<K, V>>, k: K)
    requires forall i :: 0 <= i < |d| ==> !Eq(c, d[i].key, k)
    ensures Others(c, d, k) == d
  {
    hide Others;
    if d == [] {
      OthersSnoc(c, d, [], k);
    } else {
      var n := |d| - 1;
      NoOthers(c, d[..n], k);
      assert d == d[..n] + [d[n]];
      OthersSnoc(c, d[..n], [d[n]], k);
    }
  }

  lemma SpliceFront<A>(d: seq<A>, at: nat)
    requires at < |d|
    ensures var n := |d| - 1;
            d[..at] + d[at + 1..] == if at == n then d[..n] else d[..n][..at] + d[..n][at + 1..] + [d[n]]
    ensures d == d[..|d| - 1] + [d[|d| - 1]]
  {
  }

  /** Taking out the only entry with an equal key. */
  lemma {:induction false} SpliceIsOthers<K(!new), V(!new)>(c: Comparer<K>, d: seq<Entry<K, V>>, k: K, at: nat)
    requires at < |d| && Eq(c, d[at].key, k)
    requires forall i :: 0 <= i < |d| && i != at ==> !Eq(c, d[i].key, k)
    ensures Others(c, d, k) == d[..at] + d[at + 1..]
  {
    hide Others;
    var n := |d| - 1;
    var front := d[..n];
    SpliceFront(d, at);
    OthersSnoc(c, front, [d[n]], k);
    if at == n {
      NoOthers(c, front, k);
    } else {
      SpliceIsOthers(c, front, k, at);
    }
  }

  /** An item of a set is an entry without a value. */
  type Items<T> = Buckets<T, ()>

  class HashSet<T(!new)> {
    const comparer: Comparer<T>
    var data: Items<T>
    var count: int
    ghost var model: map<T, ()>

    ghost predicate Valid()
      reads this
    {
      Compatible(comparer) && Represents(comparer, data, model) && count == |model|
    }

    /** Does the set hold the item, or one equal to it? */
    ghost predicate Holds(x: T)
      reads this
    {
      Has(comparer, model, x)
    }

    constructor (comparer: Comparer<T>, init: seq<T>)
      requires Compatible(comparer)
      ensures this.comparer == comparer && Valid()
      ensures forall x: T :: Holds(x) <==> Among(comparer, init, x)
    {
      this.comparer := comparer;
      data, count, model := map[], 0, map[];
      new;
      UnionWith(init);
    }

    method ArrContains(item: T, arr: seq<Entry<T, ()>>) returns (found: bool)
      ensures found <==> exists i :: 0 <= i < |arr| && Eq(comparer, arr[i].key, item)
    {
      var c := true;
      var i := 0;
      while c && i < |arr|
        invariant 0 <= i <= |arr|
        invariant !c ==> i < |arr| && Eq(comparer, arr[i].key, item)
        invariant forall j :: 0 <= j < i ==> !Eq(comparer, arr[j].key, item)
        decreases |arr| - i, c
      {
        if Eq(comparer, arr[i].key, item) {
          c := false;
        } else {
          i := i + 1;
        }
      }
      return !c;
    }

    /** Takes the first equal item out, if there is one. */
    method ArrRemove(item: T, arr: seq<Entry<T, ()>>) returns (removed: bool, rest: seq<Entry<T, ()>>, ghost at: nat)
      ensures removed <==> exists i :: 0 <= i < |arr| && Eq(comparer, arr[i].key, item)
      ensures removed ==> at < |arr| && Eq(comparer, arr[at].key, item) && rest == arr[..at] + arr[at + 1..]
      ensures !removed ==> rest == arr
    {
      var c := true;
      var i := 0;
      rest := arr;
      at := 0;
      while c && i < |arr|
        invariant 0 <= i <= |arr|
        invariant c ==> rest == arr && forall j :: 0 <= j < i ==> !Eq(comparer, arr[j].key, item)
        invariant !c ==> i < |arr| && at == i && Eq(comparer, arr[i].key, item) && rest == arr[..i] + arr[i + 1..]
        decreases |arr| - i, c
      {
        if Eq(comparer, arr[i].key, item) {
          rest := arr[..i] + arr[i + 1..];
          at := i;
          c := false;
        } else {
          i := i + 1;
        }
      }
      removed := !c;
    }

    method Add(item: T) returns (added: bool)
      requires Valid()
      modifies this
      ensures Valid() && added == !old(Holds(item))
      ensures model == if added then old(model)[item := ()] else old(model)
      ensures forall x: T :: Holds(x) <==> old(Holds(x)) || Eq(comparer, item, x)
    {
      hide Represents;
      HoldsAfterAdd(comparer, model, item);
      BucketDecides(comparer, data, model, item);
      var h := Hash(comparer, item);
      if h !in data {
        assert Bucket(data, h) + [Entry(item, ())] == [Entry(item, ())];
        InsertRepresents(comparer, data, model, item, ());
        data := data[h := [Entry(item, ())]];
        count := count + 1;
      } else {
        var found := ArrContains(item, data[h]);
        if found {
          return false;
        }
        InsertRepresents(comparer, data, model, item, ());
        data := data[h := data[h] + [Entry(item, ())]];
        count := count + 1;
      }
      NotStored(comparer, model, item);
      model := model[item := ()];
      return true;
    }

    method Remove(item: T) returns (removed: bool)
      requires Valid()
      modifies this
      ensures Valid() && removed == old(Holds(item))
      ensures model == Without(comparer, old(model), item)
      ensures forall x: T :: Holds(x) <==> old(Holds(x)) && !Eq(comparer, item, x)
    {
      hide Represents;
      HoldsAfterRemove(comparer, model, item);
      BucketDecides(comparer, data, model, item);
      OneEachKept(comparer, data, model);
      WithoutCount(comparer, model, item);
      WithoutLacks(comparer, model, item);
      var h := Hash(comparer, item);
      if h !in data {
        return false;
      }
      ghost var at;
      var rest;
      removed, rest, at := ArrRemove(item, data[h]);
      if removed {
        OnlyOne(comparer, data, model, item, at);
        SpliceIsOthers(comparer, data[h], item, at);
        RemoveRepresents(comparer, data, model, item);
        data := data[h := rest];
        count := count - 1;
        model := Without(comparer, model, item);
      }
    }

    method Contains(item: T) returns (found: bool)
      requires Valid()
      ensures found <==> Holds(item)
    {
      hide Represents, Compatible, Has;
      BucketDecides(comparer, data, model, item);
      var h := Hash(comparer, item);
      if h !in data {
        return false;
      }
      var arr := data[h];
      assert arr == Bucket(data, h);
      found := ArrContains(item, arr);
    }

    method Clear()
      requires Valid()
      modifies this
      ensures Valid() && model == map[]
    {
      data, count, model := map[], 0, map[];
    }

    method UnionWith(xs: seq<T>)
      requires Valid()
      modifies this
      ensures Valid() && forall x: T :: Holds(x) <==> old(Holds(x)) || Among(comparer, xs, x)
    {
      hide Represents, Compatible;
      for i := 0 to |xs|
        invariant Valid() && forall x: T :: Holds(x) <==> old(Holds(x)) || Among(comparer, xs[..i], x)
      {
        AmongSnoc(comparer, xs, i);
        var _ := Add(xs[i]);
      }
      assert xs[..|xs|] == xs;
    }

    method ExceptWith(xs: seq<T>)
      requires Valid()
      modifies this
      ensures Valid() && forall x: T :: Holds(x) <==> old(Holds(x)) && !Among(comparer, xs, x)
    {
      hide Represents, Compatible;
      for i := 0 to |xs|
        invariant Valid() && forall x: T :: Holds(x) <==> old(Holds(x)) && !Among(comparer, xs[..i], x)
      {
        AmongSnoc(comparer, xs, i);
        var _ := Remove(xs[i]);
      }
      assert xs[..|xs|] == xs;
    }
  }

  ghost predicate Among<T>(c: Comparer<T>, xs: seq<T>, x: T)
  {
    exists i :: 0 <= i < |xs| && Eq(c, xs[i], x)
  }

  lemma AmongSnoc<T(!new)>(c: Comparer<T>, xs: seq<T>, i: nat)
    requires i < |xs|
    ensures forall x: T :: Among(c, xs[..i + 1], x) <==> Among(c, xs[..i], x) || Eq(c, xs[i], x)
  {
    forall x: T
      ensures Among(c, xs[..i + 1], x) <==> Among(c, xs[..i], x) || Eq(c, xs[i], x)
    {
      if Among(c, xs[..i], x) {
        var j :| 0 <= j < i && Eq(c, xs[..i][j], x);
        assert Eq(c, xs[..i + 1][j], x);
      }
      if Eq(c, xs[i], x) {
        assert Eq(c, xs[..i + 1][i], x);
      }
      if Among(c, xs[..i + 1], x) {
        var j :| 0 <= j < i + 1 && Eq(c, xs[..i + 1][j], x);
        assert j < i ==> Eq(c, xs[..i][j], x);
      }
    }
  }

  lemma HoldsAfterAdd<T(!new)>(c: Comparer<T>, model: map<T, ()>, item: T)
    requires Compatible(c)
    ensures forall x: T :: Has(c, model[item := ()], x) <==> Has(c, model, x) || Eq(c, item, x)
    ensures Has(c, model, item) ==> forall x: T :: Eq(c, item, x) ==> Has(c, model, x)
  {
    forall x: T
      ensures Has(c, model[item := ()], x) <==> Has(c, model, x) || Eq(c, item, x)
    {
      if Has(c, model, x) {
        var r :| r in model && Eq(c, r, x);
        assert r in model[item := ()];
      }
      if Eq(c, item, x) {
        assert item in model[item := ()];
      }
    }
    if Has(c, model, item) {
      var r :| r in model && Eq(c, r, item);
      forall x: T | Eq(c, item, x)
        ensures Has(c, model, x)
      {
        assert Eq(c, r, x);
      }
    }
  }

  lemma HasIsFinds<T(!new)>(c: Comparer<T>, model: map<T, ()>, x: T)
    ensures Has(c, model, x) <==> Finds(c, model, x, ())
  {
    if Has(c, model, x) {
      var r :| r in model && Eq(c, r, x);
      assert model[r] == ();
    }
  }

  lemma HoldsAfterRemove<T(!new)>(c: Comparer<T>, model: map<T, ()>, item: T)
    requires Compatible(c)
    ensures forall x: T :: Has(c, Without(c, model, item), x) <==> Has(c, model, x) && !Eq(c, item, x)
    ensures !Has(c, model, item) ==> forall x: T :: Has(c, model, x) ==> !Eq(c, item, x)
  {
    forall x: T
      ensures Has(c, Without(c, model, item), x) <==> Has(c, model, x) && !Eq(c, item, x)
    {
      FindsAfterRemove(c, model, item, x, ());
      HasIsFinds(c, model, x);
      HasIsFinds(c, Without(c, model, item), x);
    }
    WithoutLacks(c, model, item);
  }

  lemma OnlyOne<K(!new), V(!new)>(c: Comparer<K>, data: Buckets<K, V>, model: map<K, V>, k: K, at: nat)
    requires Compatible(c) && Represents(c, data, model)
    requires at < |Bucket(data, Hash(c, k))| && Eq(c, Bucket(data, Hash(c, k))[at].key, k)
    ensures var d := Bucket(data, Hash(c, k)); forall i :: 0 <= i < |d| && i != at ==> !Eq(c, d[i].key, k)
  {
    var d := Bucket(data, Hash(c, k));
    BucketDecides(c, data, model, k);
    assert Distinct(d);
    hide Represents, Compatible;
  }
}
