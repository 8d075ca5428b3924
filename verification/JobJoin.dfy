/**
 A job lies scattered over three tables: its row, its parameters and the generic types of its method.
 The reading query joins them and rebuilds the job from the product.  An unmatched side of a left join is
 a default row: ordinal 0 and no type name.
 */
module JobJoin {
  import opened Wrappers
  import opened JobTable
  import opened Sequences

  datatype Argument = Argument(ordinal: int, name: string, value: string, typeName: Option<string>)

  /** The part of a serialized job that the two side tables hold. */
  datatype JobDef = JobDef(args: seq<Argument>, genericTypes: seq<Option<string>>)

  datatype ParamRow = ParamRow(guid: JobId, ordinal: int, value: string, typeName: Option<string>, name: string)
  datatype GenericRow = GenericRow(guid: JobId, order: int, typeName: Option<string>)
  datatype JoinedRow = JoinedRow(id: JobId, meta: Row, param: ParamRow, generic: GenericRow)

  datatype LoadedJob = LoadedJob(id: JobId, meta: Row, args: seq<Argument>, genericTypes: seq<Option<string>>)

  const DEFAULT_PARAM := ParamRow(0, 0, "", None, "")
  const DEFAULT_GENERIC := GenericRow(0, 0, None)

  // ----- writing -----

  function ParamOf(id: JobId, a: Argument): ParamRow
  {
    ParamRow(id, a.ordinal, a.value, a.typeName, a.name)
  }

  function ParamData(id: JobId, def: JobDef): (r: seq<ParamRow>)
    ensures |r| == |def.args|
    ensures forall i :: 0 <= i < |r| ==> r[i] == ParamOf(id, def.args[i])
  {
    Map((a: Argument) => ParamOf(id, a), def.args)
  }

  /** Generic types are numbered as they come. */
  function GenericData(id: JobId, def: JobDef): (r: seq<GenericRow>)
    ensures |r| == |def.genericTypes|
    ensures forall i :: 0 <= i < |r| ==> r[i] == GenericRow(id, i, def.genericTypes[i])
  {
    seq(|def.genericTypes|, i requires 0 <= i < |def.genericTypes| => GenericRow(id, i, def.genericTypes[i]))
  }

  /** A call's argument as captured: its value serialized, its type named. */
  datatype Captured = Captured(name: string, value: string, typeName: string)

  /** A job definition numbers the arguments of the captured call. */
  function CreateJobDefinition(args: seq<Captured>, genericTypes: seq<string>): (def: JobDef)
    ensures Readable(def)
    ensures |def.args| == |args| && |def.genericTypes| == |genericTypes|
    ensures forall i :: 0 <= i < |args| ==>
              def.args[i] == Argument(i, args[i].name, args[i].value, Some(args[i].typeName))
  {
    JobDef(seq(|args|, i requires 0 <= i < |args| => Argument(i, args[i].name, args[i].value, Some(args[i].typeName))),
           seq(|genericTypes|, i requires 0 <= i < |genericTypes| => Some(genericTypes[i])))
  }

  /** Every argument and generic type is named, and the ordinals ascend. */
  ghost predicate Readable(def: JobDef)
  {
    ArgsReadable(def) && GenericsReadable(def)
  }

  ghost predicate ArgsReadable(def: JobDef)
  {
    && (forall i :: 0 <= i < |def.args| ==> def.args[i].typeName.Some?)
    && StrictlyAscending((a: Argument) => a.ordinal, def.args)
  }

  ghost predicate GenericsReadable(def: JobDef)
  {
    forall i :: 0 <= i < |def.genericTypes| ==> def.genericTypes[i].Some?
  }

  // ----- the left-join product -----

  function ParamSide(id: JobId, params: seq<ParamRow>): seq<ParamRow>
  {
    var matching := Filter((p: ParamRow) => p.guid == id, params);
    if matching == [] then [DEFAULT_PARAM] else matching
  }

  function GenericSide(id: JobId, generics: seq<GenericRow>): seq<GenericRow>
  {
    var matching := Filter((g: GenericRow) => g.guid == id, generics);
    if matching == [] then [DEFAULT_GENERIC] else matching
  }

  function JoinOne(id: JobId, meta: Row, params: seq<ParamRow>, generics: seq<GenericRow>): seq<JoinedRow>
  {
    FlatMap((p: ParamRow) => Map((g: GenericRow) => JoinedRow(id, meta, p, g), GenericSide(id, generics)),
            ParamSide(id, params))
  }

  /** `ids` is the set `s`, in some order. */
  ghost predicate Enumerates(ids: seq<JobId>, s: set<JobId>)
  {
    && (forall i :: 0 <= i < |ids| ==> ids[i] in s)
    && (forall id :: id in s ==> id in ids)
    && forall i, k :: 0 <= i < k < |ids| ==> ids[i] != ids[k]
  }

  /** The product for the selected jobs; the database may return it in any order. */
  function Product(ids: seq<JobId>, t: Table, params: seq<ParamRow>, generics: seq<GenericRow>): seq<JoinedRow>
    requires forall i :: 0 <= i < |ids| ==> ids[i] in t
  {
    FlatMap((id: JobId) => if id in t then JoinOne(id, t[id], params, generics) else [], ids)
  }

  lemma MapMember<T, U>(f: T -> U, s: seq<T>, y: U)
    ensures y in Map(f, s) <==> exists x :: x in s && f(x) == y
  {
    if y in Map(f, s) {
      var i :| 0 <= i < |s| && Map(f, s)[i] == y;
      assert s[i] in s && f(s[i]) == y;
    }
    if exists x :: x in s && f(x) == y {
      var x :| x in s && f(x) == y;
      var i :| 0 <= i < |s| && s[i] == x;
      assert Map(f, s)[i] == y;
    }
  }

  lemma JoinOneMember(id: JobId, meta: Row, params: seq<ParamRow>, generics: seq<GenericRow>, r: JoinedRow)
    ensures r in JoinOne(id, meta, params, generics) <==>
              r.id == id && r.meta == meta && r.param in ParamSide(id, params) && r.generic in GenericSide(id, generics)
  {
    var gs := GenericSide(id, generics);
    var f := (p: ParamRow) => Map((g: GenericRow) => JoinedRow(id, meta, p, g), gs);
    forall p
      ensures r in f(p) <==> r == JoinedRow(id, meta, p, r.generic) && r.generic in gs
    {
      MapMember((g: GenericRow) => JoinedRow(id, meta, p, g), gs, r);
    }
    assert r in JoinOne(id, meta, params, generics) <==> exists p :: p in ParamSide(id, params) && r in f(p);
  }

  lemma ProductMember(ids: seq<JobId>, t: Table, params: seq<ParamRow>, generics: seq<GenericRow>, r: JoinedRow)
    requires forall i :: 0 <= i < |ids| ==> ids[i] in t
    ensures r in Product(ids, t, params, generics) <==>
              r.id in ids && r.meta == t[r.id]
              && r.param in ParamSide(r.id, params) && r.generic in GenericSide(r.id, generics)
  {
    var f := (id: JobId) => if id in t then JoinOne(id, t[id], params, generics) else [];
    forall id | id in ids
      ensures r in f(id) <==>
                r.id == id && r.meta == t[id] && r.param in ParamSide(id, params) && r.generic in GenericSide(id, generics)
    {
      JoinOneMember(id, t[id], params, generics, r);
    }
    assert r in Product(ids, t, params, generics) <==> exists id :: id in ids && r in f(id);
  }

  // ----- rebuilding -----

  function RowId(r: JoinedRow): int
  {
    r.id
  }

  function Ordinal(p: ParamRow): int
  {
    p.ordinal
  }

  function Order(g: GenericRow): int
  {
    g.order
  }

  /** The arguments of one group of joined rows. */
  function LoadedParams(group: seq<JoinedRow>): seq<ParamRow>
  {
    FirstOfEach(Ordinal,
      Filter((p: ParamRow) => p.typeName.Some?,
        Map((r: JoinedRow) => r.param, OrderBy((r: JoinedRow) => r.param.ordinal, group))))
  }

  function LoadedGenerics(group: seq<JoinedRow>): seq<GenericRow>
  {
    FirstOfEach(Order,
      Map((r: JoinedRow) => r.generic,
        Filter((r: JoinedRow) => r.generic.typeName.Some?, OrderBy((r: JoinedRow) => r.generic.order, group))))
  }

  function ArgumentOf(p: ParamRow): Argument
  {
    Argument(p.ordinal, p.name, p.value, p.typeName)
  }

  function Load(group: seq<JoinedRow>): LoadedJob
    requires group != []
  {
    LoadedJob(group[0].id, group[0].meta,
              Map((p: ParamRow) => ArgumentOf(p), LoadedParams(group)),
              Map((g: GenericRow) => g.typeName, LoadedGenerics(group)))
  }

  function Group(rows: seq<JoinedRow>, id: JobId): seq<JoinedRow>
  {
    Filter((r: JoinedRow) => r.id == id, rows)
  }

  /** The job rebuilt from all rows that share `first`'s id. */
  function LoadGroup(rows: seq<JoinedRow>, first: JoinedRow): LoadedJob
  {
    var group := Group(rows, first.id);
    if group == [] then LoadedJob(first.id, first.meta, [], []) else Load(group)
  }

  function ExecuteJoinQuery(rows: seq<JoinedRow>): seq<LoadedJob>
  {
    var firsts := FirstOfEach(RowId, rows);
    Map((r: JoinedRow) => LoadGroup(rows, r), firsts)
  }

  // ----- what comes back -----

  /** The side tables hold exactly the definition's rows for this job. */
  ghost predicate Stored(id: JobId, def: JobDef, params: seq<ParamRow>, generics: seq<GenericRow>)
  {
    && (forall p :: p in params && p.guid == id <==> p in ParamData(id, def))
    && (forall g :: g in generics && g.guid == id <==> g in GenericData(id, def))
  }

  lemma LoadedParamsAscend(group: seq<JoinedRow>)
    ensures StrictlyAscending(Ordinal, LoadedParams(group))
  {
    var ps := Map((r: JoinedRow) => r.param, OrderBy((r: JoinedRow) => r.param.ordinal, group));
    assert Ascending(Ordinal, ps);
    FilterAscending(Ordinal, (p: ParamRow) => p.typeName.Some?, ps);
    FirstsAscend(Ordinal, Filter((p: ParamRow) => p.typeName.Some?, ps));
  }

  lemma LoadedParamSource(group: seq<JoinedRow>, p: ParamRow) returns (r: JoinedRow)
    requires p in LoadedParams(group)
    ensures p.typeName.Some? && r in group && r.param == p
  {
    var ordered := OrderBy((r: JoinedRow) => r.param.ordinal, group);
    var ps := Map((r: JoinedRow) => r.param, ordered);
    FirstsAreElements(Ordinal, Filter((p: ParamRow) => p.typeName.Some?, ps), 0);
    MapMember((r: JoinedRow) => r.param, ordered, p);
    r :| r in ordered && r.param == p;
  }

  lemma LoadedParamsComplete(group: seq<JoinedRow>, r: JoinedRow)
    requires r in group && r.param.typeName.Some?
    ensures HasKey(Ordinal, LoadedParams(group), r.param.ordinal)
  {
    var ordered := OrderBy((r: JoinedRow) => r.param.ordinal, group);
    var ps := Map((r: JoinedRow) => r.param, ordered);
    MapMember((r: JoinedRow) => r.param, ordered, r.param);
    var kept := Filter((p: ParamRow) => p.typeName.Some?, ps);
    assert r.param in kept;
    FirstsAreElements(Ordinal, kept, r.param.ordinal);
    var i :| 0 <= i < |kept| && kept[i] == r.param;
    assert HasKey(Ordinal, kept, r.param.ordinal);
  }

  lemma LoadedGenericsAscend(group: seq<JoinedRow>)
    ensures StrictlyAscending(Order, LoadedGenerics(group))
  {
    var key := (r: JoinedRow) => r.generic.order;
    var ordered := OrderBy(key, group);
    var kept := Filter((r: JoinedRow) => r.generic.typeName.Some?, ordered);
    FilterAscending(key, (r: JoinedRow) => r.generic.typeName.Some?, ordered);
    var gs := Map((r: JoinedRow) => r.generic, kept);
    assert forall i, k :: 0 <= i < k < |gs| ==> key(kept[i]) <= key(kept[k]);
    assert Ascending(Order, gs);
    FirstsAscend(Order, gs);
  }

  lemma LoadedGenericSource(group: seq<JoinedRow>, g: GenericRow) returns (r: JoinedRow)
    requires g in LoadedGenerics(group)
    ensures g.typeName.Some? && r in group && r.generic == g
  {
    var ordered := OrderBy((r: JoinedRow) => r.generic.order, group);
    var kept := Filter((r: JoinedRow) => r.generic.typeName.Some?, ordered);
    var gs := Map((r: JoinedRow) => r.generic, kept);
    FirstsAreElements(Order, gs, 0);
    MapMember((r: JoinedRow) => r.generic, kept, g);
    r :| r in kept && r.generic == g;
  }

  lemma LoadedGenericsComplete(group: seq<JoinedRow>, r: JoinedRow)
    requires r in group && r.generic.typeName.Some?
    ensures HasKey(Order, LoadedGenerics(group), r.generic.order)
  {
    var ordered := OrderBy((r: JoinedRow) => r.generic.order, group);
    var kept := Filter((r: JoinedRow) => r.generic.typeName.Some?, ordered);
    assert r in kept;
    var gs := Map((r: JoinedRow) => r.generic, kept);
    MapMember((r: JoinedRow) => r.generic, kept, r.generic);
    FirstsAreElements(Order, gs, r.generic.order);
    var i :| 0 <= i < |gs| && gs[i] == r.generic;
    assert HasKey(Order, gs, r.generic.order);
  }

  /** One job's rows of the product, in any order and any multiplicity. */
  ghost predicate RowsOf(id: JobId, meta: Row, params: seq<ParamRow>, generics: seq<GenericRow>, group: seq<JoinedRow>)
  {
    && group != []
    && forall r :: r in group <==>
         r.id == id && r.meta == meta && r.param in ParamSide(id, params) && r.generic in GenericSide(id, generics)
  }

  /** What a left join puts beside a job: the job's rows, or the default if there are none. */
  lemma ParamSideMember(id: JobId, def: JobDef, params: seq<ParamRow>, generics: seq<GenericRow>, p: ParamRow)
    requires Stored(id, def, params, generics) && p.typeName.Some?
    ensures p in ParamSide(id, params) <==> p in ParamData(id, def)
  {
    assert p in Filter((p: ParamRow) => p.guid == id, params) <==> p in params && p.guid == id;
  }

  lemma GenericSideMember(id: JobId, def: JobDef, params: seq<ParamRow>, generics: seq<GenericRow>, g: GenericRow)
    requires Stored(id, def, params, generics) && g.typeName.Some?
    ensures g in GenericSide(id, generics) <==> g in GenericData(id, def)
  {
    assert g in Filter((g: GenericRow) => g.guid == id, generics) <==> g in generics && g.guid == id;
  }

  lemma ParamInGroup(id: JobId, meta: Row, params: seq<ParamRow>, generics: seq<GenericRow>, group: seq<JoinedRow>,
                     p: ParamRow) returns (r: JoinedRow)
    requires RowsOf(id, meta, params, generics, group) && p in ParamSide(id, params)
    ensures r in group && r.param == p
  {
    var g := GenericSide(id, generics)[0];
    assert g in GenericSide(id, generics);
    r := JoinedRow(id, meta, p, g);
  }

  lemma GenericInGroup(id: JobId, meta: Row, params: seq<ParamRow>, generics: seq<GenericRow>, group: seq<JoinedRow>,
                       g: GenericRow) returns (r: JoinedRow)
    requires RowsOf(id, meta, params, generics, group) && g in GenericSide(id, generics)
    ensures r in group && r.generic == g
  {
    var p := ParamSide(id, params)[0];
    assert p in ParamSide(id, params);
    r := JoinedRow(id, meta, p, g);
  }

  lemma LoadedWasStored(id: JobId, meta: Row, def: JobDef, params: seq<ParamRow>, generics: seq<GenericRow>,
                        group: seq<JoinedRow>, p: ParamRow)
    requires RowsOf(id, meta, params, generics, group) && Stored(id, def, params, generics)
    requires p in LoadedParams(group)
    ensures p in ParamData(id, def) && p.typeName.Some?
  {
    hide LoadedParams, ParamSide, GenericSide, ParamData, Stored;
    var r := LoadedParamSource(group, p);
    ParamSideMember(id, def, params, generics, p);
  }

  lemma SameOrdinal(id: JobId, def: JobDef, p: ParamRow, q: ParamRow)
    requires ArgsReadable(def) && p in ParamData(id, def) && q in ParamData(id, def) && p.ordinal == q.ordinal
    ensures p == q
  {
    var i :| 0 <= i < |def.args| && p == ParamData(id, def)[i];
    var k :| 0 <= k < |def.args| && q == ParamData(id, def)[k];
    var key := (a: Argument) => a.ordinal;
    assert key(def.args[i]) == key(def.args[k]);
  }

  lemma StoredIsLoaded(id: JobId, meta: Row, def: JobDef, params: seq<ParamRow>, generics: seq<GenericRow>,
                       group: seq<JoinedRow>, p: ParamRow)
    requires RowsOf(id, meta, params, generics, group) && Stored(id, def, params, generics) && ArgsReadable(def)
    requires p in ParamData(id, def) && p.typeName.Some?
    ensures p in LoadedParams(group)
  {
    hide LoadedParams, ParamSide, GenericSide, ParamData, Stored, ArgsReadable, RowsOf;
    ParamSideMember(id, def, params, generics, p);
    var r := ParamInGroup(id, meta, params, generics, group, p);
    LoadedParamsComplete(group, r);
    var i :| 0 <= i < |LoadedParams(group)| && Ordinal(LoadedParams(group)[i]) == p.ordinal;
    var q := LoadedParams(group)[i];
    LoadedWasStored(id, meta, def, params, generics, group, q);
    SameOrdinal(id, def, p, q);
  }

  lemma ReadableParams(id: JobId, def: JobDef)
    requires ArgsReadable(def)
    ensures StrictlyAscending(Ordinal, ParamData(id, def))
    ensures forall p :: p in ParamData(id, def) ==> p.typeName.Some?
  {
    var key := (a: Argument) => a.ordinal;
    assert forall i :: 0 <= i < |def.args| ==> Ordinal(ParamData(id, def)[i]) == key(def.args[i]);
  }

  lemma LoadedMeansReadable(group: seq<JoinedRow>, def: JobDef)
    requires Map((p: ParamRow) => ArgumentOf(p), LoadedParams(group)) == def.args
    ensures ArgsReadable(def)
  {
    var loaded := LoadedParams(group);
    LoadedParamsAscend(group);
    hide LoadedParams;
    var key := (a: Argument) => a.ordinal;
    forall i | 0 <= i < |def.args|
      ensures def.args[i].typeName.Some? && key(def.args[i]) == Ordinal(loaded[i])
    {
      assert def.args[i] == ArgumentOf(loaded[i]);
      var r := LoadedParamSource(group, loaded[i]);
    }
  }

  lemma ReadableMeansLoaded(id: JobId, meta: Row, def: JobDef, params: seq<ParamRow>, generics: seq<GenericRow>,
                            group: seq<JoinedRow>)
    requires RowsOf(id, meta, params, generics, group) && Stored(id, def, params, generics) && ArgsReadable(def)
    ensures Map((p: ParamRow) => ArgumentOf(p), LoadedParams(group)) == def.args
  {
    var loaded, stored := LoadedParams(group), ParamData(id, def);
    assert forall i :: 0 <= i < |def.args| ==> ArgumentOf(stored[i]) == def.args[i];
    LoadedParamsAscend(group);
    ReadableParams(id, def);
    hide LoadedParams, ParamData, Stored, RowsOf, ArgsReadable;
    forall p
      ensures p in loaded <==> p in stored
    {
      if p in loaded {
        LoadedWasStored(id, meta, def, params, generics, group, p);
      }
      if p in stored {
        StoredIsLoaded(id, meta, def, params, generics, group, p);
      }
    }
    AscendingUnique(Ordinal, loaded, stored);
  }

  /** The arguments come back exactly when they can be read: all types named, ordinals ascending. */
  lemma ArgsComeBack(id: JobId, meta: Row, def: JobDef, params: seq<ParamRow>, generics: seq<GenericRow>,
                     group: seq<JoinedRow>)
    requires RowsOf(id, meta, params, generics, group) && Stored(id, def, params, generics)
    ensures Load(group).args == def.args <==> ArgsReadable(def)
  {
    hide ArgsReadable, Stored, LoadedParams, LoadedGenerics;
    if Load(group).args == def.args {
      LoadedMeansReadable(group, def);
    }
    if ArgsReadable(def) {
      ReadableMeansLoaded(id, meta, def, params, generics, group);
    }
  }

  lemma LoadedTypeWasStored(id: JobId, meta: Row, def: JobDef, params: seq<ParamRow>, generics: seq<GenericRow>,
                            group: seq<JoinedRow>, g: GenericRow)
    requires RowsOf(id, meta, params, generics, group) && Stored(id, def, params, generics)
    requires g in LoadedGenerics(group)
    ensures g in GenericData(id, def) && g.typeName.Some?
  {
    hide LoadedGenerics, ParamSide, GenericSide, GenericData, Stored;
    var r := LoadedGenericSource(group, g);
    GenericSideMember(id, def, params, generics, g);
  }

  lemma StoredTypeIsLoaded(id: JobId, meta: Row, def: JobDef, params: seq<ParamRow>, generics: seq<GenericRow>,
                           group: seq<JoinedRow>, g: GenericRow)
    requires RowsOf(id, meta, params, generics, group) && Stored(id, def, params, generics)
    requires g in GenericData(id, def) && g.typeName.Some?
    ensures g in LoadedGenerics(group)
  {
    hide LoadedGenerics, ParamSide, GenericSide, Stored, RowsOf;
    GenericSideMember(id, def, params, generics, g);
    var r := GenericInGroup(id, meta, params, generics, group, g);
    LoadedGenericsComplete(group, r);
    var i :| 0 <= i < |LoadedGenerics(group)| && Order(LoadedGenerics(group)[i]) == g.order;
    LoadedTypeWasStored(id, meta, def, params, generics, group, LoadedGenerics(group)[i]);
  }

  lemma LoadedTypesMeanReadable(group: seq<JoinedRow>, def: JobDef)
    requires Map((g: GenericRow) => g.typeName, LoadedGenerics(group)) == def.genericTypes
    ensures GenericsReadable(def)
  {
    var loaded := LoadedGenerics(group);
    hide LoadedGenerics;
    forall i | 0 <= i < |def.genericTypes|
      ensures def.genericTypes[i].Some?
    {
      assert def.genericTypes[i] == loaded[i].typeName;
      var r := LoadedGenericSource(group, loaded[i]);
    }
  }

  lemma ReadableTypes(id: JobId, def: JobDef)
    requires GenericsReadable(def)
    ensures StrictlyAscending(Order, GenericData(id, def))
    ensures forall g :: g in GenericData(id, def) ==> g.typeName.Some?
    ensures Map((g: GenericRow) => g.typeName, GenericData(id, def)) == def.genericTypes
  {
  }

  lemma ReadableMeansTypesLoaded(id: JobId, meta: Row, def: JobDef, params: seq<ParamRow>, generics: seq<GenericRow>,
                                 group: seq<JoinedRow>)
    requires RowsOf(id, meta, params, generics, group) && Stored(id, def, params, generics) && GenericsReadable(def)
    ensures Map((g: GenericRow) => g.typeName, LoadedGenerics(group)) == def.genericTypes
  {
    var loaded, stored := LoadedGenerics(group), GenericData(id, def);
    LoadedGenericsAscend(group);
    ReadableTypes(id, def);
    hide LoadedGenerics, Stored, RowsOf, GenericsReadable;
    forall g
      ensures g in loaded <==> g in stored
    {
      if g in loaded {
        LoadedTypeWasStored(id, meta, def, params, generics, group, g);
      }
      if g in stored {
        StoredTypeIsLoaded(id, meta, def, params, generics, group, g);
      }
    }
    AscendingUnique(Order, loaded, stored);
  }

  /** The generic types come back exactly when all of them are named. */
  lemma GenericsComeBack(id: JobId, meta: Row, def: JobDef, params: seq<ParamRow>, generics: seq<GenericRow>,
                         group: seq<JoinedRow>)
    requires RowsOf(id, meta, params, generics, group) && Stored(id, def, params, generics)
    ensures Load(group).genericTypes == def.genericTypes <==> GenericsReadable(def)
  {
    hide GenericsReadable, Stored, LoadedParams, LoadedGenerics;
    if Load(group).genericTypes == def.genericTypes {
      LoadedTypesMeanReadable(group, def);
    }
    if GenericsReadable(def) {
      ReadableMeansTypesLoaded(id, meta, def, params, generics, group);
    }
  }

  /** `loaded` is a faithful rebuilding of the selected jobs: each of them once, nothing else. */
  ghost predicate Rebuilt(loaded: seq<LoadedJob>, ids: seq<JobId>, t: Table, defs: map<JobId, JobDef>)
    requires forall i :: 0 <= i < |ids| ==> ids[i] in t && ids[i] in defs
  {
    && (forall i, k :: 0 <= i < k < |loaded| ==> loaded[i].id != loaded[k].id)
    && (forall id :: id in ids <==> exists i :: 0 <= i < |loaded| && loaded[i].id == id)
    && (forall i :: 0 <= i < |loaded| ==> loaded[i].id in ids && Faithful(loaded[i], t, defs))
  }

  ghost predicate Faithful(job: LoadedJob, t: Table, defs: map<JobId, JobDef>)
    requires job.id in t && job.id in defs
  {
    && job.meta == t[job.id]
    && (job.args == defs[job.id].args <==> ArgsReadable(defs[job.id]))
    && (job.genericTypes == defs[job.id].genericTypes <==> GenericsReadable(defs[job.id]))
  }

  /** The hypotheses of the reconstruction: the product in some order, over tables that hold the definitions. */
  ghost predicate Joined(rows: seq<JoinedRow>, ids: seq<JobId>, t: Table, defs: map<JobId, JobDef>,
                         params: seq<ParamRow>, generics: seq<GenericRow>)
  {
    && (forall i :: 0 <= i < |ids| ==> ids[i] in t && ids[i] in defs && Stored(ids[i], defs[ids[i]], params, generics))
    && multiset(rows) == multiset(Product(ids, t, params, generics))
  }

  lemma JoinedMember(rows: seq<JoinedRow>, ids: seq<JobId>, t: Table, defs: map<JobId, JobDef>,
                     params: seq<ParamRow>, generics: seq<GenericRow>, r: JoinedRow)
    requires Joined(rows, ids, t, defs, params, generics)
    ensures r in rows <==>
              r.id in ids && r.meta == t[r.id]
              && r.param in ParamSide(r.id, params) && r.generic in GenericSide(r.id, generics)
  {
    assert r in rows <==> r in multiset(rows);
    assert r in Product(ids, t, params, generics) <==> r in multiset(Product(ids, t, params, generics));
    ProductMember(ids, t, params, generics, r);
  }

  lemma GroupRows(rows: seq<JoinedRow>, ids: seq<JobId>, t: Table, defs: map<JobId, JobDef>,
                  params: seq<ParamRow>, generics: seq<GenericRow>, id: JobId)
    requires Joined(rows, ids, t, defs, params, generics) && id in ids
    ensures RowsOf(id, t[id], params, generics, Group(rows, id))
  {
    var ps, gs := ParamSide(id, params), GenericSide(id, generics);
    assert ps[0] in ps && gs[0] in gs;
    hide ParamSide, GenericSide, Joined;
    forall r
      ensures r in Group(rows, id) <==> r.id == id && r.meta == t[id] && r.param in ps && r.generic in gs
    {
      JoinedMember(rows, ids, t, defs, params, generics, r);
    }
    assert JoinedRow(id, t[id], ps[0], gs[0]) in Group(rows, id);
  }

  lemma RebuiltOne(rows: seq<JoinedRow>, ids: seq<JobId>, t: Table, defs: map<JobId, JobDef>,
                   params: seq<ParamRow>, generics: seq<GenericRow>, id: JobId)
    requires Joined(rows, ids, t, defs, params, generics) && id in ids
    ensures Group(rows, id) != [] && Load(Group(rows, id)).id == id && Faithful(Load(Group(rows, id)), t, defs)
  {
    var group := Group(rows, id);
    GroupRows(rows, ids, t, defs, params, generics, id);
    assert group[0] in group;
    ArgsComeBack(id, t[id], defs[id], params, generics, group);
    GenericsComeBack(id, t[id], defs[id], params, generics, group);
  }

  lemma FirstIndex(rows: seq<JoinedRow>, ids: seq<JobId>, t: Table, defs: map<JobId, JobDef>,
                   params: seq<ParamRow>, generics: seq<GenericRow>, id: JobId) returns (i: nat)
    requires Joined(rows, ids, t, defs, params, generics) && id in ids
    ensures i < |FirstOfEach(RowId, rows)| && FirstOfEach(RowId, rows)[i].id == id
  {
    GroupRows(rows, ids, t, defs, params, generics, id);
    var r := Group(rows, id)[0];
    assert r in Group(rows, id) && r in rows;
    hide RowsOf, Joined, Group;
    var n :| 0 <= n < |rows| && rows[n] == r;
    assert HasKey(RowId, rows, id);
    FirstsAreElements(RowId, rows, id);
    i :| 0 <= i < |FirstOfEach(RowId, rows)| && RowId(FirstOfEach(RowId, rows)[i]) == id;
  }

  lemma LoadedAt(rows: seq<JoinedRow>, ids: seq<JobId>, t: Table, defs: map<JobId, JobDef>,
                 params: seq<ParamRow>, generics: seq<GenericRow>, first: JoinedRow)
    requires Joined(rows, ids, t, defs, params, generics) && first in rows
    ensures first.id in ids && LoadGroup(rows, first).id == first.id && Faithful(LoadGroup(rows, first), t, defs)
  {
    JoinedMember(rows, ids, t, defs, params, generics, first);
    hide Joined, Faithful, Load, Group;
    RebuiltOne(rows, ids, t, defs, params, generics, first.id);
  }

  lemma LoadedByFirst(rows: seq<JoinedRow>, i: nat)
    requires i < |ExecuteJoinQuery(rows)|
    ensures i < |FirstOfEach(RowId, rows)| && FirstOfEach(RowId, rows)[i] in rows
    ensures ExecuteJoinQuery(rows)[i] == LoadGroup(rows, FirstOfEach(RowId, rows)[i])
  {
    FirstsAreElements(RowId, rows, 0);
    assert FirstOfEach(RowId, rows)[i] in FirstOfEach(RowId, rows);
  }

  lemma LoadedFaithfully(rows: seq<JoinedRow>, ids: seq<JobId>, t: Table, defs: map<JobId, JobDef>,
                         params: seq<ParamRow>, generics: seq<GenericRow>, i: nat)
    requires Joined(rows, ids, t, defs, params, generics) && i < |ExecuteJoinQuery(rows)|
    ensures ExecuteJoinQuery(rows)[i].id in ids && Faithful(ExecuteJoinQuery(rows)[i], t, defs)
    ensures ExecuteJoinQuery(rows)[i].id == FirstOfEach(RowId, rows)[i].id
  {
    LoadedByFirst(rows, i);
    LoadedAt(rows, ids, t, defs, params, generics, FirstOfEach(RowId, rows)[i]);
  }

  /**
   Whatever the numbers of parameters and generic types and whatever the order of the joined rows, the
   query returns each selected job once, with its row, and with its arguments and generic types exactly as
   inserted if they can be read at all.
   */
  lemma JoinReconstructs(rows: seq<JoinedRow>, ids: seq<JobId>, t: Table, defs: map<JobId, JobDef>,
                         params: seq<ParamRow>, generics: seq<GenericRow>)
    requires Joined(rows, ids, t, defs, params, generics)
    ensures Rebuilt(ExecuteJoinQuery(rows), ids, t, defs)
  {
    var loaded, firsts := ExecuteJoinQuery(rows), FirstOfEach(RowId, rows);
    forall i | 0 <= i < |loaded|
      ensures loaded[i].id in ids && loaded[i].id == firsts[i].id && Faithful(loaded[i], t, defs)
    {
      LoadedFaithfully(rows, ids, t, defs, params, generics, i);
    }
    forall i, k | 0 <= i < k < |loaded|
      ensures loaded[i].id != loaded[k].id
    {
      FirstsAreDistinct(RowId, rows);
      assert RowId(firsts[i]) != RowId(firsts[k]);
    }
    forall id | id in ids
      ensures exists i :: 0 <= i < |loaded| && loaded[i].id == id
    {
      var i := FirstIndex(rows, ids, t, defs, params, generics, id);
      assert loaded[i].id == id;
    }
  }
}
