/** `Collector` (bin/gen.py:17-60) and the ordering `main` gives it
    (bin/gen.py:162): the nested description of every mapped class. */
module Collecting {
  import opened Seqs
  import opened Strings
  import opened Sorting
  import opened Ordered
  import opened Schema
  import opened Names
  import opened Resolving
  import opened Relations

  /** The top-level keys of a class's description. */
  datatype Section = TableSection | RelationshipSection | ColumnSection
  {
    function Name(): string
    {
      match this
      case TableSection => "table"
      case RelationshipSection => "relationship"
      case ColumnSection => "column"
    }
  }

  /** A class's description: its table's full name, the two buckets (each
      created on first use, so absent when no property of its kind exists), and
      the order in which the top-level keys were first assigned. */
  datatype ClassInfo = ClassInfo(
    table: string,
    relationship: Option<ODict<RelationshipInfo>>,
    column: Option<ODict<ColumnInfo>>,
    sections: seq<Section>)

  function PropertyKey(p: Property): string
  {
    p.key
  }

  /** The bucket a property is filed under. */
  function SectionOf(p: Property): (s: Section)
    ensures s != TableSection
    ensures s == RelationshipSection <==> p.RelProp?
  {
    if p.RelProp? then RelationshipSection else ColumnSection
  }

  function Sections(props: seq<Property>): (ss: seq<Section>)
    ensures |ss| == |props|
    ensures forall i :: 0 <= i < |props| ==> ss[i] == SectionOf(props[i])
  {
    seq(|props|, i requires 0 <= i < |props| => SectionOf(props[i]))
  }

  lemma SectionsLast(props: seq<Property>)
    requires |props| > 0
    ensures Sections(props) == Sections(props[..|props| - 1]) + [SectionOf(props[|props| - 1])]
  {
  }

  function KeysOf(props: seq<Property>): (ks: seq<string>)
    ensures |ks| == |props|
    ensures forall i :: 0 <= i < |props| ==> ks[i] == props[i].key
  {
    Image(props, PropertyKey)
  }

  /** The properties filed under `s`, in their order. */
  function PropsIn(props: seq<Property>, s: Section): (r: seq<Property>)
    ensures forall p :: p in r <==> p in props && SectionOf(p) == s
    ensures |r| <= |props|
  {
    if |props| == 0 then []
    else
      var q := PropsIn(props[..|props| - 1], s);
      assert props == props[..|props| - 1] + [props[|props| - 1]];
      if SectionOf(props[|props| - 1]) == s then q + [props[|props| - 1]] else q
  }

  /** The relationship entries of `props` as key/entry pairs, in order
      (properties whose entry cannot be built are skipped). */
  function RelEntries(inf: Inflector, parent: Table, props: seq<Property>): ODict<RelationshipInfo>
  {
    if |props| == 0 then []
    else
      var q := RelEntries(inf, parent, props[..|props| - 1]);
      var p := props[|props| - 1];
      if p.RelProp? && RelationshipEntry(inf, parent, p).Success? then
        q + [(p.key, RelationshipEntry(inf, parent, p).value)]
      else q
  }

  /** The column entries of `props` as key/entry pairs, in order. */
  function ColEntries(resolver: Resolver, props: seq<Property>): ODict<ColumnInfo>
  {
    if |props| == 0 then []
    else
      var q := ColEntries(resolver, props[..|props| - 1]);
      var p := props[|props| - 1];
      if p.ColProp? && ColumnEntry(resolver, p).Success? then
        q + [(p.key, ColumnEntry(resolver, p).value)]
      else q
  }

  /** The description before any property: only the table's full name. */
  function Start(parent: Table): ClassInfo
  {
    ClassInfo(parent.fullname, None, None, [TableSection])
  }

  /** Files one property: its entry is assigned under its key in its bucket,
      which is created (and its top-level key recorded) on first use. */
  function Step(inf: Inflector, resolver: Resolver, parent: Table, e: ClassInfo, p: Property): Result<ClassInfo>
  {
    if p.RelProp? then
      var entry := RelationshipEntry(inf, parent, p);
      if entry.Failure? then Failure(entry.message)
      else if e.relationship.Some? then
        Success(e.(relationship := Some(Put(e.relationship.value, p.key, entry.value))))
      else
        Success(e.(relationship := Some(Put([], p.key, entry.value)), sections := e.sections + [RelationshipSection]))
    else
      var entry := ColumnEntry(resolver, p);
      if entry.Failure? then Failure(entry.message)
      else if e.column.Some? then
        Success(e.(column := Some(Put(e.column.value, p.key, entry.value))))
      else
        Success(e.(column := Some(Put([], p.key, entry.value)), sections := e.sections + [ColumnSection]))
  }

  /** Files `props` first to last; the first failure ends the run. */
  function Fold(inf: Inflector, resolver: Resolver, parent: Table, props: seq<Property>): Result<ClassInfo>
  {
    if |props| == 0 then Success(Start(parent))
    else
      match Fold(inf, resolver, parent, props[..|props| - 1])
      case Failure(msg) => Failure(msg)
      case Success(e) => Step(inf, resolver, parent, e, props[|props| - 1])
  }

  /** The mapper's properties sorted by key, as the collector visits them. */
  function SortedProperties(m: Mapper): (ps: seq<Property>)
    ensures multiset(ps) == multiset(m.properties)
    ensures Ascending(KeysOf(ps))
  {
    SortBy(m.properties, PropertyKey)
  }

  /** The description of one mapped class. */
  function Build(inf: Inflector, resolver: Resolver, m: Mapper): Result<ClassInfo>
  {
    Fold(inf, resolver, m.localTable, SortedProperties(m))
  }

  lemma FoldLast(inf: Inflector, resolver: Resolver, parent: Table, props: seq<Property>)
    requires |props| > 0
    requires Fold(inf, resolver, parent, props[..|props| - 1]).Success?
    ensures Fold(inf, resolver, parent, props) ==
      Step(inf, resolver, parent, Fold(inf, resolver, parent, props[..|props| - 1]).value, props[|props| - 1])
  {
  }

  /** Once a prefix has failed, the whole run fails the same way. */
  lemma {:induction false} FoldFailed(inf: Inflector, resolver: Resolver, parent: Table, props: seq<Property>, i: nat)
    requires i <= |props|
    requires Fold(inf, resolver, parent, props[..i]).Failure?
    ensures Fold(inf, resolver, parent, props) == Fold(inf, resolver, parent, props[..i])
    decreases |props|
  {
    if i < |props| {
      var p := props[..|props| - 1];
      assert p[..i] == props[..i];
      FoldFailed(inf, resolver, parent, p, i);
    } else {
      assert props[..i] == props;
    }
  }

  lemma FoldStep(inf: Inflector, resolver: Resolver, parent: Table, props: seq<Property>, i: nat, e: ClassInfo)
    requires i < |props|
    requires Fold(inf, resolver, parent, props[..i]) == Success(e)
    ensures Fold(inf, resolver, parent, props[..i + 1]) == Step(inf, resolver, parent, e, props[i])
  {
    assert props[..i + 1][..i] == props[..i];
    assert props[..i + 1][i] == props[i];
  }

  /** `_collect_from_mapper`: visits the sorted properties once, filling the
      buckets in place; stops with the failure of the first unsupported one. */
  method CollectFromMapper(inf: Inflector, resolver: Resolver, m: Mapper) returns (r: Result<ClassInfo>)
    ensures r == Build(inf, resolver, m)
  {
    var table := m.localTable.fullname;
    var relationship: Option<ODict<RelationshipInfo>> := None;
    var column: Option<ODict<ColumnInfo>> := None;
    var sections := [TableSection];
    var props := SortedProperties(m);
    for i := 0 to |props|
      invariant Fold(inf, resolver, m.localTable, props[..i]) == Success(ClassInfo(table, relationship, column, sections))
    {
      var p := props[i];
      FoldStep(inf, resolver, m.localTable, props, i, ClassInfo(table, relationship, column, sections));
      if p.RelProp? {
        var entry := RelationshipEntry(inf, m.localTable, p);
        if entry.Failure? {
          FoldFailed(inf, resolver, m.localTable, props, i + 1);
          return Failure(entry.message);
        }
        if relationship.None? {
          relationship := Some([]);
          sections := sections + [RelationshipSection];
        }
        relationship := Some(Put(relationship.value, p.key, entry.value));
      } else {
        var entry := ColumnEntry(resolver, p);
        if entry.Failure? {
          FoldFailed(inf, resolver, m.localTable, props, i + 1);
          return Failure(entry.message);
        }
        if column.None? {
          column := Some([]);
          sections := sections + [ColumnSection];
        }
        column := Some(Put(column.value, p.key, entry.value));
      }
    }
    assert props[..|props|] == props;
    r := Success(ClassInfo(table, relationship, column, sections));
  }

  /** Filing one property fails exactly when it is unsupported. */
  lemma StepFails(inf: Inflector, resolver: Resolver, parent: Table, e: ClassInfo, p: Property)
    ensures Step(inf, resolver, parent, e, p).Failure? <==> Unsupported(p)
    ensures Step(inf, resolver, parent, e, p).Failure? ==>
      Step(inf, resolver, parent, e, p).message == MultiKeysNotSupported
  {
  }

  /** Every property of `props` is supported. */
  predicate AllSupported(props: seq<Property>)
  {
    forall i :: 0 <= i < |props| ==> !Unsupported(props[i])
  }

  lemma AllSupportedSnoc(props: seq<Property>)
    requires |props| > 0
    ensures AllSupported(props) <==> AllSupported(props[..|props| - 1]) && !Unsupported(props[|props| - 1])
  {
  }

  /** A run succeeds exactly when every property is supported, and otherwise
      fails with the one message. */
  lemma {:induction false} FoldFailsIff(inf: Inflector, resolver: Resolver, parent: Table, props: seq<Property>)
    ensures Fold(inf, resolver, parent, props).Success? <==> AllSupported(props)
    ensures Fold(inf, resolver, parent, props).Failure? ==>
      Fold(inf, resolver, parent, props).message == MultiKeysNotSupported
  {
    if |props| > 0 {
      var q, last := props[..|props| - 1], props[|props| - 1];
      FoldFailsIff(inf, resolver, parent, q);
      var prior := Fold(inf, resolver, parent, q);
      AllSupportedSnoc(props);
      if prior.Success? {
        assert Fold(inf, resolver, parent, props) == Step(inf, resolver, parent, prior.value, last);
        StepFails(inf, resolver, parent, prior.value, last);
      }
    }
  }

  /** A bucket exists exactly when its key has been recorded at the top level. */
  predicate BucketsRecorded(e: ClassInfo)
  {
    && (e.relationship.Some? <==> RelationshipSection in e.sections)
    && (e.column.Some? <==> ColumnSection in e.sections)
  }

  /** Filing one property keeps the table, records its bucket's key the first
      time only, and keeps the buckets in step with the recorded keys. */
  lemma StepSections(inf: Inflector, resolver: Resolver, parent: Table, e: ClassInfo, p: Property)
    requires BucketsRecorded(e)
    requires Step(inf, resolver, parent, e, p).Success?
    ensures var e' := Step(inf, resolver, parent, e, p).value;
      && e'.table == e.table
      && e'.sections == (if SectionOf(p) in e.sections then e.sections else e.sections + [SectionOf(p)])
      && BucketsRecorded(e')
  {
    if p.RelProp? {
      assert SectionOf(p) == RelationshipSection;
    } else {
      assert SectionOf(p) == ColumnSection;
    }
  }

  /** A bucket's contents, empty while it does not exist. */
  function OrEmpty<V>(bucket: Option<ODict<V>>): ODict<V>
  {
    if bucket.Some? then bucket.value else []
  }

  /** Filing one property assigns its entry in its own bucket and leaves the
      other bucket as it was. */
  lemma StepBuckets(inf: Inflector, resolver: Resolver, parent: Table, e: ClassInfo, p: Property)
    requires Step(inf, resolver, parent, e, p).Success?
    ensures var e' := Step(inf, resolver, parent, e, p).value;
      p.RelProp? ==>
        && e'.relationship == Some(Put(OrEmpty(e.relationship), p.key, RelationshipEntry(inf, parent, p).value))
        && e'.column == e.column
    ensures var e' := Step(inf, resolver, parent, e, p).value;
      p.ColProp? ==>
        && e'.column == Some(Put(OrEmpty(e.column), p.key, ColumnEntry(resolver, p).value))
        && e'.relationship == e.relationship
  {
  }

  lemma SectionsSnoc(before: seq<Section>, after: seq<Section>, ss: seq<Section>, x: Section)
    requires x != TableSection
    requires before == [TableSection] + Dedup(ss)
    requires after == if x in before then before else before + [x]
    ensures after == [TableSection] + Dedup(ss + [x])
  {
    DedupSnoc(ss, x);
    var d := Dedup(ss);
    assert x in before <==> x in d;
    if x in ss {
      assert x in d;
    } else {
      assert x !in d;
      assert ([TableSection] + d) + [x] == [TableSection] + (d + [x]);
    }
  }

  /** A successful run keeps the table's full name and its buckets in step
      with the recorded top-level keys. */
  lemma {:induction false} FoldRecorded(inf: Inflector, resolver: Resolver, parent: Table, props: seq<Property>)
    requires Fold(inf, resolver, parent, props).Success?
    ensures Fold(inf, resolver, parent, props).value.table == parent.fullname
    ensures BucketsRecorded(Fold(inf, resolver, parent, props).value)
  {
    if |props| > 0 {
      var q, last := props[..|props| - 1], props[|props| - 1];
      FoldRecorded(inf, resolver, parent, q);
      var e := Fold(inf, resolver, parent, q).value;
      FoldLast(inf, resolver, parent, props);
      StepSections(inf, resolver, parent, e, last);
    }
  }

  /** The top level of a successful run: the table's full name first, then each
      bucket's key once, in the order of the first property filed there. */
  lemma {:induction false} FoldSections(inf: Inflector, resolver: Resolver, parent: Table, props: seq<Property>)
    requires Fold(inf, resolver, parent, props).Success?
    ensures Fold(inf, resolver, parent, props).value.sections == [TableSection] + Dedup(Sections(props))
  {
    if |props| == 0 {
      assert Sections(props) == [];
    } else {
      var q, last := props[..|props| - 1], props[|props| - 1];
      FoldSections(inf, resolver, parent, q);
      FoldRecorded(inf, resolver, parent, q);
      var e := Fold(inf, resolver, parent, q).value;
      var e' := Fold(inf, resolver, parent, props).value;
      var x := SectionOf(last);
      assert e'.sections == (if x in e.sections then e.sections else e.sections + [x]) by {
        FoldLast(inf, resolver, parent, props);
        StepSections(inf, resolver, parent, e, last);
      }
      var ss := Sections(q);
      SectionsLast(props);
      SectionsSnoc(e.sections, e'.sections, ss, x);
    }
  }

  /** The relationship bucket of a successful run is what assigning the
      relationship entries one after another into an empty dictionary gives. */
  lemma {:induction false} FoldRelationships(inf: Inflector, resolver: Resolver, parent: Table, props: seq<Property>)
    requires Fold(inf, resolver, parent, props).Success?
    ensures Fold(inf, resolver, parent, props).value.relationship.Some? ==>
      Fold(inf, resolver, parent, props).value.relationship.value == PutAll([], RelEntries(inf, parent, props))
    ensures Fold(inf, resolver, parent, props).value.relationship.None? ==> RelEntries(inf, parent, props) == []
  {
    if |props| > 0 {
      var q, last := props[..|props| - 1], props[|props| - 1];
      FoldRelationships(inf, resolver, parent, q);
      var e := Fold(inf, resolver, parent, q).value;
      FoldLast(inf, resolver, parent, props);
      StepBuckets(inf, resolver, parent, e, last);
      if last.RelProp? {
        var kv := (last.key, RelationshipEntry(inf, parent, last).value);
        assert RelEntries(inf, parent, props) == RelEntries(inf, parent, q) + [kv];
        assert OrEmpty(e.relationship) == PutAll([], RelEntries(inf, parent, q));
        PutAllSnoc([], RelEntries(inf, parent, q), kv);
      } else {
        assert RelEntries(inf, parent, props) == RelEntries(inf, parent, q);
      }
    }
  }

  /** The same for the column bucket. */
  lemma {:induction false} FoldColumns(inf: Inflector, resolver: Resolver, parent: Table, props: seq<Property>)
    requires Fold(inf, resolver, parent, props).Success?
    ensures Fold(inf, resolver, parent, props).value.column.Some? ==>
      Fold(inf, resolver, parent, props).value.column.value == PutAll([], ColEntries(resolver, props))
    ensures Fold(inf, resolver, parent, props).value.column.None? ==> ColEntries(resolver, props) == []
  {
    if |props| > 0 {
      var q, last := props[..|props| - 1], props[|props| - 1];
      FoldColumns(inf, resolver, parent, q);
      var e := Fold(inf, resolver, parent, q).value;
      FoldLast(inf, resolver, parent, props);
      StepBuckets(inf, resolver, parent, e, last);
      if last.ColProp? {
        var kv := (last.key, ColumnEntry(resolver, last).value);
        assert ColEntries(resolver, props) == ColEntries(resolver, q) + [kv];
        assert OrEmpty(e.column) == PutAll([], ColEntries(resolver, q));
        PutAllSnoc([], ColEntries(resolver, q), kv);
      } else {
        assert ColEntries(resolver, props) == ColEntries(resolver, q);
      }
    }
  }

  lemma KeysOfSnoc(props: seq<Property>, p: Property)
    ensures KeysOf(props + [p]) == KeysOf(props) + [p.key]
  {
  }

  /** When every property is supported, the relationship entries carry the keys
      of the relationship properties, in order. */
  lemma {:induction false} RelEntriesKeys(inf: Inflector, parent: Table, props: seq<Property>)
    requires AllSupported(props)
    ensures Keys(RelEntries(inf, parent, props)) == KeysOf(PropsIn(props, RelationshipSection))
  {
    if |props| > 0 {
      var q, last := props[..|props| - 1], props[|props| - 1];
      AllSupportedSnoc(props);
      RelEntriesKeys(inf, parent, q);
      if last.RelProp? {
        KeysSnoc(RelEntries(inf, parent, q), (last.key, RelationshipEntry(inf, parent, last).value));
        KeysOfSnoc(PropsIn(q, RelationshipSection), last);
      }
    }
  }

  /** When every property is supported, the column entries carry the keys of
      the column properties, in order. */
  lemma {:induction false} ColEntriesKeys(resolver: Resolver, props: seq<Property>)
    requires AllSupported(props)
    ensures Keys(ColEntries(resolver, props)) == KeysOf(PropsIn(props, ColumnSection))
  {
    if |props| > 0 {
      var q, last := props[..|props| - 1], props[|props| - 1];
      AllSupportedSnoc(props);
      ColEntriesKeys(resolver, q);
      if last.ColProp? {
        KeysSnoc(ColEntries(resolver, q), (last.key, ColumnEntry(resolver, last).value));
        KeysOfSnoc(PropsIn(q, ColumnSection), last);
      }
    }
  }

  /** Filtering keeps keys ascending. */
  lemma {:induction false} PropsInAscending(props: seq<Property>, s: Section)
    requires Ascending(KeysOf(props))
    ensures Ascending(KeysOf(PropsIn(props, s)))
  {
    if |props| > 0 {
      var q, last := props[..|props| - 1], props[|props| - 1];
      assert KeysOf(q) == KeysOf(props)[..|q|];
      PropsInAscending(q, s);
      var f := PropsIn(q, s);
      if SectionOf(last) == s {
        KeysOfSnoc(f, last);
        forall j | 0 <= j < |f|
          ensures StrLe(f[j].key, last.key)
        {
          assert f[j] in q;
          var k :| 0 <= k < |q| && q[k] == f[j];
          assert KeysOf(props)[k] == f[j].key;
        }
      }
    }
  }

  /** Filtering keeps keys distinct. */
  lemma {:induction false} PropsInDistinct(props: seq<Property>, s: Section)
    requires NoDup(KeysOf(props))
    ensures NoDup(KeysOf(PropsIn(props, s)))
  {
    if |props| > 0 {
      var q, last := props[..|props| - 1], props[|props| - 1];
      assert KeysOf(q) == KeysOf(props)[..|q|];
      PropsInDistinct(q, s);
      var f := PropsIn(q, s);
      if SectionOf(last) == s {
        KeysOfSnoc(f, last);
        forall j | 0 <= j < |f|
          ensures f[j].key != last.key
        {
          assert f[j] in q;
          var k :| 0 <= k < |q| && q[k] == f[j];
          assert KeysOf(props)[k] == f[j].key;
        }
      }
    }
  }

  /** Membership survives sorting. */
  lemma SortedMembers(m: Mapper)
    ensures forall p :: p in SortedProperties(m) <==> p in m.properties
  {
    var ps := SortedProperties(m);
    forall p
      ensures p in ps <==> p in m.properties
    {
      assert p in ps <==> p in multiset(ps);
      assert p in m.properties <==> p in multiset(m.properties);
    }
  }

  /** `_collect_from_mapper` fails exactly when one of the mapper's properties
      is unsupported (several synchronize pairs, or a multi-column property). */
  lemma BuildFailsIff(inf: Inflector, resolver: Resolver, m: Mapper)
    ensures Build(inf, resolver, m).Success? <==> forall p :: p in m.properties ==> !Unsupported(p)
    ensures Build(inf, resolver, m).Failure? ==> Build(inf, resolver, m).message == MultiKeysNotSupported
  {
    var ps := SortedProperties(m);
    FoldFailsIff(inf, resolver, m.localTable, ps);
    SortedMembers(m);
    assert AllSupported(ps) <==> forall p :: p in ps ==> !Unsupported(p);
  }

  lemma ConsNoDup(d: seq<Section>)
    requires NoDup(d) && TableSection !in d
    ensures NoDup([TableSection] + d)
  {
    forall i, j | 0 <= i < j < |d| + 1
      ensures ([TableSection] + d)[i] != ([TableSection] + d)[j]
    {
      assert ([TableSection] + d)[j] == d[j - 1];
      if i > 0 {
        assert ([TableSection] + d)[i] == d[i - 1];
      }
    }
  }

  /** A bucket's key is among the sections of `ps` exactly when a property of
      `ps` is filed there. */
  lemma SectionsMembers(ps: seq<Property>, x: Section)
    ensures x in Sections(ps) <==> exists p :: p in ps && SectionOf(p) == x
  {
    if x in Sections(ps) {
      var i :| 0 <= i < |ps| && Sections(ps)[i] == x;
      assert ps[i] in ps;
    }
    if exists p :: p in ps && SectionOf(p) == x {
      var p :| p in ps && SectionOf(p) == x;
      var i :| 0 <= i < |ps| && ps[i] == p;
      assert Sections(ps)[i] == x;
    }
  }

  /** The top level of a class's description: `table` (the table's full name)
      comes first and no key occurs twice. */
  lemma BuildTopLevel(inf: Inflector, resolver: Resolver, m: Mapper)
    requires Build(inf, resolver, m).Success?
    ensures Build(inf, resolver, m).value.table == m.localTable.fullname
    ensures var ss := Build(inf, resolver, m).value.sections; |ss| > 0 && ss[0] == TableSection
    ensures NoDup(Build(inf, resolver, m).value.sections)
  {
    var ps := SortedProperties(m);
    FoldRecorded(inf, resolver, m.localTable, ps);
    FoldSections(inf, resolver, m.localTable, ps);
    ConsNoDup(Dedup(Sections(ps)));
  }

  /** Each bucket exists exactly when the mapper has a property of its kind. */
  lemma BuildBuckets(inf: Inflector, resolver: Resolver, m: Mapper)
    requires Build(inf, resolver, m).Success?
    ensures Build(inf, resolver, m).value.relationship.Some? <==> exists p :: p in m.properties && p.RelProp?
    ensures Build(inf, resolver, m).value.column.Some? <==> exists p :: p in m.properties && p.ColProp?
  {
    var ps := SortedProperties(m);
    FoldRecorded(inf, resolver, m.localTable, ps);
    FoldSections(inf, resolver, m.localTable, ps);
    SortedMembers(m);
    SectionsMembers(ps, RelationshipSection);
    SectionsMembers(ps, ColumnSection);
  }

  /** The relationship bucket's keys: each relationship key once, where it
      first occurs. */
  lemma FoldRelationshipKeys(inf: Inflector, resolver: Resolver, parent: Table, ps: seq<Property>)
    requires Fold(inf, resolver, parent, ps).Success?
    requires Fold(inf, resolver, parent, ps).value.relationship.Some?
    ensures Keys(Fold(inf, resolver, parent, ps).value.relationship.value) == Dedup(KeysOf(PropsIn(ps, RelationshipSection)))
  {
    FoldRelationships(inf, resolver, parent, ps);
    FoldFailsIff(inf, resolver, parent, ps);
    RelEntriesKeys(inf, parent, ps);
    PutAllKeys(RelEntries(inf, parent, ps));
  }

  /** The column bucket's keys: each column key once, where it first occurs. */
  lemma FoldColumnKeys(inf: Inflector, resolver: Resolver, parent: Table, ps: seq<Property>)
    requires Fold(inf, resolver, parent, ps).Success?
    requires Fold(inf, resolver, parent, ps).value.column.Some?
    ensures Keys(Fold(inf, resolver, parent, ps).value.column.value) == Dedup(KeysOf(PropsIn(ps, ColumnSection)))
  {
    FoldColumns(inf, resolver, parent, ps);
    FoldFailsIff(inf, resolver, parent, ps);
    ColEntriesKeys(resolver, ps);
    PutAllKeys(ColEntries(resolver, ps));
  }

  /** A key is among the keys of one kind exactly when a property of that
      kind carries it. */
  lemma SectionKeyMembers(ps: seq<Property>, s: Section, k: string)
    ensures k in KeysOf(PropsIn(ps, s)) <==> exists p :: p in ps && SectionOf(p) == s && p.key == k
  {
    var f := PropsIn(ps, s);
    if k in KeysOf(f) {
      var i :| 0 <= i < |f| && KeysOf(f)[i] == k;
      assert f[i] in f;
    }
    if exists p :: p in ps && SectionOf(p) == s && p.key == k {
      var p :| p in ps && SectionOf(p) == s && p.key == k;
      var i :| 0 <= i < |f| && f[i] == p;
      assert KeysOf(f)[i] == k;
    }
  }

  /** The deduplicated keys of one kind of property of a key-sorted list are
      strictly ascending and are exactly the keys of that kind. */
  lemma SectionKeys(ps: seq<Property>, s: Section)
    requires Ascending(KeysOf(ps))
    ensures var ks := Dedup(KeysOf(PropsIn(ps, s)));
      && NoDup(ks) && Ascending(ks)
      && forall k :: k in ks <==> exists p :: p in ps && SectionOf(p) == s && p.key == k
  {
    PropsInAscending(ps, s);
    DedupAscending(KeysOf(PropsIn(ps, s)));
    forall k
      ensures k in KeysOf(PropsIn(ps, s)) <==> exists p :: p in ps && SectionOf(p) == s && p.key == k
    {
      SectionKeyMembers(ps, s, k);
    }
  }

  /** The relationship bucket lists each relationship key of the mapper once,
      in ascending order. */
  lemma BuildRelationshipKeys(inf: Inflector, resolver: Resolver, m: Mapper)
    requires Build(inf, resolver, m).Success?
    requires Build(inf, resolver, m).value.relationship.Some?
    ensures var ks := Keys(Build(inf, resolver, m).value.relationship.value);
      && NoDup(ks) && Ascending(ks)
      && forall k :: k in ks <==> exists p :: p in m.properties && p.RelProp? && p.key == k
  {
    var ps := SortedProperties(m);
    FoldRelationshipKeys(inf, resolver, m.localTable, ps);
    SectionKeys(ps, RelationshipSection);
    SortedMembers(m);
  }

  /** The column bucket lists each column key of the mapper once, in
      ascending order. */
  lemma BuildColumnKeys(inf: Inflector, resolver: Resolver, m: Mapper)
    requires Build(inf, resolver, m).Success?
    requires Build(inf, resolver, m).value.column.Some?
    ensures var ks := Keys(Build(inf, resolver, m).value.column.value);
      && NoDup(ks) && Ascending(ks)
      && forall k :: k in ks <==> exists p :: p in m.properties && p.ColProp? && p.key == k
  {
    var ps := SortedProperties(m);
    FoldColumnKeys(inf, resolver, m.localTable, ps);
    SectionKeys(ps, ColumnSection);
    SortedMembers(m);
  }

  /** With distinct property keys (as a mapper has), each bucket is exactly
      the entries of its properties, one per property, in ascending key order. */
  lemma BuildDistinctKeys(inf: Inflector, resolver: Resolver, m: Mapper)
    requires NoDup(KeysOf(m.properties))
    requires Build(inf, resolver, m).Success?
    ensures var e := Build(inf, resolver, m).value;
      e.relationship.Some? ==> e.relationship.value == RelEntries(inf, m.localTable, SortedProperties(m))
    ensures var e := Build(inf, resolver, m).value;
      e.column.Some? ==> e.column.value == ColEntries(resolver, SortedProperties(m))
  {
    var ps := SortedProperties(m);
    ImagePermutation(m.properties, ps, PropertyKey);
    FoldFailsIff(inf, resolver, m.localTable, ps);
    FoldRelationships(inf, resolver, m.localTable, ps);
    FoldColumns(inf, resolver, m.localTable, ps);
    PropsInDistinct(ps, RelationshipSection);
    PropsInDistinct(ps, ColumnSection);
    RelEntriesKeys(inf, m.localTable, ps);
    ColEntriesKeys(resolver, ps);
    PutAllDistinct(RelEntries(inf, m.localTable, ps));
    PutAllDistinct(ColEntries(resolver, ps));
  }

  /** The name a class's description is filed under in the output. */
  function ClassName(inf: Inflector, m: Mapper): string
  {
    ClassnameForTable(inf, m.localTable.fullname)
  }

  function ClassNames(inf: Inflector, mappers: seq<Mapper>): (ns: seq<string>)
    ensures |ns| == |mappers|
    ensures forall i :: 0 <= i < |mappers| ==> ns[i] == ClassName(inf, mappers[i])
  {
    Image(mappers, m => ClassName(inf, m))
  }

  /** Each class's name paired with the outcome of describing it, in order. */
  function Describe(inf: Inflector, resolver: Resolver, mappers: seq<Mapper>): (ds: ODict<Result<ClassInfo>>)
    ensures |ds| == |mappers|
    ensures forall i :: 0 <= i < |mappers| ==> ds[i] == (ClassName(inf, mappers[i]), Build(inf, resolver, mappers[i]))
  {
    seq(|mappers|, i requires 0 <= i < |mappers| => (ClassName(inf, mappers[i]), Build(inf, resolver, mappers[i])))
  }

  /** Files the outcomes first to last, each success under its name; the first
      failure ends the run. */
  function Gather(ds: ODict<Result<ClassInfo>>): Result<ODict<ClassInfo>>
  {
    if |ds| == 0 then Success([])
    else
      match Gather(ds[..|ds| - 1])
      case Failure(msg) => Failure(msg)
      case Success(d) =>
        var (name, b) := ds[|ds| - 1];
        if b.Failure? then Failure(b.message) else Success(Put(d, name, b.value))
  }

  /** The successful outcomes as name/description pairs, in order. */
  function Successes(ds: ODict<Result<ClassInfo>>): ODict<ClassInfo>
  {
    if |ds| == 0 then []
    else
      var q := Successes(ds[..|ds| - 1]);
      var (name, b) := ds[|ds| - 1];
      if b.Success? then q + [(name, b.value)] else q
  }

  predicate AllSucceed(ds: ODict<Result<ClassInfo>>)
  {
    forall i :: 0 <= i < |ds| ==> ds[i].1.Success?
  }

  lemma AllSucceedSnoc(ds: ODict<Result<ClassInfo>>)
    requires |ds| > 0
    ensures AllSucceed(ds) <==> AllSucceed(ds[..|ds| - 1]) && ds[|ds| - 1].1.Success?
  {
  }

  lemma {:induction false} GatherFailed(ds: ODict<Result<ClassInfo>>, i: nat)
    requires i <= |ds|
    requires Gather(ds[..i]).Failure?
    ensures Gather(ds) == Gather(ds[..i])
    decreases |ds|
  {
    if i < |ds| {
      var q := ds[..|ds| - 1];
      assert q[..i] == ds[..i];
      GatherFailed(q, i);
    } else {
      assert ds[..i] == ds;
    }
  }

  /** Gathering succeeds exactly when every outcome is a success, and a failure
      carries the message of some failed outcome. */
  lemma {:induction false} GatherFailsIff(ds: ODict<Result<ClassInfo>>)
    ensures Gather(ds).Success? <==> AllSucceed(ds)
    ensures Gather(ds).Failure? ==> exists i :: 0 <= i < |ds| && ds[i].1 == Failure(Gather(ds).message)
  {
    if |ds| > 0 {
      var q := ds[..|ds| - 1];
      GatherFailsIff(q);
      AllSucceedSnoc(ds);
      if Gather(q).Failure? {
        var i :| 0 <= i < |q| && q[i].1 == Failure(Gather(q).message);
        assert ds[i] == q[i];
      }
    }
  }

  /** A successful run is the descriptions assigned one after another into an
      empty dictionary. */
  lemma {:induction false} GatherContents(ds: ODict<Result<ClassInfo>>)
    requires Gather(ds).Success?
    ensures Gather(ds).value == PutAll([], Successes(ds))
  {
    if |ds| > 0 {
      var q := ds[..|ds| - 1];
      GatherContents(q);
      var sq := Successes(q);
      var kv := (ds[|ds| - 1].0, ds[|ds| - 1].1.value);
      assert Successes(ds) == sq + [kv];
      PutAllSnoc([], sq, kv);
    }
  }

  /** When every outcome is a success, the successes carry every name, in order. */
  lemma {:induction false} SuccessesKeys(ds: ODict<Result<ClassInfo>>)
    requires AllSucceed(ds)
    ensures Keys(Successes(ds)) == Keys(ds)
  {
    if |ds| > 0 {
      var q := ds[..|ds| - 1];
      AllSucceedSnoc(ds);
      SuccessesKeys(q);
      var kv := (ds[|ds| - 1].0, ds[|ds| - 1].1.value);
      KeysSnoc(Successes(q), kv);
      assert q + [ds[|ds| - 1]] == ds;
      KeysSnoc(q, ds[|ds| - 1]);
    }
  }

  /** When every outcome is a success, each contributes its own pair. */
  lemma {:induction false} SuccessesAll(ds: ODict<Result<ClassInfo>>)
    requires AllSucceed(ds)
    ensures |Successes(ds)| == |ds|
    ensures forall i :: 0 <= i < |ds| ==> Successes(ds)[i] == (ds[i].0, ds[i].1.value)
  {
    if |ds| > 0 {
      AllSucceedSnoc(ds);
      SuccessesAll(ds[..|ds| - 1]);
    }
  }

  /** Gathering one more outcome onto a successful prefix. */
  lemma GatherStep(ds: ODict<Result<ClassInfo>>, i: nat, d: ODict<ClassInfo>)
    requires i < |ds|
    requires Gather(ds[..i]) == Success(d)
    ensures Gather(ds[..i + 1]) ==
      if ds[i].1.Failure? then Failure(ds[i].1.message) else Success(Put(d, ds[i].0, ds[i].1.value))
  {
    assert ds[..i + 1][..i] == ds[..i];
    assert ds[..i + 1][i] == ds[i];
  }

  /** `collect`: describes each class in the given order and files the
      description under the class's name, a later class replacing an earlier
      one of the same name where that one stood. */
  method Collect(inf: Inflector, resolver: Resolver, mappers: seq<Mapper>) returns (r: Result<ODict<ClassInfo>>)
    ensures r == Gather(Describe(inf, resolver, mappers))
  {
    ghost var ds := Describe(inf, resolver, mappers);
    var d: ODict<ClassInfo> := [];
    for i := 0 to |mappers|
      invariant Gather(ds[..i]) == Success(d)
    {
      var entry := CollectFromMapper(inf, resolver, mappers[i]);
      assert ds[i] == (ClassName(inf, mappers[i]), entry);
      GatherStep(ds, i, d);
      if entry.Failure? {
        GatherFailed(ds, i + 1);
        return Failure(entry.message);
      }
      d := Put(d, ClassName(inf, mappers[i]), entry.value);
    }
    assert ds[..|mappers|] == ds;
    r := Success(d);
  }

  /** None of the mapper's properties is unsupported. */
  predicate Supported(m: Mapper)
  {
    forall p :: p in m.properties ==> !Unsupported(p)
  }

  /** `collect` succeeds exactly when every class can be described (none has
      an unsupported property); otherwise it fails with the one message. */
  lemma CollectFailsIff(inf: Inflector, resolver: Resolver, mappers: seq<Mapper>)
    ensures Gather(Describe(inf, resolver, mappers)).Success? <==> forall m :: m in mappers ==> Supported(m)
    ensures Gather(Describe(inf, resolver, mappers)).Failure? ==>
      Gather(Describe(inf, resolver, mappers)).message == MultiKeysNotSupported
  {
    var ds := Describe(inf, resolver, mappers);
    assert forall i :: 0 <= i < |mappers| ==>
        (ds[i].1.Success? <==> Supported(mappers[i]))
        && (ds[i].1.Failure? ==> ds[i].1.message == MultiKeysNotSupported) by {
      forall i | 0 <= i < |mappers|
        ensures ds[i].1.Success? <==> Supported(mappers[i])
        ensures ds[i].1.Failure? ==> ds[i].1.message == MultiKeysNotSupported
      {
        BuildFailsIff(inf, resolver, mappers[i]);
      }
    }
    GatherFailsIff(ds);
    assert AllSucceed(ds) <==> forall m :: m in mappers ==> Supported(m) by {
      if AllSucceed(ds) {
        forall m | m in mappers
          ensures Supported(m)
        {
          var i :| 0 <= i < |mappers| && mappers[i] == m;
          assert ds[i].1.Success?;
        }
      }
    }
  }

  /** The output's keys are the class names, each once, where it first occurs. */
  lemma CollectKeys(inf: Inflector, resolver: Resolver, mappers: seq<Mapper>)
    requires Gather(Describe(inf, resolver, mappers)).Success?
    ensures Keys(Gather(Describe(inf, resolver, mappers)).value) == Dedup(ClassNames(inf, mappers))
  {
    var ds := Describe(inf, resolver, mappers);
    GatherFailsIff(ds);
    GatherContents(ds);
    SuccessesKeys(ds);
    PutAllKeys(Successes(ds));
    DescribeKeys(inf, resolver, mappers);
  }

  /** Under a name that several outcomes share, a successful gathering holds the
      last of them: a later assignment overwrites an earlier one's entry. */
  lemma GatherLastWins(ds: ODict<Result<ClassInfo>>, i: nat)
    requires Gather(ds).Success?
    requires i < |ds|
    requires forall j :: i < j < |ds| ==> ds[j].0 != ds[i].0
    ensures HasKey(Gather(ds).value, ds[i].0) && ds[i].1 == Success(Get(Gather(ds).value, ds[i].0))
  {
    GatherFailsIff(ds);
    GatherContents(ds);
    SuccessesAll(ds);
    PutAllLastWins(Successes(ds), i);
  }

  /** Under a class name that several classes share, the output holds the
      description of the last of them: a later class overwrites an earlier
      one's entry. */
  lemma CollectLastWins(inf: Inflector, resolver: Resolver, mappers: seq<Mapper>, i: nat)
    requires Gather(Describe(inf, resolver, mappers)).Success?
    requires i < |mappers|
    requires forall j :: i < j < |mappers| ==> ClassName(inf, mappers[j]) != ClassName(inf, mappers[i])
    ensures var d, k := Gather(Describe(inf, resolver, mappers)).value, ClassName(inf, mappers[i]);
      HasKey(d, k) && Build(inf, resolver, mappers[i]) == Success(Get(d, k))
  {
    var ds := Describe(inf, resolver, mappers);
    assert forall j :: i < j < |ds| ==> ds[j].0 != ds[i].0;
    GatherLastWins(ds, i);
  }

  function TableName(m: Mapper): string
  {
    m.localTable.fullname
  }

  /** What `main` dumps: the classes sorted by their table's full name,
      collected with the default type mapping. */
  function Generate(inf: Inflector, mappers: seq<Mapper>): Result<ODict<ClassInfo>>
  {
    Gather(Describe(inf, NewResolver(map[]), SortBy(mappers, TableName)))
  }

  /** With distinct names, a successful run holds every description once, in
      the order of the outcomes. */
  lemma GatherDistinct(ds: ODict<Result<ClassInfo>>)
    requires Gather(ds).Success?
    requires NoDup(Keys(ds))
    ensures AllSucceed(ds)
    ensures |Gather(ds).value| == |ds|
    ensures forall i :: 0 <= i < |ds| ==> Gather(ds).value[i] == (ds[i].0, ds[i].1.value)
  {
    GatherFailsIff(ds);
    GatherContents(ds);
    SuccessesKeys(ds);
    PutAllDistinct(Successes(ds));
    SuccessesAll(ds);
  }

  /** Each description records the full name of its class's table. */
  lemma DescribeTables(inf: Inflector, resolver: Resolver, mappers: seq<Mapper>)
    requires AllSucceed(Describe(inf, resolver, mappers))
    ensures forall i :: 0 <= i < |mappers| ==>
      Describe(inf, resolver, mappers)[i].1.value.table == mappers[i].localTable.fullname
  {
    forall i | 0 <= i < |mappers|
      ensures Describe(inf, resolver, mappers)[i].1.value.table == mappers[i].localTable.fullname
    {
      assert Describe(inf, resolver, mappers)[i].1.Success?;
      BuildTopLevel(inf, resolver, mappers[i]);
    }
  }

  /** The outcomes carry the class names as their keys. */
  lemma DescribeKeys(inf: Inflector, resolver: Resolver, mappers: seq<Mapper>)
    ensures Keys(Describe(inf, resolver, mappers)) == ClassNames(inf, mappers)
  {
  }

  lemma SortedByTable(mappers: seq<Mapper>)
    ensures |SortBy(mappers, TableName)| == |mappers|
  {
    var s := SortBy(mappers, TableName);
    assert |s| == |multiset(s)| == |multiset(mappers)| == |mappers|;
  }

  /** When the class names are distinct, the output holds one description per
      class, in ascending order of table full name. */
  lemma GenerateOrder(inf: Inflector, mappers: seq<Mapper>)
    requires NoDup(ClassNames(inf, mappers))
    requires Generate(inf, mappers).Success?
    ensures |Generate(inf, mappers).value| == |mappers|
    ensures var d, s := Generate(inf, mappers).value, SortBy(mappers, TableName);
      |d| == |s| &&
      forall i :: 0 <= i < |d| ==>
        d[i].0 == ClassName(inf, s[i]) && Build(inf, NewResolver(map[]), s[i]) == Success(d[i].1)
    ensures var d := Generate(inf, mappers).value;
      forall i, j :: 0 <= i < j < |d| ==> StrLe(d[i].1.table, d[j].1.table)
  {
    var resolver := NewResolver(map[]);
    var s := SortBy(mappers, TableName);
    var ds := Describe(inf, resolver, s);
    SortedByTable(mappers);
    ImagePermutation(mappers, s, m => ClassName(inf, m));
    DescribeKeys(inf, resolver, s);
    GatherDistinct(ds);
    DescribeTables(inf, resolver, s);
  }

  /** When two classes share a class name, the later one overwrites the
      earlier one's entry in place and the output describes fewer classes than
      were reflected. */
  lemma GenerateDropsRepeated(inf: Inflector, mappers: seq<Mapper>)
    requires !NoDup(ClassNames(inf, mappers))
    requires Generate(inf, mappers).Success?
    ensures |Generate(inf, mappers).value| < |mappers|
  {
    var resolver := NewResolver(map[]);
    var s := SortBy(mappers, TableName);
    SortedByTable(mappers);
    if NoDup(ClassNames(inf, s)) {
      ImagePermutation(s, mappers, m => ClassName(inf, m));
      assert false;
    }
    CollectKeys(inf, resolver, s);
    DedupShorter(ClassNames(inf, s));
  }
}
