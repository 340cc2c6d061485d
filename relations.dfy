/** The per-property parts of the collector (bin/gen.py:13-14, 33-58, 62-92):
    the `from`/`to` records of a relationship, its entry and a column's entry. */
module Relations {
  import opened Schema
  import opened Names
  import opened Resolving

  /** `_merge(*xss)`: the parts that are present, in argument order. */
  function Merge<T(!new)>(xs: seq<Option<T>>): (r: seq<T>)
    ensures |r| <= |xs|
    ensures forall v :: v in r <==> Some(v) in xs
  {
    if |xs| == 0 then []
    else
      var m := Merge(xs[..|xs| - 1]);
      assert xs == xs[..|xs| - 1] + [xs[|xs| - 1]];
      match xs[|xs| - 1]
      case None => m
      case Some(v) => m + [v]
  }

  /** Merging a concatenation merges each half and concatenates the results. */
  lemma {:induction false} MergeAppend<T(!new)>(a: seq<Option<T>>, b: seq<Option<T>>)
    ensures Merge(a + b) == Merge(a) + Merge(b)
    decreases |b|
  {
    if |b| == 0 {
      assert a + b == a;
    } else {
      var b' := b[..|b| - 1];
      assert (a + b)[..|a + b| - 1] == a + b';
      assert (a + b)[|a + b| - 1] == b[|b| - 1];
      MergeAppend(a, b');
      match b[|b| - 1]
      case None =>
      case Some(v) =>
        assert Merge(a + b) == Merge(a + b') + [v];
        assert Merge(b) == Merge(b') + [v];
    }
  }

  /** Two parts merge to the present ones, the first ahead of the second. */
  lemma MergeTwo<T(!new)>(x: Option<T>, y: Option<T>)
    ensures Merge([x, y]) ==
      (if x.Some? then [x.value] else []) + (if y.Some? then [y.value] else [])
  {
    assert [x, y][..1] == [x];
    assert [x][..0] == [];
  }

  const Dot: char := '.'

  /** `"{table}.{column}"`, the column's name qualified by its table's full name. */
  function QualifiedName(c: Column): (q: string)
    ensures |q| == |c.table.fullname| + 1 + |c.name|
    ensures q[..|c.table.fullname|] == c.table.fullname
    ensures q[|c.table.fullname|] == Dot
    ensures q[|c.table.fullname| + 1..] == c.name
  {
    c.table.fullname + [Dot] + c.name
  }

  /** One `{"from": ..., "to": ...}` record. */
  datatype Relation = Relation(fromColumn: string, toColumn: string)

  /** The primary pair read from the parent's side: the column of the parent
      class's table is the `from` end; when neither or both columns are in it,
      a column in the parent table (or none) keeps the library's order only
      if it comes first. */
  function OrientPrimary(parent: Table, pair: Pair): (r: (Column, Column))
    ensures multiset{r.0, r.1} == multiset{pair.first, pair.second}
    ensures pair.first.table == parent || pair.second.table == parent ==> r.0.table == parent
    ensures r.0 == pair.first <== pair.first.table == parent
    ensures r.0 == pair.second <== pair.first.table != parent
  {
    if parent == pair.first.table then (pair.first, pair.second) else (pair.second, pair.first)
  }

  /** The secondary pair read towards the target: the column of the target
      table is the `to` end, the library's order kept when the second column is
      in the target table and reversed otherwise. */
  function OrientSecondary(target: Table, pair: Pair): (r: (Column, Column))
    ensures multiset{r.0, r.1} == multiset{pair.first, pair.second}
    ensures pair.first.table == target || pair.second.table == target ==> r.1.table == target
    ensures r.1 == pair.second <== pair.second.table == target
    ensures r.1 == pair.first <== pair.second.table != target
  {
    if target == pair.second.table then (pair.first, pair.second) else (pair.second, pair.first)
  }

  function RelationOf(ends: (Column, Column)): Relation
  {
    Relation(QualifiedName(ends.0), QualifiedName(ends.1))
  }

  /** `_collect_primary_relation`: nothing for a relationship without
      synchronize pairs, the oriented record for exactly one, a failure for
      several. */
  function PrimaryRelation(parent: Table, pairs: seq<Pair>): (r: Result<Option<Relation>>)
    ensures r.Failure? <==> |pairs| > 1
    ensures r.Failure? ==> r.message == MultiKeysNotSupported
    ensures r.Success? ==> (r.value.Some? <==> |pairs| == 1)
    ensures |pairs| == 1 ==> r == Success(Some(RelationOf(OrientPrimary(parent, pairs[0]))))
  {
    if |pairs| == 0 then Success(None)
    else if |pairs| != 1 then Failure(MultiKeysNotSupported)
    else Success(Some(RelationOf(OrientPrimary(parent, pairs[0]))))
  }

  /** `_collect_secondary_relation`: the same for the secondary pairs of a
      relationship through an association table, oriented towards the target. */
  function SecondaryRelation(target: Table, pairs: seq<Pair>): (r: Result<Option<Relation>>)
    ensures r.Failure? <==> |pairs| > 1
    ensures r.Failure? ==> r.message == MultiKeysNotSupported
    ensures r.Success? ==> (r.value.Some? <==> |pairs| == 1)
    ensures |pairs| == 1 ==> r == Success(Some(RelationOf(OrientSecondary(target, pairs[0]))))
  {
    if |pairs| == 0 then Success(None)
    else if |pairs| != 1 then Failure(MultiKeysNotSupported)
    else Success(Some(RelationOf(OrientSecondary(target, pairs[0]))))
  }

  /** The entry of one relationship property. */
  datatype RelationshipInfo =
    RelationshipInfo(table: string, clsname: string, direction: string, uselist: bool, relation: seq<Relation>)

  /** The entry of one column property. */
  datatype ColumnInfo = ColumnInfo(typeName: string, nullable: bool)

  /** A property the collector stops on: more than one synchronize pair of
      either kind, or a column property over other than exactly one column. */
  predicate Unsupported(p: Property)
  {
    match p
    case RelProp(_, _, _, _, sync, secondary) => |sync| > 1 || |secondary| > 1
    case ColProp(_, columns) => |columns| != 1
  }

  /** The relationship entry: target table, its class name, the direction's
      name, `uselist`, and the primary record ahead of the secondary one. */
  function RelationshipEntry(inf: Inflector, parent: Table, p: Property): (r: Result<RelationshipInfo>)
    requires p.RelProp?
    ensures r.Failure? <==> Unsupported(p)
    ensures r.Failure? ==> r.message == MultiKeysNotSupported
    ensures r.Success? ==>
      && r.value.table == p.target.fullname
      && r.value.clsname == ClassnameForTable(inf, p.target.fullname)
      && r.value.direction == p.direction.Name()
      && r.value.uselist == p.uselist
      && |r.value.relation| == (if |p.syncPairs| == 1 then 1 else 0) + (if |p.secondaryPairs| == 1 then 1 else 0)
      && (|p.syncPairs| == 1 ==> r.value.relation[0] == RelationOf(OrientPrimary(parent, p.syncPairs[0])))
      && (|p.secondaryPairs| == 1 ==>
            r.value.relation[|r.value.relation| - 1] == RelationOf(OrientSecondary(p.target, p.secondaryPairs[0])))
  {
    var primary := PrimaryRelation(parent, p.syncPairs);
    var secondary := SecondaryRelation(p.target, p.secondaryPairs);
    if primary.Failure? || secondary.Failure? then Failure(MultiKeysNotSupported)
    else
      MergeTwo(primary.value, secondary.value);
      Success(RelationshipInfo(p.target.fullname, ClassnameForTable(inf, p.target.fullname),
                               p.direction.Name(), p.uselist, Merge([primary.value, secondary.value])))
  }

  /** The column entry: the resolved type tag and nullability of the one column. */
  function ColumnEntry(resolver: Resolver, p: Property): (r: Result<ColumnInfo>)
    requires p.ColProp?
    ensures r.Failure? <==> Unsupported(p)
    ensures r.Failure? ==> r.message == MultiKeysNotSupported
    ensures r.Success? ==>
      r.value == ColumnInfo(ResolveType(resolver, p.columns[0]), p.columns[0].nullable)
  {
    if |p.columns| != 1 then Failure(MultiKeysNotSupported)
    else Success(ColumnInfo(ResolveType(resolver, p.columns[0]), p.columns[0].nullable))
  }
}
