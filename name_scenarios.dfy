/** The relationship names the engine gives in the common schema shapes: a plain
    foreign key `<stem>_id` and a pure association table. Each scenario states
    the inflection results it relies on in its `requires`. */
module NameScenarios {
  import opened Seqs
  import opened Strings
  import opened Schema
  import opened Names

  /** A foreign-key column named `<stem>_id` cleans to the singular of its stem. */
  lemma CleanForeignKeyColumn(inf: Inflector, stem: string)
    requires Sep !in stem && !Contains(stem, Namespace)
    ensures Clean(inf, stem + IdMarker) == inf.singularize(stem)
  {
    assert IdMarker[0] == Sep;
    assert stem + IdMarker + "" == stem + IdMarker;
    DeleteAllCutsInside(stem, "", IdMarker);
    assert DeleteAll("", IdMarker) == "";
    assert stem + "" == stem;
    DeleteAllAbsent(stem, Namespace);
  }

  /** Scalar side of a plain foreign key: when the column's stem singularizes to
      the referred class's cleaned name (a column `customer_id` pointing at
      `customers`), the name is that one word, not repeated. */
  lemma ScalarNameOfPlainKey(inf: Inflector, local: MappedClass, referred: MappedClass, fk: Column, stem: string)
    requires local.table != referred.table && fk.table == local.table
    requires fk.name == stem + IdMarker && Sep !in stem && !Contains(stem, Namespace)
    requires Sep !in Clean(inf, referred.name)
    requires inf.singularize(stem) == Clean(inf, referred.name)
    ensures NameForScalar(inf, local, referred, [fk]) == Clean(inf, referred.name)
  {
    var c := Clean(inf, referred.name);
    var chain := ScalarChain(local, referred, [fk]);
    assert chain == [referred.name, fk.name];
    CleanForeignKeyColumn(inf, stem);
    SplitPlain(c);
    TokensTwo(inf, referred.name, fk.name);
    assert Tokens(inf, chain) == [c, c];
    DedupRepeated(c);
    assert Normalized(inf, chain) == Join([c]);
  }

  /** Collection side of the same foreign key, seen from the referenced class
      (`one`, e.g. customers) toward the class holding the column (`many`, e.g.
      orders): the column's stem stays in front of the holder's name, so the
      name is the plural of `<stem>_<holder>` ("customer_orders"). */
  lemma CollectionNameOfPlainKey(inf: Inflector, one: MappedClass, many: MappedClass, fk: Column, stem: string)
    requires one.table != many.table && fk.table == many.table
    requires fk.name == stem + IdMarker && Sep !in stem && !Contains(stem, Namespace)
    requires Sep !in inf.singularize(stem) && Sep !in Clean(inf, many.name)
    requires inf.singularize(stem) != Clean(inf, many.name)
    ensures NameForCollection(inf, one, many, [fk])
      == inf.pluralize(inf.singularize(stem) + [Sep] + Clean(inf, many.name))
  {
    var s, m := inf.singularize(stem), Clean(inf, many.name);
    assert CollectionChain(one, many, [fk]) == [fk.name, many.name];
    CleanForeignKeyColumn(inf, stem);
    SplitPlain(s);
    SplitPlain(m);
    TokensTwo(inf, fk.name, many.name);
    DedupOfNoDup([s, m]);
    assert [s, m][1..] == [m];
    assert Join([s, m]) == s + [Sep] + m;
  }

  /** Collection side through a pure association table (`student_courses`
      between `students` and `courses`): the association table's name comes
      first, and when it already contains the far class's cleaned name as one of
      its distinct tokens, the name is the plural of the association table's
      cleaned name ("student_courses"). */
  lemma CollectionNameThroughAssociation(inf: Inflector, local: MappedClass, referred: MappedClass, link: Column)
    requires link.table != local.table && link.table != referred.table
    requires NoDup(Split(Clean(inf, link.table.name)))
    requires Clean(inf, referred.name) in Split(Clean(inf, link.table.name))
    requires Sep !in Clean(inf, referred.name)
    ensures NameForCollection(inf, local, referred, [link]) == inf.pluralize(Clean(inf, link.table.name))
  {
    var a, r := Clean(inf, link.table.name), Clean(inf, referred.name);
    assert CollectionChain(local, referred, [link]) == [link.table.name, referred.name];
    SplitPlain(r);
    TokensTwo(inf, link.table.name, referred.name);
    DedupSnoc(Split(a), r);
    DedupOfNoDup(Split(a));
    JoinSplit(a);
  }

  /** A bare `id` fragment (the marker without its separator) is kept as a
      token of its own. */
  lemma NormalizeKeepsBareId(inf: Inflector, x: string, id: string)
    requires [Sep] + id == IdMarker
    requires Sep !in x && x != id
    requires !Contains(x, IdMarker) && !Contains(x, Namespace)
    requires inf.singularize(x) == x && inf.singularize(id) == id
    ensures Normalized(inf, [x, id]) == x + IdMarker
  {
    assert Clean(inf, x) == x by {
      DeleteAllAbsent(x, IdMarker);
      DeleteAllAbsent(x, Namespace);
    }
    assert Clean(inf, id) == id by {
      assert |id| < |IdMarker| && |id| < |Namespace|;
    }
    assert Tokens(inf, [x, id]) == [x, id] by {
      SplitPlain(x);
      assert id == IdMarker[1..];
      SplitPlain(id);
      TokensTwo(inf, x, id);
    }
    DedupOfNoDup([x, id]);
    assert Join([x, id]) == x + [Sep] + id by {
      assert [x, id][1..] == [id];
    }
  }

  /** Normalizing twice can differ from normalizing once: the chain `[x, "id"]`
      normalizes to `x_id`, and normalizing `x_id` again cuts its "_id". So
      normalization is idempotent only under the conditions of
      `NormalizedIdempotent`. */
  lemma NormalizeTwiceCutsJoinedMarker(inf: Inflector, x: string, id: string)
    requires [Sep] + id == IdMarker
    requires Sep !in x && x != id
    requires !Contains(x, IdMarker) && !Contains(x, Namespace)
    requires inf.singularize(x) == x && inf.singularize(id) == id
    ensures Normalized(inf, [x, id]) == x + IdMarker
    ensures Normalized(inf, [Normalized(inf, [x, id])]) == x
  {
    NormalizeKeepsBareId(inf, x, id);
    CleanForeignKeyColumn(inf, x);
    assert [x + IdMarker][..0] == [];
    SplitPlain(x);
    assert Tokens(inf, [x + IdMarker]) == [x];
    DedupOfNoDup([x]);
  }

  /** Class names are not one-to-one: a table `<stem>_id` gets the same class
      name as the table `<stem>`, because the marker is cut before camel-casing. */
  lemma ClassnameOfKeyColumnTable(inf: Inflector, stem: string)
    requires Sep !in stem && !Contains(stem, Namespace)
    ensures ClassnameForTable(inf, stem + IdMarker) == ClassnameForTable(inf, stem)
  {
    CleanForeignKeyColumn(inf, stem);
    assert IdMarker[0] == Sep;
    DeleteAllAbsent(stem, IdMarker);
    DeleteAllAbsent(stem, Namespace);
    ClassnameDependsOnClean(inf, stem + IdMarker, stem);
  }
}
