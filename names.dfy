/** The name engine: `normalize_name`, the two relationship namers and
    `classname_for_table` (bin/gen.py:112-149). */
module Names {
  import opened Seqs
  import opened Strings
  import opened Schema

  /** The three functions of the English inflection library. The model does not
      look inside them: every property that depends on them says so in its
      `requires`. */
  datatype Inflector = Inflector(
    singularize: string -> string,
    pluralize: string -> string,
    camelize: string -> string)

  /** The foreign-key column marker and the dataset's namespace prefix, both
      deleted from every fragment. */
  const IdMarker: string := "_id"
  const Namespace: string := "pokemon_v2_"

  /** One fragment after clean-up: every "_id" cut out, then every
      "pokemon_v2_" cut out, then singularized. */
  function Clean(inf: Inflector, fragment: string): string
  {
    inf.singularize(DeleteAll(DeleteAll(fragment, IdMarker), Namespace))
  }

  /** The tokens in the order the normalizer visits them: each cleaned fragment
      split on "_", fragment after fragment. */
  function Tokens(inf: Inflector, frags: seq<string>): (ts: seq<string>)
    ensures forall i :: 0 <= i < |ts| ==> Sep !in ts[i]
    ensures |frags| > 0 ==> |ts| > 0
  {
    if |frags| == 0 then []
    else Tokens(inf, frags[..|frags| - 1]) + Split(Clean(inf, frags[|frags| - 1]))
  }

  lemma {:induction false} TokensAppend(inf: Inflector, a: seq<string>, b: seq<string>)
    ensures Tokens(inf, a + b) == Tokens(inf, a) + Tokens(inf, b)
  {
    if |b| > 0 {
      var b' := b[..|b| - 1];
      assert (a + b)[..|a + b| - 1] == a + b';
      TokensAppend(inf, a, b');
    } else {
      assert a + b == a;
    }
  }

  /** What `normalize_name` returns: each token kept where it first occurs,
      joined with "_". */
  function Normalized(inf: Inflector, frags: seq<string>): string
  {
    Join(Dedup(Tokens(inf, frags)))
  }

  lemma TokensTwo(inf: Inflector, x: string, y: string)
    ensures Tokens(inf, [x, y]) == Split(Clean(inf, x)) + Split(Clean(inf, y))
  {
    assert [x, y][..1] == [x];
    assert [x][..0] == [];
    assert Tokens(inf, [x]) == Split(Clean(inf, x));
  }

  lemma TokensStep(inf: Inflector, frags: seq<string>, i: nat)
    requires i < |frags|
    ensures Tokens(inf, frags[..i + 1]) == Tokens(inf, frags[..i]) + Split(Clean(inf, frags[i]))
  {
    assert frags[..i + 1][..i] == frags[..i];
  }

  /** `normalize_name`, with its list `r` of emitted tokens and its set
      `arrived` of tokens already seen. */
  method NormalizeName(inf: Inflector, frags: seq<string>) returns (name: string)
    ensures name == Normalized(inf, frags)
  {
    var r: seq<string> := [];
    var arrived: set<string> := {};
    for i := 0 to |frags|
      invariant r == Dedup(Tokens(inf, frags[..i]))
      invariant forall t :: t in arrived <==> t in r
    {
      var pieces := Split(Clean(inf, frags[i]));
      ghost var seen := Tokens(inf, frags[..i]);
      assert seen + pieces[..0] == seen;
      for j := 0 to |pieces|
        invariant r == Dedup(seen + pieces[..j])
        invariant forall t :: t in arrived <==> t in r
      {
        AppendSlice(seen, pieces, j);
        DedupSnoc(seen + pieces[..j], pieces[j]);
        if pieces[j] !in arrived {
          arrived := arrived + {pieces[j]};
          r := r + [pieces[j]];
        }
      }
      assert pieces[..|pieces|] == pieces;
      TokensStep(inf, frags, i);
    }
    assert frags[..|frags|] == frags;
    name := Join(r);
  }

  /** The tokens of the normalized name are exactly the surviving tokens; with no
      fragments at all the name is empty. */
  lemma NormalizedTokens(inf: Inflector, frags: seq<string>)
    ensures |frags| == 0 ==> Normalized(inf, frags) == ""
    ensures |frags| > 0 ==> Split(Normalized(inf, frags)) == Dedup(Tokens(inf, frags))
  {
    if |frags| > 0 {
      var ts := Tokens(inf, frags);
      var d := Dedup(ts);
      assert ts[0] in d;
      forall i | 0 <= i < |d|
        ensures Sep !in d[i]
      {
        assert d[i] in ts;
      }
      SplitJoin(d);
    }
  }

  /** `normalize_name` emits every "_"-separated token at most once. */
  lemma NormalizedTokensDistinct(inf: Inflector, frags: seq<string>)
    ensures NoDup(Split(Normalized(inf, frags)))
  {
    NormalizedTokens(inf, frags);
  }

  /** A token appears in the name exactly when some cleaned fragment yields it,
      and the tokens keep the order of their first occurrence across all
      fragments. */
  lemma NormalizedTokenOrder(inf: Inflector, frags: seq<string>)
    requires |frags| > 0
    ensures forall t :: t in Split(Normalized(inf, frags)) <==> t in Tokens(inf, frags)
    ensures var ns, ts := Split(Normalized(inf, frags)), Tokens(inf, frags);
      forall i, j :: 0 <= i < j < |ns| ==> FirstIndex(ts, ns[i]) < FirstIndex(ts, ns[j])
  {
    NormalizedTokens(inf, frags);
    DedupOrder(Tokens(inf, frags));
  }

  /** The first token of the name is the first token of the first fragment. */
  lemma TokensOne(inf: Inflector, x: string)
    ensures Tokens(inf, [x]) == Split(Clean(inf, x))
  {
    assert [x][..0] == [];
  }

  lemma TokensHead(inf: Inflector, frags: seq<string>)
    requires |frags| > 0
    ensures Tokens(inf, frags) == Split(Clean(inf, frags[0])) + Tokens(inf, frags[1..])
  {
    TokensAppend(inf, [frags[0]], frags[1..]);
    HeadTail(frags);
    TokensOne(inf, frags[0]);
  }

  lemma NormalizedHead(inf: Inflector, frags: seq<string>)
    requires |frags| > 0
    ensures Split(Normalized(inf, frags))[0] == Split(Clean(inf, frags[0]))[0]
  {
    NormalizedTokens(inf, frags);
    var ts := Tokens(inf, frags);
    TokensHead(inf, frags);
    assert ts[0] == Split(Clean(inf, frags[0]))[0];
    DedupHead(ts);
  }

  /** Normalizing a name again changes nothing, provided the name contains
      neither deleted marker and the inflection library leaves it as it is. */
  lemma NormalizedIdempotent(inf: Inflector, frags: seq<string>)
    requires !Contains(Normalized(inf, frags), IdMarker)
    requires !Contains(Normalized(inf, frags), Namespace)
    requires inf.singularize(Normalized(inf, frags)) == Normalized(inf, frags)
    ensures Normalized(inf, [Normalized(inf, frags)]) == Normalized(inf, frags)
  {
    var n := Normalized(inf, frags);
    DeleteAllAbsent(n, IdMarker);
    DeleteAllAbsent(n, Namespace);
    assert Clean(inf, n) == n;
    assert [n][..0] == [];
    assert Tokens(inf, [n]) == Split(n);
    NormalizedTokens(inf, frags);
    NormalizedTokensDistinct(inf, frags);
    DedupOfNoDup(Split(n));
    JoinSplit(n);
  }

  /** Names of the tables of constraint columns that lie in neither `local` nor
      `referred`, in constraint order. */
  function IntermediateTables(cons: seq<Column>, local: Table, referred: Table): (r: seq<string>)
    ensures |r| <= |cons|
    ensures forall x :: x in r <==>
      exists c :: c in cons && c.table != local && c.table != referred && x == c.table.name
  {
    if |cons| == 0 then []
    else
      var c := cons[0];
      assert forall c' :: c' in cons <==> c' == c || c' in cons[1..];
      (if c.table != local && c.table != referred then [c.table.name] else [])
        + IntermediateTables(cons[1..], local, referred)
  }

  /** Names of the constraint columns that lie in `t`, in constraint order. */
  function ColumnNamesIn(cons: seq<Column>, t: Table): (r: seq<string>)
    ensures |r| <= |cons|
    ensures forall x :: x in r <==> exists c :: c in cons && c.table == t && x == c.name
  {
    if |cons| == 0 then []
    else
      var c := cons[0];
      assert forall c' :: c' in cons <==> c' == c || c' in cons[1..];
      (if c.table == t then [c.name] else []) + ColumnNamesIn(cons[1..], t)
  }

  /** A constraint column lies either in one of the two classes' tables or in an
      intermediate one, never both, so the two selections together are no longer
      than the constraint. */
  lemma {:induction false} SelectionsDisjoint(cons: seq<Column>, local: Table, referred: Table, t: Table)
    requires t == local || t == referred
    ensures |IntermediateTables(cons, local, referred)| + |ColumnNamesIn(cons, t)| <= |cons|
  {
    if |cons| > 0 {
      SelectionsDisjoint(cons[1..], local, referred, t);
    }
  }

  /** The scalar chain: the referred class name, then the intermediate tables,
      then the constraint columns in the local table. */
  function ScalarChain(local: MappedClass, referred: MappedClass, cons: seq<Column>): (chain: seq<string>)
    ensures 1 <= |chain| <= |cons| + 1
    ensures chain[0] == referred.name
  {
    SelectionsDisjoint(cons, local.table, referred.table, local.table);
    [referred.name]
      + IntermediateTables(cons, local.table, referred.table)
      + ColumnNamesIn(cons, local.table)
  }

  /** The collection chain: the intermediate tables, then the constraint columns
      in the referred table, then the referred class name. */
  function CollectionChain(local: MappedClass, referred: MappedClass, cons: seq<Column>): (chain: seq<string>)
    ensures 1 <= |chain| <= |cons| + 1
    ensures chain[|chain| - 1] == referred.name
  {
    SelectionsDisjoint(cons, local.table, referred.table, referred.table);
    IntermediateTables(cons, local.table, referred.table)
      + ColumnNamesIn(cons, referred.table)
      + [referred.name]
  }

  /** `name_for_scalar_relationship`: the normalized scalar chain, not pluralized.
      Its tokens are distinct and it starts with the referred class's first token. */
  function NameForScalar(inf: Inflector, local: MappedClass, referred: MappedClass, cons: seq<Column>): (name: string)
    ensures NoDup(Split(name))
    ensures Split(name)[0] == Split(Clean(inf, referred.name))[0]
  {
    var chain := ScalarChain(local, referred, cons);
    NormalizedTokensDistinct(inf, chain);
    NormalizedHead(inf, chain);
    Normalized(inf, chain)
  }

  /** `name_for_collection_relationship`: the normalized collection chain,
      pluralized once. */
  function NameForCollection(inf: Inflector, local: MappedClass, referred: MappedClass, cons: seq<Column>): string
  {
    inf.pluralize(Normalized(inf, CollectionChain(local, referred, cons)))
  }

  /** The collection name is the plural, taken once, of a name whose tokens are
      distinct. */
  lemma CollectionNameDistinct(inf: Inflector, local: MappedClass, referred: MappedClass, cons: seq<Column>)
    ensures exists singular ::
      && NameForCollection(inf, local, referred, cons) == inf.pluralize(singular)
      && NoDup(Split(singular))
  {
    var singular := Normalized(inf, CollectionChain(local, referred, cons));
    NormalizedTokensDistinct(inf, CollectionChain(local, referred, cons));
    assert NameForCollection(inf, local, referred, cons) == inf.pluralize(singular);
  }

  /** A last fragment that cleans to one token not produced before ends the
      normalized name. */
  lemma NormalizedEndsWithFreshToken(inf: Inflector, earlier: seq<string>, x: string)
    requires Sep !in Clean(inf, x) && Clean(inf, x) !in Tokens(inf, earlier)
    ensures Split(Normalized(inf, earlier + [x])) == Dedup(Tokens(inf, earlier)) + [Clean(inf, x)]
  {
    assert (earlier + [x])[..|earlier|] == earlier;
    SplitPlain(Clean(inf, x));
    DedupSnoc(Tokens(inf, earlier), Clean(inf, x));
    NormalizedTokens(inf, earlier + [x]);
  }

  /** When the referred class name cleans to one token that no earlier link of
      the collection chain produced, that token ends the name before
      pluralization. */
  lemma CollectionNameEndsWithReferred(inf: Inflector, local: MappedClass, referred: MappedClass, cons: seq<Column>)
    requires Sep !in Clean(inf, referred.name)
    requires Clean(inf, referred.name) !in
      Tokens(inf, IntermediateTables(cons, local.table, referred.table) + ColumnNamesIn(cons, referred.table))
    ensures var ns := Split(Normalized(inf, CollectionChain(local, referred, cons)));
      ns[|ns| - 1] == Clean(inf, referred.name)
  {
    var earlier := IntermediateTables(cons, local.table, referred.table) + ColumnNamesIn(cons, referred.table);
    assert CollectionChain(local, referred, cons) == earlier + [referred.name];
    NormalizedEndsWithFreshToken(inf, earlier, referred.name);
    LastOfSnoc(Dedup(Tokens(inf, earlier)), Clean(inf, referred.name));
  }

  /** `classname_for_table`: the table name normalized as a one-fragment chain,
      then camel-cased. */
  function ClassnameForTable(inf: Inflector, tablename: string): string
  {
    inf.camelize(Normalized(inf, [tablename]))
  }

  /** Class names depend only on the cleaned table name: tables whose names differ
      only by the deleted markers get the same class name. */
  lemma ClassnameDependsOnClean(inf: Inflector, a: string, b: string)
    requires Clean(inf, a) == Clean(inf, b)
    ensures ClassnameForTable(inf, a) == ClassnameForTable(inf, b)
  {
    assert [a][..0] == [] && [b][..0] == [];
  }
}
