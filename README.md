# Schema description generator

A model of the core of `bin/gen.py`. It is a generator that reflects a relational
database into mapped classes and then emits, for each class, a nested description. Each
description holds the table's full name, a `relationship` bucket and a `column` bucket:

- the `relationship` bucket has, for each relationship, the target table, the target's
  class name, the direction, `uselist` and the `from`/`to` qualified column names of the
  primary and secondary join;
- the `column` bucket has, for each column property, a type tag and nullability.

The project models the collector, the type resolver and the name engine. The name engine
is `normalize_name` and the two relationship namers that the reflection step calls back,
plus `classname_for_table`. The project proves what these promise:

- the result on every input, including the "multi keys are not supported" failure;
- key order and uniqueness;
- the shape of the names the engine produces.

Modules, one per concern:

- `Seqs`, `Strings`, `Sorting`, `Ordered` model the host-language facilities the generator
  relies on:
  - first-occurrence deduplication;
  - `str.replace(pat, "")`, `split("_")`, `"_".join` and string `<=`;
  - `sorted(..., key=...)` as a stable sort;
  - `OrderedDict`, where assigning an existing key keeps its position.
- `Schema` holds the reflected metadata as values: tables, columns, mapped classes,
  properties, mappers, `Option` and `Result`.
- `Names` holds `normalize_name` (an imperative method proved equal to the function
  `Normalized`), the namers and `classname_for_table`. `NameScenarios` states the names the
  engine produces for the common schema shapes.
- `Resolving` holds `Resolver` and `resolve_type`.
- `Relations` holds `_merge`, the primary and secondary join records, and one property's
  relationship or column entry.
- `Collecting` holds `_collect_from_mapper` and `collect`. Each is an imperative method proved
  equal to a fold (`Build`, and `Gather(Describe(...))`), plus the ordering `main` applies
  (`Generate`).

The inflection library's `singularize`, `pluralize` and `camelize` are not modelled. They
enter as the three fields of an `Inflector` value, and any property that depends on them
states its assumption about them as a `requires`.

Behaviour of `bin/gen.py` worth noting:

- Each fragment has every `"_id"` cut out, wherever it occurs and not only as a suffix. Then
  every `pokemon_v2_` is cut out.
- Normalizing is not idempotent in general. `NormalizeTwiceCutsJoinedMarker` shows a chain
  `[x, "id"]` that normalizes to `x_id` and then to `x`. `NormalizedIdempotent` gives
  sufficient conditions under which it is idempotent.
- For a plain foreign key `orders.customer_id`, the collection name of the reverse side is
  the plural of `customer_order`, because the chain puts the column ahead of the class name
  (`CollectionNameOfPlainKey`). It is not the plural of `order`.
- Class names are not one-to-one. A table `<stem>_id` gets the same class name as `<stem>`
  (`ClassnameOfKeyColumnTable`), and the inflection library and the prefix cut can merge
  others too. The collector assigns by class name, so a later class overwrites an earlier
  one's entry in place (`CollectLastWins`) and the earlier description is lost
  (`GenerateDropsRepeated`). The
  output therefore lists every class in table order only when the class names are distinct
  (`GenerateOrder`).
- The direction names are the mapping library's symbol names (`ONETOMANY`, `MANYTOONE`,
  `MANYTOMANY`).

## Model

| member | source | states |
|---|---|---|
| Relations.Merge | bin/gen.py:13-14 | the result keeps exactly the present parts: a value is in it iff it was passed as a present part, and it is never longer than the input |
| Relations.MergeAppend | bin/gen.py:13-14 | merging a concatenation is the concatenation of the merges, so the present parts keep their order |
| Relations.MergeTwo | bin/gen.py:42-45 | merging the primary and secondary records gives both, one, or neither, in that order |
| Relations.QualifiedName | bin/gen.py:73-74 | `"{table}.{column}"`: the table's full name, one dot, then the column's name, at those exact positions |
| Relations.OrientPrimary | bin/gen.py:67-70 | the two columns are kept as a multiset; the `from` column is the first one when it lies in the parent's table and the second otherwise, so whenever either lies in the parent's table the `from` column does |
| Relations.OrientSecondary | bin/gen.py:83-86 | the same with the roles mirrored: the `to` column is the second one when it lies in the target table, so whenever either lies in the target table the `to` column does |
| Relations.PrimaryRelation | bin/gen.py:62-76 | no pairs gives no record; one pair gives the oriented `from`/`to` record; more than one fails with "multi keys are not supported", and only then |
| Relations.SecondaryRelation | bin/gen.py:78-92 | the same for the secondary pairs, oriented toward the target table |
| Relations.RelationshipEntry | bin/gen.py:35-48 | fails iff a join has several pairs (with the multi-keys message); otherwise it records the target's full name, the target's class name, the direction's name and `uselist`, and holds one relation per single-pair join, primary first and secondary last |
| Relations.ColumnEntry | bin/gen.py:52-58 | fails iff the property does not have exactly one column (with the multi-keys message); otherwise it holds that column's resolved type and nullability |
| Resolving.NewResolver | bin/gen.py:96-99 | a non-empty mapping is used as given; an empty one falls back to the class default |
| Resolving.ResolveType | bin/gen.py:101-109 | a primary key gets "ID" whatever its type; otherwise it gets the mapped tag when the type is mapped, and the type's own name when it is not |
| Resolving.ResolveTypeNonEmpty | bin/gen.py:101-109 | with no empty tag in the mapping and a named type, the tag is never empty |
| Strings.DeleteAll | bin/gen.py:116 | `replace(pat, "")` never lengthens the string |
| Strings.DeleteAllAbsent | bin/gen.py:116 | where the pattern does not occur, nothing is deleted |
| Strings.DeleteAllCutsInside | bin/gen.py:116 | an occurrence is cut out wherever it stands, not only at the end |
| Strings.Split | bin/gen.py:117 | `split("_")` yields at least one piece, and no piece contains the separator |
| Strings.JoinSplit | bin/gen.py:117-121 | joining the pieces of a split with "_" gives the string back |
| Strings.SplitJoin | bin/gen.py:117-121 | splitting a join of separator-free pieces gives the pieces back |
| Sorting.SortBy | bin/gen.py:31 | `sorted(..., key=...)`: a permutation of the input whose keys ascend |
| Sorting.DedupAscending | bin/gen.py:31 | keeping first occurrences of an ascending key list leaves it ascending |
| Ordered.Put | bin/gen.py:25 | assigning a new key appends it; assigning an existing key keeps the key order; the key now maps to the value and every other key keeps its value |
| Ordered.PutAllKeys | bin/gen.py:23-25 | filling an empty dictionary keeps each key once, at its first assignment |
| Ordered.PutAllDistinct | bin/gen.py:23-25 | with distinct keys, filling an empty dictionary reproduces the assignments in order |
| Ordered.PutAllLastWins | bin/gen.py:25 | a key holds the value of its last assignment |
| Names.Tokens | bin/gen.py:115-117 | the tokens the loop visits contain no separator, and a non-empty chain yields at least one |
| Names.NormalizeName | bin/gen.py:112-121 | the loop with its `arrived` set returns the specification `Normalized`: the first occurrences of the cleaned, split tokens, joined with "_" |
| Names.NormalizedTokens | bin/gen.py:112-121 | an empty chain gives ""; otherwise splitting the name gives back exactly the deduplicated tokens |
| Names.NormalizedTokensDistinct | bin/gen.py:118-120 | no token appears twice in a normalized name |
| Names.NormalizedTokenOrder | bin/gen.py:115-121 | a token is in the name iff some fragment yields it, and the tokens keep the order of their first appearance |
| Names.NormalizedHead | bin/gen.py:115-121 | the name starts with the first token of the first fragment |
| Names.NormalizedIdempotent | bin/gen.py:112-121 | normalizing a name again changes nothing when the name contains neither marker and is its own singular |
| Names.NormalizedEndsWithFreshToken | bin/gen.py:115-121 | a last fragment that cleans to one new token ends the name |
| Names.IntermediateTables | bin/gen.py:127-130 | exactly the names of the tables of constraint columns that lie in neither class's table |
| Names.ColumnNamesIn | bin/gen.py:131 | exactly the names of the constraint columns that lie in the given table |
| Names.ScalarChain | bin/gen.py:125-132 | the scalar chain starts with the referred class's name and has at most one other link per constraint column |
| Names.CollectionChain | bin/gen.py:137-144 | the collection chain ends with the referred class's name and has at most one other link per constraint column |
| Names.NameForScalar | bin/gen.py:124-133 | the scalar name has distinct tokens and starts with the referred class's first cleaned token |
| Names.CollectionNameDistinct | bin/gen.py:136-145 | the collection name is the plural, taken once, of a name with distinct tokens |
| Names.CollectionNameEndsWithReferred | bin/gen.py:136-145 | when the referred class cleans to one new token, the name being pluralized ends with it |
| Names.ClassnameDependsOnClean | bin/gen.py:148-149 | tables whose names clean to the same fragment get the same class name |
| NameScenarios.ClassnameOfKeyColumnTable | bin/gen.py:148-149 | a table `<stem>_id` gets the same class name as the table `<stem>`, so class names are not one-to-one |
| NameScenarios.CleanForeignKeyColumn | bin/gen.py:116 | a column `<stem>_id` cleans to the singular of its stem |
| NameScenarios.ScalarNameOfPlainKey | bin/gen.py:124-133 | for a plain foreign key whose stem singularizes to the referred class, the scalar name is that class's cleaned name |
| NameScenarios.CollectionNameOfPlainKey | bin/gen.py:136-145 | the reverse side of the same key is the plural of the stem's singular joined by "_" to the holding class's cleaned name (`customer_orders` for `orders.customer_id`) |
| NameScenarios.CollectionNameThroughAssociation | bin/gen.py:136-145 | through an association table that already names the referred class, the collection name is the plural of the cleaned association table name |
| NameScenarios.NormalizeKeepsBareId | bin/gen.py:112-121 | a bare `id` link survives and is rejoined into `x_id` |
| NameScenarios.NormalizeTwiceCutsJoinedMarker | bin/gen.py:112-121 | normalizing that result again gives `x`, so normalizing is not idempotent |
| Collecting.SortedProperties | bin/gen.py:31 | the properties in ascending key order, as a permutation |
| Collecting.CollectFromMapper | bin/gen.py:28-60 | the loop over the sorted properties returns the specification fold `Build` |
| Collecting.FoldFailsIff | bin/gen.py:28-92 | the fold succeeds iff every property is supported, and a failure carries the multi-keys message |
| Collecting.BuildFailsIff | bin/gen.py:28-60 | a class's description fails iff some property has a multi-pair join or not exactly one column, and then with the multi-keys message |
| Collecting.StepSections | bin/gen.py:33-34 | filing a property keeps the table, adds its bucket's key to the top-level order only on the bucket's first use, and keeps every existing bucket recorded |
| Collecting.StepBuckets | bin/gen.py:33-35 | filing a property assigns its entry in its own bucket, created empty on first use, and leaves the other bucket unchanged |
| Collecting.FoldSections | bin/gen.py:30-51 | the top-level keys are "table" followed by the buckets in order of first use |
| Collecting.FoldRelationships | bin/gen.py:33-48 | the relationship bucket is exactly the relationship entries assigned in order, and it is absent only when there are none |
| Collecting.FoldColumns | bin/gen.py:49-58 | the column bucket is exactly the column entries assigned in order, and it is absent only when there are none |
| Collecting.BuildTopLevel | bin/gen.py:29-31 | the description records its table's full name, "table" is its first key, and no top-level key repeats |
| Collecting.BuildBuckets | bin/gen.py:33-34 | the relationship bucket exists iff the class has a relationship property, and the column bucket iff it has a column property |
| Collecting.BuildRelationshipKeys | bin/gen.py:31-35 | relationship keys are distinct and ascending, and are exactly the keys of the relationship properties |
| Collecting.BuildColumnKeys | bin/gen.py:31-54 | column keys are distinct and ascending, and are exactly the keys of the column properties |
| Collecting.BuildDistinctKeys | bin/gen.py:31-58 | with distinct property keys, each bucket lists one entry per property of its kind, in sorted order |
| Collecting.GatherFailsIff | bin/gen.py:21-26 | gathering succeeds iff every description succeeded, and a failure carries the message of some failed description |
| Collecting.GatherContents | bin/gen.py:21-26 | a successful gathering assigns each description under its class name, in order |
| Collecting.Collect | bin/gen.py:21-26 | the loop over the classes returns the specification `Gather(Describe(...))` |
| Collecting.CollectFailsIff | bin/gen.py:21-26 | collecting succeeds iff every class is supported, and otherwise fails with the multi-keys message |
| Collecting.CollectKeys | bin/gen.py:25 | the output's keys are the class names, each once, at the position of its first occurrence |
| Collecting.GatherLastWins | bin/gen.py:21-26 | under a name several outcomes share, a successful gathering holds the last outcome's description |
| Collecting.CollectLastWins | bin/gen.py:23-25 | under a class name several classes share, the output holds the description of the last of them: a later class overwrites an earlier one's entry |
| Collecting.GatherDistinct | bin/gen.py:21-26 | with distinct class names, the output has one entry per class, in input order |
| Collecting.GenerateOrder | bin/gen.py:161-162 | with distinct class names, entry i is the class name and the description of the i-th class in ascending order of table full name, so every class is described, in that order |
| Collecting.GenerateDropsRepeated | bin/gen.py:21-26 | when two classes share a class name, the output has fewer entries than there are classes |

Definitions without a contract of their own, each the direct model of the cited lines; the
rows above that carry their properties are named beside them:

- `Names.Clean` (bin/gen.py:116): the clean-up of one fragment. See `Strings.DeleteAllCutsInside`, `NameScenarios.CleanForeignKeyColumn` and `Names.NormalizedTokens`.
- `Names.Normalized` (bin/gen.py:112-121): what `normalize_name` returns. See `Names.NormalizeName`, `Names.NormalizedTokens`, `Names.NormalizedTokenOrder` and `Names.NormalizedHead`.
- `Names.NameForCollection` (bin/gen.py:136-145): `name_for_collection_relationship`. See `Names.CollectionNameDistinct`, `Names.CollectionNameEndsWithReferred`, `NameScenarios.CollectionNameOfPlainKey` and `NameScenarios.CollectionNameThroughAssociation`.
- `Names.ClassnameForTable` (bin/gen.py:148-149): `classname_for_table`. See `Names.ClassnameDependsOnClean` and `NameScenarios.ClassnameOfKeyColumnTable`.
- `Collecting.Step`, `Collecting.Fold` and `Collecting.Build` (bin/gen.py:28-60): one property filed, the loop over the sorted properties, and `_collect_from_mapper`'s result. See `Collecting.CollectFromMapper`, `Collecting.StepSections`, `Collecting.StepBuckets`, `Collecting.FoldFailsIff`, `Collecting.FoldSections`, `Collecting.FoldRelationships`, `Collecting.FoldColumns` and the `Collecting.Build...` rows.
- `Collecting.Describe` and `Collecting.Gather` (bin/gen.py:21-26): each class paired with its class name and outcome, and `collect`'s assignments into the output. See `Collecting.Collect`, `Collecting.GatherFailsIff`, `Collecting.GatherContents`, `Collecting.CollectFailsIff`, `Collecting.CollectKeys` and `Collecting.GatherDistinct`.
- `Collecting.Generate` (bin/gen.py:161-162): what `main` dumps. See `Collecting.GenerateOrder` and `Collecting.GenerateDropsRepeated`.

## Left out

- `main`'s database connection, automap reflection and the JSON dump (bin/gen.py:152-171), and the command-line parsing: these are I/O. The reflected classes are the input `mappers`, and the output is the returned value.
- The inflection library (`singularize`, `pluralize`, `camelize`) is code outside this repository. It is a parameter (`Inflector`), and the properties that depend on it state their assumptions about it.
- The logging call in `resolve_type` (bin/gen.py:108) has no effect on the result.
- Resolving.ResolveType: it is total. The source reads the column type's Python type, which the mapping library refuses with `NotImplementedError` for a type that has none, such as the null type of an untyped SQLite column. For a non-key column of such a type the source aborts. The model gives every column type a name and does not model this failure.
- Python type objects: a column's type is represented by the name of its Python type, and the mapping is keyed by that name.
- Table identity: tables are compared by value (name and full name), not by object identity.
- The mapping library's internals (`inspect`, `iterate_properties`, the synchronize pairs) are not modelled. A mapper is given directly as its table and its property list, and a property as its key with its pairs or columns.
- Relations.Merge: it is modelled only for the shape in which `_merge` is called here, where each part is absent or one record. A variadic list of arbitrary truthy or falsy objects is not modelled.
- Exceptions: Python's `AssertionError` is modelled as `Failure` carrying the assertion's message. The partially built dictionary that the exception discards is not modelled.
- Sorting.SortBy: this is an insertion sort, so it is stable like Python's `sorted`. Its contract states sortedness and permutation, not stability.
