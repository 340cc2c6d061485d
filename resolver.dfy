/** `Resolver` (bin/gen.py:95-109): the canonical type tag of a column. */
module Resolving {
  import opened Schema

  /** The tag every primary-key column gets. */
  const IdTag: string := "ID"

  /** The class-level default mapping: `int` to "Integer", `str` to "String". */
  const DefaultMapping: map<NativeType, string> :=
    map[NativeType("int") := "Integer", NativeType("str") := "String"]

  datatype Resolver = Resolver(mapping: map<NativeType, string>)

  /** `Resolver(mapping)`: a missing or empty mapping falls back to the default
      one, as Python's `mapping or default` does. */
  function NewResolver(mapping: map<NativeType, string>): (r: Resolver)
    ensures |mapping| > 0 ==> r.mapping == mapping
    ensures |mapping| == 0 ==> r.mapping == DefaultMapping
  {
    if |mapping| > 0 then Resolver(mapping) else Resolver(DefaultMapping)
  }

  /** `resolve_type`: "ID" for a primary key whatever its type; otherwise the
      mapped tag of its native type; otherwise, for a type the mapping does not
      know, the type's own name. Total: no column is rejected. */
  function ResolveType(resolver: Resolver, c: Column): (tag: string)
    ensures c.primaryKey ==> tag == IdTag
    ensures !c.primaryKey && c.nativeType in resolver.mapping ==> tag == resolver.mapping[c.nativeType]
    ensures !c.primaryKey && c.nativeType !in resolver.mapping ==> tag == c.nativeType.name
  {
    if c.primaryKey then IdTag
    else if c.nativeType in resolver.mapping then resolver.mapping[c.nativeType]
    else c.nativeType.name
  }

  /** The tag is never empty when the mapping holds no empty tag and the type has
      a name: an unmapped type still gets a usable tag. */
  lemma ResolveTypeNonEmpty(resolver: Resolver, c: Column)
    requires forall t :: t in resolver.mapping ==> resolver.mapping[t] != ""
    requires c.nativeType.name != ""
    ensures ResolveType(resolver, c) != ""
  {
  }
}
