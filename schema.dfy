/** The reflected metadata the generator reads: tables, columns, the mapped
    classes and their properties, as plain values. */
module Schema {

  /** A table: its bare name and its (possibly schema-qualified) full name. */
  datatype Table = Table(name: string, fullname: string)

  /** A column's native type, known here only by the name of the host-language
      type it maps to (`int`, `str`, ...). */
  datatype NativeType = NativeType(name: string)

  datatype Column = Column(table: Table, name: string, nativeType: NativeType, nullable: bool, primaryKey: bool)

  /** A mapped class: its class name and its backing table. */
  datatype MappedClass = MappedClass(name: string, table: Table)

  /** Relationship directions, named as the mapping library names them. */
  datatype Direction = OneToMany | ManyToOne | ManyToMany
  {
    function Name(): string
    {
      match this
      case OneToMany => "ONETOMANY"
      case ManyToOne => "MANYTOONE"
      case ManyToMany => "MANYTOMANY"
    }
  }

  /** One synchronize pair of a relationship: two columns, in the library's order. */
  datatype Pair = Pair(first: Column, second: Column)

  /** A mapped property: a relationship (it has a direction) or a column property. */
  datatype Property =
    | RelProp(key: string, target: Table, direction: Direction, uselist: bool,
              syncPairs: seq<Pair>, secondaryPairs: seq<Pair>)
    | ColProp(key: string, columns: seq<Column>)

  /** A class mapping: the backing table and the properties in the mapper's order. */
  datatype Mapper = Mapper(localTable: Table, properties: seq<Property>)

  /** A part that may be absent; Python's empty list in that role is `None`. */
  datatype Option<T> = None | Some(value: T)

  /** Either a value or the message of the assertion that stopped the run. */
  datatype Result<T> = Success(value: T) | Failure(message: string)

  const MultiKeysNotSupported: string := "multi keys are not supported"
}
