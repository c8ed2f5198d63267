/** The abstract syntax of path queries. */
module Query {
  import opened Wrappers

  datatype FieldRef = Name(name: string) | Id(id: nat)
  datatype MapKey = KeyText(text: string) | KeyInt(n: int)

  datatype Step =
    | Field(ref: FieldRef)
    | Index(index: nat)
    | All
    | MapKey(key: MapKey)
    | MapKeys
    | UnionType

  datatype Query = Query(schema: Option<string>, root: string, steps: seq<Step>)
}
