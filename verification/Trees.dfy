/** Decoded JSON values. */
module Trees {
  import opened Wrappers

  /** Numbers keep their literal; an object keeps its keys in insertion order. */
  datatype Tree = NullTree | BoolTree(b: bool) | NumTree(literal: string) | StrTree(s: string)
                | ArrTree(items: seq<Tree>) | ObjTree(fields: seq<Field>)

  datatype Field = Field(key: string, value: Tree)

  /** The value of a key. */
  function Get(fields: seq<Field>, key: string): Option<Tree> {
    if fields == [] then None
    else if fields[0].key == key then Some(fields[0].value)
    else Get(fields[1..], key)
  }

  /** Sets a key: its value is replaced in place, or it is added last. */
  function SetField(fields: seq<Field>, key: string, value: Tree): seq<Field> {
    if fields == [] then [Field(key, value)]
    else if fields[0].key == key then [Field(key, value)] + fields[1..]
    else [fields[0]] + SetField(fields[1..], key, value)
  }

  /** An array's elements, or the one value that is not an array. */
  function Elements(t: Tree): seq<Tree> {
    if t.ArrTree? then t.items else [t]
  }

  /** The values of a field in t: in an array, those of its items at any depth, an array value counting as its elements.
      */
  function Lookup(step: string, t: Tree): seq<Tree> {
    match t
    case ArrTree(items) => LookupItems(step, items)
    case ObjTree(fields) =>
      (match Get(fields, step)
       case None => []
       case Some(v) => Elements(v))
    case _ => []
  }

  function LookupItems(step: string, items: seq<Tree>): seq<Tree> {
    if items == [] then [] else Lookup(step, items[0]) + LookupItems(step, items[1..])
  }
}
