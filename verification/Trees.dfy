/** Documents held as nested dictionaries and lists; dictionaries compare by content. */
module Trees {
  datatype Scalar = Null | Bool(b: bool) | Int(i: int) | Real(x: real) | Text(s: string)

  datatype Tree = Leaf(scalar: Scalar) | Lst(items: seq<Tree>) | Dict(entries: map<string, Tree>)

  const NONE: Tree := Leaf(Null)
}
