/** JSON and YAML documents as plain values, shared by every module that reads or writes them. */
module Json {

  datatype Value =
    | Null
    | Bool(b: bool)
    | Num(r: real)
    | Str(s: string)
    | Arr(elems: seq<Value>)
    | Obj(fields: map<string, Value>)
  {
    predicate Scalar() {
      !Arr? && !Obj?
    }

    /** Python's truth value of the document. */
    predicate Truthy() {
      match this
      case Null => false
      case Bool(b) => b
      case Num(r) => r != 0.0
      case Str(s) => s != ""
      case Arr(xs) => xs != []
      case Obj(m) => m != map[]
    }
  }

  /** `m.get(key)`, with a missing key read as false. */
  predicate Flag(m: map<string, Value>, key: string) {
    key in m && m[key].Truthy()
  }
}
