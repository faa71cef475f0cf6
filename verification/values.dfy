/** Python values as the system passes them around: configuration entries,
    RPC arguments, exception fields and YAML scalars. Floating point numbers
    are not modelled; objects the model does not look inside are `VObj`
    carrying their `str()` rendering. */
module Values {
  import opened OrderedMaps

  datatype Value =
    | VNone
    | VBool(b: bool)
    | VInt(i: int)
    | VStr(s: string)
    | VList(items: seq<Value>)
    | VDict(entries: OMap<string, Value>)
    | VObj(repr: string)

  /** Python truth testing: `None`, `False`, `0`, and empty strings, lists and
      dicts are false; every other value (any object included) is true. */
  predicate Truthy(v: Value) {
    match v
    case VNone => false
    case VBool(b) => b
    case VInt(i) => i != 0
    case VStr(s) => |s| > 0
    case VList(items) => |items| > 0
    case VDict(entries) => |entries.keys| > 0
    case VObj(_) => true
  }
}
