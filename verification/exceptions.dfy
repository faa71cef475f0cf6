/** The error family of python/infra/defw_exception.py and the exceptions the
    rest of the system raises, plus the ten-field error record that crosses
    node boundaries as a tagged YAML mapping. */
module Exceptions {
  import opened Wrappers
  import opened Values
  import opened OrderedMaps

  /** Which exception class was raised. The first seven are the `IFW*`
      classes the exception file defines (`IFWError` and its six
      subclasses), taken under the `DEFw*` names their callers import
      (`DEFwError`, `DEFwCommError`, ... `DEFwOutOfResources`). The next four
      are `DEFw*` names with no `IFW*` counterpart there, taken to be
      subclasses of the base class. The rest are Python built-ins the
      modelled code lets escape. */
  datatype Kind =
    | Base | CommError | AgentNotFound | InternalError | RemoteError | ReserveError | OutOfResources
    | NotReady | InProgress | NotFound | ExecutionError
    | KeyError | ValueError | IndexError | NameError | UnboundLocalError | FileNotFoundError
    | TypeError | StopIteration | AttributeError

  /** A raised exception as its catcher sees it: its class and its text.
      An error raised with a dict `{"Error": text}` as its message, as the
      executors do, is written with `text` as its message. */
  datatype Error = Error(kind: Kind, msg: string)

  /** The caller's frame and stack at construction time; taken as given. */
  datatype Frame = Frame(filename: Value, lineno: Value, funcName: Value,
                         codeContext: Value, index: Value, stacktrace: Value)

  /** The node's name now, and the name it had when the exception module was
      imported (captured by three constructors' default arguments). */
  datatype NodeNames = NodeNames(current: string, atImport: string)

  /** The fields an error object carries. */
  datatype IfwError = IfwError(
    kind: Kind, nodeName: Value, msg: Value, arg: Value, halt: Value,
    filename: Value, lineno: Value, funcName: Value, codeContext: Value,
    index: Value, stacktrace: Value)

  predicate IsIfwKind(k: Kind) {
    k in {Base, CommError, AgentNotFound, InternalError, RemoteError, ReserveError, OutOfResources}
  }

  /** The classes whose `str()` is the dump of their record: the exception
      file's seven classes and the four `DEFw*` classes taken to be theirs. */
  predicate IsRecordKind(k: Kind) {
    IsIfwKind(k) || k in {NotReady, InProgress, NotFound, ExecutionError}
  }

  /** `__str__` of an error of this system: a YAML dump of its node name,
      message, arg, file name, line number, function and stack trace. All
      but the message depend on where and on which node it was raised, so
      whatever reports the text takes the dump as a parameter. */
  type Dump = Error -> string

  /** `str(e)`: the dumped record for this system's errors, the message for
      a built-in exception. */
  function Shown(e: Error, dump: Dump): string {
    if IsRecordKind(e.kind) then dump(e) else e.msg
  }

  /** `raise DEFwError({"Error": str(e)})` in an `except` clause: a
      base-class error carrying the caught error's text. */
  function Rewrap(e: Error, dump: Dump): (r: Error)
    ensures r.kind == Base
    ensures IsRecordKind(e.kind) ==> r.msg == dump(e)
    ensures !IsRecordKind(e.kind) ==> r.msg == e.msg
  {
    Error(Base, Shown(e, dump))
  }

  /** The `nname` default of each class: `""` for the base class, `None` for
      three subclasses, and the import-time node name for the other three. */
  function DefaultNodeName(kind: Kind, names: NodeNames): Value
    requires IsIfwKind(kind)
  {
    match kind
    case Base => VStr("")
    case RemoteError => VStr(names.atImport)
    case ReserveError => VStr(names.atImport)
    case OutOfResources => VStr(names.atImport)
    case _ => VNone
  }

  /** Constructing an error of class `kind`; `nname` is `None` when the
      caller leaves the argument out. A false node name is replaced by the
      node's current name. */
  function NewError(kind: Kind, msg: Value, arg: Value, halt: Value, nname: Option<Value>,
                    names: NodeNames, frame: Frame): (e: IfwError)
    requires IsIfwKind(kind)
    ensures e.kind == kind && e.msg == msg && e.arg == arg && e.halt == halt
    ensures nname.Some? && Truthy(nname.value) ==> e.nodeName == nname.value
    ensures nname.Some? && !Truthy(nname.value) ==> e.nodeName == VStr(names.current)
    ensures nname.None? && kind in {RemoteError, ReserveError, OutOfResources} && names.atImport != ""
            ==> e.nodeName == VStr(names.atImport)
    ensures nname.None? && (kind in {Base, CommError, AgentNotFound, InternalError} || names.atImport == "")
            ==> e.nodeName == VStr(names.current)
  {
    var given := nname.GetOr(DefaultNodeName(kind, names));
    var node := if Truthy(given) then given else VStr(names.current);
    IfwError(kind, node, msg, arg, halt, frame.filename, frame.lineno, frame.funcName,
             frame.codeContext, frame.index, frame.stacktrace)
  }

  /** `populate`: overwrites the ten recorded fields; the class is kept. */
  function Populate(e: IfwError, nodeName: Value, msg: Value, arg: Value, halt: Value,
                    filename: Value, lineno: Value, funcName: Value, codeContext: Value,
                    index: Value, stacktrace: Value): (r: IfwError)
    ensures r.kind == e.kind
    ensures Fields(r) == [nodeName, msg, arg, halt, filename, lineno, funcName, codeContext,
                          index, stacktrace]
  {
    e.(nodeName := nodeName, msg := msg, arg := arg, halt := halt, filename := filename,
       lineno := lineno, funcName := funcName, codeContext := codeContext, index := index,
       stacktrace := stacktrace)
  }

  /** `get_arg`: the arg the error carries, the one its record ships under
      `arg`. */
  function GetArg(e: IfwError): (r: Value)
    ensures Represent(e).Get("arg") == Some(r)
  {
    assert RecordKeys[2] == "arg";
    e.arg
  }

  /** `get_arg` returns what the constructor was given as `arg`. */
  lemma GetArgOfNew(kind: Kind, msg: Value, arg: Value, halt: Value, nname: Option<Value>,
                    names: NodeNames, frame: Frame)
    requires IsIfwKind(kind)
    ensures GetArg(NewError(kind, msg, arg, halt, nname, names, frame)) == arg
  {
  }

  /** The keys of the YAML mapping, in the order the representer writes them. */
  const RecordKeys: seq<string> :=
    ["node-name", "msg", "arg", "halt", "filename", "lineno", "function", "code_context",
     "index", "stacktrace"]

  function Fields(e: IfwError): seq<Value> {
    [e.nodeName, e.msg, e.arg, e.halt, e.filename, e.lineno, e.funcName, e.codeContext,
     e.index, e.stacktrace]
  }

  /** The representer: the ten fields under their keys, in order. The class
      of the error is not written. */
  function Represent(e: IfwError): (m: OMap<string, Value>)
    ensures m.Valid() && m.keys == RecordKeys
    ensures forall i :: 0 <= i < 10 ==> m.Get(RecordKeys[i]) == Some(Fields(e)[i])
  {
    RecordKeysDistinct();
    Zip(RecordKeys, Fields(e))
  }

  /** The ten keys are pairwise different: they differ in length, first
      character or second character. */
  lemma RecordKeysDistinct()
    ensures forall i, j :: 0 <= i < j < |RecordKeys| ==> RecordKeys[i] != RecordKeys[j]
  {
    forall i, j | 0 <= i < j < |RecordKeys| ensures RecordKeys[i] != RecordKeys[j] {
      assert Signature(RecordKeys[i]) != Signature(RecordKeys[j]);
    }
  }

  function Signature(s: string): (int, char, char) {
    if |s| < 2 then (|s|, ' ', ' ') else (|s|, s[0], s[1])
  }

  /** The constructor: a fresh base-class error whose fields are then
      overwritten from the mapping; a missing key raises KeyError, the keys
      being read in representer order. */
  function Construct(m: OMap<string, Value>, names: NodeNames, frame: Frame): (r: Result<IfwError, Error>)
    ensures r.Ok? <==> forall i :: 0 <= i < 10 ==> m.Get(RecordKeys[i]).Some?
    ensures r.Err? ==> r.error.kind == KeyError && r.error.msg in RecordKeys && m.Get(r.error.msg).None?
    ensures r.Ok? ==> r.value.kind == Base
    ensures r.Ok? ==> forall i :: 0 <= i < 10 ==> m.Get(RecordKeys[i]) == Some(Fields(r.value)[i])
  {
    var missing := FirstMissing(m, RecordKeys);
    if missing.Some? then Err(Error(KeyError, missing.value))
    else
      var vs := seq(10, i requires 0 <= i < 10 => m.vals[RecordKeys[i]]);
      var blank := NewError(Base, VStr(""), VNone, VBool(false), None, names, frame);
      Ok(Populate(blank, vs[0], vs[1], vs[2], vs[3], vs[4], vs[5], vs[6], vs[7], vs[8], vs[9]))
  }

  /** The first of `ks` that `m` lacks. */
  function FirstMissing(m: OMap<string, Value>, ks: seq<string>): (r: Option<string>)
    ensures r.None? <==> forall i :: 0 <= i < |ks| ==> ks[i] in m.vals
    ensures r.Some? ==> r.value in ks && r.value !in m.vals
  {
    if |ks| == 0 then None
    else if ks[0] !in m.vals then Some(ks[0])
    else FirstMissing(m, ks[1..])
  }

  /** An error is determined by its class and its ten fields. */
  lemma FieldsDetermine(a: IfwError, b: IfwError)
    requires a.kind == b.kind && Fields(a) == Fields(b)
    ensures a == b
  {
    assert a.nodeName == Fields(a)[0] == Fields(b)[0] == b.nodeName;
    assert a.msg == Fields(a)[1] == Fields(b)[1] == b.msg;
    assert a.arg == Fields(a)[2] == Fields(b)[2] == b.arg;
    assert a.halt == Fields(a)[3] == Fields(b)[3] == b.halt;
    assert a.filename == Fields(a)[4] == Fields(b)[4] == b.filename;
    assert a.lineno == Fields(a)[5] == Fields(b)[5] == b.lineno;
    assert a.funcName == Fields(a)[6] == Fields(b)[6] == b.funcName;
    assert a.codeContext == Fields(a)[7] == Fields(b)[7] == b.codeContext;
    assert a.index == Fields(a)[8] == Fields(b)[8] == b.index;
  }

  /** Reading back what the representer wrote reproduces every field; only
      the class becomes the base class. */
  lemma ConstructRepresent(e: IfwError, names: NodeNames, frame: Frame)
    ensures Construct(Represent(e), names, frame) == Ok(e.(kind := Base))
  {
    var m := Represent(e);
    assert Construct(m, names, frame).Ok?;
    var r := Construct(m, names, frame).value;
    assert Fields(r) == Fields(e) by {
      forall i | 0 <= i < 10 ensures Fields(r)[i] == Fields(e)[i] {
        assert m.Get(RecordKeys[i]) == Some(Fields(e)[i]);
      }
    }
    FieldsDetermine(r, e.(kind := Base));
  }

  /** Conversely, an error built from a mapping represents back to that
      mapping's values under the ten keys. */
  lemma RepresentConstruct(m: OMap<string, Value>, names: NodeNames, frame: Frame)
    requires Construct(m, names, frame).Ok?
    ensures forall i :: 0 <= i < 10 ==>
      Represent(Construct(m, names, frame).value).Get(RecordKeys[i]) == m.Get(RecordKeys[i])
  {
    forall i | 0 <= i < 10 ensures RecordKeys[i] in m.vals {
      assert m.Get(RecordKeys[i]).Some?;
    }
  }
}
