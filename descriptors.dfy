/**
  Explicit descriptors for what boiled.py finds by reflection on a generated
  OpenAPI client: the operations of the API object, their annotations, the
  options types those annotations name, and the callables the rewriter
  puts in the API object's attribute table.
*/
module Descriptors {
  import opened Wrappers

  /**
    A Python value passed to or kept by the client. `Atom` is any plain value;
    `Built` is an options object made by an options type's constructor from the
    keyword arguments it was given (what the constructor then does with them,
    such as filling in its own defaults, belongs to the generated client).
  */
  datatype Value = Atom(id: int) | Built(typeName: string, fields: map<string, Value>)

  /** One constructor parameter of an options type (an `inspect.Parameter`); `default` is None for `Parameter.empty`. */
  datatype Param = Param(name: string, default: Option<Value>)

  /** An options type: its `__name__` and the parameters of its `__signature__`, in order. */
  datatype OptionsType = OptionsType(name: string, params: seq<Param>)

  /** A parameter annotation such as `Optional[SomeSettings]`; `args` is its `__args__`. */
  datatype Annotation = Annotation(args: seq<OptionsType>)

  /**
    A generated operation: its name, its docstring (None when it has none) and
    its `__annotations__` in order. Python's `__annotations__` is a dict, so an
    operation read from a client never repeats a name; the detection functions
    are stated for any sequence and do not need that, but a repeated qualifying
    name would count twice there.
  */
  datatype Operation = Operation(name: string, doc: Option<string>, annotations: seq<(string, Annotation)>)

  /** A parameter of a synthesized `inspect.Signature`: always POSITIONAL_OR_KEYWORD, with or without a default. */
  datatype SigParam = SigParam(name: string, default: Option<Value>)

  /**
    A callable in the API object's table: a generated operation, or the `wrapper`
    closure of `wrap_method` around `func`. A wrapper keeps what its closures
    captured (the detected parameter name, the options type, the `pos` and `kw`
    of `make_config_type_wrapper`) and the `__doc__` and `__signature__` it was given.
  */
  datatype Callable =
    | Generated(op: Operation)
    | Wrapper(func: Callable, argName: string, options: OptionsType,
              pos: seq<string>, kw: seq<(string, Value)>,
              doc: string, signature: seq<SigParam>)

  /** An entry of the API object's attribute table: a callable, or a plain data attribute such as `api_client`. */
  datatype Attribute = Method(c: Callable) | Data

  /** What a generated operation receives when it is finally called. */
  datatype Invocation = Invocation(op: Operation, args: seq<Value>, kwargs: map<string, Value>)

  datatype Error =
    | ConfigurationError           // unsupported verb suffix, or ambiguous options parameters
    | MissingTypeArgument(param: string)  // `v.__args__[0]` on an annotation without type arguments
    | NoAnnotations                // `func.__annotations__` on an attribute that is not a function
    | MissingDocstring             // `wrapper.__doc__ += ...` when the operation has no docstring
    | InvalidSignature             // `inspect.Signature` refusing duplicate names or a misordered default
    | DuplicateKeyword             // `func_inner(**dargs, **kwargs)` given one name twice

  /** `func.__annotations__`; `functools.wraps` copies them onto a wrapper. */
  function Annotations(c: Callable): seq<(string, Annotation)> {
    match c
    case Generated(op) => op.annotations
    case Wrapper(func, _, _, _, _, _, _) => Annotations(func)
  }

  /** `func.__doc__` */
  function Doc(c: Callable): Option<string> {
    match c
    case Generated(op) => op.doc
    case Wrapper(_, _, _, _, _, doc, _) => Some(doc)
  }
}
