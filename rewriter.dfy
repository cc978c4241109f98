/**
  The method rewriter: `wrap_method` (boiled.py:75-98) replaces one operation
  by a flattened wrapper, and `wrap_api` (boiled.py:36-45) does so, in place,
  for every eligible entry of the API object's attribute table.
*/
module Rewriter {
  import opened Wrappers
  import opened Text
  import opened Descriptors
  import opened Eligibility
  import opened Detector
  import opened Synth
  import opened Docs
  import opened Forward

  /** What `wrap_method` returns for one attribute, or the error it raises. */
  function Wrap(a: Attribute, render: Param -> string): Result<Attribute, Error> {
    match a
    case Data => Failure(NoAnnotations)
    case Method(func) =>
      match Detect(Annotations(func))
      case Failure(e) => Failure(e)
      case Success(None) => Success(a)
      case Success(Some((argName, options))) =>
        var extraDoc := DocText(options, render);
        var pos, kw := Required(options.params), Defaulted(options.params);
        match MakeSignature(pos, kw)
        case Failure(e) => Failure(e)
        case Success(signature) =>
          match Doc(func)
          case None => Failure(MissingDocstring)
          case Some(doc) => Success(Method(Wrapper(func, argName, options, pos, kw, doc + extraDoc, signature)))
  }

  /** `wrap_method(func)`; a data attribute has no `__annotations__` for `get_argument` to read. */
  method WrapMethod(a: Attribute, render: Param -> string) returns (r: Result<Attribute, Error>)
    ensures r == Wrap(a, render)
  {
    if a.Data? {
      return Failure(NoAnnotations);
    }
    var func := a.c;
    var collected := GetArgument(func);
    if collected.Failure? {
      return Failure(collected.error);
    }
    if collected.value.None? {
      return Success(a);
    }
    var (argName, options) := collected.value.value;
    var extraDoc := SignatureToDoc(options, render);
    var pos, kw := GetArgsKwargs(options);
    var signature := MakeSignature(pos, kw);
    if signature.Failure? {
      return Failure(signature.error);
    }
    var doc := Doc(func);
    if doc.None? {
      return Failure(MissingDocstring);
    }
    r := Success(Method(Wrapper(func, argName, options, pos, kw, doc.value + extraDoc, signature.value)));
  }

  /**
    An operation without a qualifying annotation comes back itself; one with
    several (or a malformed one) is an error; one with exactly one options
    parameter becomes a wrapper that keeps the operation's annotations, shows
    its docstring followed by the options type's parameter text and the
    flattened signature, and on every call builds the options object and hands
    it to the operation as its one keyword argument.
  */
  lemma WrapMethodCases(a: Attribute, render: Param -> string)
    ensures a.Data? ==> Wrap(a, render) == Failure(NoAnnotations)
    ensures a.Method? && Detect(Annotations(a.c)) == Success(None) ==> Wrap(a, render) == Success(a)
    ensures a.Method? && Detect(Annotations(a.c)).Failure? ==>
              Wrap(a, render) == Failure(Detect(Annotations(a.c)).error)
    ensures a.Method? && Detect(Annotations(a.c)).Success? && Detect(Annotations(a.c)).value.Some? ==>
              var (argName, options) := Detect(Annotations(a.c)).value.value;
              DistinctNames(options.params) && Doc(a.c).None? ==> Wrap(a, render) == Failure(MissingDocstring)
    ensures a.Method? && Detect(Annotations(a.c)).Success? && Detect(Annotations(a.c)).value.Some? ==>
              var (argName, options) := Detect(Annotations(a.c)).value.value;
              DistinctNames(options.params) && Doc(a.c).Some? ==>
                && Wrap(a, render).Success?
                && var w := Wrap(a, render).value;
                && w.Method? && w.c.Wrapper? && w.c.func == a.c
                && Annotations(w.c) == Annotations(a.c)
                && Doc(w.c) == Some(Doc(a.c).value + DocText(options, render))
                && WellFormedSignature(w.c.signature)
                && w.c.signature == MakeSignature(Required(options.params), Defaulted(options.params)).value
                && (forall p :: p in options.params && Public(p) ==> SigParam(p.name, p.default) in w.c.signature)
                && (forall sp :: sp in w.c.signature ==> Param(sp.name, sp.default) in options.params && !StartsWith(sp.name, "_"))
                && (forall args, kwargs ::
                      Apply(w.c, args, kwargs) ==
                        match ConfigCall(Required(options.params), args, kwargs)
                        case Failure(e) => Failure(e)
                        case Success(fields) => Apply(a.c, [], map[argName := Built(options.name, fields)]))
  {
    if a.Method? && Detect(Annotations(a.c)).Success? && Detect(Annotations(a.c)).value.Some? {
      var (argName, options) := Detect(Annotations(a.c)).value.value;
      if DistinctNames(options.params) {
        SignatureMatchesOptions(options.params);
      }
    }
  }

  /** The API object: its attribute table, which `wrap_api` updates in place, and the names `dir` lists for it. */
  class Api {
    var table: map<string, Attribute>
    const names: seq<string>

    /** `dir` lists every attribute once. */
    ghost predicate Valid()
      reads this
    {
      Distinct(names) && forall n :: n in table <==> n in names
    }

    constructor (table: map<string, Attribute>, names: seq<string>)
      requires Distinct(names) && forall n :: n in table <==> n in names
      ensures Valid() && this.table == table && this.names == names
    {
      this.table := table;
      this.names := names;
    }
  }

  /**
    The table after `wrap_api`, and the error that stopped it, if any. The
    generator hands out names lazily, so entries before the failing name are
    already replaced when the error is raised.
  */
  function WrapAll(t: map<string, Attribute>, names: seq<string>, render: Param -> string)
    : (r: (Option<Error>, map<string, Attribute>))
    requires forall n :: n in names ==> n in t
    ensures r.1.Keys == t.Keys
  {
    if names == [] then (None, t)
    else
      var n := names[0];
      match Classify(n)
      case Skip => WrapAll(t, names[1..], render)
      case Reject => (Some(ConfigurationError), t)
      case Yield =>
        match Wrap(t[n], render)
        case Failure(e) => (Some(e), t)
        case Success(w) => WrapAll(t[n := w], names[1..], render)
  }

  /** `wrap_api(api)` */
  method WrapApi(api: Api, render: Param -> string) returns (r: Result<Api, Error>)
    requires api.Valid()
    modifies api
    ensures api.Valid()
    ensures WrapAll(old(api.table), api.names, render) ==
              (if r.Success? then None else Some(r.error), api.table)
    ensures r.Success? ==> r.value == api
  {
    ghost var spec := WrapAll(api.table, api.names, render);
    assert api.names[0..] == api.names;
    for i := 0 to |api.names|
      invariant api.table.Keys == old(api.table).Keys
      invariant spec == WrapAll(api.table, api.names[i..], render)
    {
      var n := api.names[i];
      assert api.names[i..][0] == n && api.names[i..][1..] == api.names[i + 1..];
      var step := Examine(n);
      if step == Skip {
        continue;
      }
      if step == Reject {
        return Failure(ConfigurationError);
      }
      var f := api.table[n];
      var w := WrapMethod(f, render);
      if w.Failure? {
        return Failure(w.error);
      }
      api.table := api.table[n := w.value];
    }
    assert api.names[|api.names|..] == [];
    return Success(api);
  }

  /**
    `wrap_api` succeeds exactly when the enumeration does and every eligible
    entry can be wrapped; it then replaces exactly the eligible entries, each by
    `wrap_method` of its old value, and leaves every other entry as it was.
  */
  lemma {:induction false} WrapAllExact(t: map<string, Attribute>, names: seq<string>, render: Param -> string)
    requires Distinct(names) && forall n :: n in names ==> n in t
    ensures WrapAll(t, names, render).0.None? <==>
              && EligibleNames(names).Success?
              && forall n :: n in t && n in EligibleNames(names).value ==> Wrap(t[n], render).Success?
    ensures WrapAll(t, names, render).0.None? ==>
              forall n :: n in t ==>
                WrapAll(t, names, render).1[n] ==
                  if n in EligibleNames(names).value then Wrap(t[n], render).value else t[n]
  {
    if names != [] {
      var n0, rest := names[0], names[1..];
      assert forall n :: n in rest ==> n in names;
      assert Distinct(rest) by {
        forall i, j | 0 <= i < j < |rest| ensures rest[i] != rest[j] {
          assert rest[i] == names[i + 1] && rest[j] == names[j + 1];
        }
      }
      assert n0 !in rest by {
        forall i | 0 <= i < |rest| ensures rest[i] != n0 {
          assert rest[i] == names[i + 1];
        }
      }
      EligibleNamesSound(rest);
      match Classify(n0)
      case Skip =>
        WrapAllExact(t, rest, render);
      case Reject =>
      case Yield =>
        match Wrap(t[n0], render)
        case Failure(e) =>
        case Success(w) =>
          var t1 := t[n0 := w];
          WrapAllExact(t1, rest, render);
          assert forall n :: n in rest ==> t1[n] == t[n];
    }
  }

  /**
    Whatever the outcome, every entry is either as it was or replaced by
    `wrap_method` of its old value, and only names the enumeration yields are replaced.
  */
  lemma {:induction false} WrapAllPartial(t: map<string, Attribute>, names: seq<string>, render: Param -> string)
    requires Distinct(names) && forall n :: n in names ==> n in t
    ensures forall n :: n in t ==>
              || WrapAll(t, names, render).1[n] == t[n]
              || (n in names && Classify(n) == Yield && Wrap(t[n], render) == Success(WrapAll(t, names, render).1[n]))
  {
    if names != [] {
      var n0, rest := names[0], names[1..];
      assert forall n :: n in rest ==> n in names;
      assert Distinct(rest) by {
        forall i, j | 0 <= i < j < |rest| ensures rest[i] != rest[j] {
          assert rest[i] == names[i + 1] && rest[j] == names[j + 1];
        }
      }
      assert n0 !in rest by {
        forall i | 0 <= i < |rest| ensures rest[i] != n0 {
          assert rest[i] == names[i + 1];
        }
      }
      match Classify(n0)
      case Skip =>
        WrapAllPartial(t, rest, render);
      case Reject =>
      case Yield =>
        match Wrap(t[n0], render)
        case Failure(e) =>
        case Success(w) =>
          var t1 := t[n0 := w];
          WrapAllPartial(t1, rest, render);
          assert forall n :: n in rest ==> t1[n] == t[n];
    }
  }

  /** The options type and the generated operation of the usage example. */
  function ExampleSettings(): OptionsType {
    OptionsType("SomeSettings", [Param("mandatory1", None), Param("mandatory2", None)])
  }

  function ExampleOperation(): Operation {
    Operation("something_post", Some("Something."),
              [("some_settings", Annotation([ExampleSettings()])), ("_request_timeout", Annotation([])),
               ("return", Annotation([]))])
  }

  lemma ExampleDetected()
    ensures Detect(ExampleOperation().annotations) == Success(Some(("some_settings", ExampleSettings())))
  {
    var anns := ExampleOperation().annotations;
    assert "_request_timeout"[..1] == "_";
    assert "some_settings"[0] == 's';
    assert Qualifies("some_settings") && !Qualifies("_request_timeout") && !Qualifies("return");
    PrivateAndReturnIgnored("some_settings", ExampleSettings(), anns[1..]);
    assert anns == [anns[0]] + anns[1..];
  }

  lemma ExampleFields()
    ensures DistinctNames(ExampleSettings().params)
    ensures Required(ExampleSettings().params) == ["mandatory1", "mandatory2"]
  {
    var ps := ExampleSettings().params;
    assert "mandatory1"[..1] == "m" && "mandatory2"[..1] == "m";
    assert "mandatory1"[9] != "mandatory2"[9];
    assert ps[..1] == [ps[0]] && ps[..1][..0] == [] && ps[..|ps| - 1] == ps[..1];
  }

  lemma ExampleWrapped(render: Param -> string)
    ensures Wrap(Method(Generated(ExampleOperation())), render).Success?
    ensures var w := Wrap(Method(Generated(ExampleOperation())), render).value;
            && w.Method?
            && forall args, kwargs ::
                 Apply(w.c, args, kwargs) ==
                   match ConfigCall(["mandatory1", "mandatory2"], args, kwargs)
                   case Failure(e) => Failure(e)
                   case Success(fields) =>
                     Success(Invocation(ExampleOperation(), [], map["some_settings" := Built("SomeSettings", fields)]))
  {
    ExampleDetected();
    ExampleFields();
    WrapMethodCases(Method(Generated(ExampleOperation())), render);
  }

  /**
    The client of the usage example: `something_post` takes `some_settings:
    Optional[SomeSettings]` with two mandatory fields; after wrapping,
    `something_post(mandatory1=.., mandatory2=..)` calls the generated operation
    with `some_settings=SomeSettings(mandatory1=.., mandatory2=..)`.
  */
  lemma UsageExample(one: Value, two: Value, render: Param -> string)
    ensures
      var t := map["api_client" := Data, "something_post" := Method(Generated(ExampleOperation()))];
      var after := WrapAll(t, ["api_client", "something_post"], render);
      && after.0 == None
      && after.1["api_client"] == Data
      && after.1["something_post"].Method?
      && Apply(after.1["something_post"].c, [], map["mandatory1" := one, "mandatory2" := two])
         == Success(Invocation(ExampleOperation(), [],
                               map["some_settings" := Built("SomeSettings", map["mandatory1" := one, "mandatory2" := two])]))
  {
    var t := map["api_client" := Data, "something_post" := Method(Generated(ExampleOperation()))];
    ExampleWrapped(render);
    OperationYielded();
    assert Classify("api_client") == Skip;
    var names := ["api_client", "something_post"];
    assert names[1..] == ["something_post"] && names[1..][1..] == [];
    var kwargs := map["mandatory1" := one, "mandatory2" := two];
    assert ConfigCall(["mandatory1", "mandatory2"], [], kwargs) == Success(kwargs) by {
      assert Zip(["mandatory1", "mandatory2"], []) == map[];
      assert map[] + kwargs == kwargs;
    }
  }
}
