/**
  The signature synthesizer: `get_args_kwargs` (boiled.py:166-183) splits an
  options type's constructor parameters into required and defaulted ones, and
  `make_signature`, `make_params_pos`, `make_params_kw` (boiled.py:202-223)
  build the flattened signature the wrapped operation shows.
*/
module Synth {
  import opened Wrappers
  import opened Text
  import opened Descriptors

  /** A constructor parameter that is not private. */
  predicate Public(p: Param) {
    !StartsWith(p.name, "_")
  }

  /** The names `get_args_kwargs` puts in `args`: public parameters without default, in order. */
  function Required(ps: seq<Param>): seq<string> {
    if ps == [] then []
    else
      var p := ps[|ps| - 1];
      Required(ps[..|ps| - 1]) + (if Public(p) && p.default.None? then [p.name] else [])
  }

  /** The entries `get_args_kwargs` puts in `kwargs`: public parameters with their defaults, in order. */
  function Defaulted(ps: seq<Param>): seq<(string, Value)> {
    if ps == [] then []
    else
      var p := ps[|ps| - 1];
      Defaulted(ps[..|ps| - 1]) + (if Public(p) && p.default.Some? then [(p.name, p.default.value)] else [])
  }

  /** The keys of an ordered keyword mapping. */
  function KwNames(kw: seq<(string, Value)>): (r: seq<string>)
    ensures |r| == |kw| && forall i :: 0 <= i < |kw| ==> r[i] == kw[i].0
  {
    seq(|kw|, i requires 0 <= i < |kw| => kw[i].0)
  }

  /** The parameter names of a signature. */
  function SigNames(sig: seq<SigParam>): (r: seq<string>)
    ensures |r| == |sig| && forall i :: 0 <= i < |sig| ==> r[i] == sig[i].name
  {
    seq(|sig|, i requires 0 <= i < |sig| => sig[i].name)
  }

  /** The constructor's parameter names are distinct, as in any Python signature. */
  predicate DistinctNames(ps: seq<Param>) {
    forall i, j :: 0 <= i < j < |ps| ==> ps[i].name != ps[j].name
  }

  /** What `inspect.Signature` accepts: distinct names, and no parameter without default after one with a default. */
  predicate WellFormedSignature(sig: seq<SigParam>) {
    && Distinct(SigNames(sig))
    && forall i, j :: 0 <= i < j < |sig| && sig[i].default.Some? ==> sig[j].default.Some?
  }

  /** `get_args_kwargs(ConfigType)` */
  method GetArgsKwargs(options: OptionsType) returns (args: seq<string>, kwargs: seq<(string, Value)>)
    ensures args == Required(options.params) && kwargs == Defaulted(options.params)
  {
    var params := options.params;
    args, kwargs := [], [];
    for i := 0 to |params|
      invariant args == Required(params[..i]) && kwargs == Defaulted(params[..i])
    {
      assert params[..i + 1][..i] == params[..i] && params[..i + 1][i] == params[i];
      var (k, v) := (params[i].name, params[i]);
      if StartsWith(k, "_") {
        continue;
      }
      if v.default.None? {
        args := args + [k];
      } else {
        kwargs := kwargs + [(k, v.default.value)];
      }
    }
    assert params[..|params|] == params;
  }

  /** `make_params_pos(pos)`: each name becomes a parameter without default, in order. */
  function MakeParamsPos(pos: seq<string>): (r: seq<SigParam>)
    ensures SigNames(r) == pos
    ensures forall i :: 0 <= i < |r| ==> r[i].default.None?
  {
    seq(|pos|, i requires 0 <= i < |pos| => SigParam(pos[i], None))
  }

  /** `make_params_kw(kw)`: each entry becomes a parameter with that default, in order. */
  function MakeParamsKw(kw: seq<(string, Value)>): (r: seq<SigParam>)
    ensures SigNames(r) == KwNames(kw)
    ensures forall i :: 0 <= i < |r| ==> r[i].default == Some(kw[i].1)
  {
    seq(|kw|, i requires 0 <= i < |kw| => SigParam(kw[i].0, Some(kw[i].1)))
  }

  /**
    `make_signature(pos, kw)`: the required names, then the defaulted ones.
    `inspect.Signature` refuses it exactly when a name occurs twice; the order
    of defaults never offends it.
  */
  function MakeSignature(pos: seq<string>, kw: seq<(string, Value)>): (r: Result<seq<SigParam>, Error>)
    ensures r.Success? <==> Distinct(pos + KwNames(kw))
    ensures r.Failure? ==> r.error == InvalidSignature
    ensures r.Success? ==>
              && |r.value| == |pos| + |kw|
              && (forall i :: 0 <= i < |pos| ==> r.value[i] == SigParam(pos[i], None))
              && (forall j :: 0 <= j < |kw| ==> r.value[|pos| + j] == SigParam(kw[j].0, Some(kw[j].1)))
  {
    var params := MakeParamsPos(pos) + MakeParamsKw(kw);
    assert SigNames(params) == pos + KwNames(kw);
    if WellFormedSignature(params) then Success(params) else Failure(InvalidSignature)
  }

  /** Partitioning keeps the declaration order: the parts of a + b are the parts of a followed by those of b. */
  lemma {:induction false} PartitionAppend(a: seq<Param>, b: seq<Param>)
    ensures Required(a + b) == Required(a) + Required(b)
    ensures Defaulted(a + b) == Defaulted(a) + Defaulted(b)
  {
    if b == [] {
      assert a + b == a;
    } else {
      var ab, b' := a + b, b[..|b| - 1];
      assert ab[..|ab| - 1] == a + b' && ab[|ab| - 1] == b[|b| - 1];
      PartitionAppend(a, b');
      var p := b[|b| - 1];
      var r := if Public(p) && p.default.None? then [p.name] else [];
      var d := if Public(p) && p.default.Some? then [(p.name, p.default.value)] else [];
      assert Required(a) + Required(b') + r == Required(a) + (Required(b') + r);
      assert Defaulted(a) + Defaulted(b') + d == Defaulted(a) + (Defaulted(b') + d);
    }
  }

  /**
    Every public parameter lands in `args` when it has no default and in `kwargs`
    with its default otherwise; nothing else lands in either.
  */
  lemma {:induction false} PartitionMembership(ps: seq<Param>)
    ensures forall p :: p in ps && Public(p) && p.default.None? ==> p.name in Required(ps)
    ensures forall p :: p in ps && Public(p) && p.default.Some? ==> (p.name, p.default.value) in Defaulted(ps)
    ensures forall x :: x in Required(ps) ==> Param(x, None) in ps && !StartsWith(x, "_")
    ensures forall e :: e in Defaulted(ps) ==> Param(e.0, Some(e.1)) in ps && !StartsWith(e.0, "_")
  {
    if ps != [] {
      var init := ps[..|ps| - 1];
      PartitionMembership(init);
      assert ps == init + [ps[|ps| - 1]];
      assert forall p :: p in ps <==> p in init || p == ps[|ps| - 1];
    }
  }

  /** With distinct constructor names, each public parameter is in exactly one place, and the names stay distinct. */
  lemma {:induction false} PartitionDistinct(ps: seq<Param>)
    requires DistinctNames(ps)
    ensures Distinct(Required(ps) + KwNames(Defaulted(ps)))
  {
    RequiredDistinct(ps);
    DefaultedDistinct(ps);
    PartitionMembership(ps);
    forall x | x in Required(ps)
      ensures x !in KwNames(Defaulted(ps))
    {
    }
    DistinctConcat(Required(ps), KwNames(Defaulted(ps)));
  }

  lemma {:induction false} RequiredDistinct(ps: seq<Param>)
    requires DistinctNames(ps)
    ensures Distinct(Required(ps))
  {
    if ps != [] {
      var init, p := ps[..|ps| - 1], ps[|ps| - 1];
      RequiredDistinct(init);
      PartitionMembership(init);
      DistinctConcat(Required(init), if Public(p) && p.default.None? then [p.name] else []);
    }
  }

  lemma {:induction false} DefaultedDistinct(ps: seq<Param>)
    requires DistinctNames(ps)
    ensures Distinct(KwNames(Defaulted(ps)))
  {
    if ps != [] {
      var init, p := ps[..|ps| - 1], ps[|ps| - 1];
      DefaultedDistinct(init);
      PartitionMembership(init);
      var tail := if Public(p) && p.default.Some? then [(p.name, p.default.value)] else [];
      assert KwNames(Defaulted(ps)) == KwNames(Defaulted(init)) + KwNames(tail);
      DistinctConcat(KwNames(Defaulted(init)), KwNames(tail));
    }
  }

  /** Where the names of `pos` and the entries of `kw` end up in the synthesized parameter list. */
  lemma {:induction false} SignatureEntries(pos: seq<string>, kw: seq<(string, Value)>)
    ensures var sig := MakeParamsPos(pos) + MakeParamsKw(kw);
            && (forall x :: x in pos ==> SigParam(x, None) in sig)
            && (forall e :: e in kw ==> SigParam(e.0, Some(e.1)) in sig)
            && (forall sp :: sp in sig ==> (sp.default.None? && sp.name in pos) || (sp.default.Some? && (sp.name, sp.default.value) in kw))
  {
    var sig := MakeParamsPos(pos) + MakeParamsKw(kw);
    forall x | x in pos
      ensures SigParam(x, None) in sig
    {
      var i :| 0 <= i < |pos| && pos[i] == x;
      assert sig[i] == SigParam(x, None);
    }
    forall e | e in kw
      ensures SigParam(e.0, Some(e.1)) in sig
    {
      var j :| 0 <= j < |kw| && kw[j] == e;
      assert sig[|pos| + j] == SigParam(e.0, Some(e.1));
    }
    forall sp | sp in sig
      ensures (sp.default.None? && sp.name in pos) || (sp.default.Some? && (sp.name, sp.default.value) in kw)
    {
      var i :| 0 <= i < |sig| && sig[i] == sp;
      if i < |pos| {
        assert pos[i] in pos;
      } else {
        assert kw[i - |pos|] in kw;
      }
    }
  }

  /**
    The flattened signature is always accepted by `inspect.Signature`, and it has
    exactly the public constructor parameters of the options type, each with its
    own default: the wrapped operation takes what the constructor takes.
  */
  lemma SignatureMatchesOptions(ps: seq<Param>)
    requires DistinctNames(ps)
    ensures MakeSignature(Required(ps), Defaulted(ps)).Success?
    ensures WellFormedSignature(MakeSignature(Required(ps), Defaulted(ps)).value)
    ensures forall p :: p in ps && Public(p) ==>
              SigParam(p.name, p.default) in MakeSignature(Required(ps), Defaulted(ps)).value
    ensures forall sp :: sp in MakeSignature(Required(ps), Defaulted(ps)).value ==>
              Param(sp.name, sp.default) in ps && !StartsWith(sp.name, "_")
  {
    PartitionDistinct(ps);
    PartitionMembership(ps);
    var pos, kw := Required(ps), Defaulted(ps);
    SignatureEntries(pos, kw);
    assert MakeSignature(pos, kw).value == MakeParamsPos(pos) + MakeParamsKw(kw);
  }

  /** The partition of a single parameter. */
  lemma PartitionOne(p: Param)
    ensures Required([p]) == if Public(p) && p.default.None? then [p.name] else []
    ensures Defaulted([p]) == if Public(p) && p.default.Some? then [(p.name, p.default.value)] else []
  {
    assert [p][..0] == [];
  }

  /** Mandatory `a`, `b` and `c` defaulting to 5 split into `[a, b]` and `{c: 5}`... */
  lemma ExamplePartition(five: Value)
    ensures var ps := [Param("a", None), Param("b", None), Param("c", Some(five))];
            Required(ps) == ["a", "b"] && Defaulted(ps) == [("c", five)]
  {
    var pa, pb, pc := Param("a", None), Param("b", None), Param("c", Some(five));
    assert "a"[..1] == "a" && "b"[..1] == "b" && "c"[..1] == "c";
    PartitionOne(pa);
    PartitionOne(pb);
    PartitionOne(pc);
    PartitionAppend([pa], [pb]);
    PartitionAppend([pa] + [pb], [pc]);
    assert [pa] + [pb] + [pc] == [pa, pb, pc];
  }

  /** ... and give the signature `(a, b, c=5)`. */
  lemma ExampleSignature(five: Value)
    ensures MakeSignature(["a", "b"], [("c", five)])
            == Success([SigParam("a", None), SigParam("b", None), SigParam("c", Some(five))])
  {
    assert Distinct(["a", "b"] + KwNames([("c", five)]));
    var sig := MakeParamsPos(["a", "b"]) + MakeParamsKw([("c", five)]);
    assert sig == [SigParam("a", None), SigParam("b", None), SigParam("c", Some(five))];
  }
}
