/**
  Call forwarding: what the closures `func_outer` of `make_config_type_wrapper`
  (boiled.py:186-199) and `wrapper` of `wrap_method` (boiled.py:89-93) do with
  the arguments they are called with.
*/
module Forward {
  import opened Wrappers
  import opened Text
  import opened Descriptors

  function Min(a: nat, b: nat): nat {
    if a < b then a else b
  }

  /**
    `dict(zip(pos, args))`: the i-th positional value bound to the i-th name;
    values beyond the names are dropped, and a repeated name keeps its last value
    (`ZipLastWins`).
  */
  function Zip(pos: seq<string>, args: seq<Value>): (d: map<string, Value>)
    ensures forall k :: k in d <==> exists i :: 0 <= i < Min(|pos|, |args|) && pos[i] == k
    ensures Distinct(pos) ==> forall i :: 0 <= i < Min(|pos|, |args|) ==> d[pos[i]] == args[i]
    decreases |pos|
  {
    var n := Min(|pos|, |args|);
    if n == 0 then map[]
    else
      var inner := Zip(pos[..n - 1], args[..n - 1]);
      assert Min(|pos[..n - 1]|, |args[..n - 1]|) == n - 1;
      assert forall i :: 0 <= i < n - 1 ==> pos[..n - 1][i] == pos[i] && args[..n - 1][i] == args[i];
      inner[pos[n - 1] := args[n - 1]]
  }

  /** A repeated name keeps the value of its last occurrence among the zipped pairs. */
  lemma {:induction false} ZipLastWins(pos: seq<string>, args: seq<Value>, i: nat)
    requires i < Min(|pos|, |args|)
    requires forall j :: i < j < Min(|pos|, |args|) ==> pos[j] != pos[i]
    ensures pos[i] in Zip(pos, args) && Zip(pos, args)[pos[i]] == args[i]
    decreases |pos|
  {
    var n := Min(|pos|, |args|);
    if i < n - 1 {
      var p, a := pos[..n - 1], args[..n - 1];
      assert Min(|p|, |a|) == n - 1;
      assert forall j :: i < j < n - 1 ==> p[j] == pos[j];
      ZipLastWins(p, a, i);
      assert p[i] == pos[i] && a[i] == args[i];
      assert pos[n - 1] != pos[i];
    }
  }

  /**
    The keyword arguments `func_outer` passes to the options type's constructor:
    the zipped positional values together with the given keywords. Python
    refuses a name given both ways; it does not let one override the other.
  */
  function ConfigCall(pos: seq<string>, args: seq<Value>, kwargs: map<string, Value>)
    : (r: Result<map<string, Value>, Error>)
    ensures r.Success? <==> forall i :: 0 <= i < Min(|pos|, |args|) ==> pos[i] !in kwargs
    ensures r.Failure? ==> r.error == DuplicateKeyword
    ensures r.Success? ==>
              && (forall k :: k in r.value <==> k in kwargs || exists i :: 0 <= i < Min(|pos|, |args|) && pos[i] == k)
              && (forall k :: k in kwargs ==> r.value[k] == kwargs[k])
              && (Distinct(pos) ==> forall i :: 0 <= i < Min(|pos|, |args|) ==> r.value[pos[i]] == args[i])
  {
    var dargs := Zip(pos, args);
    if dargs.Keys !! kwargs.Keys then Success(dargs + kwargs) else Failure(DuplicateKeyword)
  }

  /** The generated operation at the bottom of a chain of wrappers. */
  function Target(c: Callable): Operation {
    match c
    case Generated(op) => op
    case Wrapper(func, _, _, _, _, _, _) => Target(func)
  }

  /**
    Calling a callable from the table: a generated operation receives the
    arguments as given; a wrapper builds the options object from its arguments
    and calls the callable it wraps with that object as its one keyword argument.
  */
  function Apply(c: Callable, args: seq<Value>, kwargs: map<string, Value>): (r: Result<Invocation, Error>)
    ensures c.Generated? ==> r.Success? && r.value.args == args && r.value.kwargs == kwargs
    ensures r.Success? ==> r.value.op == Target(c)
    ensures c.Wrapper? && r.Success? ==> r.value.args == []
    ensures r.Failure? ==> r.error == DuplicateKeyword
  {
    match c
    case Generated(op) => Success(Invocation(op, args, kwargs))
    case Wrapper(func, argName, options, pos, _, _, _) =>
      match ConfigCall(pos, args, kwargs)
      case Failure(e) => Failure(e)
      case Success(fields) => Apply(func, [], map[argName := Built(options.name, fields)])
  }

  /**
    A wrapper around a generated operation calls it with exactly one keyword
    argument, named by the detected parameter and bound to the options object
    whose i-th required field is the i-th positional value and whose other fields
    are the given keywords; it fails only on a name given both ways.
  */
  lemma WrapperForwards(w: Callable, args: seq<Value>, kwargs: map<string, Value>)
    requires w.Wrapper? && w.func.Generated? && Distinct(w.pos)
    ensures Apply(w, args, kwargs).Success? <==> forall i :: 0 <= i < Min(|w.pos|, |args|) ==> w.pos[i] !in kwargs
    ensures Apply(w, args, kwargs).Success? ==>
              var inv := Apply(w, args, kwargs).value;
              && inv.op == w.func.op && inv.args == [] && inv.kwargs.Keys == {w.argName}
              && inv.kwargs[w.argName].Built?
              && inv.kwargs[w.argName].typeName == w.options.name
              && var fields := inv.kwargs[w.argName].fields;
              && (forall k :: k in fields <==> k in kwargs || exists i :: 0 <= i < Min(|w.pos|, |args|) && w.pos[i] == k)
              && (forall i :: 0 <= i < Min(|w.pos|, |args|) ==> w.pos[i] in fields && fields[w.pos[i]] == args[i])
              && (forall k :: k in kwargs ==> fields[k] == kwargs[k])
  {
    var call := ConfigCall(w.pos, args, kwargs);
    if call.Success? {
      var fields := call.value;
      var arg := map[w.argName := Built(w.options.name, fields)];
      assert Apply(w.func, [], arg) == Success(Invocation(w.func.op, [], arg));
      assert Apply(w, args, kwargs) == Success(Invocation(w.func.op, [], arg));
      forall i | 0 <= i < Min(|w.pos|, |args|)
        ensures w.pos[i] in fields && fields[w.pos[i]] == args[i]
      {
      }
    } else {
      assert Apply(w, args, kwargs) == Failure(DuplicateKeyword);
    }
  }

  /** Positional values beyond the required names are dropped without complaint. */
  lemma ExtraPositionalDropped(pos: seq<string>, args: seq<Value>, extra: seq<Value>, kwargs: map<string, Value>)
    requires |args| == |pos|
    ensures ConfigCall(pos, args + extra, kwargs) == ConfigCall(pos, args, kwargs)
  {
    var n := |pos|;
    assert Min(|pos|, |args + extra|) == n;
    var z1, z2 := Zip(pos, args + extra), Zip(pos, args);
    if n > 0 {
      assert (args + extra)[..n - 1] == args[..n - 1];
      assert (args + extra)[n - 1] == args[n - 1];
    }
    assert z1 == z2;
  }

  /**
    With required `a`, `b` and defaulted `c`: `op(1, 2)` gives the constructor `a=1, b=2` (it fills in `c` itself),
    `op(a=1, b=2, c=9)` passes `c=9` through, and `op(1, a=2)` is refused.
  */
  lemma CallExamples(one: Value, two: Value, nine: Value)
    ensures ConfigCall(["a", "b"], [one, two], map[]) == Success(map["a" := one, "b" := two])
    ensures ConfigCall(["a", "b"], [], map["a" := one, "b" := two, "c" := nine])
            == Success(map["a" := one, "b" := two, "c" := nine])
    ensures ConfigCall(["a", "b"], [one], map["a" := two]) == Failure(DuplicateKeyword)
  {
    var pos := ["a", "b"];
    assert pos[..1] == ["a"] && [one, two][..1] == [one];
    var ab := map["a" := one, "b" := two];
    assert Zip(pos, [one, two]) == ab;
    assert ab + map[] == ab;
    var abc := map["a" := one, "b" := two, "c" := nine];
    assert Zip(pos, []) == map[];
    assert map[] + abc == abc;
    assert Zip(pos, [one]) == map["a" := one];
  }
}
