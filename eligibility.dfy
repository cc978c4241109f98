/**
  The eligibility filter `get_methods` (boiled.py:48-72): which attribute
  names of the API object are operations to wrap.
*/
module Eligibility {
  import opened Wrappers
  import opened Text
  import opened Descriptors

  /** Collaborator accessors that are not operations. */
  const MethodsIgnore: seq<string> := ["api_client"]

  /** Alternate forms of an operation, matched as the whole token `_<suffix>`. */
  const MethodsIgnoreSuffixes: seq<string> := ["with_http_info", "without_preload_content"]

  /** The supported verbs an operation name must end in. */
  const MethodsAllowedSuffixes: seq<string> := ["get", "post", "put"]

  /** Names the generator passes over silently. */
  predicate Skipped(n: string) {
    || StartsWith(n, "_")
    || n in MethodsIgnore
    || exists i :: 0 <= i < |MethodsIgnoreSuffixes| && EndsWith(n, "_" + MethodsIgnoreSuffixes[i])
  }

  /** The last underscore-delimited token of n is a supported verb. */
  predicate Allowed(n: string) {
    LastToken(n) in MethodsAllowedSuffixes
  }

  /** What the generator does with one name. */
  datatype Step = Skip | Yield | Reject

  function Classify(n: string): Step {
    if Skipped(n) then Skip else if Allowed(n) then Yield else Reject
  }

  /** The names `get_methods` yields, in order, or the error it raises. */
  function EligibleNames(names: seq<string>): Result<seq<string>, Error> {
    if names == [] then Success([])
    else
      match Classify(names[0])
      case Skip => EligibleNames(names[1..])
      case Reject => Failure(ConfigurationError)
      case Yield => Then([names[0]], EligibleNames(names[1..]))
  }

  /** Prefix the names `done` to a later result of the enumeration. */
  function Then(done: seq<string>, later: Result<seq<string>, Error>): Result<seq<string>, Error> {
    match later
    case Success(rest) => Success(done + rest)
    case Failure(e) => Failure(e)
  }

  lemma ThenNothing(later: Result<seq<string>, Error>)
    ensures Then([], later) == later
  {
    if later.Success? {
      assert [] + later.value == later.value;
    }
  }

  lemma ThenThen(a: seq<string>, b: seq<string>, later: Result<seq<string>, Error>)
    ensures Then(a, Then(b, later)) == Then(a + b, later)
  {
    if later.Success? {
      assert a + (b + later.value) == (a + b) + later.value;
    }
  }

  /** The body of the generator's loop for one name (boiled.py:55-72). */
  method Examine(n: string) returns (step: Step)
    ensures step == Classify(n)
  {
    if StartsWith(n, "_") {
      return Skip;
    }
    if n in MethodsIgnore {
      return Skip;
    }
    var j := 0;
    while j < |MethodsIgnoreSuffixes|
      invariant 0 <= j <= |MethodsIgnoreSuffixes|
      invariant forall k :: 0 <= k < j ==> !EndsWith(n, "_" + MethodsIgnoreSuffixes[k])
    {
      if EndsWith(n, "_" + MethodsIgnoreSuffixes[j]) {
        return Skip;
      }
      j := j + 1;
    }
    var suffix := LastToken(n);
    if suffix !in MethodsAllowedSuffixes {
      return Reject;
    }
    return Yield;
  }

  /** `list(get_methods(api))` over the names `dir(api)` lists. */
  method GetMethods(names: seq<string>) returns (r: Result<seq<string>, Error>)
    ensures r == EligibleNames(names)
  {
    var yielded: seq<string> := [];
    assert names[0..] == names;
    ThenNothing(EligibleNames(names));
    for i := 0 to |names|
      invariant EligibleNames(names) == Then(yielded, EligibleNames(names[i..]))
    {
      var n := names[i];
      assert names[i..][0] == n && names[i..][1..] == names[i + 1..];
      var step := Examine(n);
      match step
      case Skip =>
      case Reject =>
        return Failure(ConfigurationError);
      case Yield =>
        ThenThen(yielded, [n], EligibleNames(names[i + 1..]));
        yielded := yielded + [n];
    }
    assert names[|names|..] == [];
    assert yielded + [] == yielded;
    r := Success(yielded);
  }

  /** Every yielded name is one of the input names, is not skipped, and ends in a supported verb. */
  lemma {:induction false} EligibleNamesSound(names: seq<string>)
    ensures EligibleNames(names).Success? ==>
              forall n :: n in EligibleNames(names).value ==>
                n in names && !Skipped(n) && LastToken(n) in MethodsAllowedSuffixes
  {
    if names != [] {
      EligibleNamesSound(names[1..]);
    }
  }

  /**
    The enumeration succeeds exactly when every name that is not skipped ends in
    a supported verb, and then it yields exactly the names that are not skipped.
  */
  lemma {:induction false} EligibleNamesExact(names: seq<string>)
    ensures EligibleNames(names).Success? <==> forall n :: n in names ==> Skipped(n) || Allowed(n)
    ensures EligibleNames(names).Success? ==>
              forall n :: n in names ==> (n in EligibleNames(names).value <==> !Skipped(n))
  {
    if names != [] {
      EligibleNamesExact(names[1..]);
      EligibleNamesSound(names[1..]);
      assert forall n :: n in names <==> n == names[0] || n in names[1..];
      var r := EligibleNames(names);
      var rest := EligibleNames(names[1..]);
      if r.Success? && Classify(names[0]) == Yield {
        assert r.value == [names[0]] + rest.value;
      }
    }
  }

  /** The enumeration keeps the order of `dir`: enumerating a + b is enumerating a, then b. */
  lemma {:induction false} EligibleNamesAppend(a: seq<string>, b: seq<string>)
    ensures EligibleNames(a + b) ==
              match EligibleNames(a)
              case Success(x) => Then(x, EligibleNames(b))
              case Failure(e) => Failure(e)
  {
    if a == [] {
      assert a + b == b;
      ThenNothing(EligibleNames(b));
    } else {
      assert (a + b)[0] == a[0] && (a + b)[1..] == a[1..] + b;
      EligibleNamesAppend(a[1..], b);
      var tail := EligibleNames(a[1..]);
      if Classify(a[0]) == Yield && tail.Success? {
        ThenThen([a[0]], tail.value, EligibleNames(b));
      }
    }
  }

  /** A name whose verb is not supported aborts the enumeration (the `foo_delete` case). */
  lemma UnsupportedVerbAborts()
    ensures EligibleNames(["foo_delete"]) == Failure(ConfigurationError)
  {
    assert "foo_delete"[4..] == "delete";
    LastTokenAfter("foo_delete", 3);
    assert "foo_delete"[0] != "api_client"[0];
    assert !Skipped("foo_delete");
  }

  /** The alternate forms `<op>_with_http_info` and `<op>_without_preload_content` of any operation are passed over. */
  lemma AlternateFormsSkipped(op: string)
    ensures Classify(op + "_with_http_info") == Skip
    ensures Classify(op + "_without_preload_content") == Skip
  {
    var infoSuffix, rawSuffix := "_" + MethodsIgnoreSuffixes[0], "_" + MethodsIgnoreSuffixes[1];
    assert infoSuffix == "_with_http_info" && rawSuffix == "_without_preload_content";
    assert EndsWith(op + infoSuffix, infoSuffix);
    assert EndsWith(op + rawSuffix, rawSuffix);
  }

  lemma OperationYielded()
    ensures Classify("something_post") == Yield
  {
    var post := "something_post";
    assert post[10..] == "post";
    LastTokenAfter(post, 9);
    assert post[0] == 's';
  }

  /** On a generated client, accessors and alternate forms are passed over and operations yielded. */
  lemma GeneratedClientNames()
    ensures var post := "something_post";
            EligibleNames(["__init__", "api_client", post, post + "_with_http_info",
                           post + "_without_preload_content"])
            == Success([post])
  {
    var post := "something_post";
    var info, raw := post + "_with_http_info", post + "_without_preload_content";
    AlternateFormsSkipped(post);
    OperationYielded();
    assert Classify("__init__") == Skip;
    assert Classify("api_client") == Skip;
    var names := ["__init__", "api_client", post, info, raw];
    assert names[1..][1..][1..][1..][1..] == [];
    assert EligibleNames(names[1..][1..][1..][1..]) == Success([]);
    assert EligibleNames(names[1..][1..][1..]) == Success([]);
    assert names[1..][1..][0] == post && [post] + [] == [post];
    assert EligibleNames(names[1..][1..]) == Success([post]);
    assert EligibleNames(names[1..]) == Success([post]);
  }
}
