/**
  The options-parameter detector `get_argument` (boiled.py:101-126): the one
  user parameter of an operation and the type its annotation wraps.
*/
module Detector {
  import opened Wrappers
  import opened Text
  import opened Descriptors

  /** An annotation counts unless it is private or the return annotation. */
  predicate Qualifies(k: string) {
    !StartsWith(k, "_") && k != "return"
  }

  /** The qualifying annotations, in order. */
  function Qualifying(anns: seq<(string, Annotation)>): seq<(string, Annotation)> {
    if anns == [] then []
    else if Qualifies(anns[0].0) then [anns[0]] + Qualifying(anns[1..])
    else Qualifying(anns[1..])
  }

  /**
    The `collected` dict of the loop: each qualifying name with the first type
    argument of its annotation, or the error of the first annotation without one.
  */
  function Collect(anns: seq<(string, Annotation)>): Result<seq<(string, OptionsType)>, Error> {
    if anns == [] then Success([])
    else
      var (k, v) := anns[0];
      if !Qualifies(k) then Collect(anns[1..])
      else if v.args == [] then Failure(MissingTypeArgument(k))
      else
        match Collect(anns[1..])
        case Success(rest) => Success([(k, v.args[0])] + rest)
        case Failure(e) => Failure(e)
  }

  /** What `get_argument` returns: nothing, the one (name, options type) pair, or an error. */
  function Detect(anns: seq<(string, Annotation)>): Result<Option<(string, OptionsType)>, Error> {
    match Collect(anns)
    case Failure(e) => Failure(e)
    case Success(collected) =>
      if |collected| == 0 then Success(None)
      else if |collected| != 1 then Failure(ConfigurationError)
      else Success(Some(collected[0]))
  }

  /** Collected pairs so far, followed by what the rest of the loop collects. */
  function Prefixed(done: seq<(string, OptionsType)>, later: Result<seq<(string, OptionsType)>, Error>)
    : Result<seq<(string, OptionsType)>, Error>
  {
    match later
    case Success(rest) => Success(done + rest)
    case Failure(e) => Failure(e)
  }

  /** `get_argument(func)` */
  method GetArgument(func: Callable) returns (r: Result<Option<(string, OptionsType)>, Error>)
    ensures r == Detect(Annotations(func))
  {
    var anno := Annotations(func);
    var collected: seq<(string, OptionsType)> := [];
    assert anno[0..] == anno;
    assert Prefixed([], Collect(anno)) == Collect(anno) by {
      if Collect(anno).Success? {
        assert [] + Collect(anno).value == Collect(anno).value;
      }
    }
    for i := 0 to |anno|
      invariant Collect(anno) == Prefixed(collected, Collect(anno[i..]))
    {
      var (k, v) := anno[i];
      assert anno[i..][0] == (k, v) && anno[i..][1..] == anno[i + 1..];
      if StartsWith(k, "_") {
        continue;
      }
      if k == "return" {
        continue;
      }
      if v.args == [] {
        return Failure(MissingTypeArgument(k));
      }
      var later := Collect(anno[i + 1..]);
      if later.Success? {
        assert collected + ([(k, v.args[0])] + later.value) == (collected + [(k, v.args[0])]) + later.value;
      }
      collected := collected + [(k, v.args[0])];
    }
    assert anno[|anno|..] == [] && collected + [] == collected;

    var nCollected := |collected|;
    if nCollected == 0 {
      return Success(None);
    }
    if nCollected != 1 {
      return Failure(ConfigurationError);
    }
    return Success(Some(collected[0]));
  }

  /** An annotation qualifies exactly when it is neither private nor the return annotation. */
  lemma {:induction false} QualifyingMembers(anns: seq<(string, Annotation)>)
    ensures forall x :: x in Qualifying(anns) <==> x in anns && Qualifies(x.0)
  {
    if anns != [] {
      QualifyingMembers(anns[1..]);
      assert forall x :: x in anns <==> x == anns[0] || x in anns[1..];
    }
  }

  /**
    The loop fails exactly when some qualifying annotation has no type argument;
    otherwise it collects, in order, each qualifying name with its first type argument.
  */
  lemma {:induction false} CollectQualifying(anns: seq<(string, Annotation)>)
    ensures Collect(anns).Success? <==>
              forall k :: 0 <= k < |Qualifying(anns)| ==> Qualifying(anns)[k].1.args != []
    ensures Collect(anns).Success? ==>
              && |Collect(anns).value| == |Qualifying(anns)|
              && forall k :: 0 <= k < |Qualifying(anns)| ==>
                   Collect(anns).value[k] == (Qualifying(anns)[k].0, Qualifying(anns)[k].1.args[0])
    ensures Collect(anns).Failure? ==> Collect(anns).error.MissingTypeArgument?
  {
    if anns != [] {
      CollectQualifying(anns[1..]);
      var q, q' := Qualifying(anns), Qualifying(anns[1..]);
      if Qualifies(anns[0].0) {
        assert q == [anns[0]] + q';
        assert q[0] == anns[0];
        assert forall k :: 1 <= k < |q| ==> q[k] == q'[k - 1];
        if anns[0].1.args != [] && Collect(anns[1..]).Failure? {
          var k' :| 0 <= k' < |q'| && q'[k'].1.args == [];
          assert q[k' + 1].1.args == [];
        }
      }
    }
  }

  /**
    No qualifying annotation: nothing to wrap. Exactly one: its name and the
    first type argument of its annotation. Two or more: a configuration error.
  */
  lemma DetectCases(anns: seq<(string, Annotation)>)
    ensures Qualifying(anns) == [] ==> Detect(anns) == Success(None)
    ensures |Qualifying(anns)| == 1 && Qualifying(anns)[0].1.args != [] ==>
              Detect(anns) == Success(Some((Qualifying(anns)[0].0, Qualifying(anns)[0].1.args[0])))
    ensures |Qualifying(anns)| >= 2 && (forall x :: x in Qualifying(anns) ==> x.1.args != []) ==>
              Detect(anns) == Failure(ConfigurationError)
    ensures (exists x :: x in Qualifying(anns) && x.1.args == []) ==>
              Detect(anns).Failure? && Detect(anns).error.MissingTypeArgument?
  {
    CollectQualifying(anns);
  }

  /** The private `_request_timeout`-style parameters and the return annotation do not make an operation ambiguous. */
  lemma PrivateAndReturnIgnored(param: string, options: OptionsType, rest: seq<(string, Annotation)>)
    requires Qualifies(param)
    requires forall x :: x in rest ==> !Qualifies(x.0)
    ensures Detect([(param, Annotation([options]))] + rest) == Success(Some((param, options)))
  {
    QualifyingMembers(rest);
    assert Qualifying(rest) == [] by {
      if Qualifying(rest) != [] {
        assert Qualifying(rest)[0] in Qualifying(rest);
      }
    }
    var anns := [(param, Annotation([options]))] + rest;
    assert anns[1..] == rest;
    DetectCases(anns);
  }
}
