/**
  The documentation text appended to a wrapped operation's docstring:
  `signature_to_doc` (boiled.py:129-147) and `indent` (boiled.py:150-155).
*/
module Docs {
  import opened Text
  import opened Descriptors

  /** The indentation depth `signature_to_doc` uses (the default `n=8` of `indent`). */
  const Depth: nat := 8

  /**
    `indent(seq, n)`: every non-empty line gets n spaces in front; empty lines stay empty.
  */
  function Indent(lines: seq<string>, n: nat): (r: seq<string>)
    ensures |r| == |lines|
    ensures forall k :: 0 <= k < |r| ==> (r[k] == "" <==> lines[k] == "")
    ensures forall k :: 0 <= k < |r| && lines[k] != "" ==> StartsWith(r[k], Repeat(' ', n)) && r[k][n..] == lines[k]
  {
    if lines == [] then []
    else [if lines[0] == "" then "" else Repeat(' ', n) + lines[0]] + Indent(lines[1..], n)
  }

  /** The header line naming the options type. */
  function Header(name: string): string {
    "Parameters for " + name + ":"
  }

  /** `str(v)` for each constructor parameter, in order; `render` stands for `str(inspect.Parameter)`. */
  function Rendered(ps: seq<Param>, render: Param -> string): (r: seq<string>)
    ensures |r| == |ps| && forall k :: 0 <= k < |ps| ==> r[k] == render(ps[k])
  {
    seq(|ps|, k requires 0 <= k < |ps| => render(ps[k]))
  }

  /**
    The list `res` before indentation: a blank line, the header, a dashed
    underline as long as the header, one line per constructor parameter (private
    ones too), and a closing blank line.
  */
  function DocLines(options: OptionsType, render: Param -> string): (r: seq<string>)
    ensures |r| == |options.params| + 4
    ensures r[0] == "" && r[|r| - 1] == ""
    ensures r[1] == Header(options.name)
    ensures |r[2]| == |r[1]| && forall k :: 0 <= k < |r[2]| ==> r[2][k] == '-'
    ensures forall k :: 0 <= k < |options.params| ==> r[3 + k] == render(options.params[k])
  {
    var header := Header(options.name);
    ["", header, Repeat('-', |header|)] + Rendered(options.params, render) + [""]
  }

  /** The string `signature_to_doc` returns. */
  function DocText(options: OptionsType, render: Param -> string): string {
    JoinLines(Indent(DocLines(options, render), Depth))
  }

  /** `signature_to_doc(ConfigType)` */
  method SignatureToDoc(options: OptionsType, render: Param -> string) returns (doc: string)
    ensures doc == DocText(options, render)
  {
    var fn := options.name;
    var header := "Parameters for " + fn + ":";
    var line := Repeat('-', |header|);
    var res := ["", header, line];
    var params := options.params;
    for i := 0 to |params|
      invariant res == ["", header, line] + Rendered(params[..i], render)
    {
      assert Rendered(params[..i + 1], render) == Rendered(params[..i], render) + [render(params[i])];
      res := res + [render(params[i])];
    }
    assert params[..|params|] == params;
    res := res + [""];
    res := Indent(res, Depth);
    doc := JoinLines(res);
  }

  /** An indented non-empty line is the spaces followed by the line. */
  lemma IndentedLine(lines: seq<string>, n: nat, k: nat)
    requires k < |lines|
    ensures Indent(lines, n)[k] == if lines[k] == "" then "" else Repeat(' ', n) + lines[k]
  {
    var r := Indent(lines, n)[k];
    if lines[k] != "" {
      assert r == r[..n] + r[n..];
    }
  }

  /**
    Read back line by line, the documentation text is the indented list: one
    header, one underline, one line per constructor parameter in order, and
    blank first and last lines, provided the type name and the rendered
    parameters hold no newline.
  */
  lemma DocReadsBack(options: OptionsType, render: Param -> string)
    requires '\n' !in options.name
    requires forall k :: 0 <= k < |options.params| ==> '\n' !in render(options.params[k])
    ensures var lines := SplitLines(DocText(options, render));
            var header := Header(options.name);
            && |lines| == |options.params| + 4
            && lines[0] == "" && lines[|lines| - 1] == ""
            && lines[1] == Repeat(' ', Depth) + header
            && lines[2] == Repeat(' ', Depth) + Repeat('-', |header|)
            && forall k :: 0 <= k < |options.params| ==>
                 lines[3 + k] == if render(options.params[k]) == "" then ""
                                 else Repeat(' ', Depth) + render(options.params[k])
  {
    var raw := DocLines(options, render);
    var indented := Indent(raw, Depth);
    forall k | 0 <= k < |raw|
      ensures '\n' !in raw[k]
    {
      if k == 1 {
        assert raw[1] == "Parameters for " + options.name + ":";
      } else if 3 <= k < |raw| - 1 {
        assert raw[k] == render(options.params[k - 3]);
      }
    }
    forall k | 0 <= k < |indented|
      ensures '\n' !in indented[k]
      ensures indented[k] == if raw[k] == "" then "" else Repeat(' ', Depth) + raw[k]
    {
      IndentedLine(raw, Depth, k);
    }
    SplitJoin(indented);
    IndentedLine(raw, Depth, 1);
    IndentedLine(raw, Depth, 2);
    assert raw[2] == Repeat('-', |Header(options.name)|);
    forall k | 0 <= k < |options.params|
      ensures indented[3 + k] == if render(options.params[k]) == "" then ""
                                 else Repeat(' ', Depth) + render(options.params[k])
    {
      IndentedLine(raw, Depth, 3 + k);
    }
  }
}
