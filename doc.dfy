/** The doc attribute the fn rule attaches to each emitted `pub fn`
    (src/lib.rs:267-295): a fenced Rust code block whose info string is the
    code-block tag and whose code wraps the prefixes, body and suffixes in a
    function named after the test. Token rendering stands in for `stringify!`. */
module Doc {
  import opened Tokens
  import opened Wrappers
  import opened Expansion

  const Fence: string := "````"

  /** The code of the doc-test: `fn name() { .. }` around the rendered tokens. */
  function Code(name: string, tokens: seq<Tree>): string {
    " fn " + name + "() {\n" + RenderSeq(tokens) + "\n}"
  }

  /** The name of the emitted function: the last component of its path. */
  function TestName(a: Artifact): string
    requires |a.path| > 0
  {
    a.path[|a.path| - 1]
  }

  /** The doc string of an artifact, piece by piece as the fn rule concatenates
      it. A reader finds the tag as the info string of a fenced block whose code
      is the test function around the rendered tokens. */
  function DocString(a: Artifact): (r: string)
    requires |a.path| > 0
    ensures '\n' !in a.tag ==> InfoString(r) == Some(a.tag)
    ensures '\n' !in a.tag ==> BlockCode(r) == Some(Code(TestName(a), a.tokens))
  {
    var doc := Fence + a.tag + "\n fn " + TestName(a) + "() {\n" + RenderSeq(a.tokens) + "\n}\n" + Fence + "\n";
    var code := Code(TestName(a), a.tokens);
    assert doc == Fence + a.tag + "\n" + code + "\n" + Fence + "\n";
    if '\n' !in a.tag then
      ReadInfo(a.tag, code);
      ReadCode(a.tag, code);
      doc
    else doc
  }

  /** The text up to the first line break. */
  function FirstLine(s: string): (r: string)
    decreases s
    ensures |r| <= |s| && r == s[..|r|] && '\n' !in r
  {
    if s == [] || s[0] == '\n' then [] else [s[0]] + FirstLine(s[1..])
  }

  /** What a reader of the doc string takes for the code block's info string:
      the rest of the line opened by the fence. */
  function InfoString(doc: string): (r: Option<string>)
    ensures r.Some? ==> '\n' !in r.value
  {
    if |doc| >= |Fence| && doc[..|Fence|] == Fence then Some(FirstLine(doc[|Fence|..])) else None
  }

  /** The code between the fence line and a closing fence at the end, if any. */
  function BlockCode(doc: string): (r: Option<string>)
    ensures r.Some? ==> InfoString(doc).Some? &&
                        doc == Fence + InfoString(doc).value + "\n" + r.value + "\n" + Fence + "\n"
  {
    match InfoString(doc)
    case None => None
    case Some(info) =>
      var start := |Fence| + |info| + 1;
      var close := "\n" + Fence + "\n";
      if |doc| >= start + |close| && doc[|Fence| + |info|] == '\n' && doc[|doc| - |close|..] == close then
        var code := doc[start..|doc| - |close|];
        assert doc[..|Fence|] == Fence;
        assert doc[|Fence|..][..|info|] == info;
        assert doc == doc[..|Fence|] + doc[|Fence|..|Fence| + |info|] + [doc[|Fence| + |info|]] + code
                      + doc[|doc| - |close|..];
        Some(code)
      else None
  }

  lemma {:induction false} FirstLineOf(line: string, rest: string)
    requires '\n' !in line
    ensures FirstLine(line + "\n" + rest) == line
  {
    if line != [] {
      assert (line + "\n" + rest)[1..] == line[1..] + "\n" + rest;
      FirstLineOf(line[1..], rest);
      assert [line[0]] + line[1..] == line;
    } else {
      assert line + "\n" + rest == "\n" + rest;
    }
  }

  /** The info string of a fenced block is read back. */
  lemma ReadInfo(info: string, code: string)
    requires '\n' !in info
    ensures InfoString(Fence + info + "\n" + code + "\n" + Fence + "\n") == Some(info)
  {
    var doc := Fence + info + "\n" + code + "\n" + Fence + "\n";
    assert doc[|Fence|..] == info + "\n" + (code + "\n" + Fence + "\n");
    FirstLineOf(info, code + "\n" + Fence + "\n");
  }

  /** The code of a fenced block is read back. */
  lemma ReadCode(info: string, code: string)
    requires '\n' !in info
    ensures BlockCode(Fence + info + "\n" + code + "\n" + Fence + "\n") == Some(code)
  {
    var doc := Fence + info + "\n" + code + "\n" + Fence + "\n";
    var close := "\n" + Fence + "\n";
    ReadInfo(info, code);
    assert doc == (Fence + info + "\n" + code) + close;
    assert doc[|Fence| + |info|] == '\n';
    assert doc[|doc| - |close|..] == close;
    assert doc[|Fence| + |info| + 1..|doc| - |close|] == code;
  }

  /** The doc string the fn rule attaches to its `pub fn`: the info string is
      empty for `should_compile` and `compile_fail` for `should_not_compile`,
      and the code block is `fn name() {..}` around the prefix contents, the
      body and the suffix contents. */
  lemma EmittedDocString(mode: Mode, prefixes: seq<Tree>, name: string, body: seq<Tree>,
                         suffixes: seq<Tree>, path: seq<string>)
    requires EmitFn(mode, prefixes, name, body, suffixes, path).Ok?
    ensures var a := EmitFn(mode, prefixes, name, body, suffixes, path).value[0];
            InfoString(DocString(a)) == Some(CodeBlockTag(mode)) &&
            BlockCode(DocString(a)) ==
              Some(Code(name, UnwrapAll(prefixes).value + body + UnwrapAll(suffixes).value))
  {
    var a := EmitFn(mode, prefixes, name, body, suffixes, path).value[0];
    assert TestName(a) == (path + [name])[|path|] == name;
    assert '\n' !in CodeBlockTag(mode);
  }
}
