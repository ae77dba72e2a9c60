/** The expansion engine: `should_compile!` / `should_not_compile!`
    (src/lib.rs:37-66, src/lib.rs:99-128), the per-item fan-out
    `__should_it_compile!` (src/lib.rs:177-198), the tag selection
    `__code_block_tag!` (src/lib.rs:203-211) and the item rules of
    `__each_item!` (src/lib.rs:215-320), written over token streams.

    A successful expansion is the sequence of emitted doc-test functions, each
    as an `Artifact`: the module path and name of the `pub fn`, the code-block
    tag, and the token trees that `stringify!` turns into the doc-test body.
    Any matcher failure aborts the whole expansion with an `Error`. */
module Expansion {
  import opened Tokens
  import opened Wrappers
  import opened Surface

  /** The `{ mode = ... }` token tree threaded through the helper macros. */
  datatype Mode = ShouldCompile | ShouldNotCompile

  /** Which matcher failed: an entry macro, `__each_item!` on an item with no
      rule, or the fn rule on a fragment that is neither `{..}` nor `({..})`. */
  datatype Error = EntryShape | ItemShape | FragmentShape

  /** One emitted `pub fn` with its doc-test. `path` is the chain of enclosing
      generated modules followed by the function name. */
  datatype Artifact = Artifact(path: seq<string>, tag: string, tokens: seq<Tree>)

  /** Name of the macro that each mode re-invokes (src/lib.rs:313). */
  function ModeName(m: Mode): string {
    match m
    case ShouldCompile => "should_compile"
    case ShouldNotCompile => "should_not_compile"
  }

  /** The attribute token tree `[should_compile]` or `[should_not_compile]`. */
  function MarkerAttr(m: Mode): Tree {
    Group(Bracket, [Ident(ModeName(m))])
  }

  /** `__code_block_tag!`: nothing after the opening backticks for a test
      expected to compile, `compile_fail` for one expected not to. */
  function CodeBlockTag(m: Mode): (tag: string)
    ensures tag == "" <==> m == ShouldCompile
    ensures tag == "compile_fail" <==> m == ShouldNotCompile
  {
    match m
    case ShouldCompile => ""
    case ShouldNotCompile => "compile_fail"
  }

  predicate IsTag(tag: string) {
    tag == "" || tag == "compile_fail"
  }

  /** What every artifact of an expansion under `path` satisfies. */
  predicate EmittedUnder(path: seq<string>, a: Artifact) {
    |a.path| > |path| && a.path[..|path|] == path && IsTag(a.tag)
  }

  /** How the fn rule reads one fragment: a brace group, or a parenthesis
      group holding exactly one brace group, gives the brace group's
      contents; no other shape is accepted. */
  function Unwrap(t: Tree): (r: Option<seq<Tree>>)
    ensures r.Some? ==> t == Group(Brace, r.value) || t == Group(Paren, [Group(Brace, r.value)])
    ensures r.None? <==> !(t.Group? && (t.delim == Brace ||
                           (t.delim == Paren && |t.inner| == 1 && t.inner[0].Group? && t.inner[0].delim == Brace)))
  {
    match t
    case Group(Brace, x) => Some(x)
    case Group(Paren, inner) =>
      if |inner| == 1 && inner[0].Group? && inner[0].delim == Brace then Some(inner[0].inner) else None
    case _ => None
  }

  /** The contents of all fragments, in order; fails when any one is malformed. */
  function UnwrapAll(frags: seq<Tree>): (r: Option<seq<Tree>>)
    decreases frags
    ensures r.Some? <==> forall i :: 0 <= i < |frags| ==> Unwrap(frags[i]).Some?
  {
    if frags == [] then Some([])
    else
      match (Unwrap(frags[0]), UnwrapAll(frags[1..]))
      case (Some(x), Some(rest)) => Some(x + rest)
      case _ => None
  }

  /** The fn rule (src/lib.rs:247-298): one `pub fn name` whose doc-test holds
      the prefix contents, the body and the suffix contents. It fails when any
      fragment does not have one of the two accepted shapes. */
  function EmitFn(mode: Mode, prefixes: seq<Tree>, name: string, body: seq<Tree>,
                  suffixes: seq<Tree>, path: seq<string>): (r: Result<seq<Artifact>, Error>)
    ensures r.Err? <==> (exists i :: 0 <= i < |prefixes| && Unwrap(prefixes[i]).None?) ||
                        (exists i :: 0 <= i < |suffixes| && Unwrap(suffixes[i]).None?)
    ensures r.Err? ==> r.error == FragmentShape
    ensures r.Ok? ==> |r.value| == 1 && r.value[0].path == path + [name] && EmittedUnder(path, r.value[0])
    ensures r.Ok? ==> r.value[0].tag == CodeBlockTag(mode) &&
                      UnwrapAll(prefixes).Some? && UnwrapAll(suffixes).Some? &&
                      r.value[0].tokens == UnwrapAll(prefixes).value + body + UnwrapAll(suffixes).value
  {
    match (UnwrapAll(prefixes), UnwrapAll(suffixes))
    case (Some(pre), Some(suf)) =>
      assert (path + [name])[..|path|] == path;
      Ok([Artifact(path + [name], CodeBlockTag(mode), pre + body + suf)])
    case _ => Err(FragmentShape)
  }

  /** `kw! f;` for every fragment `f`, as the mod rule writes them (src/lib.rs:314, 316). */
  function Declare(kw: string, frags: seq<Tree>): (r: seq<Tree>)
    decreases frags
    ensures SeqWeight(r) == FragmentsWeight(frags)
    ensures |r| == 4 * |frags|
  {
    if frags == [] then []
    else
      var head := [Ident(kw), Punct('!'), frags[0], Punct(';')];
      var tail := Declare(kw, frags[1..]);
      SeqWeightAppend(head, tail);
      SeqWeightCons3(head);
      assert SeqWeight(head[3..]) == 0 by {
        assert head[3..][1..] == [];
      }
      head + tail
  }

  /** The token stream the mod rule passes to the re-invoked entry macro:
      the inherited prefixes, the module body, the inherited suffixes. */
  function Reinvocation(prefixes: seq<Tree>, body: seq<Tree>, suffixes: seq<Tree>): (r: seq<Tree>)
    ensures SeqWeight(r) == FragmentsWeight(prefixes) + SeqWeight(body) + FragmentsWeight(suffixes)
  {
    var pre := Declare("prefix", prefixes);
    var suf := Declare("suffix", suffixes);
    SeqWeightAppend(pre, body);
    SeqWeightAppend(pre + body, suf);
    pre + body + suf
  }

  /** An entry macro in mode `mode` applied to `ts`, its output placed in the
      module at `path`. A stream that is one `{ }` group is unwrapped first
      (src/lib.rs:40-42); otherwise the entry matcher must accept it, and every
      item is expanded with the same mode, prefixes and suffixes. */
  function Expand(mode: Mode, ts: seq<Tree>, path: seq<string>): (r: Result<seq<Artifact>, Error>)
    decreases SeqWeight(ts), 2
    ensures r.Ok? ==> forall a :: a in r.value ==> EmittedUnder(path, a)
  {
    if IsBraceGroup(ts) then
      assert SeqWeight(ts) == 1 + SeqWeight(ts[0].inner);
      Expand(mode, ts[0].inner, path)
    else
      match ParseInvocation(ts)
      case None => Err(EntryShape)
      case Some(shape) => ExpandItems(mode, shape.prefixes, shape.items, shape.suffixes, path)
  }

  /** `__should_it_compile!`: one `__each_item!` per item, outputs in item
      order. The first failing item, if any, is the result. */
  function ExpandItems(mode: Mode, prefixes: seq<Tree>, items: seq<Item>, suffixes: seq<Tree>,
                       path: seq<string>): (r: Result<seq<Artifact>, Error>)
    decreases FragmentsWeight(prefixes) + ItemsWeight(items) + FragmentsWeight(suffixes), 1
    ensures r.Ok? ==> forall a :: a in r.value ==> EmittedUnder(path, a)
  {
    if items == [] then Ok([])
    else
      match EachItem(mode, prefixes, items[0], suffixes, path)
      case Err(e) => Err(e)
      case Ok(first) =>
        match ExpandItems(mode, prefixes, items[1..], suffixes, path)
        case Err(e) => Err(e)
        case Ok(more) => Ok(first + more)
  }

  /** `__each_item!` (src/lib.rs:215-320). A leading `#[should_compile]` or
      `#[should_not_compile]` is removed and replaces the mode; a bare
      `fn name() {..}` is emitted; a bare `mod name {..}` becomes a generated
      module holding the mode's entry macro re-invoked on the inherited
      fragments around the module body. Anything else has no rule. */
  function EachItem(mode: Mode, prefixes: seq<Tree>, item: Item, suffixes: seq<Tree>,
                    path: seq<string>): (r: Result<seq<Artifact>, Error>)
    decreases FragmentsWeight(prefixes) + ItemWeight(item) + FragmentsWeight(suffixes), 0
    ensures r.Ok? ==> forall a :: a in r.value ==> EmittedUnder(path, a)
  {
    if |item.attrs| > 0 && item.attrs[0] == MarkerAttr(ShouldCompile) then
      EachItem(ShouldCompile, prefixes, item.(attrs := item.attrs[1..]), suffixes, path)
    else if |item.attrs| > 0 && item.attrs[0] == MarkerAttr(ShouldNotCompile) then
      EachItem(ShouldNotCompile, prefixes, item.(attrs := item.attrs[1..]), suffixes, path)
    else if item.attrs == [] && item.fnName.Some? && item.modName.None? then
      EmitFn(mode, prefixes, item.fnName.value, item.body, suffixes, path)
    else if item.attrs == [] && item.fnName.None? && item.modName.Some? then
      var sub := Expand(mode, Reinvocation(prefixes, item.body, suffixes), path + [item.modName.value]);
      if sub.Ok? then
        EmittedUnderParent(path, item.modName.value, sub.value);
        sub
      else sub
    else Err(ItemShape)
  }

  /** What lies below a child module lies below its parent. */
  lemma EmittedUnderParent(path: seq<string>, name: string, arts: seq<Artifact>)
    requires forall a :: a in arts ==> EmittedUnder(path + [name], a)
    ensures forall a :: a in arts ==> EmittedUnder(path, a)
  {
    forall a | a in arts ensures EmittedUnder(path, a) {
      assert a.path[..|path|] == a.path[..|path| + 1][..|path|];
    }
  }

  /** `should_compile! { .. }` */
  function ShouldCompileMacro(ts: seq<Tree>): (r: Result<seq<Artifact>, Error>)
    ensures r.Ok? ==> forall a :: a in r.value ==> |a.path| > 0 && IsTag(a.tag)
  {
    Expand(ShouldCompile, ts, [])
  }

  /** `should_not_compile! { .. }` */
  function ShouldNotCompileMacro(ts: seq<Tree>): (r: Result<seq<Artifact>, Error>)
    ensures r.Ok? ==> forall a :: a in r.value ==> |a.path| > 0 && IsTag(a.tag)
  {
    Expand(ShouldNotCompile, ts, [])
  }
}
