/** Specifications as trees, how they are written as tokens, and the reference
    tree walk that the expansion engine is proved to implement.

    A specification is a list of elements: `prefix!`/`suffix!` declarations
    (each fragment written `{..}` or `({..})`, with or without a trailing `;`),
    leaf tests `fn name() {..}` and groups `mod name {..}`, the latter two
    preceded by any number of `#[should_compile]` / `#[should_not_compile]`
    markers. */
module SpecTree {
  import opened Tokens
  import opened Expansion

  datatype Fragment = Braced(contents: seq<Tree>) | ParenBraced(contents: seq<Tree>)

  datatype Element =
    | PrefixDecl(frag: Fragment, semicolon: bool)
    | SuffixDecl(frag: Fragment, semicolon: bool)
    | FnItem(markers: seq<Mode>, name: string, body: seq<Tree>)
    | ModItem(markers: seq<Mode>, name: string, elements: seq<Element>)

  /** The token tree a fragment is written as. */
  function FragmentTree(f: Fragment): Tree {
    match f
    case Braced(x) => Group(Brace, x)
    case ParenBraced(x) => Group(Paren, [Group(Brace, x)])
  }

  function FragmentTrees(fs: seq<Fragment>): (r: seq<Tree>)
    ensures |r| == |fs| && forall i :: 0 <= i < |fs| ==> r[i] == FragmentTree(fs[i])
  {
    seq(|fs|, i requires 0 <= i < |fs| => FragmentTree(fs[i]))
  }

  /** The contents of the fragments, concatenated in order. */
  function Contents(fs: seq<Fragment>): seq<Tree>
    decreases fs
  {
    if fs == [] then [] else fs[0].contents + Contents(fs[1..])
  }

  /** The keyword a declaration is introduced by. */
  function Keyword(e: Element): string
    requires e.PrefixDecl? || e.SuffixDecl?
  {
    if e.PrefixDecl? then "prefix" else "suffix"
  }

  predicate IsDecl(kw: string, e: Element) {
    (e.PrefixDecl? || e.SuffixDecl?) && Keyword(e) == kw
  }

  /** Position in the order the entry matcher demands: prefixes, items, suffixes. */
  function Stage(e: Element): nat {
    match e
    case PrefixDecl(_, _) => 0
    case FnItem(_, _, _) => 1
    case ModItem(_, _, _) => 1
    case SuffixDecl(_, _) => 2
  }

  /** No prefix after an item or a suffix, no item after a suffix. */
  predicate Ordered(els: seq<Element>) {
    forall i, j :: 0 <= i < j < |els| ==> Stage(els[i]) <= Stage(els[j])
  }

  /** Ordered at every level of nesting. */
  predicate WellFormed(els: seq<Element>)
    decreases els
  {
    Ordered(els) && forall i :: 0 <= i < |els| ==> els[i].ModItem? ==> WellFormed(els[i].elements)
  }

  /** The fragments declared with `kw` directly in `els`, in declaration order. */
  function OwnFragments(kw: string, els: seq<Element>): seq<Fragment>
    decreases els
  {
    if els == [] then []
    else (if IsDecl(kw, els[0]) then [els[0].frag] else []) + OwnFragments(kw, els[1..])
  }

  /** The mode after stripping the markers one at a time, as `__each_item!` does. */
  function Resolve(mode: Mode, markers: seq<Mode>): Mode
    decreases markers
  {
    if markers == [] then mode else Resolve(markers[0], markers[1..])
  }

  /** How many items an element is or holds, nested items included. */
  function ElementSize(e: Element): nat {
    match e
    case FnItem(_, _, _) => 1
    case ModItem(_, _, sub) => 1 + Size(sub)
    case _ => 0
  }

  /** The number of items in the tree, nested items included. */
  function Size(els: seq<Element>): nat
    decreases els
  {
    if els == [] then 0 else ElementSize(els[0]) + Size(els[1..])
  }

  /** The number of leaf tests anywhere in the tree. */
  function CountFns(els: seq<Element>): nat
    decreases els
  {
    if els == [] then 0
    else
      (match els[0]
       case FnItem(_, _, _) => 1
       case ModItem(_, _, sub) => CountFns(sub)
       case _ => 0)
      + CountFns(els[1..])
  }

  /** The paths of the leaf tests in pre-order, depth-first declaration order. */
  function LeafPaths(els: seq<Element>, path: seq<string>): seq<seq<string>>
    decreases els
  {
    if els == [] then []
    else
      (match els[0]
       case FnItem(_, name, _) => [path + [name]]
       case ModItem(_, name, sub) => LeafPaths(sub, path + [name])
       case _ => [])
      + LeafPaths(els[1..], path)
  }

  /** The reference walk. Entering a list of elements, its own prefixes are
      appended to the inherited ones and its own suffixes put before the
      inherited ones; every item then sees exactly these lists. A leaf becomes
      one artifact; a group is walked in its resolved mode under its name. */
  function Walk(mode: Mode, prefixes: seq<Fragment>, suffixes: seq<Fragment>,
                els: seq<Element>, path: seq<string>): seq<Artifact>
    decreases els, 1
  {
    WalkItems(mode, prefixes + OwnFragments("prefix", els), OwnFragments("suffix", els) + suffixes, els, path)
  }

  /** Every item of `els` with the same mode and fragment lists, outputs concatenated. */
  function WalkItems(mode: Mode, prefixes: seq<Fragment>, suffixes: seq<Fragment>,
                     els: seq<Element>, path: seq<string>): seq<Artifact>
    decreases els, 0
  {
    if els == [] then []
    else
      (match els[0]
       case FnItem(markers, name, body) =>
         [Artifact(path + [name], CodeBlockTag(Resolve(mode, markers)), Contents(prefixes) + body + Contents(suffixes))]
       case ModItem(markers, name, sub) =>
         Walk(Resolve(mode, markers), prefixes, suffixes, sub, path + [name])
       case _ => [])
      + WalkItems(mode, prefixes, suffixes, els[1..], path)
  }

  // How a specification is written as tokens.

  function MarkerTokens(markers: seq<Mode>): seq<Tree>
    decreases markers
  {
    if markers == [] then [] else [Punct('#'), MarkerAttr(markers[0])] + MarkerTokens(markers[1..])
  }

  function UnparseElement(e: Element): seq<Tree>
    decreases e, 0
  {
    match e
    case PrefixDecl(f, semi) =>
      [Ident("prefix"), Punct('!'), FragmentTree(f)] + (if semi then [Punct(';')] else [])
    case SuffixDecl(f, semi) =>
      [Ident("suffix"), Punct('!'), FragmentTree(f)] + (if semi then [Punct(';')] else [])
    case FnItem(markers, name, body) =>
      MarkerTokens(markers) + [Ident("fn"), Ident(name), Group(Paren, []), Group(Brace, body)]
    case ModItem(markers, name, sub) =>
      MarkerTokens(markers) + [Ident("mod"), Ident(name), Group(Brace, Unparse(sub))]
  }

  function Unparse(els: seq<Element>): seq<Tree>
    decreases els, 1
  {
    if els == [] then [] else UnparseElement(els[0]) + Unparse(els[1..])
  }
}
