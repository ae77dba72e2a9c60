/** Properties of the reference walk, and so, by `Correspondence.ExpandIsWalk`,
    of the macros: one artifact per leaf in declaration order, every leaf
    framed by the prefixes and suffixes of all groups around it, and the mode
    of a leaf set by the nearest marker. */
module WalkLemmas {
  import opened Tokens
  import opened Expansion
  import opened SpecTree

  /** The marker nearest the item wins: resolving takes the last marker. */
  lemma {:induction false} ResolveLast(mode: Mode, markers: seq<Mode>)
    decreases markers
    ensures Resolve(mode, markers) == if markers == [] then mode else markers[|markers| - 1]
  {
    if markers != [] {
      ResolveLast(markers[0], markers[1..]);
    }
  }

  /** The paths of a list of artifacts, in order. */
  function Paths(arts: seq<Artifact>): (r: seq<seq<string>>)
    decreases arts
    ensures |r| == |arts|
  {
    if arts == [] then [] else [arts[0].path] + Paths(arts[1..])
  }

  lemma {:induction false} PathsAppend(a: seq<Artifact>, b: seq<Artifact>)
    ensures Paths(a + b) == Paths(a) + Paths(b)
  {
    if a == [] {
      assert a + b == b;
    } else {
      assert (a + b)[0] == a[0];
      assert (a + b)[1..] == a[1..] + b;
      PathsAppend(a[1..], b);
    }
  }

  /** One artifact per leaf, at the leaf's path, in depth-first declaration order. */
  lemma {:induction false} WalkItemsPaths(mode: Mode, p: seq<Fragment>, s: seq<Fragment>,
                                          els: seq<Element>, path: seq<string>)
    decreases els
    ensures Paths(WalkItems(mode, p, s, els, path)) == LeafPaths(els, path)
  {
    if els != [] {
      WalkItemsPaths(mode, p, s, els[1..], path);
      var first := match els[0]
        case FnItem(markers, name, body) =>
          [Artifact(path + [name], CodeBlockTag(Resolve(mode, markers)), Contents(p) + body + Contents(s))]
        case ModItem(markers, name, sub) => Walk(Resolve(mode, markers), p, s, sub, path + [name])
        case _ => [];
      PathsAppend(first, WalkItems(mode, p, s, els[1..], path));
      match els[0]
      case ModItem(markers, name, sub) =>
        WalkItemsPaths(Resolve(mode, markers), p + OwnFragments("prefix", sub),
                       OwnFragments("suffix", sub) + s, sub, path + [name]);
      case FnItem(_, _, _) =>
      case _ =>
    }
  }

  lemma {:induction false} LeafPathsCount(els: seq<Element>, path: seq<string>)
    decreases els
    ensures |LeafPaths(els, path)| == CountFns(els)
  {
    if els != [] {
      LeafPathsCount(els[1..], path);
      match els[0]
      case ModItem(_, name, sub) => LeafPathsCount(sub, path + [name]);
      case _ =>
    }
  }

  /** The walk emits exactly one artifact per leaf, at the leaf paths in
      depth-first declaration order; a specification without leaves emits none. */
  lemma WalkLeaves(mode: Mode, p: seq<Fragment>, s: seq<Fragment>, els: seq<Element>, path: seq<string>)
    ensures Paths(Walk(mode, p, s, els, path)) == LeafPaths(els, path)
    ensures |Walk(mode, p, s, els, path)| == CountFns(els)
    ensures CountFns(els) == 0 ==> Walk(mode, p, s, els, path) == []
  {
    WalkItemsPaths(mode, p + OwnFragments("prefix", els), OwnFragments("suffix", els) + s, els, path);
    LeafPathsCount(els, path);
  }

  lemma {:induction false} ContentsAppend(p: seq<Fragment>, q: seq<Fragment>)
    ensures Contents(p + q) == Contents(p) + Contents(q)
  {
    if p == [] {
      assert p + q == q;
    } else {
      assert (p + q)[0] == p[0];
      assert (p + q)[1..] == p[1..] + q;
      ContentsAppend(p[1..], q);
    }
  }

  predicate StartsWith<T(==)>(xs: seq<T>, ys: seq<T>) {
    |ys| <= |xs| && xs[..|ys|] == ys
  }

  predicate EndsWith<T(==)>(xs: seq<T>, ys: seq<T>) {
    |ys| <= |xs| && xs[|xs| - |ys|..] == ys
  }

  /** An artifact emitted below `path` with the fragments `p` and `s` in scope:
      its code begins with the contents of `p` and ends with those of `s`. */
  predicate Framed(p: seq<Fragment>, s: seq<Fragment>, path: seq<string>, a: Artifact) {
    StartsWith(a.tokens, Contents(p)) && EndsWith(a.tokens, Contents(s)) &&
    |a.path| > |path| && StartsWith(a.path, path)
  }

  /** Extending the fragment lists and the path narrows the frame. */
  lemma FramedWiden(p: seq<Fragment>, p': seq<Fragment>, s: seq<Fragment>, s': seq<Fragment>,
                    path: seq<string>, name: string, a: Artifact)
    requires Framed(p + p', s' + s, path + [name], a)
    ensures Framed(p, s, path, a)
  {
    ContentsAppend(p, p');
    ContentsAppend(s', s);
    var x := a.tokens;
    var cp, cs := Contents(p), Contents(s);
    assert x[..|cp|] == (x[..|cp + Contents(p')|])[..|cp|];
    assert x[|x| - |cs|..] == (x[|x| - |Contents(s') + cs|..])[|Contents(s')|..];
    assert a.path[..|path|] == (a.path[..|path + [name]|])[..|path|];
  }

  /** Every artifact of a walk is framed by the fragments in scope and lies
      below the walk's path: outer prefixes come before inner ones, outer
      suffixes after inner ones. */
  lemma {:induction false} WalkItemsFramed(mode: Mode, p: seq<Fragment>, s: seq<Fragment>,
                                           els: seq<Element>, path: seq<string>)
    decreases els
    ensures forall a :: a in WalkItems(mode, p, s, els, path) ==> Framed(p, s, path, a)
  {
    if els != [] {
      WalkItemsFramed(mode, p, s, els[1..], path);
      match els[0]
      case FnItem(markers, name, body) =>
        var a := Artifact(path + [name], CodeBlockTag(Resolve(mode, markers)), Contents(p) + body + Contents(s));
        assert a.tokens[..|Contents(p)|] == Contents(p);
        assert a.tokens[|a.tokens| - |Contents(s)|..] == Contents(s);
        assert a.path[..|path|] == path;
      case ModItem(markers, name, sub) =>
        var p', s' := OwnFragments("prefix", sub), OwnFragments("suffix", sub);
        WalkItemsFramed(Resolve(mode, markers), p + p', s' + s, sub, path + [name]);
        forall a | a in Walk(Resolve(mode, markers), p, s, sub, path + [name]) ensures Framed(p, s, path, a) {
          FramedWiden(p, p', s, s', path, name, a);
        }
      case _ =>
    }
  }

  /** Dropping the innermost fragments from the frame keeps it a frame. */
  lemma FramedOuter(p: seq<Fragment>, p': seq<Fragment>, s: seq<Fragment>, s': seq<Fragment>,
                    path: seq<string>, a: Artifact)
    requires Framed(p + p', s' + s, path, a)
    ensures Framed(p, s, path, a)
  {
    ContentsAppend(p, p');
    ContentsAppend(s', s);
    StartsWithShorter(a.tokens, Contents(p), Contents(p'));
    EndsWithShorter(a.tokens, Contents(s'), Contents(s));
  }

  lemma StartsWithShorter(x: seq<Tree>, y: seq<Tree>, z: seq<Tree>)
    requires StartsWith(x, y + z)
    ensures StartsWith(x, y)
  {
    assert x[..|y|] == x[..|y + z|][..|y|];
  }

  lemma EndsWithShorter(x: seq<Tree>, y: seq<Tree>, z: seq<Tree>)
    requires EndsWith(x, y + z)
    ensures EndsWith(x, z)
  {
    assert x[|x| - |z|..] == x[|x| - |y + z|..][|y|..];
  }

  /** A walk's artifacts are framed by the fragments it inherits. */
  lemma WalkFramed(mode: Mode, p: seq<Fragment>, s: seq<Fragment>, els: seq<Element>, path: seq<string>)
    ensures forall a :: a in Walk(mode, p, s, els, path) ==> Framed(p, s, path, a)
  {
    var p', s' := OwnFragments("prefix", els), OwnFragments("suffix", els);
    WalkItemsFramed(mode, p + p', s' + s, els, path);
    forall a | a in Walk(mode, p, s, els, path) ensures Framed(p, s, path, a) {
      FramedOuter(p, p', s, s', path, a);
    }
  }

  /** No marker anywhere in the tree. */
  predicate Unmarked(els: seq<Element>)
    decreases els
  {
    forall i :: 0 <= i < |els| ==>
      match els[i]
      case FnItem(markers, _, _) => markers == []
      case ModItem(markers, _, sub) => markers == [] && Unmarked(sub)
      case _ => true
  }

  /** Without markers every test takes the entry macro's mode. */
  lemma {:induction false} UnmarkedTags(mode: Mode, p: seq<Fragment>, s: seq<Fragment>,
                                        els: seq<Element>, path: seq<string>)
    requires Unmarked(els)
    decreases els
    ensures forall a :: a in WalkItems(mode, p, s, els, path) ==> a.tag == CodeBlockTag(mode)
  {
    if els != [] {
      assert Unmarked(els[1..]) by {
        forall i | 0 <= i < |els[1..]| ensures els[1..][i] == els[i + 1] { }
      }
      UnmarkedTags(mode, p, s, els[1..], path);
      match els[0]
      case ModItem(markers, name, sub) =>
        UnmarkedTags(mode, p + OwnFragments("prefix", sub), OwnFragments("suffix", sub) + s, sub, path + [name]);
      case _ =>
    }
  }

  /** `should_compile!` makes every unmarked test an ordinary doc-test and
      `should_not_compile!` makes every one `compile_fail`. */
  lemma UniformMode(mode: Mode, els: seq<Element>, path: seq<string>)
    requires Unmarked(els)
    ensures forall a :: a in Walk(mode, [], [], els, path) ==> a.tag == CodeBlockTag(mode)
  {
    UnmarkedTags(mode, OwnFragments("prefix", els), OwnFragments("suffix", els), els, path);
    assert [] + OwnFragments("prefix", els) == OwnFragments("prefix", els);
    assert OwnFragments("suffix", els) + [] == OwnFragments("suffix", els);
  }

  /** A marked leaf is in the mode of its marker nearest the item, whatever
      the mode around it. */
  lemma MarkedLeaf(mode: Mode, p: seq<Fragment>, s: seq<Fragment>, markers: seq<Mode>, name: string,
                   body: seq<Tree>, path: seq<string>)
    requires markers != []
    ensures WalkItems(mode, p, s, [FnItem(markers, name, body)], path) ==
            [Artifact(path + [name], CodeBlockTag(markers[|markers| - 1]), Contents(p) + body + Contents(s))]
  {
    ResolveLast(mode, markers);
    assert [FnItem(markers, name, body)][1..] == [];
  }

  /** A marked group is walked in the mode of its marker nearest the group,
      whatever the mode around it; markers inside it override it in turn. */
  lemma MarkedGroup(mode: Mode, other: Mode, p: seq<Fragment>, s: seq<Fragment>, markers: seq<Mode>,
                    name: string, sub: seq<Element>, path: seq<string>)
    requires markers != []
    ensures WalkItems(mode, p, s, [ModItem(markers, name, sub)], path) ==
            Walk(markers[|markers| - 1], p, s, sub, path + [name])
    ensures WalkItems(mode, p, s, [ModItem(markers, name, sub)], path) ==
            WalkItems(other, p, s, [ModItem(markers, name, sub)], path)
  {
    ResolveLast(mode, markers);
    ResolveLast(other, markers);
    assert [ModItem(markers, name, sub)][1..] == [];
    assert WalkItems(mode, p, s, [ModItem(markers, name, sub)][1..], path) == [];
    assert WalkItems(other, p, s, [ModItem(markers, name, sub)][1..], path) == [];
  }
}
