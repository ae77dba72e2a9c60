/** The expansion engine implements the reference walk: an entry macro applied
    to a written specification yields exactly the artifacts of `Walk` when the
    specification is ordered at every level, and the entry-shape error
    otherwise. The proof follows the macros' own recursion: the entry matcher,
    one `__each_item!` per item, the marker rules, and the mod rule's
    re-invocation on `prefix! p;`, the module body and `suffix! s;`. */
module Correspondence {
  import opened Tokens
  import opened Wrappers
  import opened Surface
  import opened Expansion
  import opened SpecTree
  import opened ParseLemmas
  import opened ItemRules

  /** The declarations the mod rule writes for inherited fragments: `kw! f;`. */
  function Decls(kw: string, fs: seq<Fragment>): (r: seq<Element>)
    requires kw == "prefix" || kw == "suffix"
    decreases fs
    ensures |r| == |fs|
    ensures forall i :: 0 <= i < |r| ==> IsDecl(kw, r[i]) && r[i].frag == fs[i] && r[i].semicolon
  {
    if fs == [] then []
    else [if kw == "prefix" then PrefixDecl(fs[0], true) else SuffixDecl(fs[0], true)] + Decls(kw, fs[1..])
  }

  /** Every group directly in `els` is well formed. */
  predicate NestedWellFormed(els: seq<Element>) {
    forall i :: 0 <= i < |els| ==> els[i].ModItem? ==> WellFormed(els[i].elements)
  }

  lemma NestedWellFormedCons(els: seq<Element>)
    requires els != []
    ensures NestedWellFormed(els) <==>
            (els[0].ModItem? ==> WellFormed(els[0].elements)) && NestedWellFormed(els[1..])
  {
    if (els[0].ModItem? ==> WellFormed(els[0].elements)) && NestedWellFormed(els[1..]) {
      forall i | 0 <= i < |els| && els[i].ModItem? ensures WellFormed(els[i].elements) {
        if i > 0 { assert els[i] == els[1..][i - 1]; }
      }
    }
  }

  /** The fn rule reads a written fragment list back as its contents. */
  lemma {:induction false} UnwrapAllFragments(fs: seq<Fragment>)
    ensures UnwrapAll(FragmentTrees(fs)) == Some(Contents(fs))
  {
    if fs != [] {
      assert FragmentTrees(fs)[1..] == FragmentTrees(fs[1..]);
      UnwrapAllFragments(fs[1..]);
      assert Unwrap(FragmentTrees(fs)[0]) == Some(fs[0].contents);
    }
  }

  /** What the mod rule writes for inherited fragments is the written form of
      those declarations. */
  lemma {:induction false} DeclareIsUnparse(kw: string, fs: seq<Fragment>)
    requires kw == "prefix" || kw == "suffix"
    ensures Declare(kw, FragmentTrees(fs)) == Unparse(Decls(kw, fs))
  {
    if fs != [] {
      var ds := Decls(kw, fs);
      assert FragmentTrees(fs)[1..] == FragmentTrees(fs[1..]);
      assert ds[1..] == Decls(kw, fs[1..]);
      DeclareIsUnparse(kw, fs[1..]);
      assert UnparseElement(ds[0]) == [Ident(kw), Punct('!'), FragmentTree(fs[0]), Punct(';')];
    }
  }

  /** Redeclared fragments are read back as themselves and hold no items. */
  lemma {:induction false} DeclsSelect(kw: string, fs: seq<Fragment>)
    requires kw == "prefix" || kw == "suffix"
    ensures OwnFragments(kw, Decls(kw, fs)) == fs
    ensures OwnFragments(if kw == "prefix" then "suffix" else "prefix", Decls(kw, fs)) == []
    ensures ItemsOf(Decls(kw, fs)) == []
  {
    if fs != [] {
      var ds := Decls(kw, fs);
      assert ds[1..] == Decls(kw, fs[1..]);
      DeclsSelect(kw, fs[1..]);
    }
  }

  /** Surrounding a list with prefixes in front and suffixes behind keeps it
      ordered exactly when it was. */
  lemma OrderedSandwich(a: seq<Element>, m: seq<Element>, c: seq<Element>)
    requires forall i :: 0 <= i < |a| ==> Stage(a[i]) == 0
    requires forall i :: 0 <= i < |c| ==> Stage(c[i]) == 2
    ensures Ordered(a + m + c) <==> Ordered(m)
  {
    var x := a + m + c;
    assert forall i :: 0 <= i < |m| ==> x[|a| + i] == m[i];
    if Ordered(m) {
      forall i, j | 0 <= i < j < |x| ensures Stage(x[i]) <= Stage(x[j]) {
        if i < |a| {
          assert x[i] == a[i];
        } else if j >= |a| + |m| {
          assert x[j] == c[j - |a| - |m|];
        } else {
          assert x[i] == m[i - |a|] && x[j] == m[j - |a|];
        }
      }
    } else {
      var i, j :| 0 <= i < j < |m| && Stage(m[i]) > Stage(m[j]);
      assert Stage(x[|a| + i]) > Stage(x[|a| + j]);
    }
  }

  /** The written form of a list is never one `{ }` group, so the unwrap rule
      does not apply to it. */
  lemma UnparseNotBraceGroup(els: seq<Element>)
    ensures !IsBraceGroup(Unparse(els))
  {
    UnparseEmpty(els);
    if els != [] { UnparseHead(els); }
  }

  /** The stream the mod rule re-invokes is the written form of the inherited
      prefixes, the module body and the inherited suffixes. */
  lemma ReinvocationIsUnparse(p: seq<Fragment>, sub: seq<Element>, s: seq<Fragment>)
    ensures Reinvocation(FragmentTrees(p), Unparse(sub), FragmentTrees(s)) ==
            Unparse(Decls("prefix", p) + sub + Decls("suffix", s))
  {
    DeclareIsUnparse("prefix", p);
    DeclareIsUnparse("suffix", s);
    UnparseAppend(Decls("prefix", p), sub);
    UnparseAppend(Decls("prefix", p) + sub, Decls("suffix", s));
  }

  /** Inherited prefixes go before a list's own. */
  lemma SandwichPrefixes(p: seq<Fragment>, els: seq<Element>, s: seq<Fragment>)
    ensures OwnFragments("prefix", Decls("prefix", p) + els + Decls("suffix", s)) == p + OwnFragments("prefix", els)
  {
    var a, c := Decls("prefix", p), Decls("suffix", s);
    DeclsSelect("prefix", p);
    DeclsSelect("suffix", s);
    OwnFragmentsAppend("prefix", a + els, c);
    OwnFragmentsAppend("prefix", a, els);
  }

  /** Inherited suffixes go after a list's own. */
  lemma SandwichSuffixes(p: seq<Fragment>, els: seq<Element>, s: seq<Fragment>)
    ensures OwnFragments("suffix", Decls("prefix", p) + els + Decls("suffix", s)) == OwnFragments("suffix", els) + s
  {
    var a, c := Decls("prefix", p), Decls("suffix", s);
    DeclsSelect("prefix", p);
    DeclsSelect("suffix", s);
    OwnFragmentsAppend("suffix", a + els, c);
    OwnFragmentsAppend("suffix", a, els);
  }

  /** The redeclarations add no items. */
  lemma SandwichItems(p: seq<Fragment>, els: seq<Element>, s: seq<Fragment>)
    ensures ItemsOf(Decls("prefix", p) + els + Decls("suffix", s)) == ItemsOf(els)
  {
    var a, c := Decls("prefix", p), Decls("suffix", s);
    DeclsSelect("prefix", p);
    DeclsSelect("suffix", s);
    ItemsOfAppend(a + els, c);
    ItemsOfAppend(a, els);
  }

  /** Redeclared prefixes are all of the prefix stage, suffixes of the suffix stage. */
  lemma DeclsStage(kw: string, fs: seq<Fragment>)
    requires kw == "prefix" || kw == "suffix"
    ensures forall i :: 0 <= i < |fs| ==> Stage(Decls(kw, fs)[i]) == if kw == "prefix" then 0 else 2
  {
  }

  /** The entry matcher on inherited prefixes, a body and inherited suffixes. */
  lemma ParseSandwich(p: seq<Fragment>, els: seq<Element>, s: seq<Fragment>)
    ensures ParseInvocation(Unparse(Decls("prefix", p) + els + Decls("suffix", s))) ==
      if Ordered(els)
      then Some(Shape(FragmentTrees(p + OwnFragments("prefix", els)), ItemsOf(els),
                      FragmentTrees(OwnFragments("suffix", els) + s)))
      else None
  {
    var x := Decls("prefix", p) + els + Decls("suffix", s);
    ParseUnparse(x);
    DeclsStage("prefix", p);
    DeclsStage("suffix", s);
    OrderedSandwich(Decls("prefix", p), els, Decls("suffix", s));
    SandwichPrefixes(p, els, s);
    SandwichSuffixes(p, els, s);
    SandwichItems(p, els, s);
  }

  /** An entry macro on a written specification, inside a module that passes on
      the fragments `p` and `s`: the reference walk when the specification is
      ordered at every level, the entry-shape error otherwise. */
  lemma {:induction false} ExpandAgrees(mode: Mode, p: seq<Fragment>, s: seq<Fragment>,
                                        els: seq<Element>, path: seq<string>)
    decreases Size(els), 2, 0
    ensures Expand(mode, Unparse(Decls("prefix", p) + els + Decls("suffix", s)), path) ==
            if WellFormed(els) then Ok(Walk(mode, p, s, els, path)) else Err(EntryShape)
  {
    var x := Decls("prefix", p) + els + Decls("suffix", s);
    UnparseNotBraceGroup(x);
    ParseSandwich(p, els, s);
    if Ordered(els) {
      ItemsAgree(mode, p + OwnFragments("prefix", els), OwnFragments("suffix", els) + s, els, path);
    }
  }

  /** `__should_it_compile!` on the items of a written list. */
  lemma {:induction false} ItemsAgree(mode: Mode, p: seq<Fragment>, s: seq<Fragment>,
                                      els: seq<Element>, path: seq<string>)
    decreases Size(els), 1, |els|
    ensures ExpandItems(mode, FragmentTrees(p), ItemsOf(els), FragmentTrees(s), path) ==
            if NestedWellFormed(els) then Ok(WalkItems(mode, p, s, els, path)) else Err(EntryShape)
  {
    if els != [] {
      NestedWellFormedCons(els);
      assert Size(els) == ElementSize(els[0]) + Size(els[1..]);
      ItemsAgree(mode, p, s, els[1..], path);
      if Stage(els[0]) == 1 {
        var items := ItemsOf(els);
        assert items == [ToItem(els[0])] + ItemsOf(els[1..]);
        assert items[0] == ToItem(els[0]) && items[1..] == ItemsOf(els[1..]);
        WalkItemsCons(mode, p, s, els, path);
        ItemAgrees(mode, p, s, els[0], path);
      } else {
        assert ItemsOf(els) == ItemsOf(els[1..]);
        assert WalkItems(mode, p, s, els, path) == WalkItems(mode, p, s, els[1..], path);
      }
    }
  }

  lemma WalkItemsCons(mode: Mode, p: seq<Fragment>, s: seq<Fragment>, els: seq<Element>, path: seq<string>)
    requires els != []
    ensures WalkItems(mode, p, s, els, path) == WalkItems(mode, p, s, [els[0]], path) + WalkItems(mode, p, s, els[1..], path)
  {
    assert [els[0]][1..] == [];
    assert WalkItems(mode, p, s, [els[0]][1..], path) == [];
  }

  /** `__each_item!` on one written item. */
  lemma {:induction false} ItemAgrees(mode: Mode, p: seq<Fragment>, s: seq<Fragment>, e: Element, path: seq<string>)
    requires e.FnItem? || e.ModItem?
    decreases ElementSize(e), 0, 1
    ensures EachItem(mode, FragmentTrees(p), ToItem(e), FragmentTrees(s), path) ==
            if e.ModItem? && !WellFormed(e.elements) then Err(EntryShape)
            else Ok(WalkItems(mode, p, s, [e], path))
  {
    if e.FnItem? {
      FnAgrees(mode, p, s, e, path);
    } else {
      ModAgrees(mode, p, s, e, path);
    }
  }

  /** The fn rule on a written leaf: one artifact, in the mode its markers
      resolve to, holding the inherited prefix contents, the body and the
      inherited suffix contents. */
  lemma FnAgrees(mode: Mode, p: seq<Fragment>, s: seq<Fragment>, e: Element, path: seq<string>)
    requires e.FnItem?
    ensures EachItem(mode, FragmentTrees(p), ToItem(e), FragmentTrees(s), path) == Ok(WalkItems(mode, p, s, [e], path))
  {
    var m := Resolve(mode, e.markers);
    var pre, suf := FragmentTrees(p), FragmentTrees(s);
    assert [e][0] == e && [e][1..] == [];
    var art := Artifact(path + [e.name], CodeBlockTag(m), Contents(p) + e.body + Contents(s));
    assert WalkItems(mode, p, s, [e], path) == [art] + WalkItems(mode, p, s, [], path);
    StripMarkers(mode, pre, e.markers, [], Some(e.name), None, e.body, suf, path);
    assert MarkerAttrs(e.markers) + [] == MarkerAttrs(e.markers);
    UnwrapAllFragments(p);
    UnwrapAllFragments(s);
    assert ToItem(e) == Item(MarkerAttrs(e.markers), Some(e.name), None, e.body);
    assert EachItem(m, pre, Item([], Some(e.name), None, e.body), suf, path) == EmitFn(m, pre, e.name, e.body, suf, path);
    assert EmitFn(m, pre, e.name, e.body, suf, path) == Ok([art]);
    assert WalkItems(mode, p, s, [], path) == [];
    assert [art] + [] == [art];
  }

  /** The mod rule on a written group: the walk of its elements in the mode its
      markers resolve to, under its name. */
  lemma {:induction false} ModAgrees(mode: Mode, p: seq<Fragment>, s: seq<Fragment>, e: Element, path: seq<string>)
    requires e.ModItem?
    decreases ElementSize(e), 0, 0
    ensures EachItem(mode, FragmentTrees(p), ToItem(e), FragmentTrees(s), path) ==
            if WellFormed(e.elements) then Ok(WalkItems(mode, p, s, [e], path)) else Err(EntryShape)
  {
    assert [e][1..] == [];
    assert WalkItems(mode, p, s, [e], path) == Walk(Resolve(mode, e.markers), p, s, e.elements, path + [e.name]);
    StripMarkers(mode, FragmentTrees(p), e.markers, [], None, Some(e.name), Unparse(e.elements), FragmentTrees(s), path);
    assert MarkerAttrs(e.markers) + [] == MarkerAttrs(e.markers);
    ReinvocationIsUnparse(p, e.elements, s);
    ExpandAgrees(Resolve(mode, e.markers), p, s, e.elements, path + [e.name]);
  }

  /** The main theorem: `should_compile!` / `should_not_compile!` on a written
      specification emits exactly the reference walk's artifacts, and fails
      with the entry-shape error when some level is out of order. */
  lemma ExpandIsWalk(mode: Mode, els: seq<Element>, path: seq<string>)
    ensures Expand(mode, Unparse(els), path) ==
            if WellFormed(els) then Ok(Walk(mode, [], [], els, path)) else Err(EntryShape)
  {
    assert Decls("prefix", []) + els + Decls("suffix", []) == els;
    ExpandAgrees(mode, [], [], els, path);
  }
}
