/** The crate's own test specifications (src/lib.rs:336-451), written as
    element trees with their code left abstract, and what the macros make of
    them; and a few specifications the macros reject. */
module Examples {
  import opened Tokens
  import opened Wrappers
  import opened Surface
  import opened Expansion
  import opened SpecTree
  import opened Correspondence
  import opened StreamLemmas
  import opened WalkLemmas

  // The walk and the fragment lists, one element at a time.

  lemma LeafStep(mode: Mode, p: seq<Fragment>, s: seq<Fragment>, e: Element, rest: seq<Element>, path: seq<string>)
    requires e.FnItem?
    ensures WalkItems(mode, p, s, [e] + rest, path) ==
            [Artifact(path + [e.name], CodeBlockTag(Resolve(mode, e.markers)), Contents(p) + e.body + Contents(s))]
            + WalkItems(mode, p, s, rest, path)
  {
    assert ([e] + rest)[0] == e && ([e] + rest)[1..] == rest;
  }

  lemma GroupStep(mode: Mode, p: seq<Fragment>, s: seq<Fragment>, e: Element, rest: seq<Element>, path: seq<string>)
    requires e.ModItem?
    ensures WalkItems(mode, p, s, [e] + rest, path) ==
            Walk(Resolve(mode, e.markers), p, s, e.elements, path + [e.name]) + WalkItems(mode, p, s, rest, path)
  {
    assert ([e] + rest)[0] == e && ([e] + rest)[1..] == rest;
  }

  lemma DeclStep(mode: Mode, p: seq<Fragment>, s: seq<Fragment>, e: Element, rest: seq<Element>, path: seq<string>)
    requires e.PrefixDecl? || e.SuffixDecl?
    ensures WalkItems(mode, p, s, [e] + rest, path) == WalkItems(mode, p, s, rest, path)
  {
    assert ([e] + rest)[0] == e && ([e] + rest)[1..] == rest;
    assert [] + WalkItems(mode, p, s, rest, path) == WalkItems(mode, p, s, rest, path);
  }

  lemma OwnStep(e: Element, rest: seq<Element>)
    ensures OwnFragments("prefix", [e] + rest) == (if e.PrefixDecl? then [e.frag] else []) + OwnFragments("prefix", rest)
    ensures OwnFragments("suffix", [e] + rest) == (if e.SuffixDecl? then [e.frag] else []) + OwnFragments("suffix", rest)
  {
    assert ([e] + rest)[0] == e && ([e] + rest)[1..] == rest;
    assert "prefix" != "suffix" by { assert "prefix"[0] != "suffix"[0]; }
  }

  lemma ContentsOne(f: Fragment)
    ensures Contents([f]) == f.contents
  {
    assert [f][1..] == [];
    assert f.contents + [] == f.contents;
  }

  lemma ContentsTwo(f: Fragment, g: Fragment)
    ensures Contents([f, g]) == f.contents + g.contents
  {
    assert [f, g][1..] == [g];
    ContentsOne(g);
  }

  /** `mod2`: a lone prefix and no items expands to nothing. */
  lemma PrefixOnly(a: seq<Tree>)
    ensures ShouldCompileMacro(Wrap(Unparse([PrefixDecl(ParenBraced(a), true)]), 1)) == Ok([])
  {
    var els := [PrefixDecl(ParenBraced(a), true)];
    ExpandWrap(ShouldCompile, Unparse(els), 1, []);
    ExpandIsWalk(ShouldCompile, els, []);
    PrefixOnlyWalk(a);
  }

  lemma PrefixOnlyWalk(a: seq<Tree>)
    ensures WellFormed([PrefixDecl(ParenBraced(a), true)])
    ensures Walk(ShouldCompile, [], [], [PrefixDecl(ParenBraced(a), true)], []) == []
  {
    var els := [PrefixDecl(ParenBraced(a), true)];
    assert els[1..] == [];
    WalkLeaves(ShouldCompile, [], [], els, []);
  }

  /** The `mod3` specification. */
  function Mod3(foo: seq<Tree>, bar: seq<Tree>): seq<Element> {
    [FnItem([], "foo", foo), FnItem([ShouldCompile], "bar", bar)]
  }

  lemma Mod3Walk(foo: seq<Tree>, bar: seq<Tree>)
    ensures OwnFragments("prefix", Mod3(foo, bar)) == [] && OwnFragments("suffix", Mod3(foo, bar)) == []
    ensures WalkItems(ShouldNotCompile, [], [], Mod3(foo, bar), []) ==
            [Artifact(["foo"], "compile_fail", foo), Artifact(["bar"], "", bar)]
  {
    var m := ShouldNotCompile;
    var e0, e1 := FnItem([], "foo", foo), FnItem([ShouldCompile], "bar", bar);
    assert Mod3(foo, bar) == [e0] + ([e1] + []);
    OwnStep(e1, []);
    OwnStep(e0, [e1] + []);
    ResolveLast(m, [ShouldCompile]);
    assert [] + ["foo"] == ["foo"] && [] + ["bar"] == ["bar"] && [] + foo + [] == foo && [] + bar + [] == bar;
    LeafStep(m, [], [], e1, [], []);
    assert WalkItems(m, [], [], [e1] + [], []) == [Artifact(["bar"], "", bar)];
    LeafStep(m, [], [], e0, [e1] + [], []);
  }

  /** `mod3`: an unmarked leaf takes the mode of `should_not_compile!`, a
      marked one its marker's. */
  lemma MarkedSibling(foo: seq<Tree>, bar: seq<Tree>)
    ensures ShouldNotCompileMacro(Wrap(Unparse(Mod3(foo, bar)), 1)) ==
            Ok([Artifact(["foo"], "compile_fail", foo), Artifact(["bar"], "", bar)])
  {
    var els := Mod3(foo, bar);
    ExpandWrap(ShouldNotCompile, Unparse(els), 1, []);
    ExpandIsWalk(ShouldNotCompile, els, []);
    assert WellFormed(els);
    Mod3Walk(foo, bar);
  }

  /** The `mod4` specification. */
  function Mod4(a: seq<Tree>, foo: seq<Tree>, bar: seq<Tree>, baz: seq<Tree>, c: seq<Tree>): seq<Element> {
    [PrefixDecl(Braced(a), false), FnItem([], "foo", foo), FnItem([ShouldCompile], "bar", bar),
     FnItem([], "baz", baz), SuffixDecl(Braced(c), false)]
  }

  lemma Mod4Own(a: seq<Tree>, foo: seq<Tree>, bar: seq<Tree>, baz: seq<Tree>, c: seq<Tree>)
    ensures OwnFragments("prefix", Mod4(a, foo, bar, baz, c)) == [Braced(a)]
    ensures OwnFragments("suffix", Mod4(a, foo, bar, baz, c)) == [Braced(c)]
  {
    var e0, e1, e2, e3, e4 := PrefixDecl(Braced(a), false), FnItem([], "foo", foo), FnItem([ShouldCompile], "bar", bar),
                              FnItem([], "baz", baz), SuffixDecl(Braced(c), false);
    var t4 := [e4] + [];
    var t3 := [e3] + t4;
    var t2 := [e2] + t3;
    var t1 := [e1] + t2;
    assert Mod4(a, foo, bar, baz, c) == [e0] + t1;
    OwnStep(e4, []);
    OwnStep(e3, t4);
    OwnStep(e2, t3);
    OwnStep(e1, t2);
    OwnStep(e0, t1);
  }

  lemma Mod4Items(a: seq<Tree>, foo: seq<Tree>, bar: seq<Tree>, baz: seq<Tree>, c: seq<Tree>,
                  p: seq<Fragment>, s: seq<Fragment>)
    ensures WalkItems(ShouldNotCompile, p, s, Mod4(a, foo, bar, baz, c), []) ==
            [Artifact(["foo"], "compile_fail", Contents(p) + foo + Contents(s)),
             Artifact(["bar"], "", Contents(p) + bar + Contents(s)),
             Artifact(["baz"], "compile_fail", Contents(p) + baz + Contents(s))]
  {
    var e0, e1, e2, e3, e4 := PrefixDecl(Braced(a), false), FnItem([], "foo", foo), FnItem([ShouldCompile], "bar", bar),
                              FnItem([], "baz", baz), SuffixDecl(Braced(c), false);
    var t4 := [e4] + [];
    var t3 := [e3] + t4;
    var t2 := [e2] + t3;
    var t1 := [e1] + t2;
    assert Mod4(a, foo, bar, baz, c) == [e0] + t1;
    var m := ShouldNotCompile;
    ResolveLast(m, [ShouldCompile]);
    var foo', bar', baz' := Artifact(["foo"], "compile_fail", Contents(p) + foo + Contents(s)),
                            Artifact(["bar"], "", Contents(p) + bar + Contents(s)),
                            Artifact(["baz"], "compile_fail", Contents(p) + baz + Contents(s));
    assert [] + ["foo"] == ["foo"] && [] + ["bar"] == ["bar"] && [] + ["baz"] == ["baz"];
    DeclStep(m, p, s, e4, [], []);
    LeafStep(m, p, s, e3, t4, []);
    assert WalkItems(m, p, s, t3, []) == [baz'];
    LeafStep(m, p, s, e2, t3, []);
    assert WalkItems(m, p, s, t2, []) == [bar', baz'];
    LeafStep(m, p, s, e1, t2, []);
    assert WalkItems(m, p, s, t1, []) == [foo', bar', baz'];
    DeclStep(m, p, s, e0, t1, []);
  }

  lemma Mod4Walk(a: seq<Tree>, foo: seq<Tree>, bar: seq<Tree>, baz: seq<Tree>, c: seq<Tree>)
    ensures OwnFragments("prefix", Mod4(a, foo, bar, baz, c)) == [Braced(a)]
    ensures OwnFragments("suffix", Mod4(a, foo, bar, baz, c)) == [Braced(c)]
    ensures WalkItems(ShouldNotCompile, [Braced(a)], [Braced(c)], Mod4(a, foo, bar, baz, c), []) ==
            [Artifact(["foo"], "compile_fail", a + foo + c), Artifact(["bar"], "", a + bar + c),
             Artifact(["baz"], "compile_fail", a + baz + c)]
  {
    Mod4Own(a, foo, bar, baz, c);
    Mod4Items(a, foo, bar, baz, c, [Braced(a)], [Braced(c)]);
    ContentsOne(Braced(a));
    ContentsOne(Braced(c));
  }

  /** `mod4`: every leaf is framed by the prefix and the suffix. */
  lemma PrefixAndSuffix(a: seq<Tree>, foo: seq<Tree>, bar: seq<Tree>, baz: seq<Tree>, c: seq<Tree>)
    ensures ShouldNotCompileMacro(Unparse(Mod4(a, foo, bar, baz, c))) ==
            Ok([Artifact(["foo"], "compile_fail", a + foo + c), Artifact(["bar"], "", a + bar + c),
                Artifact(["baz"], "compile_fail", a + baz + c)])
  {
    ExpandIsWalk(ShouldNotCompile, Mod4(a, foo, bar, baz, c), []);
    Mod4WellFormed(a, foo, bar, baz, c);
    Mod4Tree(a, foo, bar, baz, c);
  }

  lemma Mod4WellFormed(a: seq<Tree>, foo: seq<Tree>, bar: seq<Tree>, baz: seq<Tree>, c: seq<Tree>)
    ensures WellFormed(Mod4(a, foo, bar, baz, c))
  {
  }

  lemma Mod4Tree(a: seq<Tree>, foo: seq<Tree>, bar: seq<Tree>, baz: seq<Tree>, c: seq<Tree>)
    ensures Walk(ShouldNotCompile, [], [], Mod4(a, foo, bar, baz, c), []) ==
            [Artifact(["foo"], "compile_fail", a + foo + c), Artifact(["bar"], "", a + bar + c),
             Artifact(["baz"], "compile_fail", a + baz + c)]
  {
    Mod4Walk(a, foo, bar, baz, c);
    assert [] + [Braced(a)] == [Braced(a)] && [Braced(c)] + [] == [Braced(c)];
  }

  /** The `mod5` specification and its group. */
  function Mod5Inner(a1: seq<Tree>, foo1: seq<Tree>): seq<Element> {
    [PrefixDecl(ParenBraced(a1), true), FnItem([ShouldCompile], "foo", foo1)]
  }

  function Mod5(a0: seq<Tree>, foo: seq<Tree>, a1: seq<Tree>, foo1: seq<Tree>, c: seq<Tree>): seq<Element> {
    [PrefixDecl(ParenBraced(a0), true), FnItem([], "foo", foo), ModItem([], "inner1", Mod5Inner(a1, foo1)),
     SuffixDecl(ParenBraced(c), true)]
  }

  lemma Mod5InnerOwn(a1: seq<Tree>, foo1: seq<Tree>)
    ensures OwnFragments("prefix", Mod5Inner(a1, foo1)) == [ParenBraced(a1)]
    ensures OwnFragments("suffix", Mod5Inner(a1, foo1)) == []
  {
    var e0, e1 := PrefixDecl(ParenBraced(a1), true), FnItem([ShouldCompile], "foo", foo1);
    assert Mod5Inner(a1, foo1) == [e0] + ([e1] + []);
    OwnStep(e1, []);
    OwnStep(e0, [e1] + []);
  }

  lemma Mod5InnerItems(a1: seq<Tree>, foo1: seq<Tree>, p: seq<Fragment>, s: seq<Fragment>)
    ensures WalkItems(ShouldNotCompile, p, s, Mod5Inner(a1, foo1), ["inner1"]) ==
            [Artifact(["inner1", "foo"], "", Contents(p) + foo1 + Contents(s))]
  {
    var e0, e1 := PrefixDecl(ParenBraced(a1), true), FnItem([ShouldCompile], "foo", foo1);
    var t1 := [e1] + [];
    assert Mod5Inner(a1, foo1) == [e0] + t1;
    ResolveLast(ShouldNotCompile, [ShouldCompile]);
    assert ["inner1"] + ["foo"] == ["inner1", "foo"];
    LeafStep(ShouldNotCompile, p, s, e1, [], ["inner1"]);
    DeclStep(ShouldNotCompile, p, s, e0, t1, ["inner1"]);
  }

  lemma Mod5InnerWalk(a0: seq<Tree>, a1: seq<Tree>, foo1: seq<Tree>, c: seq<Tree>)
    ensures Walk(ShouldNotCompile, [ParenBraced(a0)], [ParenBraced(c)], Mod5Inner(a1, foo1), ["inner1"]) ==
            [Artifact(["inner1", "foo"], "", a0 + a1 + foo1 + c)]
  {
    Mod5InnerOwn(a1, foo1);
    var p', s' := [ParenBraced(a0)] + [ParenBraced(a1)], [] + [ParenBraced(c)];
    Mod5InnerItems(a1, foo1, p', s');
    assert p' == [ParenBraced(a0), ParenBraced(a1)] && s' == [ParenBraced(c)];
    ContentsTwo(ParenBraced(a0), ParenBraced(a1));
    ContentsOne(ParenBraced(c));
  }

  lemma Mod5Own(a0: seq<Tree>, foo: seq<Tree>, a1: seq<Tree>, foo1: seq<Tree>, c: seq<Tree>)
    ensures OwnFragments("prefix", Mod5(a0, foo, a1, foo1, c)) == [ParenBraced(a0)]
    ensures OwnFragments("suffix", Mod5(a0, foo, a1, foo1, c)) == [ParenBraced(c)]
  {
    var e0, e1, e2, e3 := PrefixDecl(ParenBraced(a0), true), FnItem([], "foo", foo),
                          ModItem([], "inner1", Mod5Inner(a1, foo1)), SuffixDecl(ParenBraced(c), true);
    var t3 := [e3] + [];
    var t2 := [e2] + t3;
    var t1 := [e1] + t2;
    assert Mod5(a0, foo, a1, foo1, c) == [e0] + t1;
    OwnStep(e3, []);
    OwnStep(e2, t3);
    OwnStep(e1, t2);
    OwnStep(e0, t1);
  }

  lemma Mod5Items(a0: seq<Tree>, foo: seq<Tree>, a1: seq<Tree>, foo1: seq<Tree>, c: seq<Tree>,
                  p: seq<Fragment>, s: seq<Fragment>)
    ensures WalkItems(ShouldNotCompile, p, s, Mod5(a0, foo, a1, foo1, c), []) ==
            [Artifact(["foo"], "compile_fail", Contents(p) + foo + Contents(s))]
            + Walk(ShouldNotCompile, p, s, Mod5Inner(a1, foo1), ["inner1"])
  {
    var e0, e1, e2, e3 := PrefixDecl(ParenBraced(a0), true), FnItem([], "foo", foo),
                          ModItem([], "inner1", Mod5Inner(a1, foo1)), SuffixDecl(ParenBraced(c), true);
    var t3 := [e3] + [];
    var t2 := [e2] + t3;
    var t1 := [e1] + t2;
    assert Mod5(a0, foo, a1, foo1, c) == [e0] + t1;
    var m := ShouldNotCompile;
    var inner := Walk(m, p, s, Mod5Inner(a1, foo1), ["inner1"]);
    assert [] + ["foo"] == ["foo"] && [] + ["inner1"] == ["inner1"];
    DeclStep(m, p, s, e3, [], []);
    GroupStep(m, p, s, e2, t3, []);
    assert WalkItems(m, p, s, t2, []) == inner;
    LeafStep(m, p, s, e1, t2, []);
    DeclStep(m, p, s, e0, t1, []);
  }

  lemma Mod5Walk(a0: seq<Tree>, foo: seq<Tree>, a1: seq<Tree>, foo1: seq<Tree>, c: seq<Tree>)
    ensures OwnFragments("prefix", Mod5(a0, foo, a1, foo1, c)) == [ParenBraced(a0)]
    ensures OwnFragments("suffix", Mod5(a0, foo, a1, foo1, c)) == [ParenBraced(c)]
    ensures WalkItems(ShouldNotCompile, [ParenBraced(a0)], [ParenBraced(c)], Mod5(a0, foo, a1, foo1, c), []) ==
            [Artifact(["foo"], "compile_fail", a0 + foo + c), Artifact(["inner1", "foo"], "", a0 + a1 + foo1 + c)]
  {
    Mod5Own(a0, foo, a1, foo1, c);
    Mod5Items(a0, foo, a1, foo1, c, [ParenBraced(a0)], [ParenBraced(c)]);
    ContentsOne(ParenBraced(a0));
    ContentsOne(ParenBraced(c));
    Mod5InnerWalk(a0, a1, foo1, c);
  }

  /** `mod5`: a group's leaves see the outer prefix, then the group's own,
      and the outer suffix; the group's marked leaf compiles. */
  lemma NestedGroup(a0: seq<Tree>, foo: seq<Tree>, a1: seq<Tree>, foo1: seq<Tree>, c: seq<Tree>)
    ensures ShouldNotCompileMacro(Wrap(Unparse(Mod5(a0, foo, a1, foo1, c)), 1)) ==
            Ok([Artifact(["foo"], "compile_fail", a0 + foo + c),
                Artifact(["inner1", "foo"], "", a0 + a1 + foo1 + c)])
  {
    ExpandWrap(ShouldNotCompile, Unparse(Mod5(a0, foo, a1, foo1, c)), 1, []);
    ExpandIsWalk(ShouldNotCompile, Mod5(a0, foo, a1, foo1, c), []);
    Mod5WellFormed(a0, foo, a1, foo1, c);
    Mod5Tree(a0, foo, a1, foo1, c);
  }

  lemma Mod5WellFormed(a0: seq<Tree>, foo: seq<Tree>, a1: seq<Tree>, foo1: seq<Tree>, c: seq<Tree>)
    ensures WellFormed(Mod5(a0, foo, a1, foo1, c))
  {
    assert WellFormed(Mod5Inner(a1, foo1));
  }

  lemma Mod5Tree(a0: seq<Tree>, foo: seq<Tree>, a1: seq<Tree>, foo1: seq<Tree>, c: seq<Tree>)
    ensures Walk(ShouldNotCompile, [], [], Mod5(a0, foo, a1, foo1, c), []) ==
            [Artifact(["foo"], "compile_fail", a0 + foo + c), Artifact(["inner1", "foo"], "", a0 + a1 + foo1 + c)]
  {
    Mod5Walk(a0, foo, a1, foo1, c);
    assert [] + [ParenBraced(a0)] == [ParenBraced(a0)] && [ParenBraced(c)] + [] == [ParenBraced(c)];
  }

  /** The `mod6` specification and its group. */
  function Mod6Inner(a1: seq<Tree>, foo1: seq<Tree>, bar1: seq<Tree>): seq<Element> {
    [PrefixDecl(ParenBraced(a1), true), FnItem([], "foo", foo1), FnItem([ShouldNotCompile], "bar", bar1)]
  }

  function Mod6(a0: seq<Tree>, foo: seq<Tree>, a1: seq<Tree>, foo1: seq<Tree>, bar1: seq<Tree>, c: seq<Tree>): seq<Element> {
    [PrefixDecl(ParenBraced(a0), true), FnItem([], "foo", foo),
     ModItem([ShouldCompile], "inner1", Mod6Inner(a1, foo1, bar1)), SuffixDecl(ParenBraced(c), true)]
  }

  lemma Mod6InnerOwn(a1: seq<Tree>, foo1: seq<Tree>, bar1: seq<Tree>)
    ensures OwnFragments("prefix", Mod6Inner(a1, foo1, bar1)) == [ParenBraced(a1)]
    ensures OwnFragments("suffix", Mod6Inner(a1, foo1, bar1)) == []
  {
    var e0, e1, e2 := PrefixDecl(ParenBraced(a1), true), FnItem([], "foo", foo1), FnItem([ShouldNotCompile], "bar", bar1);
    var t2 := [e2] + [];
    var t1 := [e1] + t2;
    assert Mod6Inner(a1, foo1, bar1) == [e0] + t1;
    OwnStep(e2, []);
    OwnStep(e1, t2);
    OwnStep(e0, t1);
  }

  lemma Mod6InnerItems(a1: seq<Tree>, foo1: seq<Tree>, bar1: seq<Tree>, p: seq<Fragment>, s: seq<Fragment>)
    ensures WalkItems(ShouldCompile, p, s, Mod6Inner(a1, foo1, bar1), ["inner1"]) ==
            [Artifact(["inner1", "foo"], "", Contents(p) + foo1 + Contents(s)),
             Artifact(["inner1", "bar"], "compile_fail", Contents(p) + bar1 + Contents(s))]
  {
    var e0, e1, e2 := PrefixDecl(ParenBraced(a1), true), FnItem([], "foo", foo1), FnItem([ShouldNotCompile], "bar", bar1);
    var t2 := [e2] + [];
    var t1 := [e1] + t2;
    assert Mod6Inner(a1, foo1, bar1) == [e0] + t1;
    var m := ShouldCompile;
    ResolveLast(m, [ShouldNotCompile]);
    var ifoo, ibar := Artifact(["inner1", "foo"], "", Contents(p) + foo1 + Contents(s)),
                      Artifact(["inner1", "bar"], "compile_fail", Contents(p) + bar1 + Contents(s));
    assert ["inner1"] + ["foo"] == ["inner1", "foo"] && ["inner1"] + ["bar"] == ["inner1", "bar"];
    LeafStep(m, p, s, e2, [], ["inner1"]);
    assert WalkItems(m, p, s, t2, ["inner1"]) == [ibar];
    LeafStep(m, p, s, e1, t2, ["inner1"]);
    assert WalkItems(m, p, s, t1, ["inner1"]) == [ifoo, ibar];
    DeclStep(m, p, s, e0, t1, ["inner1"]);
  }

  lemma Mod6InnerWalk(a0: seq<Tree>, a1: seq<Tree>, foo1: seq<Tree>, bar1: seq<Tree>, c: seq<Tree>)
    ensures Walk(ShouldCompile, [ParenBraced(a0)], [ParenBraced(c)], Mod6Inner(a1, foo1, bar1), ["inner1"]) ==
            [Artifact(["inner1", "foo"], "", a0 + a1 + foo1 + c),
             Artifact(["inner1", "bar"], "compile_fail", a0 + a1 + bar1 + c)]
  {
    Mod6InnerOwn(a1, foo1, bar1);
    var p', s' := [ParenBraced(a0)] + [ParenBraced(a1)], [] + [ParenBraced(c)];
    Mod6InnerItems(a1, foo1, bar1, p', s');
    assert p' == [ParenBraced(a0), ParenBraced(a1)] && s' == [ParenBraced(c)];
    ContentsTwo(ParenBraced(a0), ParenBraced(a1));
    ContentsOne(ParenBraced(c));
  }

  lemma Mod6Own(a0: seq<Tree>, foo: seq<Tree>, a1: seq<Tree>, foo1: seq<Tree>, bar1: seq<Tree>, c: seq<Tree>)
    ensures OwnFragments("prefix", Mod6(a0, foo, a1, foo1, bar1, c)) == [ParenBraced(a0)]
    ensures OwnFragments("suffix", Mod6(a0, foo, a1, foo1, bar1, c)) == [ParenBraced(c)]
  {
    var e0, e1, e2, e3 := PrefixDecl(ParenBraced(a0), true), FnItem([], "foo", foo),
                          ModItem([ShouldCompile], "inner1", Mod6Inner(a1, foo1, bar1)), SuffixDecl(ParenBraced(c), true);
    var t3 := [e3] + [];
    var t2 := [e2] + t3;
    var t1 := [e1] + t2;
    assert Mod6(a0, foo, a1, foo1, bar1, c) == [e0] + t1;
    OwnStep(e3, []);
    OwnStep(e2, t3);
    OwnStep(e1, t2);
    OwnStep(e0, t1);
  }

  lemma Mod6Items(a0: seq<Tree>, foo: seq<Tree>, a1: seq<Tree>, foo1: seq<Tree>, bar1: seq<Tree>, c: seq<Tree>,
                  p: seq<Fragment>, s: seq<Fragment>)
    ensures WalkItems(ShouldNotCompile, p, s, Mod6(a0, foo, a1, foo1, bar1, c), []) ==
            [Artifact(["foo"], "compile_fail", Contents(p) + foo + Contents(s))]
            + Walk(ShouldCompile, p, s, Mod6Inner(a1, foo1, bar1), ["inner1"])
  {
    var e0, e1, e2, e3 := PrefixDecl(ParenBraced(a0), true), FnItem([], "foo", foo),
                          ModItem([ShouldCompile], "inner1", Mod6Inner(a1, foo1, bar1)), SuffixDecl(ParenBraced(c), true);
    var t3 := [e3] + [];
    var t2 := [e2] + t3;
    var t1 := [e1] + t2;
    assert Mod6(a0, foo, a1, foo1, bar1, c) == [e0] + t1;
    var m := ShouldNotCompile;
    ResolveLast(m, [ShouldCompile]);
    var inner := Walk(ShouldCompile, p, s, Mod6Inner(a1, foo1, bar1), ["inner1"]);
    assert [] + ["foo"] == ["foo"] && [] + ["inner1"] == ["inner1"];
    DeclStep(m, p, s, e3, [], []);
    GroupStep(m, p, s, e2, t3, []);
    assert WalkItems(m, p, s, t2, []) == inner;
    LeafStep(m, p, s, e1, t2, []);
    DeclStep(m, p, s, e0, t1, []);
  }

  lemma Mod6Walk(a0: seq<Tree>, foo: seq<Tree>, a1: seq<Tree>, foo1: seq<Tree>, bar1: seq<Tree>, c: seq<Tree>)
    ensures OwnFragments("prefix", Mod6(a0, foo, a1, foo1, bar1, c)) == [ParenBraced(a0)]
    ensures OwnFragments("suffix", Mod6(a0, foo, a1, foo1, bar1, c)) == [ParenBraced(c)]
    ensures WalkItems(ShouldNotCompile, [ParenBraced(a0)], [ParenBraced(c)], Mod6(a0, foo, a1, foo1, bar1, c), []) ==
            [Artifact(["foo"], "compile_fail", a0 + foo + c),
             Artifact(["inner1", "foo"], "", a0 + a1 + foo1 + c),
             Artifact(["inner1", "bar"], "compile_fail", a0 + a1 + bar1 + c)]
  {
    Mod6Own(a0, foo, a1, foo1, bar1, c);
    Mod6Items(a0, foo, a1, foo1, bar1, c, [ParenBraced(a0)], [ParenBraced(c)]);
    ContentsOne(ParenBraced(a0));
    ContentsOne(ParenBraced(c));
    Mod6InnerWalk(a0, a1, foo1, bar1, c);
  }

  /** `mod6`: a marked group sets the mode of its leaves, and a marker on a
      leaf inside it overrides the group's. */
  lemma Mod6MarkedGroup(a0: seq<Tree>, foo: seq<Tree>, a1: seq<Tree>, foo1: seq<Tree>, bar1: seq<Tree>, c: seq<Tree>)
    ensures ShouldNotCompileMacro(Wrap(Unparse(Mod6(a0, foo, a1, foo1, bar1, c)), 1)) ==
            Ok([Artifact(["foo"], "compile_fail", a0 + foo + c),
                Artifact(["inner1", "foo"], "", a0 + a1 + foo1 + c),
                Artifact(["inner1", "bar"], "compile_fail", a0 + a1 + bar1 + c)])
  {
    ExpandWrap(ShouldNotCompile, Unparse(Mod6(a0, foo, a1, foo1, bar1, c)), 1, []);
    ExpandIsWalk(ShouldNotCompile, Mod6(a0, foo, a1, foo1, bar1, c), []);
    Mod6WellFormed(a0, foo, a1, foo1, bar1, c);
    Mod6Tree(a0, foo, a1, foo1, bar1, c);
  }

  lemma Mod6WellFormed(a0: seq<Tree>, foo: seq<Tree>, a1: seq<Tree>, foo1: seq<Tree>, bar1: seq<Tree>, c: seq<Tree>)
    ensures WellFormed(Mod6(a0, foo, a1, foo1, bar1, c))
  {
    assert WellFormed(Mod6Inner(a1, foo1, bar1));
  }

  lemma Mod6Tree(a0: seq<Tree>, foo: seq<Tree>, a1: seq<Tree>, foo1: seq<Tree>, bar1: seq<Tree>, c: seq<Tree>)
    ensures Walk(ShouldNotCompile, [], [], Mod6(a0, foo, a1, foo1, bar1, c), []) ==
            [Artifact(["foo"], "compile_fail", a0 + foo + c),
             Artifact(["inner1", "foo"], "", a0 + a1 + foo1 + c),
             Artifact(["inner1", "bar"], "compile_fail", a0 + a1 + bar1 + c)]
  {
    Mod6Walk(a0, foo, a1, foo1, bar1, c);
    assert [] + [ParenBraced(a0)] == [ParenBraced(a0)] && [ParenBraced(c)] + [] == [ParenBraced(c)];
  }

  /** A prefix declared after an item is rejected by the entry matcher. */
  lemma PrefixAfterItem(mode: Mode, body: seq<Tree>, a: seq<Tree>)
    ensures Expand(mode, Unparse([FnItem([], "f", body), PrefixDecl(Braced(a), false)]), []) == Err(EntryShape)
  {
    var els := [FnItem([], "f", body), PrefixDecl(Braced(a), false)];
    ExpandIsWalk(mode, els, []);
    assert Stage(els[0]) > Stage(els[1]);
  }

  /** An item declared after a suffix is rejected by the entry matcher, also
      inside a group. */
  lemma ItemAfterSuffixInGroup(mode: Mode, body: seq<Tree>, c: seq<Tree>)
    ensures Expand(mode, Unparse([ModItem([], "g", [SuffixDecl(Braced(c), false), FnItem([], "f", body)])]), []) ==
            Err(EntryShape)
  {
    var sub := [SuffixDecl(Braced(c), false), FnItem([], "f", body)];
    var els := [ModItem([], "g", sub)];
    ExpandIsWalk(mode, els, []);
    assert Stage(sub[0]) > Stage(sub[1]);
    assert !WellFormed(sub);
  }

  /** A fragment of neither accepted shape goes unnoticed without leaves,
      and fails the fn rule as soon as a leaf consumes it. */
  lemma MalformedFragment(mode: Mode, body: seq<Tree>)
    ensures Expand(mode, Declare("prefix", [Ident("x")]) + Declare("suffix", []), []) == Ok([])
    ensures Expand(mode, Declare("prefix", [Ident("x")]) + [Ident("fn"), Ident("f"), Group(Paren, []), Group(Brace, body)]
                         + Declare("suffix", []), []) == Err(FragmentShape)
  {
    DeclarationsOnly(mode, [Ident("x")], [], []);
    SingleLeaf(mode, [Ident("x")], "f", body, [], []);
    assert Unwrap([Ident("x")][0]).None?;
  }
}
