/** What tells the two entry macros apart: the mode they start in
    (src/lib.rs:53-64 and src/lib.rs:115-126). On a written specification
    without markers, `should_compile!` makes every test an ordinary doc-test
    and `should_not_compile!` makes every one a `compile_fail` doc-test. */
module EntryModes {
  import opened Expansion
  import opened SpecTree
  import opened Correspondence
  import opened WalkLemmas

  lemma ShouldCompileUnmarked(els: seq<Element>)
    requires Unmarked(els)
    ensures ShouldCompileMacro(Unparse(els)).Ok? <==> WellFormed(els)
    ensures ShouldCompileMacro(Unparse(els)).Ok? ==>
            forall a :: a in ShouldCompileMacro(Unparse(els)).value ==> a.tag == ""
  {
    ExpandIsWalk(ShouldCompile, els, []);
    UniformMode(ShouldCompile, els, []);
  }

  lemma ShouldNotCompileUnmarked(els: seq<Element>)
    requires Unmarked(els)
    ensures ShouldNotCompileMacro(Unparse(els)).Ok? <==> WellFormed(els)
    ensures ShouldNotCompileMacro(Unparse(els)).Ok? ==>
            forall a :: a in ShouldNotCompileMacro(Unparse(els)).value ==> a.tag == "compile_fail"
  {
    ExpandIsWalk(ShouldNotCompile, els, []);
    UniformMode(ShouldNotCompile, els, []);
  }
}
