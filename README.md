# should-it-compile, modelled in Dafny

`should-it-compile` is a Rust crate of `macro_rules!` macros for compile
tests written as doc-tests. `should_compile! { .. }` and
`should_not_compile! { .. }` take a small specification:

- `prefix! {..}` fragments, then items, then `suffix! {..}` fragments;
- each item is a leaf test `fn name() {..}` or a group `mod name {..}`;
- an item may carry `#[should_compile]` / `#[should_not_compile]` markers.

For every leaf the macros emit a hidden `pub fn`. Its doc attribute holds a
fenced Rust code block: an ordinary doc-test for a test that must compile,
a `compile_fail` doc-test for one that must not. The code is the prefixes in
scope, the leaf's body and the suffixes in scope, wrapped in `fn name() {..}`.
A group becomes a generated module. Inside it, the entry macro of the
group's mode is invoked again on the inherited prefixes, the group's body
and the inherited suffixes.

The model has two levels.

- **Token streams.** `Expansion.Expand` works on token trees, as the macros
  do. It models:
  - the unwrapping of a single `{ }` group;
  - the entry matcher (`Surface.ParseInvocation`), as deterministic
    recursive descent;
  - the fan-out `__should_it_compile!`;
  - the four rules of `__each_item!`: two marker rules, the fn rule and the
    mod rule with its re-invocation;
  - `__code_block_tag!`.

  An expansion yields the emitted functions as `Artifact`s (module path,
  code-block tag, token trees of the doc-test code), or the first matcher
  failure.
- **Specification trees.** `SpecTree.Walk` is a reference walk over
  structured specifications (`SpecTree.Element`). `SpecTree.Unparse` writes a
  tree as tokens.

The main theorem is `Correspondence.ExpandIsWalk`. On a written
specification, the entry macros emit exactly the walk's artifacts when every
level is ordered (prefixes, then items, then suffixes). Otherwise they fail
at the entry matcher. Everything proved about the walk therefore holds of
the macros:

- counts and order (`WalkLemmas.WalkLeaves`);
- scoping of fragments (`WalkLemmas.WalkFramed`);
- modes (`WalkLemmas.UniformMode`, `WalkLemmas.MarkedLeaf`,
  `WalkLemmas.MarkedGroup`).

`Doc.DocString` renders the doc attribute of an artifact, and states that the
tag and the code can be read back from it. `Doc.EmittedDocString` applies this
to the `pub fn` that the fn rule emits.

The entry matcher accepts `prefix!` declarations only before all items and
`suffix!` declarations only after them; a declaration between items fails
the match. `ParseLemmas.AcceptsExactlyOrdered`
and the examples `Examples.PrefixAfterItem` and
`Examples.ItemAfterSuffixInGroup` state the rejection.

The fn rule checks fragment shapes (`{..}` or `({..})`). The entry matcher
and the mod rule accept any token tree after `prefix!`. So a malformed
fragment is reported only when a leaf uses it (`Examples.MalformedFragment`).

## Model

| member | source | states |
|---|---|---|
| `Expansion.CodeBlockTag` | src/lib.rs:203-211 | the tag is empty exactly for `should_compile` and is `compile_fail` exactly for `should_not_compile` |
| `Expansion.Unwrap` | src/lib.rs:250-256 | a fragment is accepted exactly when it is `{..}` or `({..})`, and its contents are what lies inside the braces |
| `Expansion.UnwrapAll` | src/lib.rs:250-263 | the fragment list is accepted exactly when every fragment has one of the two shapes |
| `Expansion.EmitFn` | src/lib.rs:247-298 | the fn rule fails with the fragment-shape error exactly when some prefix or suffix has neither shape; otherwise it emits one `pub fn` at `path + [name]` with the mode's tag and the prefix contents, body and suffix contents as its code |
| `Expansion.Declare` | src/lib.rs:314-316 | the `kw! f;` redeclarations are four tokens per fragment and weigh what the fragments weigh |
| `Expansion.Reinvocation` | src/lib.rs:313-317 | the re-invocation stream is the redeclared prefixes, the body and the redeclared suffixes, and weighs what they weigh |
| `Expansion.Expand` | src/lib.rs:37-66 | every artifact of an entry macro invoked in the module at `path` lies strictly below `path` and carries one of the two tags |
| `Expansion.ExpandItems` | src/lib.rs:177-198 | every artifact of the fan-out lies below `path` with a valid tag |
| `Expansion.EachItem` | src/lib.rs:215-320 | every artifact of one item lies below `path` with a valid tag |
| `Expansion.ShouldCompileMacro` | src/lib.rs:37-66 | `should_compile!` emits only functions with a name and a valid tag |
| `Expansion.ShouldNotCompileMacro` | src/lib.rs:99-128 | `should_not_compile!` emits only functions with a name and a valid tag |
| `Surface.ParseFragments` | src/lib.rs:45 | the fragment repetition stops only before a token other than its keyword; what it consumes weighs what the fragments found weigh |
| `Surface.ParseAttrs` | src/lib.rs:47 | the attribute repetition stops only before a token other than `#` |
| `Surface.ParseFnHead` | src/lib.rs:48 | the optional `fn name()` head consumes nothing exactly when absent, and three tokens when present |
| `Surface.ParseModHead` | src/lib.rs:49 | the optional `mod name` head consumes nothing exactly when absent, and two tokens when present |
| `Surface.ParseItem` | src/lib.rs:46-51 | an item consumes at least its `{ }` body, and what it consumes weighs what the item weighs |
| `Surface.ParseItems` | src/lib.rs:46-51 | the item repetition stops only before a token that cannot begin an item |
| `Surface.ParseInvocation` | src/lib.rs:44-52 | an accepted invocation accounts for the weight of the whole input |
| `ParseLemmas.ParseMarkerAttrs` | src/lib.rs:47 | written markers are read back as their attribute trees |
| `ParseLemmas.ParseItemOfElement` | src/lib.rs:46-51 | a written leaf or group is read back as the item with its markers, head and body |
| `ParseLemmas.ParseDeclRun` | src/lib.rs:45 | a run of written declarations is read back as its fragments, with or without the optional `;` |
| `ParseLemmas.ParseItemRun` | src/lib.rs:46-51 | a run of written items is read back as those items |
| `ParseLemmas.OrderedIffRuns` | src/lib.rs:44-52 | a list is ordered exactly when its prefix run, item run and suffix run cover all of it |
| `ParseLemmas.ParseUnparse` | src/lib.rs:44-52 | the entry matcher on a written list gives its own prefixes, items and suffixes when the list is ordered, and fails otherwise |
| `ParseLemmas.AcceptsExactlyOrdered` | src/lib.rs:44-52 | the entry matcher accepts a written list exactly when no prefix follows an item or a suffix and no item follows a suffix |
| `ItemRules.StripMarkers` | src/lib.rs:216-245 | stripping leading markers one at a time handles the item in the mode of the last one, whatever the mode before |
| `ItemRules.EachItemRules` | src/lib.rs:215-320 | after its markers, an item with another attribute, both heads or neither head fails with the item-shape error; a bare `fn` goes to the fn rule; a bare `mod` re-invokes the resolved mode's entry macro under the module's name |
| `ItemRules.ExpandItemsAppend` | src/lib.rs:189-197 | the fan-out over two runs of items gives the first run's artifacts, then the second's; when either fails, the first failure in item order wins |
| `ItemRules.ExpandItemsOk` | src/lib.rs:189-197 | the fan-out succeeds exactly when every item succeeds |
| `Correspondence.DeclareIsUnparse` | src/lib.rs:314-316 | the mod rule's redeclarations are written specifications of `prefix! f;` / `suffix! f;` declarations |
| `Correspondence.ReinvocationIsUnparse` | src/lib.rs:313-317 | the re-invocation stream is the written group body framed by the redeclared inherited fragments |
| `Correspondence.ParseSandwich` | src/lib.rs:44-52 | on a group body framed by inherited redeclarations, the entry matcher gives the inherited prefixes followed by the body's own, the body's items, and the body's suffixes followed by the inherited ones |
| `Correspondence.ExpandAgrees` | src/lib.rs:300-320 | the entry macro on a list framed by inherited fragments gives the reference walk with those fragments when the list is ordered at every level, and the entry-shape error otherwise |
| `Correspondence.ItemsAgree` | src/lib.rs:177-198 | the fan-out over written items gives the walk of those items, or the entry-shape error when a nested group is out of order |
| `Correspondence.FnAgrees` | src/lib.rs:247-298 | the fn rule on a written leaf gives its one artifact: resolved tag, inherited prefix contents, body, inherited suffix contents |
| `Correspondence.ModAgrees` | src/lib.rs:300-320 | the mod rule on a written group gives the walk of its elements in the resolved mode under its name, or the entry-shape error |
| `Correspondence.ExpandIsWalk` | src/lib.rs:37-66 | an entry macro on a written specification emits exactly the reference walk's artifacts when every level is ordered, and fails with the entry-shape error otherwise |
| `StreamLemmas.UnwrappedIdempotent` | src/lib.rs:40-42 | removing outer `{ }` layers twice removes nothing more |
| `StreamLemmas.ExpandNormalised` | src/lib.rs:40-52 | an expansion is decided by the entry matcher on the input with its outer `{ }` layers removed |
| `StreamLemmas.ExpandWrap` | src/lib.rs:40-42 | wrapping an invocation in any number of `{ }` layers does not change its expansion |
| `StreamLemmas.ParseDeclare` | src/lib.rs:45 | the matcher reads the redeclared fragments back unchanged |
| `StreamLemmas.DeclarationsOnly` | src/lib.rs:189-197 | a specification with declarations and no items emits nothing and succeeds, whatever its fragments are |
| `StreamLemmas.SingleLeaf` | src/lib.rs:247-298 | a specification with one leaf between declarations expands to what the fn rule makes of that leaf |
| `WalkLemmas.ResolveLast` | src/lib.rs:216-245 | the mode after the markers is the last marker's, or the inherited mode without markers |
| `WalkLemmas.WalkLeaves` | src/lib.rs:189-197 | one artifact per leaf at the leaf's path, in depth-first declaration order; none when there are no leaves |
| `WalkLemmas.WalkFramed` | src/lib.rs:300-320 | every artifact lies below the walk's path, and its code starts with the inherited prefix contents and ends with the inherited suffix contents |
| `WalkLemmas.UniformMode` | src/lib.rs:53-64 | without markers, every test takes the tag of the entry macro's mode |
| `WalkLemmas.MarkedLeaf` | src/lib.rs:216-245 | a marked leaf takes the tag of its marker nearest the item, whatever the mode around it |
| `WalkLemmas.MarkedGroup` | src/lib.rs:300-320 | a marked group is walked in the mode of its nearest marker, independently of the mode around it |
| `Doc.DocString` | src/lib.rs:267-295 | for a tag without a line break, the fence line of the rendered doc attribute reads back as exactly the tag, and its code block reads back as `fn name() {..}` around the rendered tokens |
| `Doc.EmittedDocString` | src/lib.rs:247-298 | the doc attribute of the fn rule's `pub fn` carries the mode's tag as its info string and, as code, `fn name() {..}` around the prefix contents, the body and the suffix contents |
| `StreamLemmas.Unwrapped` | src/lib.rs:40-42 | the normal form is not a single `{ }` group, weighs no more than the input, and the input is that normal form inside some number of `{ }` layers |
| `EntryModes.ShouldCompileUnmarked` | src/lib.rs:53-64 | on a written specification without markers, `should_compile!` succeeds exactly when every level is ordered, and every test it emits is an ordinary doc-test |
| `EntryModes.ShouldNotCompileUnmarked` | src/lib.rs:115-126 | on a written specification without markers, `should_not_compile!` succeeds exactly when every level is ordered, and every test it emits is `compile_fail` |
| `Examples.PrefixOnly` | src/lib.rs:362-366 | `mod2`: a lone prefix and no items emits nothing |
| `Examples.MarkedSibling` | src/lib.rs:368-378 | `mod3`: the unmarked leaf is `compile_fail`, the `#[should_compile]` leaf an ordinary doc-test |
| `Examples.PrefixAndSuffix` | src/lib.rs:380-401 | `mod4`: all three leaves hold the prefix, their body and the suffix; only the marked one compiles |
| `Examples.NestedGroup` | src/lib.rs:403-424 | `mod5`: the group's leaf holds the outer prefix, the group's prefix, its body and the outer suffix, at `inner1::foo` |
| `Examples.Mod6MarkedGroup` | src/lib.rs:426-451 | `mod6`: a `#[should_compile]` group makes its leaves compile, and a `#[should_not_compile]` leaf inside overrides it |
| `Examples.PrefixAfterItem` | src/lib.rs:44-52 | a prefix after an item is rejected by the entry matcher |
| `Examples.ItemAfterSuffixInGroup` | src/lib.rs:300-320 | an item after a suffix inside a group is rejected when the group is re-invoked |
| `Examples.MalformedFragment` | src/lib.rs:247-263 | a fragment that is neither `{..}` nor `({..})` is ignored without leaves, and fails the fn rule when a leaf uses it |

## Left out

- `compile_test_mod!` (src/lib.rs:157-173) and the `macros` / `_m` re-export modules: they declare modules and re-export names, and expand no tests.
- `stringify!` spacing: the code is kept as token trees. `Tokens.RenderSeq` is a stand-in rendering, and only the doc string's fixed parts are exact.
- Compiling and running the emitted doc-tests is not modelled. An artifact's tag records only the expected outcome.
- Lexing is not modelled, and neither is the crate-level `include_str!` of the README. Input is given as token trees.
- Duplicate test or module names are not checked, and neither is identifier validity. The emitted `pub fn`s would clash in Rust; the model lists both.
- The compiler's macro recursion limit is not modelled: expansion is unbounded.
- The `#[cfg(doc)]`, `#[doc(hidden)]` and `#[allow(unused)]` attributes on generated items do not affect which tests exist or their contents.
- The `$crate::` paths and the name resolution of the re-invoked entry macro are not modelled. The mode decides the macro directly.
- Literals and punctuation are abstract tokens. No Rust literal syntax is modelled.
