/** The matcher of the second rule of `should_compile!` and `should_not_compile!`
    (src/lib.rs:44-52 and src/lib.rs:106-114). It reads a run of prefix
    declarations, each the keyword `prefix`, a `!`, one token tree and an
    optional `;`; then a run of items, each any number of `#`-attributes, an
    optional `fn` head with a name and empty parentheses, an optional `mod`
    head with a name, and a brace-delimited body; then a run of suffix
    declarations written like the prefix ones.

    Every position of this matcher is decided by one literal token (`prefix`,
    `#`, `fn`, `mod`, a `{ }` group, `suffix`), so the macro matcher behaves as
    the deterministic recursive descent below: once a repetition has begun on
    its leading token, any mismatch inside it is a failure of the whole rule. */
module Surface {
  import opened Tokens
  import opened Wrappers

  /** One item as the entry macros capture and forward it. An item may have
      both or neither of the `fn` and `mod` heads and any attributes; it is
      `__each_item!` that rejects the shapes it has no rule for. */
  datatype Item = Item(attrs: seq<Tree>, fnName: Option<string>, modName: Option<string>, body: seq<Tree>)

  /** What the entry matcher forwards to `__should_it_compile!`: the fragment
      token trees (without `prefix!`/`suffix!` and without the optional `;`) and
      the items, each in declaration order. */
  datatype Shape = Shape(prefixes: seq<Tree>, items: seq<Item>, suffixes: seq<Tree>)

  /** Tokens that can begin an item. */
  predicate ItemStart(t: Tree) {
    t == Punct('#') || t == Ident("fn") || t == Ident("mod") || (t.Group? && t.delim == Brace)
  }

  // Weights of the parsed pieces: each piece weighs what its tokens weigh, minus `;`.

  function FragmentsWeight(frags: seq<Tree>): nat
    decreases frags
  {
    if frags == [] then 0 else 2 + Weight(frags[0]) + FragmentsWeight(frags[1..])
  }

  function AttrsWeight(attrs: seq<Tree>): nat
    decreases attrs
  {
    if attrs == [] then 0 else 1 + Weight(attrs[0]) + AttrsWeight(attrs[1..])
  }

  function ItemWeight(it: Item): nat {
    AttrsWeight(it.attrs) + (if it.fnName.Some? then 3 else 0) + (if it.modName.Some? then 2 else 0)
    + 1 + SeqWeight(it.body)
  }

  function ItemsWeight(items: seq<Item>): nat
    decreases items
  {
    if items == [] then 0 else ItemWeight(items[0]) + ItemsWeight(items[1..])
  }

  function ShapeWeight(s: Shape): nat {
    FragmentsWeight(s.prefixes) + ItemsWeight(s.items) + FragmentsWeight(s.suffixes)
  }

  lemma {:induction false} SeqWeightCons3(ts: seq<Tree>)
    requires |ts| >= 3
    ensures SeqWeight(ts) == Weight(ts[0]) + Weight(ts[1]) + Weight(ts[2]) + SeqWeight(ts[3..])
  {
    assert ts[1..][1..] == ts[2..];
    assert ts[2..][1..] == ts[3..];
    assert SeqWeight(ts) == Weight(ts[0]) + SeqWeight(ts[1..]);
    assert SeqWeight(ts[1..]) == Weight(ts[1]) + SeqWeight(ts[2..]);
    assert SeqWeight(ts[2..]) == Weight(ts[2]) + SeqWeight(ts[3..]);
  }

  /** The declaration run for `kw`, either "prefix" or "suffix": repeated
      `kw`, `!`, one fragment tree and an optional `;`. Stops at
      the first token other than `kw`; fails when `kw` is not followed by `!`
      and one token tree. Consumes a part of the input whose weight is that of
      the fragments found. */
  function ParseFragments(kw: string, ts: seq<Tree>): (r: Option<(seq<Tree>, seq<Tree>)>)
    decreases |ts|
    ensures r.Some? ==> |r.value.1| <= |ts|
    ensures r.Some? ==> r.value.1 == [] || r.value.1[0] != Ident(kw)
    ensures r.Some? ==> SeqWeight(ts) == FragmentsWeight(r.value.0) + SeqWeight(r.value.1)
  {
    if |ts| == 0 || ts[0] != Ident(kw) then Some(([], ts))
    else if |ts| < 3 || ts[1] != Punct('!') then None
    else
      var hasSemi := |ts| > 3 && ts[3] == Punct(';');
      var after := if hasSemi then ts[4..] else ts[3..];
      match ParseFragments(kw, after)
      case None => None
      case Some((frags, rest)) =>
        SeqWeightCons3(ts);
        assert hasSemi ==> SeqWeight(ts[3..]) == SeqWeight(after) by {
          if hasSemi { assert ts[3..][1..] == ts[4..]; }
        }
        Some(([ts[2]] + frags, rest))
  }

  /** The attribute run: repeated `#` followed by one token tree. */
  function ParseAttrs(ts: seq<Tree>): (r: Option<(seq<Tree>, seq<Tree>)>)
    decreases |ts|
    ensures r.Some? ==> |r.value.1| <= |ts|
    ensures r.Some? ==> r.value.1 == [] || r.value.1[0] != Punct('#')
    ensures r.Some? ==> SeqWeight(ts) == AttrsWeight(r.value.0) + SeqWeight(r.value.1)
  {
    if |ts| == 0 || ts[0] != Punct('#') then Some(([], ts))
    else if |ts| < 2 then None
    else
      match ParseAttrs(ts[2..])
      case None => None
      case Some((attrs, rest)) =>
        assert ts[1..][1..] == ts[2..];
        Some(([ts[1]] + attrs, rest))
  }

  /** The optional `fn` head: the keyword, a name and an empty parenthesis group. */
  function ParseFnHead(ts: seq<Tree>): (r: Option<(Option<string>, seq<Tree>)>)
    ensures r.Some? ==> |r.value.1| <= |ts|
    ensures r.Some? ==> (r.value.0.None? <==> r.value.1 == ts)
    ensures r.Some? ==> SeqWeight(ts) == (if r.value.0.Some? then 3 else 0) + SeqWeight(r.value.1)
  {
    if |ts| == 0 || ts[0] != Ident("fn") then Some((None, ts))
    else if |ts| >= 3 && ts[1].Ident? && ts[2] == Group(Paren, []) then
      SeqWeightCons3(ts);
      Some((Some(ts[1].name), ts[3..]))
    else None
  }

  /** The optional `mod` head: the keyword and a name. */
  function ParseModHead(ts: seq<Tree>): (r: Option<(Option<string>, seq<Tree>)>)
    ensures r.Some? ==> |r.value.1| <= |ts|
    ensures r.Some? ==> (r.value.0.None? <==> r.value.1 == ts)
    ensures r.Some? ==> SeqWeight(ts) == (if r.value.0.Some? then 2 else 0) + SeqWeight(r.value.1)
  {
    if |ts| == 0 || ts[0] != Ident("mod") then Some((None, ts))
    else if |ts| >= 2 && ts[1].Ident? then
      assert ts[1..][1..] == ts[2..];
      assert SeqWeight(ts[1..]) == Weight(ts[1]) + SeqWeight(ts[2..]);
      Some((Some(ts[1].name), ts[2..]))
    else None
  }

  /** One item: attributes, the optional heads, then the `{ }` body. */
  function ParseItem(ts: seq<Tree>): (r: Option<(Item, seq<Tree>)>)
    ensures r.Some? ==> |r.value.1| < |ts|
    ensures r.Some? ==> SeqWeight(ts) == ItemWeight(r.value.0) + SeqWeight(r.value.1)
  {
    match ParseAttrs(ts)
    case None => None
    case Some((attrs, r1)) =>
      match ParseFnHead(r1)
      case None => None
      case Some((fnName, r2)) =>
        match ParseModHead(r2)
        case None => None
        case Some((modName, r3)) =>
          if |r3| > 0 && r3[0].Group? && r3[0].delim == Brace then
            assert SeqWeight(r3) == 1 + SeqWeight(r3[0].inner) + SeqWeight(r3[1..]);
            Some((Item(attrs, fnName, modName, r3[0].inner), r3[1..]))
          else None
  }

  /** The item repetition: items continue as long as the next token can begin one. */
  function ParseItems(ts: seq<Tree>): (r: Option<(seq<Item>, seq<Tree>)>)
    decreases |ts|
    ensures r.Some? ==> r.value.1 == [] || !ItemStart(r.value.1[0])
    ensures r.Some? ==> SeqWeight(ts) == ItemsWeight(r.value.0) + SeqWeight(r.value.1)
  {
    if |ts| == 0 || !ItemStart(ts[0]) then Some(([], ts))
    else
      match ParseItem(ts)
      case None => None
      case Some((item, r1)) =>
        match ParseItems(r1)
        case None => None
        case Some((items, rest)) =>
          assert ([item] + items)[1..] == items;
          Some(([item] + items, rest))
  }

  /** The whole entry matcher: prefixes, items, suffixes, and nothing after.
      A successful match accounts for the weight of the whole input. */
  function ParseInvocation(ts: seq<Tree>): (r: Option<Shape>)
    ensures r.Some? ==> ShapeWeight(r.value) == SeqWeight(ts)
  {
    match ParseFragments("prefix", ts)
    case None => None
    case Some((prefixes, r1)) =>
      match ParseItems(r1)
      case None => None
      case Some((items, r2)) =>
        match ParseFragments("suffix", r2)
        case None => None
        case Some((suffixes, r3)) =>
          if r3 == [] then Some(Shape(prefixes, items, suffixes)) else None
  }
}
