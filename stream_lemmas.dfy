/** Properties of the entry macros on arbitrary token streams: the brace
    unwrap rule (src/lib.rs:40-42) is transparent at any depth, and fragment
    shapes are checked only where the fn rule consumes them
    (src/lib.rs:247-264). */
module StreamLemmas {
  import opened Tokens
  import opened Wrappers
  import opened Surface
  import opened Expansion

  /** `ts` inside `n` layers of `{ }`. */
  function Wrap(ts: seq<Tree>, n: nat): seq<Tree>
    decreases n
  {
    if n == 0 then ts else [Group(Brace, Wrap(ts, n - 1))]
  }

  /** The normal form reached by repeating the unwrap rule: every enclosing
      `{ }` layer removed. The input is the normal form inside some number of
      layers, and the normal form is not itself one `{ }` group. */
  function Unwrapped(ts: seq<Tree>): (r: seq<Tree>)
    decreases SeqWeight(ts)
    ensures !IsBraceGroup(r)
    ensures SeqWeight(r) <= SeqWeight(ts)
    ensures exists n: nat :: Wrap(r, n) == ts
  {
    if IsBraceGroup(ts) then
      assert SeqWeight(ts) == 1 + SeqWeight(ts[0].inner);
      var r := Unwrapped(ts[0].inner);
      assert exists n: nat :: Wrap(r, n) == ts by {
        var n: nat :| Wrap(r, n) == ts[0].inner;
        assert Wrap(r, n + 1) == [Group(Brace, ts[0].inner)] == ts;
      }
      r
    else
      assert Wrap(ts, 0) == ts;
      ts
  }

  lemma UnwrappedIdempotent(ts: seq<Tree>)
    ensures Unwrapped(Unwrapped(ts)) == Unwrapped(ts)
  {
  }

  lemma {:induction false} UnwrappedWrap(ts: seq<Tree>, n: nat)
    ensures Unwrapped(Wrap(ts, n)) == Unwrapped(ts)
  {
    if n > 0 {
      UnwrappedWrap(ts, n - 1);
      assert Wrap(ts, n)[0].inner == Wrap(ts, n - 1);
    }
  }

  /** An entry macro is the entry matcher applied to the unwrapped stream. */
  lemma {:induction false} ExpandNormalised(mode: Mode, ts: seq<Tree>, path: seq<string>)
    decreases SeqWeight(ts)
    ensures Expand(mode, ts, path) ==
      match ParseInvocation(Unwrapped(ts))
      case None => Err(EntryShape)
      case Some(shape) => ExpandItems(mode, shape.prefixes, shape.items, shape.suffixes, path)
  {
    if IsBraceGroup(ts) {
      assert SeqWeight(ts) == 1 + SeqWeight(ts[0].inner);
      ExpandNormalised(mode, ts[0].inner, path);
    }
  }

  /** Wrapping the invocation in any number of `{ }` layers changes nothing. */
  lemma {:induction false} ExpandWrap(mode: Mode, ts: seq<Tree>, n: nat, path: seq<string>)
    ensures Expand(mode, Wrap(ts, n), path) == Expand(mode, ts, path)
  {
    ExpandNormalised(mode, Wrap(ts, n), path);
    ExpandNormalised(mode, ts, path);
    UnwrappedWrap(ts, n);
  }

  /** One `kw! f;` step of the fragment repetition. */
  lemma ParseFragmentsStep(kw: string, ts: seq<Tree>)
    requires |ts| >= 4 && ts[0] == Ident(kw) && ts[1] == Punct('!') && ts[3] == Punct(';')
    ensures ParseFragments(kw, ts) ==
      match ParseFragments(kw, ts[4..])
      case None => None
      case Some((fs, r)) => Some(([ts[2]] + fs, r))
  {
  }

  /** The declarations the mod rule writes are read back as the fragments
      they declare, whatever those fragments are. */
  lemma {:induction false} ParseDeclare(kw: string, frags: seq<Tree>, rest: seq<Tree>)
    requires rest == [] || rest[0] != Ident(kw)
    ensures ParseFragments(kw, Declare(kw, frags) + rest) == Some((frags, rest))
  {
    if frags == [] {
      assert Declare(kw, frags) + rest == rest;
    } else {
      var ts := Declare(kw, frags) + rest;
      assert ts == [Ident(kw), Punct('!'), frags[0], Punct(';')] + (Declare(kw, frags[1..]) + rest);
      assert ts[4..] == Declare(kw, frags[1..]) + rest;
      ParseFragmentsStep(kw, ts);
      ParseDeclare(kw, frags[1..], rest);
      assert [frags[0]] + frags[1..] == frags;
    }
  }

  lemma DeclareHead(kw: string, frags: seq<Tree>)
    ensures Declare(kw, frags) == [] || Declare(kw, frags)[0] == Ident(kw)
  {
  }

  /** A specification with no items expands to nothing, even when its
      fragments have neither accepted shape: nothing checks them. */
  lemma DeclarationsOnly(mode: Mode, pre: seq<Tree>, suf: seq<Tree>, path: seq<string>)
    ensures Expand(mode, Declare("prefix", pre) + Declare("suffix", suf), path) == Ok([])
  {
    var s := Declare("suffix", suf);
    var ts := Declare("prefix", pre) + s;
    assert |ts| == 4 * (|pre| + |suf|);
    DeclareHead("suffix", suf);
    ParseDeclare("prefix", pre, s);
    assert ParseItems(s) == Some(([], s));
    ParseDeclare("suffix", suf, []);
    assert s + [] == s;
  }

  /** The item repetition on one bare leaf. */
  lemma ParseLeaf(name: string, body: seq<Tree>, s: seq<Tree>)
    requires s == [] || !ItemStart(s[0])
    ensures ParseItems([Ident("fn"), Ident(name), Group(Paren, []), Group(Brace, body)] + s) ==
            Some(([Item([], Some(name), None, body)], s))
  {
    var leaf := [Ident("fn"), Ident(name), Group(Paren, []), Group(Brace, body)];
    var item := Item([], Some(name), None, body);
    assert (leaf + s)[3..] == [Group(Brace, body)] + s;
    assert ([Group(Brace, body)] + s)[1..] == s;
    assert ParseItem(leaf + s) == Some((item, s));
    assert ParseItems(s) == Some(([], s));
    assert [item] + [] == [item];
  }

  /** The entry matcher on declarations around one bare leaf. */
  lemma ParseSingleLeaf(pre: seq<Tree>, name: string, body: seq<Tree>, suf: seq<Tree>)
    ensures ParseInvocation(Declare("prefix", pre) + [Ident("fn"), Ident(name), Group(Paren, []), Group(Brace, body)]
                            + Declare("suffix", suf)) ==
            Some(Shape(pre, [Item([], Some(name), None, body)], suf))
  {
    var s := Declare("suffix", suf);
    var leaf := [Ident("fn"), Ident(name), Group(Paren, []), Group(Brace, body)];
    assert Declare("prefix", pre) + leaf + s == Declare("prefix", pre) + (leaf + s);
    DeclareHead("suffix", suf);
    ParseDeclare("prefix", pre, leaf + s);
    ParseLeaf(name, body, s);
    ParseDeclare("suffix", suf, []);
    assert s + [] == s;
  }

  /** A specification with one leaf is the fn rule on that leaf: it fails
      with the fragment-shape error exactly when some fragment is malformed. */
  lemma SingleLeaf(mode: Mode, pre: seq<Tree>, name: string, body: seq<Tree>, suf: seq<Tree>, path: seq<string>)
    ensures Expand(mode, Declare("prefix", pre) + [Ident("fn"), Ident(name), Group(Paren, []), Group(Brace, body)]
                         + Declare("suffix", suf), path) ==
            EmitFn(mode, pre, name, body, suf, path)
  {
    var ts := Declare("prefix", pre) + [Ident("fn"), Ident(name), Group(Paren, []), Group(Brace, body)]
              + Declare("suffix", suf);
    var item := Item([], Some(name), None, body);
    assert |ts| == 4 * (|pre| + |suf|) + 4;
    ParseSingleLeaf(pre, name, body, suf);
    assert !IsBraceGroup(ts);
    assert Expand(mode, ts, path) == ExpandItems(mode, pre, [item], suf, path);
    assert [item][0] == item && [item][1..] == [];
    assert EachItem(mode, pre, item, suf, path) == EmitFn(mode, pre, name, body, suf, path);
    assert ExpandItems(mode, pre, [item][1..], suf, path) == Ok([]);
    match EmitFn(mode, pre, name, body, suf, path)
    case Err(_) =>
    case Ok(x) => assert x + [] == x;
  }
}
