/** What the entry matcher makes of a specification written out as tokens:
    it accepts exactly the ordered ones (all prefixes, then all items, then all
    suffixes) and then returns their fragments and items in order. */
module ParseLemmas {
  import opened Tokens
  import opened Wrappers
  import opened Surface
  import opened Expansion
  import opened SpecTree

  /** The attributes the entry matcher captures for a list of markers. */
  function MarkerAttrs(markers: seq<Mode>): (r: seq<Tree>)
    decreases markers
    ensures |r| == |markers|
  {
    if markers == [] then [] else [MarkerAttr(markers[0])] + MarkerAttrs(markers[1..])
  }

  /** The item the entry matcher captures for a fn or mod element. */
  function ToItem(e: Element): Item
    requires e.FnItem? || e.ModItem?
  {
    match e
    case FnItem(markers, name, body) => Item(MarkerAttrs(markers), Some(name), None, body)
    case ModItem(markers, name, sub) => Item(MarkerAttrs(markers), None, Some(name), Unparse(sub))
  }

  /** The items among `els`, in order. */
  function ItemsOf(els: seq<Element>): seq<Item>
    decreases els
  {
    if els == [] then []
    else (if Stage(els[0]) == 1 then [ToItem(els[0])] else []) + ItemsOf(els[1..])
  }

  /** Length of the longest run of elements of stage `s` at the front of `els`. */
  function Lead(els: seq<Element>, s: nat): (k: nat)
    decreases els
    ensures k <= |els|
    ensures forall i :: 0 <= i < k ==> Stage(els[i]) == s
    ensures k < |els| ==> Stage(els[k]) != s
  {
    if els != [] && Stage(els[0]) == s then 1 + Lead(els[1..], s) else 0
  }

  lemma {:induction false} UnparseAppend(a: seq<Element>, b: seq<Element>)
    ensures Unparse(a + b) == Unparse(a) + Unparse(b)
  {
    if a == [] {
      assert a + b == b;
    } else {
      assert (a + b)[0] == a[0];
      assert (a + b)[1..] == a[1..] + b;
      UnparseAppend(a[1..], b);
    }
  }

  lemma {:induction false} OwnFragmentsAppend(kw: string, a: seq<Element>, b: seq<Element>)
    ensures OwnFragments(kw, a + b) == OwnFragments(kw, a) + OwnFragments(kw, b)
  {
    if a == [] {
      assert a + b == b;
    } else {
      assert (a + b)[0] == a[0];
      assert (a + b)[1..] == a[1..] + b;
      OwnFragmentsAppend(kw, a[1..], b);
    }
  }

  lemma {:induction false} ItemsOfAppend(a: seq<Element>, b: seq<Element>)
    ensures ItemsOf(a + b) == ItemsOf(a) + ItemsOf(b)
  {
    if a == [] {
      assert a + b == b;
    } else {
      assert (a + b)[0] == a[0];
      assert (a + b)[1..] == a[1..] + b;
      ItemsOfAppend(a[1..], b);
    }
  }

  /** A list with no element of stage `s` declares no fragment / holds no item of that stage. */
  lemma {:induction false} NoneOfStage(els: seq<Element>, s: nat)
    requires forall i :: 0 <= i < |els| ==> Stage(els[i]) != s
    ensures s == 0 ==> OwnFragments("prefix", els) == []
    ensures s == 1 ==> ItemsOf(els) == []
    ensures s == 2 ==> OwnFragments("suffix", els) == []
  {
    if els != [] {
      NoneOfStage(els[1..], s);
    }
  }

  /** The written form of every element is at least three tokens, and its first
      token tells its stage apart. */
  lemma ElementHead(e: Element)
    ensures |UnparseElement(e)| >= 3
    ensures e.PrefixDecl? ==> UnparseElement(e)[0] == Ident("prefix")
    ensures e.SuffixDecl? ==> UnparseElement(e)[0] == Ident("suffix")
    ensures Stage(e) == 1 <==> ItemStart(UnparseElement(e)[0])
  {
    match e
    case FnItem(markers, _, _) =>
      if markers != [] { assert UnparseElement(e)[0] == Punct('#'); }
    case ModItem(markers, _, _) =>
      if markers != [] { assert UnparseElement(e)[0] == Punct('#'); }
    case _ =>
  }

  /** The first token of a nonempty written list is that of its first element. */
  lemma UnparseHead(els: seq<Element>)
    requires els != []
    ensures |Unparse(els)| >= 3 && Unparse(els)[0] == UnparseElement(els[0])[0]
  {
    ElementHead(els[0]);
  }

  lemma UnparseEmpty(els: seq<Element>)
    ensures Unparse(els) == [] <==> els == []
  {
    if els != [] { UnparseHead(els); }
  }

  /** The attribute repetition reads the markers back. */
  lemma {:induction false} ParseMarkerAttrs(markers: seq<Mode>, rest: seq<Tree>)
    requires rest == [] || rest[0] != Punct('#')
    ensures ParseAttrs(MarkerTokens(markers) + rest) == Some((MarkerAttrs(markers), rest))
  {
    if markers != [] {
      var ts := MarkerTokens(markers) + rest;
      assert MarkerTokens(markers) == [Punct('#'), MarkerAttr(markers[0])] + MarkerTokens(markers[1..]);
      assert ts[0] == Punct('#') && ts[1] == MarkerAttr(markers[0]);
      assert ts[2..] == MarkerTokens(markers[1..]) + rest;
      ParseMarkerAttrs(markers[1..], rest);
      assert ParseAttrs(ts) == Some(([ts[1]] + MarkerAttrs(markers[1..]), rest));
      assert MarkerAttrs(markers) == [MarkerAttr(markers[0])] + MarkerAttrs(markers[1..]);
    } else {
      assert MarkerTokens(markers) + rest == rest;
      assert MarkerAttrs(markers) == [];
    }
  }

  /** One written item is read back as the item it stands for, whatever follows it. */
  lemma ParseItemOfElement(e: Element, rest: seq<Tree>)
    requires e.FnItem? || e.ModItem?
    ensures ParseItem(UnparseElement(e) + rest) == Some((ToItem(e), rest))
  {
    var bodyTree := if e.FnItem? then Group(Brace, e.body) else Group(Brace, Unparse(e.elements));
    var r3 := [bodyTree] + rest;
    var head := if e.FnItem? then [Ident("fn"), Ident(e.name), Group(Paren, [])] else [Ident("mod"), Ident(e.name)];
    var tail := head + r3;
    assert UnparseElement(e) + rest == MarkerTokens(e.markers) + tail;
    ParseMarkerAttrs(e.markers, tail);
    if e.FnItem? {
      assert tail[3..] == r3;
      assert ParseFnHead(tail) == Some((Some(e.name), r3));
    } else {
      assert ParseFnHead(tail) == Some((None, tail));
      assert tail[2..] == r3;
      assert ParseModHead(tail) == Some((Some(e.name), r3));
    }
    assert r3[1..] == rest;
  }

  /** One written declaration contributes its fragment tree and hands the
      rest of the stream on, provided the stream does not go on with `;`. */
  lemma ParseOneDecl(kw: string, d: Element, next: seq<Tree>)
    requires IsDecl(kw, d)
    requires next == [] || next[0] != Punct(';')
    ensures ParseFragments(kw, UnparseElement(d) + next) ==
      match ParseFragments(kw, next)
      case None => None
      case Some((fs, r)) => Some(([FragmentTree(d.frag)] + fs, r))
  {
    var ts := UnparseElement(d) + next;
    var head := [Ident(kw), Punct('!'), FragmentTree(d.frag)];
    assert UnparseElement(d) == head + (if d.semicolon then [Punct(';')] else []);
    assert ts[0] == Ident(kw) && ts[1] == Punct('!') && ts[2] == FragmentTree(d.frag);
    if d.semicolon {
      assert ts[3] == Punct(';');
      assert ts[4..] == next;
    } else {
      assert ts[3..] == next;
    }
  }

  /** A run of `kw` declarations is read back as its fragments, in order,
      provided what follows cannot continue the run. */
  lemma {:induction false} ParseDeclRun(kw: string, ds: seq<Element>, rest: seq<Tree>)
    requires forall i :: 0 <= i < |ds| ==> IsDecl(kw, ds[i])
    requires rest == [] || (rest[0] != Ident(kw) && rest[0] != Punct(';'))
    ensures ParseFragments(kw, Unparse(ds) + rest) == Some((FragmentTrees(OwnFragments(kw, ds)), rest))
  {
    if ds == [] {
      assert Unparse(ds) + rest == rest;
      assert OwnFragments(kw, ds) == [];
    } else {
      ParseDeclRun(kw, ds[1..], rest);
      DeclRunTail(kw, ds, rest);
      DeclRunStep(kw, ds, rest);
    }
  }

  /** One more declaration in front of a run that is read back. */
  lemma DeclRunStep(kw: string, ds: seq<Element>, rest: seq<Tree>)
    requires ds != [] && IsDecl(kw, ds[0])
    requires Unparse(ds[1..]) + rest == [] || (Unparse(ds[1..]) + rest)[0] != Punct(';')
    requires ParseFragments(kw, Unparse(ds[1..]) + rest) == Some((FragmentTrees(OwnFragments(kw, ds[1..])), rest))
    ensures ParseFragments(kw, Unparse(ds) + rest) == Some((FragmentTrees(OwnFragments(kw, ds)), rest))
  {
    var next := Unparse(ds[1..]) + rest;
    assert Unparse(ds) + rest == UnparseElement(ds[0]) + next;
    ParseOneDecl(kw, ds[0], next);
    OwnFragmentTreesCons(kw, ds);
  }

  /** What follows the first declaration of a run does not start with `;`. */
  lemma DeclRunTail(kw: string, ds: seq<Element>, rest: seq<Tree>)
    requires ds != [] && forall i :: 0 <= i < |ds| ==> IsDecl(kw, ds[i])
    requires rest == [] || (rest[0] != Ident(kw) && rest[0] != Punct(';'))
    ensures Unparse(ds[1..]) + rest == [] || (Unparse(ds[1..]) + rest)[0] != Punct(';')
  {
    if ds[1..] != [] {
      assert IsDecl(kw, ds[1..][0]);
      UnparseHead(ds[1..]);
      ElementHead(ds[1..][0]);
    } else {
      assert Unparse(ds[1..]) + rest == rest;
    }
  }

  lemma OwnFragmentTreesCons(kw: string, ds: seq<Element>)
    requires ds != [] && IsDecl(kw, ds[0])
    ensures FragmentTrees(OwnFragments(kw, ds)) == [FragmentTree(ds[0].frag)] + FragmentTrees(OwnFragments(kw, ds[1..]))
  {
    assert OwnFragments(kw, ds) == [ds[0].frag] + OwnFragments(kw, ds[1..]);
  }

  /** A run of items is read back as those items, in order, provided what
      follows cannot begin an item. */
  lemma {:induction false} ParseItemRun(items: seq<Element>, rest: seq<Tree>)
    requires forall i :: 0 <= i < |items| ==> Stage(items[i]) == 1
    requires rest == [] || !ItemStart(rest[0])
    ensures ParseItems(Unparse(items) + rest) == Some((ItemsOf(items), rest))
  {
    if items == [] {
      assert Unparse(items) + rest == rest;
    } else {
      var next := Unparse(items[1..]) + rest;
      assert Unparse(items) + rest == UnparseElement(items[0]) + next;
      ElementHead(items[0]);
      ParseItemOfElement(items[0], next);
      ParseItemRun(items[1..], rest);
      assert ItemsOf(items) == [ToItem(items[0])] + ItemsOf(items[1..]);
    }
  }

  /** An element of a stage other than `s` leads a written list with a token
      that cannot continue a run of stage `s`. */
  lemma NextCannotContinue(els: seq<Element>)
    requires els != []
    ensures |Unparse(els)| >= 3
    ensures Stage(els[0]) != 0 ==> Unparse(els)[0] != Ident("prefix") && Unparse(els)[0] != Punct(';')
    ensures Stage(els[0]) != 1 ==> !ItemStart(Unparse(els)[0])
    ensures Stage(els[0]) != 2 ==> Unparse(els)[0] != Ident("suffix") && Unparse(els)[0] != Punct(';')
  {
    UnparseHead(els);
    ElementHead(els[0]);
    match els[0]
    case FnItem(ms, _, _) =>
      assert ms != [] ==> UnparseElement(els[0])[0] == Punct('#');
    case ModItem(ms, _, _) =>
      assert ms != [] ==> UnparseElement(els[0])[0] == Punct('#');
    case _ =>
  }

  /** The stage of each element of a list that is a run of stage 0, then of
      stage 1, then of stage 2, up to `k2`. */
  predicate Profile(els: seq<Element>, k0: nat, k1: nat, k2: nat) {
    k0 <= k1 <= k2 <= |els| &&
    forall i :: 0 <= i < k2 ==> Stage(els[i]) == (if i < k0 then 0 else if i < k1 then 1 else 2)
  }

  lemma RunsProfile(els: seq<Element>, k0: nat, k1: nat, k2: nat)
    requires k0 == Lead(els, 0)
    requires k1 == k0 + Lead(els[k0..], 1)
    requires k2 == k1 + Lead(els[k1..], 2)
    ensures Profile(els, k0, k1, k2)
  {
    forall i | 0 <= i < k2
      ensures Stage(els[i]) == (if i < k0 then 0 else if i < k1 then 1 else 2)
    {
      if k0 <= i < k1 {
        assert els[i] == els[k0..][i - k0];
      } else if k1 <= i {
        assert els[i] == els[k1..][i - k1];
      }
    }
  }

  /** After the three runs comes an element that continues none of them. */
  lemma RunsEnd(els: seq<Element>, k0: nat, k1: nat, k2: nat)
    requires k0 == Lead(els, 0)
    requires k1 == k0 + Lead(els[k0..], 1)
    requires k2 == k1 + Lead(els[k1..], 2)
    ensures k0 < |els| ==> Stage(els[k0]) != 0
    ensures k1 < |els| ==> Stage(els[k1]) != 1
    ensures k2 < |els| ==> Stage(els[k2]) != 2
  {
    if k1 < |els| { assert els[k1] == els[k0..][k1 - k0]; }
    if k2 < |els| { assert els[k2] == els[k1..][k2 - k1]; }
  }

  /** Ordered lists are exactly those that are one run of prefixes, one run of
      items and one run of suffixes. */
  lemma OrderedIffRuns(els: seq<Element>, k0: nat, k1: nat, k2: nat)
    requires k0 == Lead(els, 0)
    requires k1 == k0 + Lead(els[k0..], 1)
    requires k2 == k1 + Lead(els[k1..], 2)
    ensures Ordered(els) <==> k2 == |els|
  {
    RunsProfile(els, k0, k1, k2);
    RunsEnd(els, k0, k1, k2);
    if k2 < |els| {
      if k2 > k1 {
        assert Stage(els[k1]) == 2 && Stage(els[k2]) < 2;
      } else if k1 > k0 {
        assert Stage(els[k0]) == 1 && Stage(els[k1]) == 0;
      } else {
        assert false;
      }
    } else {
      assert forall i, j :: 0 <= i < j < |els| ==> Stage(els[i]) <= Stage(els[j]);
    }
  }

  lemma ParseThreePhases(ts: seq<Tree>, pre: seq<Tree>, r1: seq<Tree>, items: seq<Item>, r2: seq<Tree>,
                         suf: seq<Tree>, r3: seq<Tree>)
    requires ParseFragments("prefix", ts) == Some((pre, r1))
    requires ParseItems(r1) == Some((items, r2))
    requires ParseFragments("suffix", r2) == Some((suf, r3))
    ensures ParseInvocation(ts) == if r3 == [] then Some(Shape(pre, items, suf)) else None
  {
  }

  lemma SliceSplit<T>(s: seq<T>, i: nat, j: nat, k: nat)
    requires i <= j <= k <= |s|
    ensures s == s[..i] + (s[i..j] + (s[j..k] + s[k..]))
  {
    assert s[j..] == s[j..k] + s[k..];
    assert s[i..] == s[i..j] + s[j..];
    assert s == s[..i] + s[i..];
  }

  /** In a run of prefixes, then items, then suffixes, each kind comes from its own run. */
  lemma SelectRuns(a: seq<Element>, b: seq<Element>, c: seq<Element>)
    requires forall i :: 0 <= i < |a| ==> Stage(a[i]) == 0
    requires forall i :: 0 <= i < |b| ==> Stage(b[i]) == 1
    requires forall i :: 0 <= i < |c| ==> Stage(c[i]) == 2
    ensures OwnFragments("prefix", a + (b + c)) == OwnFragments("prefix", a)
    ensures ItemsOf(a + (b + c)) == ItemsOf(b)
    ensures OwnFragments("suffix", a + (b + c)) == OwnFragments("suffix", c)
  {
    OwnFragmentsAppend("prefix", a, b + c);
    OwnFragmentsAppend("prefix", b, c);
    OwnFragmentsAppend("suffix", a, b + c);
    OwnFragmentsAppend("suffix", b, c);
    ItemsOfAppend(a, b + c);
    ItemsOfAppend(b, c);
    NoneOfStage(b, 0);
    NoneOfStage(c, 0);
    NoneOfStage(a, 1);
    NoneOfStage(c, 1);
    NoneOfStage(a, 2);
    NoneOfStage(b, 2);
  }

  /** The matcher on a list written as a run of prefixes `a`, a run of items
      `b`, a run of suffixes `c` and a remainder `d` that continues none of them. */
  lemma ParseByRuns(a: seq<Element>, b: seq<Element>, c: seq<Element>, d: seq<Element>)
    requires forall i :: 0 <= i < |a| ==> Stage(a[i]) == 0
    requires forall i :: 0 <= i < |b| ==> Stage(b[i]) == 1
    requires forall i :: 0 <= i < |c| ==> Stage(c[i]) == 2
    requires d != [] ==> Stage(d[0]) != 2
    requires d != [] && c == [] ==> Stage(d[0]) == 0
    requires b == [] && c == [] ==> d == []
    ensures ParseInvocation(Unparse(a + (b + (c + d)))) ==
      if d == [] then Some(Shape(FragmentTrees(OwnFragments("prefix", a)), ItemsOf(b),
                                 FragmentTrees(OwnFragments("suffix", c))))
      else None
  {
    if b != [] {
      assert (b + (c + d))[0] == b[0];
      NextCannotContinue(b + (c + d));
    } else if c != [] {
      assert (b + (c + d))[0] == c[0];
      NextCannotContinue(b + (c + d));
    }
    if c != [] {
      assert (c + d)[0] == c[0];
      NextCannotContinue(c + d);
    } else if d != [] {
      assert (c + d)[0] == d[0];
      NextCannotContinue(c + d);
    }
    if d != [] { NextCannotContinue(d); }
    UnparseAppend(a, b + (c + d));
    UnparseAppend(b, c + d);
    UnparseAppend(c, d);
    ParseDeclRun("prefix", a, Unparse(b + (c + d)));
    ParseItemRun(b, Unparse(c + d));
    ParseDeclRun("suffix", c, Unparse(d));
    ParseThreePhases(Unparse(a + (b + (c + d))), FragmentTrees(OwnFragments("prefix", a)), Unparse(b + (c + d)),
                     ItemsOf(b), Unparse(c + d), FragmentTrees(OwnFragments("suffix", c)), Unparse(d));
    UnparseEmpty(d);
  }

  /** The three runs of a profiled list, cut out as slices. */
  lemma SplitRuns(els: seq<Element>, k0: nat, k1: nat, k2: nat)
    requires Profile(els, k0, k1, k2)
    ensures forall i :: 0 <= i < k0 ==> Stage(els[..k0][i]) == 0
    ensures forall i :: 0 <= i < k1 - k0 ==> Stage(els[k0..k1][i]) == 1
    ensures forall i :: 0 <= i < k2 - k1 ==> Stage(els[k1..k2][i]) == 2
  {
    forall i | 0 <= i < k0 ensures Stage(els[..k0][i]) == 0 {
      assert els[..k0][i] == els[i];
    }
    forall i | 0 <= i < k1 - k0 ensures Stage(els[k0..k1][i]) == 1 {
      assert els[k0..k1][i] == els[k0 + i];
    }
    forall i | 0 <= i < k2 - k1 ensures Stage(els[k1..k2][i]) == 2 {
      assert els[k1..k2][i] == els[k1 + i];
    }
  }

  /** What follows the three runs continues none of them, and comes right
      after the prefixes only when there is nothing. */
  lemma RunsStop(els: seq<Element>, k0: nat, k1: nat, k2: nat)
    requires k0 == Lead(els, 0)
    requires k1 == k0 + Lead(els[k0..], 1)
    requires k2 == k1 + Lead(els[k1..], 2)
    ensures k2 < |els| ==> Stage(els[k2]) != 2
    ensures k2 < |els| && k1 == k2 ==> Stage(els[k2]) == 0
    ensures k0 == k2 ==> k2 == |els|
  {
    RunsEnd(els, k0, k1, k2);
  }

  /** The entry matcher on a written specification: it fails unless the list
      is ordered, and then returns both fragment lists and the items in
      declaration order. */
  lemma ParseUnparse(els: seq<Element>)
    ensures ParseInvocation(Unparse(els)) ==
      if Ordered(els)
      then Some(Shape(FragmentTrees(OwnFragments("prefix", els)), ItemsOf(els),
                      FragmentTrees(OwnFragments("suffix", els))))
      else None
  {
    var k0 := Lead(els, 0);
    var k1 := k0 + Lead(els[k0..], 1);
    var k2 := k1 + Lead(els[k1..], 2);
    RunsProfile(els, k0, k1, k2);
    RunsStop(els, k0, k1, k2);
    SplitRuns(els, k0, k1, k2);
    SliceSplit(els, k0, k1, k2);
    var a, b, c, d := els[..k0], els[k0..k1], els[k1..k2], els[k2..];
    if d != [] { assert d[0] == els[k2]; }
    ParseByRuns(a, b, c, d);
    OrderedIffRuns(els, k0, k1, k2);
    if Ordered(els) {
      assert c + d == c;
      SelectRuns(a, b, c);
    }
  }

  /** The entry matcher accepts a written specification exactly when it is
      ordered: a prefix after an item or a suffix, or an item after a suffix,
      is rejected. */
  lemma AcceptsExactlyOrdered(els: seq<Element>)
    ensures ParseInvocation(Unparse(els)).Some? <==> Ordered(els)
  {
    ParseUnparse(els);
  }
}
