/** The rules of `__each_item!` (src/lib.rs:215-320) and the fan-out of
    `__should_it_compile!` (src/lib.rs:177-198), stated on one item and on a
    list of items. */
module ItemRules {
  import opened Tokens
  import opened Wrappers
  import opened Surface
  import opened Expansion
  import opened SpecTree
  import opened ParseLemmas

  /** Leading markers are removed one at a time, each replacing the mode, so
      the item is handled in the mode of its last marker. */
  lemma {:induction false} StripMarkers(mode: Mode, pre: seq<Tree>, markers: seq<Mode>, rest: seq<Tree>,
                                        fnName: Option<string>, modName: Option<string>, body: seq<Tree>,
                                        suf: seq<Tree>, path: seq<string>)
    decreases markers
    ensures EachItem(mode, pre, Item(MarkerAttrs(markers) + rest, fnName, modName, body), suf, path) ==
            EachItem(Resolve(mode, markers), pre, Item(rest, fnName, modName, body), suf, path)
  {
    if markers != [] {
      var it := Item(MarkerAttrs(markers) + rest, fnName, modName, body);
      var tail := Item(MarkerAttrs(markers[1..]) + rest, fnName, modName, body);
      assert it.attrs == [MarkerAttr(markers[0])] + (MarkerAttrs(markers[1..]) + rest);
      assert it.(attrs := it.attrs[1..]) == tail;
      StripOneMarker(mode, pre, markers[0], it, suf, path);
      StripMarkers(markers[0], pre, markers[1..], rest, fnName, modName, body, suf, path);
    } else {
      assert MarkerAttrs(markers) + rest == rest;
    }
  }

  /** One marker rule: the leading marker is removed and becomes the mode. */
  lemma StripOneMarker(mode: Mode, pre: seq<Tree>, m: Mode, it: Item, suf: seq<Tree>, path: seq<string>)
    requires |it.attrs| > 0 && it.attrs[0] == MarkerAttr(m)
    ensures EachItem(mode, pre, it, suf, path) == EachItem(m, pre, it.(attrs := it.attrs[1..]), suf, path)
  {
    assert MarkerAttr(ShouldCompile) != MarkerAttr(ShouldNotCompile) by {
      assert ModeName(ShouldCompile) != ModeName(ShouldNotCompile);
    }
  }

  predicate IsMarker(t: Tree) {
    t == MarkerAttr(ShouldCompile) || t == MarkerAttr(ShouldNotCompile)
  }

  /** Every item `__each_item!` can be given: after its leading markers, any
      other attribute, both heads or neither head has no rule; a bare `fn`
      is emitted by the fn rule and a bare `mod` re-invokes the entry macro
      of the resolved mode on the inherited fragments around its body. */
  lemma EachItemRules(mode: Mode, pre: seq<Tree>, markers: seq<Mode>, rest: seq<Tree>,
                      fnName: Option<string>, modName: Option<string>, body: seq<Tree>,
                      suf: seq<Tree>, path: seq<string>)
    requires rest == [] || !IsMarker(rest[0])
    ensures EachItem(mode, pre, Item(MarkerAttrs(markers) + rest, fnName, modName, body), suf, path) ==
            var m := Resolve(mode, markers);
            if rest != [] || fnName.Some? == modName.Some? then Err(ItemShape)
            else if fnName.Some? then EmitFn(m, pre, fnName.value, body, suf, path)
            else Expand(m, Reinvocation(pre, body, suf), path + [modName.value])
  {
    StripMarkers(mode, pre, markers, rest, fnName, modName, body, suf, path);
  }

  /** `__should_it_compile!` over two runs of items: the outputs of the
      first run, then of the second; when anything fails, the first failure
      in item order is the result. */
  lemma {:induction false} ExpandItemsAppend(mode: Mode, pre: seq<Tree>, xs: seq<Item>, ys: seq<Item>,
                                             suf: seq<Tree>, path: seq<string>)
    ensures ExpandItems(mode, pre, xs + ys, suf, path) ==
      match ExpandItems(mode, pre, xs, suf, path)
      case Err(e) => Err(e)
      case Ok(a) =>
        match ExpandItems(mode, pre, ys, suf, path)
        case Err(e) => Err(e)
        case Ok(b) => Ok(a + b)
  {
    if xs == [] {
      assert xs + ys == ys;
      match ExpandItems(mode, pre, ys, suf, path)
      case Err(_) =>
      case Ok(b) => assert [] + b == b;
    } else {
      assert (xs + ys)[0] == xs[0];
      assert (xs + ys)[1..] == xs[1..] + ys;
      ExpandItemsAppend(mode, pre, xs[1..], ys, suf, path);
      match EachItem(mode, pre, xs[0], suf, path)
      case Err(_) =>
      case Ok(first) =>
        match ExpandItems(mode, pre, xs[1..], suf, path)
        case Err(_) =>
        case Ok(more) =>
          match ExpandItems(mode, pre, ys, suf, path)
          case Err(_) =>
          case Ok(b) => assert first + (more + b) == (first + more) + b;
    }
  }

  /** The fan-out succeeds exactly when every item does. */
  lemma {:induction false} ExpandItemsOk(mode: Mode, pre: seq<Tree>, items: seq<Item>,
                                         suf: seq<Tree>, path: seq<string>)
    ensures ExpandItems(mode, pre, items, suf, path).Ok? <==>
            forall i :: 0 <= i < |items| ==> EachItem(mode, pre, items[i], suf, path).Ok?
  {
    if items != [] {
      ExpandItemsOk(mode, pre, items[1..], suf, path);
      if forall i :: 0 <= i < |items| ==> EachItem(mode, pre, items[i], suf, path).Ok? {
        assert forall i :: 0 <= i < |items[1..]| ==> items[1..][i] == items[i + 1];
      } else if EachItem(mode, pre, items[0], suf, path).Ok? {
        var i :| 0 <= i < |items| && !EachItem(mode, pre, items[i], suf, path).Ok?;
        assert items[1..][i - 1] == items[i];
      }
    }
  }
}
