/** Abstract Rust token trees, the material every macro of the crate matches on.

    A token tree is a single token or a delimited group of token trees. Tokens
    are opaque: identifiers and keywords (`prefix`, `fn`, `mod`, test names) are
    `Ident`, single punctuation characters (`!`, `;`, `#`) are `Punct`, and every
    other leaf token (literals, lifetimes, multi-character operators) is
    `Literal`. No lexing or Rust parsing is modelled.
 */
module Tokens {

  datatype Delim = Brace | Paren | Bracket

  datatype Tree =
    | Ident(name: string)
    | Punct(ch: char)
    | Literal(text: string)
    | Group(delim: Delim, inner: seq<Tree>)

  /** True of the one-token-tree stream `{ ... }`. */
  predicate IsBraceGroup(ts: seq<Tree>) {
    |ts| == 1 && ts[0].Group? && ts[0].delim == Brace
  }

  /** A size measure in which `;` weighs nothing. The mod rule re-emits every
      fragment as `prefix! f;` whether or not it was written with `;`, so this
      is the measure that strictly decreases from an invocation to the nested
      invocation the mod rule produces. */
  function Weight(t: Tree): nat {
    match t
    case Punct(c) => if c == ';' then 0 else 1
    case Group(_, inner) => 1 + SeqWeight(inner)
    case _ => 1
  }

  function SeqWeight(ts: seq<Tree>): nat
    decreases ts
  {
    if ts == [] then 0 else Weight(ts[0]) + SeqWeight(ts[1..])
  }

  lemma {:induction false} SeqWeightAppend(a: seq<Tree>, b: seq<Tree>)
    ensures SeqWeight(a + b) == SeqWeight(a) + SeqWeight(b)
  {
    if a == [] {
      assert a + b == b;
    } else {
      assert (a + b)[1..] == a[1..] + b;
      SeqWeightAppend(a[1..], b);
    }
  }

  /** A fixed textual rendering of token trees, standing in for `stringify!`
      (whose exact spacing is compiler-defined): tokens separated by one space. */
  function Render(t: Tree): string {
    match t
    case Ident(n) => n
    case Punct(c) => [c]
    case Literal(s) => s
    case Group(d, inner) => Open(d) + RenderSeq(inner) + Close(d)
  }

  function RenderSeq(ts: seq<Tree>): string
    decreases ts
  {
    if ts == [] then ""
    else if |ts| == 1 then Render(ts[0])
    else Render(ts[0]) + " " + RenderSeq(ts[1..])
  }

  function Open(d: Delim): string {
    match d
    case Brace => "{"
    case Paren => "("
    case Bracket => "["
  }

  function Close(d: Delim): string {
    match d
    case Brace => "}"
    case Paren => ")"
    case Bracket => "]"
  }
}
