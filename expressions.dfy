/**
 * The expression tree of the rewriting system and its canonical text
 * rendering (the `Debug` implementation of `Expression`).
 */
module Expressions {

  /**
   * An S-expression tree. `List` and `Atom` are the data; the six other
   * variants are the wildcards a pattern is built from: `_`, `__`, `___`
   * unnamed, and `name_`, `name__`, `name___` named.
   */
  datatype Expression =
    | List(items: seq<Expression>)
    | Atom(name: string)
    | Blank
    | BlankSeq
    | BlankNullSeq
    | Pattern(name: string)
    | PatternSeq(name: string)
    | PatternNullSeq(name: string)

  /** The canonical rendering of a tree. */
  function Show(e: Expression): string
  {
    match e
    case Atom(s) => s
    case List(es) => "(" + ShowItems(es) + ")"
    case Blank => "_"
    case BlankSeq => "__"
    case BlankNullSeq => "___"
    case Pattern(s) => s + "_"
    case PatternSeq(s) => s + "__"
    case PatternNullSeq(s) => s + "___"
  }

  /** The renderings of the children of a list, separated by single spaces. */
  function ShowItems(es: seq<Expression>): string
  {
    if |es| == 0 then ""
    else if |es| == 1 then Show(es[0])
    else Show(es[0]) + " " + ShowItems(es[1..])
  }

  /** Appending one more child appends a space and its rendering. */
  lemma {:induction false} ShowItemsSnoc(es: seq<Expression>, x: Expression)
    requires |es| > 0
    ensures ShowItems(es + [x]) == ShowItems(es) + " " + Show(x)
  {
    if |es| == 1 {
      assert (es + [x])[1..] == [x];
    } else {
      assert (es + [x])[1..] == es[1..] + [x];
      ShowItemsSnoc(es[1..], x);
    }
  }

  /**
   * The `Debug` formatter: a list is rendered by a loop that appends each
   * child's rendering and, except after the last child, one space.
   */
  method Format(e: Expression) returns (out: string)
    ensures out == Show(e)
    decreases e
  {
    match e {
      case List(es) =>
        var s := "";
        for i := 0 to |es|
          invariant s == ShowItems(es[..i]) + (if 0 < i < |es| then " " else "")
        {
          var f := Format(es[i]);
          if i > 0 {
            ShowItemsSnoc(es[..i], es[i]);
          }
          assert es[..i + 1] == es[..i] + [es[i]];
          s := s + f;
          if i != |es| - 1 {
            s := s + " ";
          }
        }
        assert es[..|es|] == es;
        out := "(" + s + ")";
      case Atom(s) => out := s;
      case Blank => out := "_";
      case BlankSeq => out := "__";
      case BlankNullSeq => out := "___";
      case Pattern(s) => out := s + "_";
      case PatternSeq(s) => out := s + "__";
      case PatternNullSeq(s) => out := s + "___";
    }
  }

  /** The rendering test of the source: `(a b (c d))`. */
  lemma ShowNestedList()
    ensures Show(List([Atom("a"), Atom("b"), List([Atom("c"), Atom("d")])])) == "(a b (c d))"
  {
    var inner := List([Atom("c"), Atom("d")]);
    assert ShowItems([Atom("c"), Atom("d")]) == "c d";
    assert Show(inner) == "(c d)";
    assert [Atom("a"), Atom("b"), inner][1..] == [Atom("b"), inner];
    assert [Atom("b"), inner][1..] == [inner];
  }

  /** Wildcards render with one, two or three trailing underscores; an empty list as `()`. */
  lemma ShowWildcards(n: string)
    ensures Show(List([])) == "()"
    ensures Show(Blank) == "_" && Show(BlankSeq) == "__" && Show(BlankNullSeq) == "___"
    ensures Show(Pattern(n)) == n + "_" && Show(PatternSeq(n)) == n + "__"
    ensures Show(PatternNullSeq(n)) == n + "___"
  {
  }
}
