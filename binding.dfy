/**
 * The binder: substitutes the values of a bindings map for the atoms of a
 * template. `Bind` is the recursive substitution on one node; `BindChildren`
 * specifies the list case, where an atom bound to a sequence is replaced in
 * place by the elements of that sequence; `BindList` is the list loop itself.
 */
module Binder {
  import opened Expressions

  /** What a pattern variable is bound to: one subject or a run of list elements. */
  datatype Binding = Single(expr: Expression) | Sequence(items: seq<Expression>)

  /** The bindings a match produces, by name. */
  type Bindings = map<string, Binding>

  /** The template `t` with its bound atoms replaced. */
  function Bind(t: Expression, bs: Bindings): Expression
    decreases t, 0
  {
    match t
    case Atom(s) =>
      if s in bs then
        match bs[s]
        case Sequence(items) => List([Atom("Sequence")] + items)
        case Single(e) => e
      else t
    case List(es) => List(BindChildren(es, bs))
    case _ => t
  }

  /** Whether a list child is an atom bound to a sequence, and so is spliced. */
  predicate IsSpliced(e: Expression, bs: Bindings)
  {
    e.Atom? && e.name in bs && bs[e.name].Sequence?
  }

  /** What one child of a template list contributes to the bound list: the run it is bound to, or itself bound. */
  function Splice(e: Expression, bs: Bindings): seq<Expression>
    decreases e, 1
  {
    if IsSpliced(e, bs) then bs[e.name].items else [Bind(e, bs)]
  }

  /** The children of a template list, bound and spliced, in order. */
  function BindChildren(es: seq<Expression>, bs: Bindings): seq<Expression>
    decreases es, 2
  {
    if |es| == 0 then [] else BindChildren(es[..|es| - 1], bs) + Splice(es[|es| - 1], bs)
  }

  /**
   * `Bind for Expression`: an atom bound to a sequence becomes a list headed
   * by the atom `Sequence` and built element by element, an atom bound to an
   * expression becomes that expression, a list is bound by `BindList`, and
   * everything else is returned unchanged.
   */
  method BindExpression(t: Expression, bs: Bindings) returns (r: Expression)
    ensures r == Bind(t, bs)
    decreases t, 0
  {
    match t {
      case Atom(s) =>
        if s in bs {
          match bs[s] {
            case Sequence(run) =>
              var v := [Atom("Sequence")];
              for j := 0 to |run|
                invariant v == [Atom("Sequence")] + run[..j]
              {
                v := v + [run[j]];
              }
              assert run[..|run|] == run;
              r := List(v);
            case Single(e) =>
              r := e;
          }
        } else {
          r := t;
        }
      case List(es) =>
        var v := BindList(es, bs);
        r := List(v);
      case _ =>
        r := t;
    }
  }

  /**
   * `Bind for Box<[Expression]>`: a loop over the children that pushes the
   * elements of a sequence binding one by one, and every other child bound.
   */
  method BindList(es: seq<Expression>, bs: Bindings) returns (v: seq<Expression>)
    ensures v == BindChildren(es, bs)
    decreases es, 2
  {
    v := [];
    for i := 0 to |es|
      invariant v == BindChildren(es[..i], bs)
    {
      var e := es[i];
      assert es[..i + 1][..i] == es[..i];
      var push := true;
      match e {
        case Atom(s) =>
          if s in bs && bs[s].Sequence? {
            var run := bs[s].items;
            for j := 0 to |run|
              invariant v == BindChildren(es[..i], bs) + run[..j]
            {
              v := v + [run[j]];
            }
            assert run[..|run|] == run;
            push := false;
          }
        case _ =>
      }
      if push {
        var b := BindExpression(e, bs);
        v := v + [b];
      }
    }
    assert es[..|es|] == es;
  }

  // ---------------------------------------------------------------------
  // Splicing

  /** Binding distributes over concatenation: children are handled independently and in order. */
  lemma {:induction false} BindChildrenAppend(a: seq<Expression>, b: seq<Expression>, bs: Bindings)
    ensures BindChildren(a + b, bs) == BindChildren(a, bs) + BindChildren(b, bs)
    decreases |b|
  {
    if |b| > 0 {
      var b' := b[..|b| - 1];
      assert (a + b)[..|a + b| - 1] == a + b';
      assert (a + b)[|a + b| - 1] == b[|b| - 1];
      BindChildrenAppend(a, b', bs);
    } else {
      assert a + b == a;
    }
  }

  /** The i-th child contributes its splice between the results for the children before and after it. */
  lemma BindChildrenAt(es: seq<Expression>, i: nat, bs: Bindings)
    requires i < |es|
    ensures BindChildren(es, bs) == BindChildren(es[..i], bs) + Splice(es[i], bs) + BindChildren(es[i + 1..], bs)
  {
    assert es == es[..i] + [es[i]] + es[i + 1..];
    BindChildrenAppend(es[..i] + [es[i]], es[i + 1..], bs);
    BindChildrenAppend(es[..i], [es[i]], bs);
    assert [es[i]][..0] == [];
  }

  /** How much a child changes the length of the list: k - 1 for a run of k elements, else 0. */
  function Gain(e: Expression, bs: Bindings): int
  {
    if IsSpliced(e, bs) then |bs[e.name].items| - 1 else 0
  }

  function TotalGain(es: seq<Expression>, bs: Bindings): int
  {
    if |es| == 0 then 0 else TotalGain(es[..|es| - 1], bs) + Gain(es[|es| - 1], bs)
  }

  /** The bound list is as long as the template list plus k - 1 for every child spliced with k elements. */
  lemma {:induction false} BindChildrenLength(es: seq<Expression>, bs: Bindings)
    ensures |BindChildren(es, bs)| == |es| + TotalGain(es, bs)
    decreases |es|
  {
    if |es| > 0 {
      BindChildrenLength(es[..|es| - 1], bs);
    }
  }

  // ---------------------------------------------------------------------
  // Templates that come back unchanged

  /** The names of all atoms of a template. */
  function AtomNames(t: Expression): set<string>
    decreases t, 1
  {
    match t
    case Atom(s) => {s}
    case List(es) => AtomNamesSeq(es)
    case _ => {}
  }

  function AtomNamesSeq(es: seq<Expression>): set<string>
    decreases es, 0
  {
    if |es| == 0 then {} else AtomNamesSeq(es[..|es| - 1]) + AtomNames(es[|es| - 1])
  }

  /** A template none of whose atoms is bound comes back unchanged. */
  lemma {:induction false} BindUnbound(t: Expression, bs: Bindings)
    requires AtomNames(t) !! bs.Keys
    ensures Bind(t, bs) == t
    decreases t, 1
  {
    if t.List? {
      BindChildrenUnbound(t.items, bs);
    }
  }

  lemma {:induction false} BindChildrenUnbound(es: seq<Expression>, bs: Bindings)
    requires AtomNamesSeq(es) !! bs.Keys
    ensures BindChildren(es, bs) == es
    decreases es, 0
  {
    if |es| > 0 {
      BindChildrenUnbound(es[..|es| - 1], bs);
      BindUnbound(es[|es| - 1], bs);
      assert es[..|es| - 1] + [es[|es| - 1]] == es;
    }
  }

  /** "Returns itself if no variables were bound": binding with the empty map is the identity. */
  lemma BindEmpty(t: Expression)
    ensures Bind(t, map[]) == t
  {
    BindUnbound(t, map[]);
  }

  /**
   * The node cases: an unbound atom and every wildcard stay as they are; an
   * atom bound to one expression becomes exactly that expression, which is
   * not bound again; an atom bound to a sequence outside a list becomes the
   * list `(Sequence ...)` of its elements.
   */
  lemma BindCases(t: Expression, bs: Bindings)
    ensures t.Atom? && t.name !in bs ==> Bind(t, bs) == t
    ensures !t.Atom? && !t.List? ==> Bind(t, bs) == t
    ensures t.Atom? && t.name in bs && bs[t.name].Single? ==> Bind(t, bs) == bs[t.name].expr
    ensures t.Atom? && t.name in bs && bs[t.name].Sequence? ==>
              Bind(t, bs) == List([Atom("Sequence")] + bs[t.name].items)
    ensures !IsSpliced(t, bs) ==> Splice(t, bs) == [Bind(t, bs)]
  {
  }
}
