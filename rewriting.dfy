/**
 * The rewriter: one rule (a pattern and a template) applied at the root
 * (`Replace`), at every node top-down (`Rewrite`, the `replace_rec` pass), or
 * pass after pass until a pass changes nothing (`Repeat`).
 */
module Rewriting {
  import opened Wrappers
  import opened Expressions
  import opened Matching
  import opened Binder

  /** `replace`: the bound template if the root matches the pattern. */
  function Replace(e: Expression, p: Expression, t: Expression): Option<Expression>
  {
    match Match(e, p)
    case Some(bs) => Some(Bind(t, bs))
    case None => None
  }

  /** The result of one rewriting pass and whether anything was replaced. */
  datatype Rewritten = Rewritten(expr: Expression, replaced: bool)

  /** The same for the children of a list. */
  datatype RewrittenList = RewrittenList(exprs: seq<Expression>, replaced: bool)

  /**
   * One pass: a matching node is replaced by the bound template and not
   * looked into again; otherwise a list is rebuilt from its rewritten
   * children, and any other node stays as it is.
   */
  function Rewrite(e: Expression, p: Expression, t: Expression): Rewritten
    decreases e, 1
  {
    match Match(e, p)
    case Some(bs) => Rewritten(Bind(t, bs), true)
    case None =>
      match e
      case List(es) =>
        var rs := RewriteChildren(es, p, t);
        Rewritten(List(rs.exprs), rs.replaced)
      case _ => Rewritten(e, false)
  }

  function RewriteChildren(es: seq<Expression>, p: Expression, t: Expression): RewrittenList
    decreases es, 0
  {
    if |es| == 0 then RewrittenList([], false)
    else
      var prev := RewriteChildren(es[..|es| - 1], p, t);
      var last := Rewrite(es[|es| - 1], p, t);
      RewrittenList(prev.exprs + [last.expr], prev.replaced || last.replaced)
  }

  /** `replace_rec`: the pass, with its loop over the children of a non-matching list. */
  method ReplaceRec(e: Expression, p: Expression, t: Expression) returns (r: Expression, replaced: bool)
    ensures Rewritten(r, replaced) == Rewrite(e, p, t)
    decreases e
  {
    var m := MatchPattern(e, p);
    match m {
      case None =>
        match e {
          case List(es) =>
            var v: seq<Expression> := [];
            replaced := false;
            for i := 0 to |es|
              invariant RewrittenList(v, replaced) == RewriteChildren(es[..i], p, t)
            {
              assert es[..i + 1][..i] == es[..i];
              var newE, ri := ReplaceRec(es[i], p, t);
              if ri {
                replaced := true;
              }
              v := v + [newE];
            }
            assert es[..|es|] == es;
            r := List(v);
          case _ =>
            r, replaced := e, false;
        }
      case Some(bs) =>
        r := BindExpression(t, bs);
        replaced := true;
    }
  }

  /** `replace_all`: the tree after one pass. */
  method ReplaceAll(e: Expression, p: Expression, t: Expression) returns (r: Expression)
    ensures r == Rewrite(e, p, t).expr
  {
    var replaced;
    r, replaced := ReplaceRec(e, p, t);
  }

  /** The counter `replace_repeated` starts from; it runs one pass for each value down to 0. */
  const Limit: int := 1000

  /** The rule kept changing the tree for every pass allowed (the source panics here). */
  datatype RewriteError = LimitReached

  /** Run at most `passes` passes; the output of the first pass that changes nothing is the result. */
  function Repeat(e: Expression, p: Expression, t: Expression, passes: nat): Result<Expression, RewriteError>
    decreases passes
  {
    if passes == 0 then Failure(LimitReached)
    else
      var r := Rewrite(e, p, t);
      if !r.replaced then Success(r.expr) else Repeat(r.expr, p, t, passes - 1)
  }

  /** `replace_repeated`: the countdown loop, with the panic as an error result. */
  method ReplaceRepeated(e: Expression, p: Expression, t: Expression) returns (r: Result<Expression, RewriteError>)
    ensures r == Repeat(e, p, t, Limit + 1)
  {
    var limit := Limit;
    var expr := e;
    while limit >= 0
      invariant -1 <= limit <= Limit
      invariant Repeat(expr, p, t, limit + 1) == Repeat(e, p, t, Limit + 1)
      decreases limit + 1
    {
      limit := limit - 1;
      var newExpr, replaced := ReplaceRec(expr, p, t);
      if !replaced {
        return Success(newExpr);
      }
      expr := newExpr;
    }
    return Failure(LimitReached);
  }

  // ---------------------------------------------------------------------
  // One pass

  /** `Replace` succeeds exactly when the root matches, with the template bound by that match. */
  lemma ReplaceAtRoot(e: Expression, p: Expression, t: Expression)
    ensures Replace(e, p, t).Some? <==> Match(e, p).Some?
    ensures Match(e, p).Some? ==> Replace(e, p, t) == Some(Bind(t, Match(e, p).value))
  {
  }

  /** A matching root is replaced by the bound template and the pass reports a change. */
  lemma RewriteMatchedRoot(e: Expression, p: Expression, t: Expression)
    requires Replace(e, p, t).Some?
    ensures Rewrite(e, p, t) == Rewritten(Replace(e, p, t).value, true)
  {
  }

  /** The children of a list are rewritten one by one, in place. */
  lemma {:induction false} RewriteChildrenItems(es: seq<Expression>, p: Expression, t: Expression)
    ensures var rs := RewriteChildren(es, p, t);
      && |rs.exprs| == |es|
      && forall i :: 0 <= i < |es| ==> rs.exprs[i] == Rewrite(es[i], p, t).expr
    decreases |es|
  {
    if |es| > 0 {
      var init := es[..|es| - 1];
      RewriteChildrenItems(init, p, t);
      var rs := RewriteChildren(es, p, t);
      assert rs.exprs == RewriteChildren(init, p, t).exprs + [Rewrite(es[|es| - 1], p, t).expr];
      forall i | 0 <= i < |init|
        ensures rs.exprs[i] == Rewrite(es[i], p, t).expr
      {
        assert init[i] == es[i];
      }
    }
  }

  /** The children's pass reports a change exactly when the pass on some child does. */
  lemma {:induction false} RewriteChildrenFlag(es: seq<Expression>, p: Expression, t: Expression)
    ensures RewriteChildren(es, p, t).replaced <==> exists i :: 0 <= i < |es| && Rewrite(es[i], p, t).replaced
    decreases |es|
  {
    if |es| > 0 {
      var init := es[..|es| - 1];
      RewriteChildrenFlag(init, p, t);
      var last := Rewrite(es[|es| - 1], p, t);
      assert RewriteChildren(es, p, t).replaced == (RewriteChildren(init, p, t).replaced || last.replaced);
      if RewriteChildren(init, p, t).replaced {
        var i :| 0 <= i < |init| && Rewrite(init[i], p, t).replaced;
        assert init[i] == es[i];
      }
      if exists i :: 0 <= i < |es| && Rewrite(es[i], p, t).replaced {
        var i :| 0 <= i < |es| && Rewrite(es[i], p, t).replaced;
        if i < |init| {
          assert init[i] == es[i];
        }
      }
    }
  }

  /**
   * When the root does not match, a list keeps its length, its i-th child is
   * the pass applied to the i-th child, and the flag is the OR of the
   * children's flags; any other node comes back unchanged and unflagged.
   */
  lemma RewriteUnmatchedRoot(e: Expression, p: Expression, t: Expression)
    requires Match(e, p).None?
    ensures var r := Rewrite(e, p, t);
      && (!e.List? ==> r == Rewritten(e, false))
      && (e.List? ==>
            && r.expr.List? && |r.expr.items| == |e.items|
            && (forall i :: 0 <= i < |e.items| ==> r.expr.items[i] == Rewrite(e.items[i], p, t).expr)
            && (r.replaced <==> exists i :: 0 <= i < |e.items| && Rewrite(e.items[i], p, t).replaced))
  {
    if e.List? {
      RewriteChildrenItems(e.items, p, t);
      RewriteChildrenFlag(e.items, p, t);
    }
  }

  /** A pass that reports no change returns its input. */
  lemma {:induction false} NoChangeIsIdentity(e: Expression, p: Expression, t: Expression)
    ensures !Rewrite(e, p, t).replaced ==> Rewrite(e, p, t).expr == e
    decreases e, 1
  {
    if Match(e, p).None? && e.List? {
      NoChangeIsIdentityChildren(e.items, p, t);
    }
  }

  lemma {:induction false} NoChangeIsIdentityChildren(es: seq<Expression>, p: Expression, t: Expression)
    ensures !RewriteChildren(es, p, t).replaced ==> RewriteChildren(es, p, t).exprs == es
    decreases es, 0
  {
    if |es| > 0 {
      NoChangeIsIdentityChildren(es[..|es| - 1], p, t);
      NoChangeIsIdentity(es[|es| - 1], p, t);
      assert es[..|es| - 1] + [es[|es| - 1]] == es;
    }
  }

  // ---------------------------------------------------------------------
  // Repeated passes

  /** The tree after `k` passes. */
  function Iterate(e: Expression, p: Expression, t: Expression, k: nat): Expression
    decreases k
  {
    if k == 0 then e else Iterate(Rewrite(e, p, t).expr, p, t, k - 1)
  }

  /** Pass number `k` (counting from 0) is the first one that changes nothing. */
  ghost predicate FirstStable(e: Expression, p: Expression, t: Expression, k: nat)
  {
    && !Rewrite(Iterate(e, p, t, k), p, t).replaced
    && forall j :: 0 <= j < k ==> Rewrite(Iterate(e, p, t, j), p, t).replaced
  }

  /** One pass, then `j` more, is `j + 1` passes. */
  lemma IterateShift(e: Expression, p: Expression, t: Expression, j: nat)
    ensures Iterate(e, p, t, j + 1) == Iterate(Rewrite(e, p, t).expr, p, t, j)
  {
  }

  /** A first stable pass of the tree after one changing pass is one pass later for the tree before it. */
  lemma FirstStableShift(e: Expression, p: Expression, t: Expression, k: nat)
    requires Rewrite(e, p, t).replaced
    requires FirstStable(Rewrite(e, p, t).expr, p, t, k)
    ensures FirstStable(e, p, t, k + 1)
  {
    var e1 := Rewrite(e, p, t).expr;
    IterateShift(e, p, t, k);
    forall j | 0 <= j < k + 1 ensures Rewrite(Iterate(e, p, t, j), p, t).replaced {
      if j > 0 {
        IterateShift(e, p, t, j - 1);
      }
    }
  }

  /**
   * With `n` passes allowed, a result is the tree after the first pass `k`
   * < `n` that changes nothing.
   */
  lemma {:induction false} RepeatIsFirstStable(e: Expression, p: Expression, t: Expression, n: nat)
    requires Repeat(e, p, t, n).Success?
    ensures exists k: nat :: k < n && FirstStable(e, p, t, k) && Repeat(e, p, t, n).value == Iterate(e, p, t, k)
    decreases n
  {
    var r := Rewrite(e, p, t);
    if !r.replaced {
      NoChangeIsIdentity(e, p, t);
      assert FirstStable(e, p, t, 0);
    } else {
      RepeatIsFirstStable(r.expr, p, t, n - 1);
      var k: nat :| k < n - 1 && FirstStable(r.expr, p, t, k) && Repeat(r.expr, p, t, n - 1).value == Iterate(r.expr, p, t, k);
      FirstStableShift(e, p, t, k);
      IterateShift(e, p, t, k);
    }
  }

  /** With `n` passes allowed, the error comes only when each of the `n` passes changed the tree. */
  lemma {:induction false} RepeatFailsOnlyWhenAllChange(e: Expression, p: Expression, t: Expression, n: nat)
    requires Repeat(e, p, t, n).Failure?
    ensures forall k :: 0 <= k < n ==> Rewrite(Iterate(e, p, t, k), p, t).replaced
    decreases n
  {
    if n > 0 {
      var r := Rewrite(e, p, t);
      RepeatFailsOnlyWhenAllChange(r.expr, p, t, n - 1);
      forall k | 0 <= k < n ensures Rewrite(Iterate(e, p, t, k), p, t).replaced {
        if k > 0 {
          IterateShift(e, p, t, k - 1);
        }
      }
    }
  }

  /** Conversely, when the first `n` passes all change the tree, `n` passes end in the error. */
  lemma {:induction false} AllChangeMeansFailure(e: Expression, p: Expression, t: Expression, n: nat)
    requires forall k :: 0 <= k < n ==> Rewrite(Iterate(e, p, t, k), p, t).replaced
    ensures Repeat(e, p, t, n) == Failure(LimitReached)
    decreases n
  {
    if n > 0 {
      var r := Rewrite(e, p, t);
      assert Rewrite(Iterate(e, p, t, 0), p, t).replaced;
      forall k | 0 <= k < n - 1 ensures Rewrite(Iterate(r.expr, p, t, k), p, t).replaced {
        IterateShift(e, p, t, k);
      }
      AllChangeMeansFailure(r.expr, p, t, n - 1);
    }
  }

  /** What `Repeat` returns is a fixpoint: one more pass reports no change and returns it as it is. */
  lemma {:induction false} RepeatReachesFixpoint(e: Expression, p: Expression, t: Expression, n: nat)
    requires Repeat(e, p, t, n).Success?
    ensures Rewrite(Repeat(e, p, t, n).value, p, t) == Rewritten(Repeat(e, p, t, n).value, false)
    decreases n
  {
    var r := Rewrite(e, p, t);
    if !r.replaced {
      NoChangeIsIdentity(e, p, t);
    } else {
      RepeatReachesFixpoint(r.expr, p, t, n - 1);
    }
  }

  /** A rule whose pattern is a single wildcard rewrites every root, so no number of passes settles. */
  lemma {:induction false} WildcardRuleNeverSettles(e: Expression, p: Expression, t: Expression, n: nat)
    requires p.Blank? || p.BlankSeq? || p.BlankNullSeq? || p.Pattern?
    ensures Repeat(e, p, t, n) == Failure(LimitReached)
    decreases n
  {
    if n > 0 {
      assert Rewrite(e, p, t).replaced;
      WildcardRuleNeverSettles(Rewrite(e, p, t).expr, p, t, n - 1);
    }
  }

  // ---------------------------------------------------------------------
  // Examples

  /** Matching `(x (y z))` with `(_ a_)` and binding the template `(a)` gives `((y z))`. */
  lemma ExampleBindAfterMatch()
    ensures var yz := List([Atom("y"), Atom("z")]);
      var bs := Match(List([Atom("x"), yz]), List([Blank, Pattern("a")]));
      && bs == Some(map["a" := Single(yz)])
      && Bind(List([Atom("a")]), bs.value) == List([yz])
  {
    var yz := List([Atom("y"), Atom("z")]);
    ExampleMatchDoc();
    assert [Atom("a")][..0] == [];
    assert BindChildren([Atom("a")], map["a" := Single(yz)]) == [yz];
  }

  /** With the same match, binding the template `(a b)` gives `((y z) b)`. */
  lemma ExampleBindTwoAtoms()
    ensures var yz := List([Atom("y"), Atom("z")]);
      var bs := Match(List([Atom("x"), yz]), List([Blank, Pattern("a")]));
      && bs == Some(map["a" := Single(yz)])
      && Bind(List([Atom("a"), Atom("b")]), bs.value) == List([yz, Atom("b")])
  {
    var yz := List([Atom("y"), Atom("z")]);
    var bs := map["a" := Single(yz)];
    ExampleMatchDoc();
    assert [Atom("a")][..0] == [];
    assert BindChildren([Atom("a")], bs) == [yz];
    assert [Atom("a"), Atom("b")][..1] == [Atom("a")];
    assert BindChildren([Atom("a"), Atom("b")], bs) == [yz, Atom("b")];
  }

  /** `(x z)` with the rule `(x a_)` to `(y a)` becomes `(y z)`. */
  lemma ExampleReplace()
    ensures Replace(List([Atom("x"), Atom("z")]), List([Atom("x"), Pattern("a")]), List([Atom("y"), Atom("a")]))
         == Some(List([Atom("y"), Atom("z")]))
  {
    var es := [Atom("x"), Atom("z")];
    var ps := [Atom("x"), Pattern("a")];
    var first := ExpressionMatch(Atom("x"), Atom("x"), map[]);
    assert SeqMatch(es[1..], ps[1..], first.bindings) == Outcome(true, map["a" := Single(Atom("z"))]);
    assert Match(List(es), List(ps)) == Some(map["a" := Single(Atom("z"))]);
    assert BindChildren([Atom("y"), Atom("a")], map["a" := Single(Atom("z"))]) == [Atom("y"), Atom("z")];
  }

  /** The rule of the examples below: `(x a_)` to `(y a)`. */
  function XRule(): (Expression, Expression)
  {
    (List([Atom("x"), Pattern("a")]), List([Atom("y"), Atom("a")]))
  }

  /** The rule rewrites `(x e)` at its root to `(y e)`, whatever `e` is. */
  lemma XRuleOnX(e: Expression)
    ensures Rewrite(List([Atom("x"), e]), XRule().0, XRule().1) == Rewritten(List([Atom("y"), e]), true)
  {
    var es := [Atom("x"), e];
    var ps := [Atom("x"), Pattern("a")];
    var first := ExpressionMatch(Atom("x"), Atom("x"), map[]);
    assert SeqMatch(es[1..], ps[1..], first.bindings) == Outcome(true, map["a" := Single(e)]);
    assert BindChildren([Atom("y"), Atom("a")], map["a" := Single(e)]) == [Atom("y"), e];
  }

  /** The rule leaves the root of `(y e)` alone and rewrites `e`. */
  lemma XRuleOnY(e: Expression)
    ensures var r := Rewrite(e, XRule().0, XRule().1);
      Rewrite(List([Atom("y"), e]), XRule().0, XRule().1) == Rewritten(List([Atom("y"), r.expr]), r.replaced)
  {
    var (p, t) := XRule();
    var es := [Atom("y"), e];
    assert SeqMatch(es, p.items, map[]) == Outcome(false, map[]);
    assert Match(List(es), p) == None;
    assert Rewrite(Atom("y"), p, t) == Rewritten(Atom("y"), false);
    assert es[..1] == [Atom("y")] && es[..1][..0] == [];
    assert RewriteChildren(es[..1], p, t) == RewrittenList([Atom("y")], false);
    var r := Rewrite(e, p, t);
    assert RewriteChildren(es, p, t) == RewrittenList([Atom("y"), r.expr], r.replaced);
    assert Rewrite(List(es), p, t) == Rewritten(List([Atom("y"), r.expr]), r.replaced);
    assert p == XRule().0 && t == XRule().1;
  }

  /** The rule leaves an atom alone. */
  lemma XRuleOnAtom(a: string)
    ensures Rewrite(Atom(a), XRule().0, XRule().1) == Rewritten(Atom(a), false)
  {
  }

  /** `((x r) (x s))`: one pass rewrites both children, giving `((y r) (y s))`. */
  lemma ExampleReplaceAll()
    ensures Rewrite(List([List([Atom("x"), Atom("r")]), List([Atom("x"), Atom("s")])]), XRule().0, XRule().1)
         == Rewritten(List([List([Atom("y"), Atom("r")]), List([Atom("y"), Atom("s")])]), true)
  {
    var (p, t) := XRule();
    var a := List([Atom("x"), Atom("r")]);
    var b := List([Atom("x"), Atom("s")]);
    XRuleOnX(Atom("r"));
    XRuleOnX(Atom("s"));
    assert SeqMatch([a, b], p.items, map[]) == Outcome(false, map[]);
    assert Match(List([a, b]), p) == None;
    assert [a, b][..1] == [a] && [a][..0] == [];
    assert RewriteChildren([a], p, t) == RewrittenList([List([Atom("y"), Atom("r")])], true);
    assert RewriteChildren([a, b], p, t) == RewrittenList([List([Atom("y"), Atom("r")]), List([Atom("y"), Atom("s")])], true);
    assert p == XRule().0 && t == XRule().1;
  }

  /** `(x (x (x z)))`: three changing passes and a fourth that changes nothing give `(y (y (y z)))`. */
  lemma ExampleReplaceRepeated()
    ensures Repeat(List([Atom("x"), List([Atom("x"), List([Atom("x"), Atom("z")])])]), XRule().0, XRule().1, Limit + 1)
         == Success(List([Atom("y"), List([Atom("y"), List([Atom("y"), Atom("z")])])]))
  {
    var (p, t) := XRule();
    var z := Atom("z");
    var e0 := List([Atom("x"), List([Atom("x"), List([Atom("x"), z])])]);
    var e1 := List([Atom("y"), List([Atom("x"), List([Atom("x"), z])])]);
    var e2 := List([Atom("y"), List([Atom("y"), List([Atom("x"), z])])]);
    var e3 := List([Atom("y"), List([Atom("y"), List([Atom("y"), z])])]);
    XRuleOnX(List([Atom("x"), List([Atom("x"), z])]));
    assert Rewrite(e0, p, t) == Rewritten(e1, true);
    XRuleOnX(List([Atom("x"), z]));
    XRuleOnY(List([Atom("x"), List([Atom("x"), z])]));
    assert Rewrite(e1, p, t) == Rewritten(e2, true);
    XRuleOnX(z);
    XRuleOnY(List([Atom("x"), z]));
    XRuleOnY(List([Atom("y"), List([Atom("x"), z])]));
    assert Rewrite(e2, p, t) == Rewritten(e3, true);
    XRuleOnAtom("z");
    XRuleOnY(z);
    XRuleOnY(List([Atom("y"), z]));
    XRuleOnY(List([Atom("y"), List([Atom("y"), z])]));
    assert Rewrite(e3, p, t) == Rewritten(e3, false);
    assert Repeat(e3, p, t, Limit - 2) == Success(e3);
    assert Repeat(e2, p, t, Limit - 1) == Success(e3);
    assert Repeat(e1, p, t, Limit) == Success(e3);
  }
}
