/**
 * The pattern matcher. `ExpressionMatch` and `SeqMatch` specify the
 * matcher, with each candidate-length search loop written as a recursive
 * search function; `MatchExpression`, `MatchSeq` and `MatchPattern` are the
 * matcher itself, with its loops and early returns, proved equal to them.
 *
 * The bindings map is threaded through: every step receives the map the
 * previous step left, exactly as the source's `&mut HashMap` is.
 */
module Matching {
  import opened Wrappers
  import opened Expressions
  import opened Binder

  /** Whether a match step succeeded, and the bindings map it left behind. */
  datatype Outcome = Outcome(matched: bool, bindings: Bindings)

  /** Match one subject node against one pattern node. */
  function ExpressionMatch(e: Expression, p: Expression, bs: Bindings): Outcome
    decreases p, 0, 0
  {
    match p
    case Blank => Outcome(true, bs)
    case BlankSeq => Outcome(true, bs)
    case BlankNullSeq => Outcome(true, bs)
    case Pattern(n) => Outcome(true, bs[n := Single(e)])
    case Atom(j) => Outcome(e.Atom? && e.name == j, bs)
    case List(ps) => if e.List? then SeqMatch(e.items, ps, bs) else Outcome(false, bs)
    case PatternSeq(_) => Outcome(false, bs)
    case PatternNullSeq(_) => Outcome(false, bs)
  }

  /** Match the children `es` of a subject list against the children `ps` of a pattern list. */
  function SeqMatch(es: seq<Expression>, ps: seq<Expression>, bs: Bindings): Outcome
    decreases ps, 2, 0
  {
    if |ps| == 0 then Outcome(|es| == 0, bs)
    else match ps[0]
      case BlankSeq => BlankSeqSearch(es, ps, bs, 1)
      case BlankNullSeq => if |es| == 0 then Outcome(true, bs) else BlankSeqSearch(es, ps, bs, 0)
      case PatternSeq(n) => PatternSeqSearch(es, ps, bs, n, 1)
      case PatternNullSeq(n) =>
        if |es| == 0 then Outcome(true, bs[n := Sequence(es)]) else PatternSeqSearch(es, ps, bs, n, 0)
      case _ =>
        if |es| == 0 then Outcome(false, bs)
        else
          var first := ExpressionMatch(es[0], ps[0], bs);
          if first.matched then SeqMatch(es[1..], ps[1..], first.bindings) else first
  }

  /**
   * The candidate loop of an unnamed sequence head: candidate lengths
   * `i`..`|es|` in increasing order, all sharing one map, so that what a
   * failed candidate bound stays in it.
   */
  function BlankSeqSearch(es: seq<Expression>, ps: seq<Expression>, bs: Bindings, i: nat): Outcome
    requires |ps| > 0
    decreases ps, 1, |es| + 1 - i
  {
    if i > |es| then Outcome(false, bs)
    else
      var r := SeqMatch(es[i..], ps[1..], bs);
      if r.matched then r else BlankSeqSearch(es, ps, r.bindings, i + 1)
  }

  /** The candidate of length `k` for a named sequence head: the rest matched into a fresh map. */
  function Candidate(es: seq<Expression>, rest: seq<Expression>, n: string, k: nat): Outcome
    requires k <= |es|
    decreases rest, 3, 0
  {
    SeqMatch(es[k..], rest, map[n := Sequence(es[..k])])
  }

  /**
   * The candidate loop of a named sequence head: each candidate works on a
   * fresh map holding only `n`, which is copied into `bs` when the rest matches.
   */
  function PatternSeqSearch(es: seq<Expression>, ps: seq<Expression>, bs: Bindings, n: string, i: nat): Outcome
    requires |ps| > 0
    decreases ps, 1, |es| + 1 - i
  {
    if i > |es| then Outcome(false, bs)
    else
      var r := Candidate(es, ps[1..], n, i);
      if r.matched then Outcome(true, bs + r.bindings) else PatternSeqSearch(es, ps, bs, n, i + 1)
  }

  /** Matching a subject against a whole pattern, from an empty map. */
  function Match(e: Expression, p: Expression): Option<Bindings>
  {
    var r := ExpressionMatch(e, p, map[]);
    if r.matched then Some(r.bindings) else None
  }

  /** Copy every entry of `h` into `bs`, one key at a time. */
  method InsertAll(bs: Bindings, h: Bindings) returns (r: Bindings)
    ensures r == bs + h
  {
    r := bs;
    var todo := h.Keys;
    while todo != {}
      invariant todo <= h.Keys
      invariant r.Keys == bs.Keys + (h.Keys - todo)
      invariant forall k :: k in h && k !in todo ==> r[k] == h[k]
      invariant forall k :: k in bs && (k !in h || k in todo) ==> r[k] == bs[k]
      decreases todo
    {
      var k :| k in todo;
      r := r[k := h[k]];
      todo := todo - {k};
    }
  }

  /** `match_expression`: one node against one pattern node. */
  method MatchExpression(e: Expression, p: Expression, bs0: Bindings) returns (ok: bool, bs: Bindings)
    ensures Outcome(ok, bs) == ExpressionMatch(e, p, bs0)
    decreases p
  {
    bs := bs0;
    match p {
      case Blank => ok := true;
      case BlankSeq => ok := true;
      case BlankNullSeq => ok := true;
      case Pattern(n) =>
        bs := bs[n := Single(e)];
        ok := true;
      case Atom(j) => ok := e.Atom? && e.name == j;
      case List(ps) =>
        if e.List? {
          ok, bs := MatchSeq(e.items, ps, bs);
        } else {
          ok := false;
        }
      case PatternSeq(_) => ok := false;
      case PatternNullSeq(_) => ok := false;
    }
  }

  /** `match_seq`: list children against pattern children, backtracking on sequence heads. */
  method MatchSeq(es: seq<Expression>, ps: seq<Expression>, bs0: Bindings) returns (ok: bool, bs: Bindings)
    ensures Outcome(ok, bs) == SeqMatch(es, ps, bs0)
    decreases ps
  {
    bs := bs0;
    if |ps| == 0 {
      return |es| == 0, bs;
    }
    match ps[0] {
      case BlankSeq =>
        for i := 1 to |es| + 1
          invariant BlankSeqSearch(es, ps, bs, i) == SeqMatch(es, ps, bs0)
        {
          var r;
          r, bs := MatchSeq(es[i..], ps[1..], bs);
          if r {
            return true, bs;
          }
        }
        return false, bs;
      case BlankNullSeq =>
        if |es| == 0 {
          return true, bs;
        }
        for i := 0 to |es| + 1
          invariant BlankSeqSearch(es, ps, bs, i) == SeqMatch(es, ps, bs0)
        {
          var r;
          r, bs := MatchSeq(es[i..], ps[1..], bs);
          if r {
            return true, bs;
          }
        }
        return false, bs;
      case PatternSeq(n) =>
        for i := 1 to |es| + 1
          invariant PatternSeqSearch(es, ps, bs, n, i) == SeqMatch(es, ps, bs0)
        {
          var h: Bindings := map[n := Sequence(es[0..i])];
          var r;
          r, h := MatchSeq(es[i..], ps[1..], h);
          if r {
            bs := InsertAll(bs, h);
            return true, bs;
          }
        }
        return false, bs;
      case PatternNullSeq(n) =>
        if |es| == 0 {
          bs := bs[n := Sequence(es)];
          return true, bs;
        }
        for i := 0 to |es| + 1
          invariant PatternSeqSearch(es, ps, bs, n, i) == SeqMatch(es, ps, bs0)
        {
          var h: Bindings := map[n := Sequence(es[0..i])];
          var r;
          r, h := MatchSeq(es[i..], ps[1..], h);
          if r {
            bs := InsertAll(bs, h);
            return true, bs;
          }
        }
        return false, bs;
      case _ =>
        if |es| == 0 {
          return false, bs;
        }
        ok, bs := MatchExpression(es[0], ps[0], bs);
        if ok {
          ok, bs := MatchSeq(es[1..], ps[1..], bs);
        }
    }
  }

  /** `match_pattern`: the bindings when the subject matches, `None` otherwise. */
  method MatchPattern(e: Expression, p: Expression) returns (r: Option<Bindings>)
    ensures r == Match(e, p)
  {
    var bs: Bindings := map[];
    var ok;
    ok, bs := MatchExpression(e, p, bs);
    if ok {
      r := Some(bs);
    } else {
      r := None;
    }
  }

  // ---------------------------------------------------------------------
  // The match case table

  /** An unnamed wildcard as the whole pattern matches anything and binds nothing. */
  lemma WildcardMatchesAnything(e: Expression, p: Expression, bs: Bindings)
    requires p == Blank || p == BlankSeq || p == BlankNullSeq
    ensures ExpressionMatch(e, p, bs) == Outcome(true, bs)
    ensures Match(e, p) == Some(map[])
  {
  }

  /** A named single wildcard matches anything and (re)binds its name to the subject. */
  lemma PatternBindsSubject(e: Expression, n: string, bs: Bindings)
    ensures ExpressionMatch(e, Pattern(n), bs) == Outcome(true, bs[n := Single(e)])
    ensures Match(e, Pattern(n)) == Some(map[n := Single(e)])
  {
  }

  /** The remaining node cases: atoms compare names, lists compare children, all else fails. */
  lemma NodeCases(e: Expression, p: Expression, bs: Bindings)
    ensures e.Atom? && p.Atom? ==> ExpressionMatch(e, p, bs) == Outcome(e.name == p.name, bs)
    ensures e.List? && p.List? ==> ExpressionMatch(e, p, bs) == SeqMatch(e.items, p.items, bs)
    ensures p.PatternSeq? || p.PatternNullSeq? || (p.Atom? && !e.Atom?) || (p.List? && !e.List?) ==>
              ExpressionMatch(e, p, bs) == Outcome(false, bs)
  {
  }

  /** An empty pattern list matches only an empty subject list; a single-element head needs one element. */
  lemma SeqCases(es: seq<Expression>, ps: seq<Expression>, bs: Bindings)
    ensures |ps| == 0 ==> SeqMatch(es, ps, bs) == Outcome(|es| == 0, bs)
    ensures |ps| > 0 && !IsSeqWildcard(ps[0]) && |es| == 0 ==> SeqMatch(es, ps, bs) == Outcome(false, bs)
    ensures |ps| > 0 && !IsSeqWildcard(ps[0]) && |es| > 0 ==>
              var first := ExpressionMatch(es[0], ps[0], bs);
              SeqMatch(es, ps, bs) == if first.matched then SeqMatch(es[1..], ps[1..], first.bindings) else first
  {
  }

  /** The four wildcards that may take a run of list elements. */
  predicate IsSeqWildcard(p: Expression)
  {
    p.BlankSeq? || p.BlankNullSeq? || p.PatternSeq? || p.PatternNullSeq?
  }

  /**
   * A zero-or-more head facing an empty remainder succeeds at once, ignoring
   * whatever the rest of the pattern still asks for.
   */
  lemma NullSeqOnEmptyRemainder(ps: seq<Expression>, bs: Bindings)
    requires |ps| > 0 && (ps[0].BlankNullSeq? || ps[0].PatternNullSeq?)
    ensures ps[0].BlankNullSeq? ==> SeqMatch([], ps, bs) == Outcome(true, bs)
    ensures ps[0].PatternNullSeq? ==> SeqMatch([], ps, bs) == Outcome(true, bs[ps[0].name := Sequence([])])
  {
  }

  // ---------------------------------------------------------------------
  // Success does not depend on the bindings map

  /** Whether a node matches never depends on the map it starts from: no binding is ever compared. */
  lemma {:induction false} ExpressionMatchedIndependent(e: Expression, p: Expression, bs1: Bindings, bs2: Bindings)
    ensures ExpressionMatch(e, p, bs1).matched == ExpressionMatch(e, p, bs2).matched
    decreases p, 0, 0
  {
    if p.List? && e.List? {
      SeqMatchedIndependent(e.items, p.items, bs1, bs2);
    }
  }

  /** Whether a list matches never depends on the map it starts from. */
  lemma {:induction false} SeqMatchedIndependent(es: seq<Expression>, ps: seq<Expression>, bs1: Bindings, bs2: Bindings)
    ensures SeqMatch(es, ps, bs1).matched == SeqMatch(es, ps, bs2).matched
    decreases ps, 2, 0
  {
    if |ps| > 0 {
      match ps[0]
      case BlankSeq => BlankSeqSearchIndependent(es, ps, bs1, bs2, 1);
      case BlankNullSeq =>
        if |es| > 0 {
          BlankSeqSearchIndependent(es, ps, bs1, bs2, 0);
        }
      case PatternSeq(n) => PatternSeqSearchIndependent(es, ps, bs1, bs2, n, 1);
      case PatternNullSeq(n) =>
        if |es| > 0 {
          PatternSeqSearchIndependent(es, ps, bs1, bs2, n, 0);
        }
      case _ =>
        if |es| > 0 {
          ExpressionMatchedIndependent(es[0], ps[0], bs1, bs2);
          var f1 := ExpressionMatch(es[0], ps[0], bs1);
          var f2 := ExpressionMatch(es[0], ps[0], bs2);
          SeqMatchedIndependent(es[1..], ps[1..], f1.bindings, f2.bindings);
        }
    }
  }

  lemma {:induction false} BlankSeqSearchIndependent(es: seq<Expression>, ps: seq<Expression>, bs1: Bindings, bs2: Bindings, i: nat)
    requires |ps| > 0
    ensures BlankSeqSearch(es, ps, bs1, i).matched == BlankSeqSearch(es, ps, bs2, i).matched
    decreases ps, 1, |es| + 1 - i
  {
    if i <= |es| {
      SeqMatchedIndependent(es[i..], ps[1..], bs1, bs2);
      var r1 := SeqMatch(es[i..], ps[1..], bs1);
      var r2 := SeqMatch(es[i..], ps[1..], bs2);
      if !r1.matched {
        BlankSeqSearchIndependent(es, ps, r1.bindings, r2.bindings, i + 1);
      }
    }
  }

  lemma {:induction false} PatternSeqSearchIndependent(es: seq<Expression>, ps: seq<Expression>, bs1: Bindings, bs2: Bindings, n: string, i: nat)
    requires |ps| > 0
    ensures PatternSeqSearch(es, ps, bs1, n, i).matched == PatternSeqSearch(es, ps, bs2, n, i).matched
    decreases |es| + 1 - i
  {
    if i <= |es| && !Candidate(es, ps[1..], n, i).matched {
      PatternSeqSearchIndependent(es, ps, bs1, bs2, n, i + 1);
    }
  }

  // ---------------------------------------------------------------------
  // Matching touches only the names that occur in the pattern

  /** The names of the named wildcards in a pattern. */
  function Names(p: Expression): set<string>
  {
    match p
    case Pattern(n) => {n}
    case PatternSeq(n) => {n}
    case PatternNullSeq(n) => {n}
    case List(ps) => NamesSeq(ps)
    case _ => {}
  }

  function NamesSeq(ps: seq<Expression>): set<string>
  {
    if |ps| == 0 then {} else Names(ps[0]) + NamesSeq(ps[1..])
  }

  /** `r` keeps every entry of `bs` and changes or adds entries only for `names`. */
  ghost predicate Extends(bs: Bindings, r: Bindings, names: set<string>)
  {
    && bs.Keys <= r.Keys <= bs.Keys + names
    && forall k :: k in bs && k !in names ==> r[k] == bs[k]
  }

  /** Matching a node keeps every entry, and only writes names of the pattern. */
  lemma {:induction false} ExpressionMatchFrame(e: Expression, p: Expression, bs: Bindings)
    ensures Extends(bs, ExpressionMatch(e, p, bs).bindings, Names(p))
    decreases p, 0, 0
  {
    if p.List? && e.List? {
      SeqMatchFrame(e.items, p.items, bs);
    }
  }

  /** Matching a list keeps every entry, and only writes names of the pattern list. */
  lemma {:induction false} SeqMatchFrame(es: seq<Expression>, ps: seq<Expression>, bs: Bindings)
    ensures Extends(bs, SeqMatch(es, ps, bs).bindings, NamesSeq(ps))
    decreases ps, 2, 0
  {
    if |ps| > 0 {
      match ps[0]
      case BlankSeq => BlankSeqSearchFrame(es, ps, bs, 1);
      case BlankNullSeq =>
        if |es| > 0 {
          BlankSeqSearchFrame(es, ps, bs, 0);
        }
      case PatternSeq(n) => PatternSeqSearchFrame(es, ps, bs, n, 1);
      case PatternNullSeq(n) =>
        if |es| > 0 {
          PatternSeqSearchFrame(es, ps, bs, n, 0);
        }
      case _ =>
        if |es| > 0 {
          ExpressionMatchFrame(es[0], ps[0], bs);
          var first := ExpressionMatch(es[0], ps[0], bs);
          if first.matched {
            SeqMatchFrame(es[1..], ps[1..], first.bindings);
          }
        }
    }
  }

  lemma {:induction false} BlankSeqSearchFrame(es: seq<Expression>, ps: seq<Expression>, bs: Bindings, i: nat)
    requires |ps| > 0
    ensures Extends(bs, BlankSeqSearch(es, ps, bs, i).bindings, NamesSeq(ps))
    decreases ps, 1, |es| + 1 - i
  {
    if i <= |es| {
      SeqMatchFrame(es[i..], ps[1..], bs);
      var r := SeqMatch(es[i..], ps[1..], bs);
      if !r.matched {
        BlankSeqSearchFrame(es, ps, r.bindings, i + 1);
      }
    }
  }

  lemma {:induction false} PatternSeqSearchFrame(es: seq<Expression>, ps: seq<Expression>, bs: Bindings, n: string, i: nat)
    requires |ps| > 0 && n in Names(ps[0])
    ensures Extends(bs, PatternSeqSearch(es, ps, bs, n, i).bindings, NamesSeq(ps))
    decreases ps, 1, |es| + 1 - i
  {
    if i <= |es| {
      SeqMatchFrame(es[i..], ps[1..], map[n := Sequence(es[..i])]);
      if !Candidate(es, ps[1..], n, i).matched {
        PatternSeqSearchFrame(es, ps, bs, n, i + 1);
      }
    }
  }

  // ---------------------------------------------------------------------
  // Sequence heads: smallest admissible length first, first success wins

  /** `k` is the least candidate length from `lo` on whose remainder matches. */
  ghost predicate FirstCandidate(es: seq<Expression>, rest: seq<Expression>, n: string, lo: nat, k: nat)
  {
    && lo <= k <= |es| && Candidate(es, rest, n, k).matched
    && forall j :: lo <= j < k ==> !Candidate(es, rest, n, j).matched
  }

  /** The named search succeeds iff some candidate from `i` on does, and returns the first one merged into `bs`. */
  lemma {:induction false} PatternSeqSearchFirst(es: seq<Expression>, ps: seq<Expression>, bs: Bindings, n: string, i: nat)
    requires |ps| > 0
    ensures var r := PatternSeqSearch(es, ps, bs, n, i);
      && (r.matched <==> exists k :: i <= k <= |es| && Candidate(es, ps[1..], n, k).matched)
      && (r.matched ==> exists k :: FirstCandidate(es, ps[1..], n, i, k)
                                    && r.bindings == bs + Candidate(es, ps[1..], n, k).bindings)
      && (!r.matched ==> r.bindings == bs)
    decreases |es| + 1 - i
  {
    var rest := ps[1..];
    var r := PatternSeqSearch(es, ps, bs, n, i);
    if i > |es| {
      assert !r.matched;
    } else if Candidate(es, rest, n, i).matched {
      assert r.matched;
      assert FirstCandidate(es, rest, n, i, i);
      assert exists k :: i <= k <= |es| && Candidate(es, ps[1..], n, k).matched;
    } else {
      assert r == PatternSeqSearch(es, ps, bs, n, i + 1);
      PatternSeqSearchFirst(es, ps, bs, n, i + 1);
      if r.matched {
        var k :| FirstCandidate(es, rest, n, i + 1, k) && r.bindings == bs + Candidate(es, rest, n, k).bindings;
        assert FirstCandidate(es, rest, n, i, k);
      } else {
        forall k | i <= k <= |es| ensures !Candidate(es, rest, n, k).matched {
          if k > i {
            assert !(i + 1 <= k <= |es| && Candidate(es, rest, n, k).matched);
          }
        }
      }
    }
  }

  /**
   * A `name__` head consumes k >= 1 elements for the least k whose remainder
   * matches with name bound to those k elements in a fresh map; that map is
   * then copied over the outer one. If no k works the outer map is untouched.
   */
  lemma PatternSeqHead(es: seq<Expression>, ps: seq<Expression>, bs: Bindings)
    requires |ps| > 0 && ps[0].PatternSeq?
    ensures var r := SeqMatch(es, ps, bs);
      && (r.matched <==> exists k :: 1 <= k <= |es| && Candidate(es, ps[1..], ps[0].name, k).matched)
      && (r.matched ==> exists k :: FirstCandidate(es, ps[1..], ps[0].name, 1, k)
                                    && r.bindings == bs + Candidate(es, ps[1..], ps[0].name, k).bindings)
      && (!r.matched ==> r.bindings == bs)
  {
    assert SeqMatch(es, ps, bs) == PatternSeqSearch(es, ps, bs, ps[0].name, 1);
    PatternSeqSearchFirst(es, ps, bs, ps[0].name, 1);
  }

  /** A `name___` head on a non-empty remainder does the same search, starting from length 0. */
  lemma PatternNullSeqHead(es: seq<Expression>, ps: seq<Expression>, bs: Bindings)
    requires |ps| > 0 && ps[0].PatternNullSeq? && |es| > 0
    ensures var r := SeqMatch(es, ps, bs);
      && (r.matched <==> exists k :: 0 <= k <= |es| && Candidate(es, ps[1..], ps[0].name, k).matched)
      && (r.matched ==> exists k :: FirstCandidate(es, ps[1..], ps[0].name, 0, k)
                                    && r.bindings == bs + Candidate(es, ps[1..], ps[0].name, k).bindings)
      && (!r.matched ==> r.bindings == bs)
  {
    assert SeqMatch(es, ps, bs) == PatternSeqSearch(es, ps, bs, ps[0].name, 0);
    PatternSeqSearchFirst(es, ps, bs, ps[0].name, 0);
  }

  /** Whether the rest of a pattern list matches the subject elements from `k` on. */
  ghost predicate RestMatches(es: seq<Expression>, ps: seq<Expression>, k: nat)
    requires |ps| > 0 && k <= |es|
  {
    SeqMatch(es[k..], ps[1..], map[]).matched
  }

  /**
   * The unnamed search succeeds iff the remainder matches from some length
   * `k` >= `i` on, and what it returns is the outcome of the least such `k`
   * (run on whatever map the failed shorter candidates left).
   */
  lemma {:induction false} BlankSeqSearchFirst(es: seq<Expression>, ps: seq<Expression>, bs: Bindings, i: nat)
    requires |ps| > 0
    ensures var r := BlankSeqSearch(es, ps, bs, i);
      && (r.matched <==> exists k :: i <= k <= |es| && RestMatches(es, ps, k))
      && (r.matched ==> exists k, b :: && i <= k <= |es| && RestMatches(es, ps, k)
                                       && (forall j :: i <= j < k ==> !RestMatches(es, ps, j))
                                       && r == SeqMatch(es[k..], ps[1..], b))
    decreases |es| + 1 - i
  {
    if i <= |es| {
      var r0 := SeqMatch(es[i..], ps[1..], bs);
      SeqMatchedIndependent(es[i..], ps[1..], bs, map[]);
      if !r0.matched {
        BlankSeqSearchFirst(es, ps, r0.bindings, i + 1);
        var r := BlankSeqSearch(es, ps, r0.bindings, i + 1);
        if r.matched {
          var k, b :| && i + 1 <= k <= |es| && RestMatches(es, ps, k)
                      && (forall j :: i + 1 <= j < k ==> !RestMatches(es, ps, j))
                      && r == SeqMatch(es[k..], ps[1..], b);
          assert forall j :: i <= j < k ==> !RestMatches(es, ps, j);
        }
      } else {
        assert RestMatches(es, ps, i);
      }
    }
  }

  /** A `__` head consumes k >= 1 elements for the least k whose remainder matches. */
  lemma BlankSeqHead(es: seq<Expression>, ps: seq<Expression>, bs: Bindings)
    requires |ps| > 0 && ps[0].BlankSeq?
    ensures var r := SeqMatch(es, ps, bs);
      && (r.matched <==> exists k :: 1 <= k <= |es| && RestMatches(es, ps, k))
      && (r.matched ==> exists k, b :: && 1 <= k <= |es| && RestMatches(es, ps, k)
                                       && (forall j :: 1 <= j < k ==> !RestMatches(es, ps, j))
                                       && r == SeqMatch(es[k..], ps[1..], b))
  {
    BlankSeqSearchFirst(es, ps, bs, 1);
  }

  /** A `___` head on a non-empty remainder does the same search, starting from length 0. */
  lemma BlankNullSeqHead(es: seq<Expression>, ps: seq<Expression>, bs: Bindings)
    requires |ps| > 0 && ps[0].BlankNullSeq? && |es| > 0
    ensures var r := SeqMatch(es, ps, bs);
      && (r.matched <==> exists k :: 0 <= k <= |es| && RestMatches(es, ps, k))
      && (r.matched ==> exists k, b :: && 0 <= k <= |es| && RestMatches(es, ps, k)
                                       && (forall j :: 0 <= j < k ==> !RestMatches(es, ps, j))
                                       && r == SeqMatch(es[k..], ps[1..], b))
  {
    BlankSeqSearchFirst(es, ps, bs, 0);
  }

  // ---------------------------------------------------------------------
  // Patterns made of atoms, lists and `name_` only

  /** A pattern without unnamed or sequence wildcards. */
  predicate Simple(p: Expression)
  {
    match p
    case Atom(_) => true
    case Pattern(_) => true
    case List(ps) => SimpleSeq(ps)
    case _ => false
  }

  predicate SimpleSeq(ps: seq<Expression>)
  {
    |ps| == 0 || (Simple(ps[0]) && SimpleSeq(ps[1..]))
  }

  /** No name occurs twice in the pattern. */
  predicate Linear(p: Expression)
  {
    match p
    case List(ps) => LinearSeq(ps)
    case _ => true
  }

  predicate LinearSeq(ps: seq<Expression>)
  {
    |ps| == 0 || (Linear(ps[0]) && Names(ps[0]) !! NamesSeq(ps[1..]) && LinearSeq(ps[1..]))
  }

  /** The subject a simple pattern describes once each `name_` is replaced by its value in `env`. */
  function Fill(p: Expression, env: Bindings): Expression
  {
    match p
    case Pattern(n) => if n in env && env[n].Single? then env[n].expr else p
    case List(ps) => List(FillSeq(ps, env))
    case _ => p
  }

  function FillSeq(ps: seq<Expression>, env: Bindings): seq<Expression>
  {
    if |ps| == 0 then [] else [Fill(ps[0], env)] + FillSeq(ps[1..], env)
  }

  /** `env` gives every name of `p` a single-expression value. */
  ghost predicate Assigns(names: set<string>, env: Bindings)
  {
    forall n :: n in names ==> n in env && env[n].Single?
  }

  /** `env1` and `env2` agree on `names`. */
  ghost predicate AgreeOn(names: set<string>, env1: Bindings, env2: Bindings)
  {
    forall n :: n in names ==> (n in env1 <==> n in env2) && (n in env1 ==> env1[n] == env2[n])
  }

  lemma {:induction false} FillAgree(p: Expression, env1: Bindings, env2: Bindings)
    requires AgreeOn(Names(p), env1, env2)
    ensures Fill(p, env1) == Fill(p, env2)
    decreases p, 1
  {
    if p.List? {
      FillSeqAgree(p.items, env1, env2);
    }
  }

  lemma {:induction false} FillSeqAgree(ps: seq<Expression>, env1: Bindings, env2: Bindings)
    requires AgreeOn(NamesSeq(ps), env1, env2)
    ensures FillSeq(ps, env1) == FillSeq(ps, env2)
    decreases ps, 0
  {
    if |ps| > 0 {
      FillAgree(ps[0], env1, env2);
      FillSeqAgree(ps[1..], env1, env2);
    }
  }

  /**
   * Soundness for simple linear patterns: a successful match binds every
   * name of the pattern to one expression, and filling the pattern with the
   * result gives back the subject.
   */
  lemma {:induction false} SimpleMatchSound(e: Expression, p: Expression, bs: Bindings)
    requires Simple(p) && Linear(p)
    ensures var r := ExpressionMatch(e, p, bs);
      r.matched ==> Assigns(Names(p), r.bindings) && Fill(p, r.bindings) == e
    decreases p, 1
  {
    if p.List? && e.List? {
      SimpleSeqMatchSound(e.items, p.items, bs);
    }
  }

  lemma {:induction false} SimpleSeqMatchSound(es: seq<Expression>, ps: seq<Expression>, bs: Bindings)
    requires SimpleSeq(ps) && LinearSeq(ps)
    ensures var r := SeqMatch(es, ps, bs);
      r.matched ==> Assigns(NamesSeq(ps), r.bindings) && FillSeq(ps, r.bindings) == es
    decreases ps, 0
  {
    if |ps| > 0 && |es| > 0 {
      assert !IsSeqWildcard(ps[0]);
      var first := ExpressionMatch(es[0], ps[0], bs);
      if first.matched {
        SimpleMatchSound(es[0], ps[0], bs);
        var r := SeqMatch(es[1..], ps[1..], first.bindings);
        assert SeqMatch(es, ps, bs) == r;
        SimpleSeqMatchSound(es[1..], ps[1..], first.bindings);
        SeqMatchFrame(es[1..], ps[1..], first.bindings);
        if r.matched {
          assert AgreeOn(Names(ps[0]), first.bindings, r.bindings);
          FillAgree(ps[0], first.bindings, r.bindings);
          assert [es[0]] + es[1..] == es;
        }
      }
    }
  }

  /** Completeness for simple patterns: every filling of the pattern matches it, whatever the map. */
  lemma {:induction false} SimpleMatchComplete(p: Expression, env: Bindings, bs: Bindings)
    requires Simple(p) && Assigns(Names(p), env)
    ensures ExpressionMatch(Fill(p, env), p, bs).matched
    decreases p, 1
  {
    if p.List? {
      SimpleSeqMatchComplete(p.items, env, bs);
    }
  }

  lemma {:induction false} SimpleSeqMatchComplete(ps: seq<Expression>, env: Bindings, bs: Bindings)
    requires SimpleSeq(ps) && Assigns(NamesSeq(ps), env)
    ensures SeqMatch(FillSeq(ps, env), ps, bs).matched
    decreases ps, 0
  {
    if |ps| > 0 {
      var es := FillSeq(ps, env);
      assert es[0] == Fill(ps[0], env) && es[1..] == FillSeq(ps[1..], env);
      assert !IsSeqWildcard(ps[0]);
      SimpleMatchComplete(ps[0], env, bs);
      var first := ExpressionMatch(es[0], ps[0], bs);
      SimpleSeqMatchComplete(ps[1..], env, first.bindings);
    }
  }

  /**
   * For a simple linear pattern the matcher is exact: it succeeds iff the
   * subject is some filling of the pattern, and then it returns one.
   */
  lemma SimpleMatchExact(e: Expression, p: Expression)
    requires Simple(p) && Linear(p)
    ensures Match(e, p).Some? <==> exists env :: Assigns(Names(p), env) && Fill(p, env) == e
    ensures Match(e, p).Some? ==> Assigns(Names(p), Match(e, p).value) && Fill(p, Match(e, p).value) == e
  {
    SimpleMatchSound(e, p, map[]);
    if exists env :: Assigns(Names(p), env) && Fill(p, env) == e {
      var env :| Assigns(Names(p), env) && Fill(p, env) == e;
      SimpleMatchComplete(p, env, map[]);
    }
  }

  // ---------------------------------------------------------------------
  // Every instance of a pattern matches it

  /**
   * `e` is an instance of the pattern `p`: `_`, `__`, `___` and `name_`
   * stand for any tree, an atom for itself, a list for a list whose children
   * are an instance of its children. A standalone `name__` or `name___` has
   * no instance.
   */
  ghost predicate Fits(e: Expression, p: Expression)
    decreases p, 1
  {
    match p
    case Blank => true
    case BlankSeq => true
    case BlankNullSeq => true
    case Pattern(_) => true
    case Atom(a) => e == Atom(a)
    case List(ps) => e.List? && FitsSeq(e.items, ps)
    case PatternSeq(_) => false
    case PatternNullSeq(_) => false
  }

  /**
   * `es` is an instance of the pattern list `ps`: a one-or-more head stands
   * for a run of k >= 1 elements, a zero-or-more head for a run of k >= 0,
   * and any other head for one element that is an instance of it.
   */
  ghost predicate FitsSeq(es: seq<Expression>, ps: seq<Expression>)
    decreases ps, 0
  {
    if |ps| == 0 then |es| == 0
    else match ps[0]
      case BlankSeq => exists k :: 1 <= k <= |es| && FitsSeq(es[k..], ps[1..])
      case PatternSeq(_) => exists k :: 1 <= k <= |es| && FitsSeq(es[k..], ps[1..])
      case BlankNullSeq => exists k :: 0 <= k <= |es| && FitsSeq(es[k..], ps[1..])
      case PatternNullSeq(_) => exists k :: 0 <= k <= |es| && FitsSeq(es[k..], ps[1..])
      case _ => |es| > 0 && Fits(es[0], ps[0]) && FitsSeq(es[1..], ps[1..])
  }

  /** Completeness: an instance of a pattern matches it, from any map. */
  lemma {:induction false} InstanceMatches(e: Expression, p: Expression, bs: Bindings)
    requires Fits(e, p)
    ensures ExpressionMatch(e, p, bs).matched
    decreases p, 1
  {
    if p.List? {
      InstancesMatch(e.items, p.items, bs);
    }
  }

  /** Completeness for lists: an instance of a pattern list matches it, from any map. */
  lemma {:induction false} InstancesMatch(es: seq<Expression>, ps: seq<Expression>, bs: Bindings)
    requires FitsSeq(es, ps)
    ensures SeqMatch(es, ps, bs).matched
    decreases ps, 0
  {
    if |ps| > 0 {
      match ps[0]
      case BlankSeq =>
        var k :| 1 <= k <= |es| && FitsSeq(es[k..], ps[1..]);
        InstancesMatch(es[k..], ps[1..], map[]);
        assert RestMatches(es, ps, k);
        BlankSeqHead(es, ps, bs);
      case BlankNullSeq =>
        if |es| > 0 {
          var k :| 0 <= k <= |es| && FitsSeq(es[k..], ps[1..]);
          InstancesMatch(es[k..], ps[1..], map[]);
          assert RestMatches(es, ps, k);
          BlankNullSeqHead(es, ps, bs);
        } else {
          NullSeqOnEmptyRemainder(ps, bs);
        }
      case PatternSeq(n) =>
        var k :| 1 <= k <= |es| && FitsSeq(es[k..], ps[1..]);
        InstancesMatch(es[k..], ps[1..], map[n := Sequence(es[..k])]);
        assert Candidate(es, ps[1..], n, k).matched;
        PatternSeqHead(es, ps, bs);
      case PatternNullSeq(n) =>
        if |es| > 0 {
          var k :| 0 <= k <= |es| && FitsSeq(es[k..], ps[1..]);
          InstancesMatch(es[k..], ps[1..], map[n := Sequence(es[..k])]);
          assert Candidate(es, ps[1..], ps[0].name, k).matched;
          PatternNullSeqHead(es, ps, bs);
          assert SeqMatch(es, ps, bs).matched;
        } else {
          NullSeqOnEmptyRemainder(ps, bs);
        }
      case _ =>
        InstanceMatches(es[0], ps[0], bs);
        var first := ExpressionMatch(es[0], ps[0], bs);
        InstancesMatch(es[1..], ps[1..], first.bindings);
    }
  }

  /** `match_pattern` returns some bindings for every instance of the pattern. */
  lemma MatchInstance(e: Expression, p: Expression)
    requires Fits(e, p)
    ensures Match(e, p).Some?
  {
    InstanceMatches(e, p, map[]);
  }

  /**
   * No child of any list in `p` is a zero-or-more wildcard (`___` or
   * `name___`); `p` itself may be one. Such a child on an empty remainder
   * ends the list match at once without looking at the pattern after it
   * (`NullSeqOnEmptyRemainder`), so patterns that have one can match
   * subjects that are not their instances.
   */
  predicate NoNullIn(p: Expression)
    decreases p, 1
  {
    match p
    case List(ps) => NoNullSeqs(ps)
    case _ => true
  }

  /** The same for the children of a pattern list. */
  predicate NoNullSeqs(ps: seq<Expression>)
    decreases ps, 0
  {
    |ps| == 0
    || (&& !ps[0].BlankNullSeq? && !ps[0].PatternNullSeq?
        && NoNullIn(ps[0]) && NoNullSeqs(ps[1..]))
  }

  /** Soundness: without zero-or-more wildcards inside lists, whatever matches a pattern is an instance of it. */
  lemma {:induction false} MatchedFits(e: Expression, p: Expression, bs: Bindings)
    requires NoNullIn(p)
    ensures ExpressionMatch(e, p, bs).matched ==> Fits(e, p)
    decreases p, 1
  {
    if p.List? && e.List? {
      MatchedFitsSeq(e.items, p.items, bs);
    }
  }

  /** Soundness for lists: children that match such pattern children are an instance of them. */
  lemma {:induction false} MatchedFitsSeq(es: seq<Expression>, ps: seq<Expression>, bs: Bindings)
    requires NoNullSeqs(ps)
    ensures SeqMatch(es, ps, bs).matched ==> FitsSeq(es, ps)
    decreases ps, 0
  {
    if |ps| > 0 && SeqMatch(es, ps, bs).matched {
      if ps[0].BlankSeq? {
        BlankSeqHead(es, ps, bs);
        var k :| 1 <= k <= |es| && RestMatches(es, ps, k);
        MatchedFitsSeq(es[k..], ps[1..], map[]);
      } else if ps[0].PatternSeq? {
        var n := ps[0].name;
        PatternSeqHead(es, ps, bs);
        var k :| 1 <= k <= |es| && Candidate(es, ps[1..], n, k).matched;
        MatchedFitsSeq(es[k..], ps[1..], map[n := Sequence(es[..k])]);
      } else {
        var first := ExpressionMatch(es[0], ps[0], bs);
        MatchedFits(es[0], ps[0], bs);
        MatchedFitsSeq(es[1..], ps[1..], first.bindings);
      }
    }
  }

  /** Without zero-or-more wildcards inside lists, `match_pattern` succeeds exactly on the instances of the pattern. */
  lemma MatchIffFits(e: Expression, p: Expression)
    requires NoNullIn(p)
    ensures Match(e, p).Some? <==> Fits(e, p)
  {
    MatchedFits(e, p, map[]);
    if Fits(e, p) {
      MatchInstance(e, p);
    }
  }

  // ---------------------------------------------------------------------
  // Examples

  /** `(x (y z))` against `(_ a_)` binds `a` to `(y z)`. */
  lemma ExampleMatchDoc()
    ensures Match(List([Atom("x"), List([Atom("y"), Atom("z")])]), List([Blank, Pattern("a")]))
         == Some(map["a" := Single(List([Atom("y"), Atom("z")]))])
  {
    var yz := List([Atom("y"), Atom("z")]);
    var es := [Atom("x"), yz];
    var ps := [Blank, Pattern("a")];
    assert es[1..] == [yz] && ps[1..] == [Pattern("a")] && [yz][1..] == [] && [Pattern("a")][1..] == [];
    assert SeqMatch(es, ps, map[]) == SeqMatch([yz], [Pattern("a")], map[]);
    assert SeqMatch([yz], [Pattern("a")], map[]) == Outcome(true, map["a" := Single(yz)]);
  }

  /** `(x__ y_)` against `(1 2 3)`: the sequence takes the shortest run that lets `y_` match. */
  lemma ExampleLeftmostShortest()
    ensures Match(List([Atom("1"), Atom("2"), Atom("3")]), List([PatternSeq("x"), Pattern("y")]))
         == Some(map["x" := Sequence([Atom("1"), Atom("2")]), "y" := Single(Atom("3"))])
  {
    var es := [Atom("1"), Atom("2"), Atom("3")];
    var ps := [PatternSeq("x"), Pattern("y")];
    var rest := [Pattern("y")];
    assert ps[1..] == rest && rest[1..] == [];
    assert es[1..] == [Atom("2"), Atom("3")] && es[2..] == [Atom("3")] && es[..1] == [Atom("1")];
    assert es[..2] == [Atom("1"), Atom("2")] && [Atom("2"), Atom("3")][1..] == [Atom("3")] && [Atom("3")][1..] == [];
    // length 1: `y_` takes 2 and 3 is left over
    var h1 := map["x" := Sequence([Atom("1")])];
    var y2 := ExpressionMatch(Atom("2"), Pattern("y"), h1);
    assert y2.matched;
    assert SeqMatch([Atom("3")], [], y2.bindings).matched == false;
    assert SeqMatch([Atom("2"), Atom("3")], rest, h1) == SeqMatch([Atom("3")], [], y2.bindings);
    assert !Candidate(es, rest, "x", 1).matched;
    // length 2: `y_` takes 3 and nothing is left
    var h2 := map["x" := Sequence([Atom("1"), Atom("2")])];
    var y3 := ExpressionMatch(Atom("3"), Pattern("y"), h2);
    assert y3 == Outcome(true, h2["y" := Single(Atom("3"))]);
    assert SeqMatch([], [], y3.bindings) == Outcome(true, y3.bindings);
    assert SeqMatch([Atom("3")], rest, h2) == SeqMatch([], [], y3.bindings);
    assert Candidate(es, rest, "x", 2) == Outcome(true, h2["y" := Single(Atom("3"))]);
    assert PatternSeqSearch(es, ps, map[], "x", 1) == PatternSeqSearch(es, ps, map[], "x", 2);
    assert map[] + h2["y" := Single(Atom("3"))] == map["x" := Sequence([Atom("1"), Atom("2")]), "y" := Single(Atom("3"))];
  }

  /** A repeated name is overwritten without any equality check: `(a_ a_)` matches `(1 2)` with a = 2. */
  lemma ExampleRepeatedNameOverwrites()
    ensures Match(List([Atom("1"), Atom("2")]), List([Pattern("a"), Pattern("a")])) == Some(map["a" := Single(Atom("2"))])
    ensures Fill(List([Pattern("a"), Pattern("a")]), map["a" := Single(Atom("2"))]) != List([Atom("1"), Atom("2")])
  {
    var es := [Atom("1"), Atom("2")];
    var ps := [Pattern("a"), Pattern("a")];
    assert es[1..] == [Atom("2")] && ps[1..] == [Pattern("a")];
    assert [Atom("2")][1..] == [] && [Pattern("a")][1..] == [];
    var first := ExpressionMatch(Atom("1"), Pattern("a"), map[]);
    assert first == Outcome(true, map["a" := Single(Atom("1"))]);
    var second := ExpressionMatch(Atom("2"), Pattern("a"), first.bindings);
    assert second == Outcome(true, map["a" := Single(Atom("2"))]);
    assert SeqMatch([Atom("2")], [Pattern("a")], first.bindings) == SeqMatch([], [], second.bindings);
    assert SeqMatch(es, ps, map[]) == SeqMatch([Atom("2")], [Pattern("a")], first.bindings);
    assert FillSeq(ps, map["a" := Single(Atom("2"))])[0] == Atom("2");
  }

  /** `(___ a)` matches `()`: the empty remainder ends the match before the atom is looked at. */
  lemma ExampleNullSeqIgnoresRest()
    ensures Match(List([]), List([BlankNullSeq, Atom("a")])) == Some(map[])
  {
  }

  /**
   * `(__ ___ a_ z)` matches `(p q)` and reports a = q: `a_` was bound while
   * the `___` tried `(q)` against `a_ z` and failed, the binding stayed in
   * the shared map, and the final candidate never reached `a_`.
   */
  lemma ExampleFailedCandidateLeaks()
    ensures Match(List([Atom("p"), Atom("q")]), List([BlankSeq, BlankNullSeq, Pattern("a"), Atom("z")]))
         == Some(map["a" := Single(Atom("q"))])
  {
    var es := [Atom("p"), Atom("q")];
    var ps := [BlankSeq, BlankNullSeq, Pattern("a"), Atom("z")];
    var ps1 := [BlankNullSeq, Pattern("a"), Atom("z")];
    var ps2 := [Pattern("a"), Atom("z")];
    assert ps[1..] == ps1 && ps1[1..] == ps2 && ps2[1..] == [Atom("z")];
    assert es[1..] == [Atom("q")] && es[2..] == [];
    assert [Atom("q")][1..] == [] && [Atom("q")][0..] == [Atom("q")];
    // length 1 for `__`: `___` against (q) fails, leaving a = q behind
    var inner := SeqMatch([Atom("q")], ps1, map[]);
    assert SeqMatch([Atom("q")], ps2, map[]) == Outcome(false, map["a" := Single(Atom("q"))]);
    assert SeqMatch([], ps2, map["a" := Single(Atom("q"))]) == Outcome(false, map["a" := Single(Atom("q"))]);
    assert inner == Outcome(false, map["a" := Single(Atom("q"))]);
    // length 2 for `__`: `___` faces an empty remainder and succeeds at once
    assert SeqMatch([], ps1, map["a" := Single(Atom("q"))]) == Outcome(true, map["a" := Single(Atom("q"))]);
  }
}
