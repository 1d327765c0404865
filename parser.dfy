/**
 * The reader of the textual form. `ParseExprAt`, `ParseItems`,
 * `ParseAtomicAt` and `ParseSuffix` specify the reader on a string and an
 * index; the class `Parser` is the reader itself, a cursor over the input
 * with one character of lookahead, and each of its methods is proved to
 * compute what the corresponding function says.
 */
module Parsing {
  import opened Wrappers
  import opened Expressions

  /** The syntax errors the reader reports. */
  datatype ErrorCode = InvalidPattern | UnbalancedParens | EmptyInput

  /** A syntax error, or the fallback for a state the reader never reaches. */
  datatype ParserError = SyntaxError(code: ErrorCode) | InternalError

  /** `char::is_whitespace`: the characters with the Unicode White_Space property. */
  predicate IsWhitespace(c: char)
  {
    || ('\t' <= c <= '\r')
    || c == ' '
    || c == '\U{0085}'
    || c == '\U{00A0}'
    || c == '\U{1680}'
    || ('\U{2000}' <= c <= '\U{200A}')
    || c == '\U{2028}'
    || c == '\U{2029}'
    || c == '\U{202F}'
    || c == '\U{205F}'
    || c == '\U{3000}'
  }

  /** A character that ends an atom or a wildcard: whitespace or a parenthesis. */
  predicate IsTerminator(c: char)
  {
    IsWhitespace(c) || c == '(' || c == ')'
  }

  /** The end of the input, too, ends an atom or a wildcard. */
  predicate TerminatorAt(s: string, i: nat)
    requires i <= |s|
  {
    i == |s| || IsTerminator(s[i])
  }

  /** A character that may occur in an atom or in the name of a pattern. */
  predicate IsAtomChar(c: char)
  {
    !IsTerminator(c) && c != '_'
  }

  // ---------------------------------------------------------------------
  // The reader, on a string and an index

  /** An expression read, and the index just after it. */
  datatype Parsed = Parsed(expr: Expression, next: nat)

  /** The children of a list read up to and including its `)`, and the index after it. */
  datatype ParsedItems = ParsedItems(items: seq<Expression>, next: nat)

  /** The first index from `i` on that does not hold whitespace. */
  function SkipWs(s: string, i: nat): (j: nat)
    requires i <= |s|
    ensures i <= j <= |s|
    ensures forall k :: i <= k < j ==> IsWhitespace(s[k])
    ensures j == |s| || !IsWhitespace(s[j])
    decreases |s| - i
  {
    if i < |s| && IsWhitespace(s[i]) then SkipWs(s, i + 1) else i
  }

  /** The end of the longest run of atom characters from `i` on. */
  function AtomEnd(s: string, i: nat): (j: nat)
    requires i <= |s|
    ensures i <= j <= |s|
    ensures forall k :: i <= k < j ==> IsAtomChar(s[k])
    ensures j == |s| || !IsAtomChar(s[j])
    decreases |s| - i
  {
    if i < |s| && IsAtomChar(s[i]) then AtomEnd(s, i + 1) else i
  }

  /** The wildcard with `n` underscores: unnamed when `name` is empty. */
  function Wildcard(name: string, n: nat): Expression
    requires 1 <= n <= 3
  {
    if name == [] then
      if n == 1 then Blank else if n == 2 then BlankSeq else BlankNullSeq
    else
      if n == 1 then Pattern(name) else if n == 2 then PatternSeq(name) else PatternNullSeq(name)
  }

  /**
   * `parse_blank*` and `parse_pattern*`: `n` underscores have been read and
   * `k` is the index after them. One more underscore is taken while there
   * are fewer than three; then a terminator must follow.
   */
  function ParseSuffix(s: string, k: nat, name: string, n: nat): (r: Result<Parsed, ParserError>)
    requires k <= |s| && 1 <= n <= 3
    ensures r.Success? ==> k <= r.value.next <= |s|
    ensures r.Failure? ==> r.error == SyntaxError(InvalidPattern)
    decreases 3 - n
  {
    if n < 3 && k < |s| && s[k] == '_' then ParseSuffix(s, k + 1, name, n + 1)
    else if !TerminatorAt(s, k) then Failure(SyntaxError(InvalidPattern))
    else Success(Parsed(Wildcard(name, n), k))
  }

  /** `parse_atomic`: a run of atom characters, then either an underscore suffix or the end of an atom. */
  function ParseAtomicAt(s: string, i: nat): (r: Result<Parsed, ParserError>)
    requires i <= |s|
    ensures r.Success? ==> i < r.value.next <= |s|
  {
    var j := AtomEnd(s, i);
    if j < |s| && s[j] == '_' then ParseSuffix(s, j + 1, s[i..j], 1)
    else if j == i then Failure(InternalError)
    else Success(Parsed(Atom(s[i..j]), j))
  }

  /** Where the run of atom characters from `i` meets an underscore at `j`, the suffix decides. */
  lemma AtomicAtUnderscore(s: string, i: nat, j: nat)
    requires i <= j < |s| && s[j] == '_' && AtomEnd(s, j) == AtomEnd(s, i)
    ensures ParseAtomicAt(s, i) == ParseSuffix(s, j + 1, s[i..j], 1)
  {
    assert AtomEnd(s, j) == j;
  }

  /** Where the run of atom characters from `i` meets a terminator at `j`, it is the atom, if any. */
  lemma AtomicAtTerminator(s: string, i: nat, j: nat)
    requires i <= j <= |s| && TerminatorAt(s, j) && AtomEnd(s, j) == AtomEnd(s, i)
    ensures ParseAtomicAt(s, i) == if j == i then Failure(InternalError) else Success(Parsed(Atom(s[i..j]), j))
  {
    assert AtomEnd(s, j) == j;
  }

  /** The children read after a `(` as the list they make. */
  function ListOf(r: Result<ParsedItems, ParserError>): Result<Parsed, ParserError>
  {
    match r
    case Success(l) => Success(Parsed(List(l.items), l.next))
    case Failure(err) => Failure(err)
  }

  /** `parse_expression`: what the character at `i` starts. */
  function ParseExprAt(s: string, i: nat): (r: Result<Parsed, ParserError>)
    requires i <= |s|
    ensures r.Success? ==> i < r.value.next <= |s|
    decreases |s| - i, 0
  {
    if i == |s| then Failure(SyntaxError(EmptyInput))
    else if s[i] == '(' then ListOf(ParseItems(s, i + 1, []))
    else if s[i] == ')' then Failure(SyntaxError(UnbalancedParens))
    else ParseAtomicAt(s, i)
  }

  /** `parse_list` after its `(`: children appended to `acc` until the closing `)`. */
  function ParseItems(s: string, j: nat, acc: seq<Expression>): (r: Result<ParsedItems, ParserError>)
    requires j <= |s|
    ensures r.Success? ==> j < r.value.next <= |s|
    decreases |s| - j, 1
  {
    var k := SkipWs(s, j);
    if k == |s| then Failure(SyntaxError(UnbalancedParens))
    else if s[k] == ')' then Success(ParsedItems(acc, k + 1))
    else
      match ParseExprAt(s, k)
      case Failure(err) => Failure(err)
      case Success(p) => ParseItems(s, p.next, acc + [p.expr])
  }

  /** The expression read, without the index. */
  function ExprOf(r: Result<Parsed, ParserError>): Result<Expression, ParserError>
  {
    match r
    case Success(p) => Success(p.expr)
    case Failure(err) => Failure(err)
  }

  /** `parse`: leading whitespace, then one expression; whatever follows is not read. */
  function Parse(s: string): Result<Expression, ParserError>
  {
    ExprOf(ParseExprAt(s, SkipWs(s, 0)))
  }

  // ---------------------------------------------------------------------
  // The reader itself

  /**
   * The reader's state: the characters not yet drawn from the input and
   * the current character, `None` at the end. `pos` is the index of the
   * current character in the whole input, -1 before the first is drawn.
   */
  class Parser {
    var iter: string
    var ch: Option<char>
    ghost const input: string
    ghost var pos: int

    ghost predicate Valid()
      reads this
    {
      && -1 <= pos <= |input|
      && ch == (if 0 <= pos < |input| then Some(input[pos]) else None)
      && iter == input[if pos < |input| then pos + 1 else |input|..]
    }

    /** `r` is what the specification `spec` reads, and the cursor stands where `spec` stopped. */
    ghost predicate Yields(r: Result<Expression, ParserError>, spec: Result<Parsed, ParserError>)
      reads this
    {
      r == ExprOf(spec) && (spec.Success? ==> pos == spec.value.next)
    }

    /** `Parser::new`: draws the first character. */
    constructor (it: string)
      ensures Valid() && input == it && pos == 0
    {
      iter := it;
      ch := None;
      input := it;
      pos := -1;
      new;
      Bump();
    }

    /** `bump`: the next character of the input becomes the current one. */
    method Bump()
      requires Valid()
      modifies this`iter, this`ch, this`pos
      ensures Valid()
      ensures pos == if old(pos) < |input| then old(pos) + 1 else old(pos)
    {
      if iter == [] {
        ch := None;
      } else {
        ch := Some(iter[0]);
        iter := iter[1..];
      }
      pos := if pos < |input| then pos + 1 else pos;
    }

    /** `ch_is_whitespace`. */
    function ChIsWhitespace(): (b: bool)
      reads this
      ensures Valid() && 0 <= pos ==> (b <==> pos < |input| && IsWhitespace(input[pos]))
    {
      ch.Some? && IsWhitespace(ch.value)
    }

    /** `ch_is_terminator`. */
    function ChIsTerminator(): (b: bool)
      reads this
      ensures Valid() && 0 <= pos ==> (b <==> TerminatorAt(input, pos))
    {
      ChIsWhitespace() || ch == Some('(') || ch == Some(')') || ch == None
    }

    /** `skip_whitespace`. */
    method SkipWhitespace()
      requires Valid() && 0 <= pos
      modifies this`iter, this`ch, this`pos
      ensures Valid() && pos == SkipWs(input, old(pos))
    {
      while ChIsWhitespace()
        invariant Valid() && old(pos) <= pos <= |input|
        invariant SkipWs(input, pos) == SkipWs(input, old(pos))
        decreases |input| - pos
      {
        Bump();
      }
    }

    /** `parse`. */
    method Parse() returns (r: Result<Expression, ParserError>)
      requires Valid() && 0 <= pos
      modifies this`iter, this`ch, this`pos
      ensures Valid() && r == ExprOf(ParseExprAt(input, SkipWs(input, old(pos))))
    {
      SkipWhitespace();
      r := ParseExpression();
    }

    /** `parse_expression`. */
    method ParseExpression() returns (r: Result<Expression, ParserError>)
      requires Valid() && 0 <= pos
      modifies this`iter, this`ch, this`pos
      ensures Valid() && Yields(r, ParseExprAt(input, old(pos)))
      decreases |input| - pos, 1
    {
      if ch == Some('(') {
        r := ParseList();
      } else if ch == Some(')') {
        r := Failure(SyntaxError(UnbalancedParens));
      } else if ch == None {
        r := Failure(SyntaxError(EmptyInput));
      } else {
        r := ParseAtomic();
      }
    }

    /** `parse_list`: the loop that reads children until the closing `)`. */
    method ParseList() returns (r: Result<Expression, ParserError>)
      requires Valid() && 0 <= pos < |input| && input[pos] == '('
      modifies this`iter, this`ch, this`pos
      ensures Valid() && Yields(r, ParseExprAt(input, old(pos)))
      decreases |input| - pos, 0
    {
      ghost var start := pos;
      ghost var items := ParseItems(input, start + 1, []);
      assert ParseExprAt(input, start) == ListOf(items);
      Bump();
      var v: seq<Expression> := [];
      while true
        invariant Valid() && start < pos <= |input|
        invariant ParseItems(input, pos, v) == items
        decreases |input| - pos
      {
        SkipWhitespace();
        if ch == Some(')') {
          Bump();
          return Success(List(v));
        } else if ch == None {
          return Failure(SyntaxError(UnbalancedParens));
        } else {
          var exp := ParseExpression();
          if exp.Failure? {
            return Failure(exp.error);
          }
          v := v + [exp.value];
        }
      }
    }

    /** `parse_atomic`: the loop that collects atom characters until a terminator or an underscore. */
    method ParseAtomic() returns (r: Result<Expression, ParserError>)
      requires Valid() && 0 <= pos
      modifies this`iter, this`ch, this`pos
      ensures Valid() && Yields(r, ParseAtomicAt(input, old(pos)))
    {
      ghost var start := pos;
      var s: string := "";
      while true
        invariant Valid() && start <= pos <= |input|
        invariant s == input[start..pos]
        invariant AtomEnd(input, pos) == AtomEnd(input, start)
        decreases |input| - pos
      {
        if ChIsTerminator() {
          break;
        }
        if ch == Some('_') {
          AtomicAtUnderscore(input, start, pos);
          ghost var spec := ParseSuffix(input, pos + 1, s, 1);
          assert ParseAtomicAt(input, start) == spec;
          r := ParseUnderscore(s);
          assert Yields(r, spec);
          return;
        }
        assert input[start..pos + 1] == input[start..pos] + [input[pos]];
        s := s + [ch.value];
        Bump();
      }
      AtomicAtTerminator(input, start, pos);
      ghost var spec := if |s| == 0 then Failure(InternalError) else Success(Parsed(Atom(s), pos));
      assert ParseAtomicAt(input, start) == spec;
      r := if |s| == 0 then Failure(InternalError) else Success(Atom(s));
      assert Yields(r, spec);
    }

    /** The tail of `parse_atomic`: past the first underscore, a blank when no name came before it, else a pattern. */
    method ParseUnderscore(s: string) returns (r: Result<Expression, ParserError>)
      requires Valid() && 0 <= pos < |input| && input[pos] == '_'
      modifies this`iter, this`ch, this`pos
      ensures Valid() && Yields(r, ParseSuffix(input, old(pos) + 1, s, 1))
    {
      Bump();
      if |s| == 0 {
        assert s == "";
        r := ParseBlank();
      } else {
        r := ParsePattern(s);
      }
    }

    /** `parse_blank`: one underscore read, nothing before it. */
    method ParseBlank() returns (r: Result<Expression, ParserError>)
      requires Valid() && 0 <= pos
      modifies this`iter, this`ch, this`pos
      ensures Valid() && Yields(r, ParseSuffix(input, old(pos), "", 1))
    {
      if ch == Some('_') {
        Bump();
        r := ParseBlankSeq();
        return;
      }
      if !ChIsTerminator() {
        return Failure(SyntaxError(InvalidPattern));
      }
      r := Success(Blank);
    }

    /** `parse_blank_seq`: two underscores read. */
    method ParseBlankSeq() returns (r: Result<Expression, ParserError>)
      requires Valid() && 0 <= pos
      modifies this`iter, this`ch, this`pos
      ensures Valid() && Yields(r, ParseSuffix(input, old(pos), "", 2))
    {
      if ch == Some('_') {
        Bump();
        r := ParseBlankNullSeq();
        return;
      }
      if !ChIsTerminator() {
        return Failure(SyntaxError(InvalidPattern));
      }
      r := Success(BlankSeq);
    }

    /** `parse_blank_null_seq`: three underscores read. */
    method ParseBlankNullSeq() returns (r: Result<Expression, ParserError>)
      requires Valid() && 0 <= pos
      modifies this`iter, this`ch, this`pos
      ensures Valid() && Yields(r, ParseSuffix(input, old(pos), "", 3))
    {
      if !ChIsTerminator() {
        return Failure(SyntaxError(InvalidPattern));
      }
      r := Success(BlankNullSeq);
    }

    /** `parse_pattern`: the name `s` and one underscore read. */
    method ParsePattern(s: string) returns (r: Result<Expression, ParserError>)
      requires Valid() && 0 <= pos && s != []
      modifies this`iter, this`ch, this`pos
      ensures Valid() && Yields(r, ParseSuffix(input, old(pos), s, 1))
    {
      if ch == Some('_') {
        Bump();
        r := ParsePatternSeq(s);
        return;
      }
      if !ChIsTerminator() {
        return Failure(SyntaxError(InvalidPattern));
      }
      r := Success(Pattern(s));
    }

    /** `parse_pattern_seq`: the name `s` and two underscores read. */
    method ParsePatternSeq(s: string) returns (r: Result<Expression, ParserError>)
      requires Valid() && 0 <= pos && s != []
      modifies this`iter, this`ch, this`pos
      ensures Valid() && Yields(r, ParseSuffix(input, old(pos), s, 2))
    {
      if ch == Some('_') {
        Bump();
        r := ParsePatternNullSeq(s);
        return;
      }
      if !ChIsTerminator() {
        return Failure(SyntaxError(InvalidPattern));
      }
      r := Success(PatternSeq(s));
    }

    /** `parse_pattern_null_seq`: the name `s` and three underscores read. */
    method ParsePatternNullSeq(s: string) returns (r: Result<Expression, ParserError>)
      requires Valid() && 0 <= pos && s != []
      modifies this`iter, this`ch, this`pos
      ensures Valid() && Yields(r, ParseSuffix(input, old(pos), s, 3))
    {
      if !ChIsTerminator() {
        return Failure(SyntaxError(InvalidPattern));
      }
      r := Success(PatternNullSeq(s));
    }
  }

  // ---------------------------------------------------------------------
  // Error classification

  /**
   * Reading an expression at `i` reports `EmptyInput` exactly at the end of
   * the input, and never `InternalError` where `i` holds no whitespace.
   */
  lemma {:induction false} ParseExprErrors(s: string, i: nat)
    requires i <= |s|
    ensures ParseExprAt(s, i) == Failure(SyntaxError(EmptyInput)) <==> i == |s|
    ensures (i == |s| || !IsWhitespace(s[i])) ==> ParseExprAt(s, i) != Failure(InternalError)
    decreases |s| - i, 0
  {
    if i < |s| && s[i] == '(' {
      ParseItemsErrors(s, i + 1, []);
    }
  }

  /** Inside a list neither `EmptyInput` nor `InternalError` is ever reported. */
  lemma {:induction false} ParseItemsErrors(s: string, j: nat, acc: seq<Expression>)
    requires j <= |s|
    ensures ParseItems(s, j, acc) != Failure(SyntaxError(EmptyInput))
    ensures ParseItems(s, j, acc) != Failure(InternalError)
    decreases |s| - j, 1
  {
    var k := SkipWs(s, j);
    if k < |s| && s[k] != ')' {
      ParseExprErrors(s, k);
      var r := ParseExprAt(s, k);
      if r.Success? {
        ParseItemsErrors(s, r.value.next, acc + [r.value.expr]);
      }
    }
  }

  /**
   * `parse` reports `EmptyInput` exactly when the input is all whitespace,
   * `UnbalancedParens` when its first other character is `)`, and never
   * `InternalError`.
   */
  lemma ParseErrors(s: string)
    ensures Parse(s) == Failure(SyntaxError(EmptyInput)) <==> forall k :: 0 <= k < |s| ==> IsWhitespace(s[k])
    ensures (exists k :: 0 <= k < |s| && s[k] == ')' && forall m :: 0 <= m < k ==> IsWhitespace(s[m]))
              ==> Parse(s) == Failure(SyntaxError(UnbalancedParens))
    ensures Parse(s) != Failure(InternalError)
  {
    var i := SkipWs(s, 0);
    ParseExprErrors(s, i);
    if exists k :: 0 <= k < |s| && s[k] == ')' && forall m :: 0 <= m < k ==> IsWhitespace(s[m]) {
      var k :| 0 <= k < |s| && s[k] == ')' && forall m :: 0 <= m < k ==> IsWhitespace(s[m]);
      assert i == k;
    }
  }

  /** From `i` on there is no `)`, and (when `plain`) no `_` either. */
  ghost predicate NoCloseFrom(s: string, i: nat, plain: bool)
  {
    forall k :: i <= k < |s| ==> s[k] != ')' && (plain ==> s[k] != '_')
  }

  /**
   * An expression read where no `)` follows is an atom, a wildcard, or a
   * failure that is `UnbalancedParens` or `InvalidPattern`; without `_` the
   * failure can only be `UnbalancedParens`.
   */
  lemma {:induction false} UnclosedExpr(s: string, i: nat, plain: bool)
    requires i < |s| && !IsWhitespace(s[i]) && NoCloseFrom(s, i, plain)
    ensures var r := ParseExprAt(s, i);
      r.Failure? ==> r.error == SyntaxError(UnbalancedParens) || (!plain && r.error == SyntaxError(InvalidPattern))
    decreases |s| - i, 0
  {
    if s[i] == '(' {
      UnclosedList(s, i + 1, [], plain);
    } else {
      assert IsAtomChar(s[i]) || s[i] == '_';
    }
  }

  /** A list that is never closed fails with `UnbalancedParens`, or `InvalidPattern` if a bad `_` comes first. */
  lemma {:induction false} UnclosedList(s: string, j: nat, acc: seq<Expression>, plain: bool)
    requires j <= |s| && NoCloseFrom(s, j, plain)
    ensures var r := ParseItems(s, j, acc);
      r.Failure? && (r.error == SyntaxError(UnbalancedParens) || (!plain && r.error == SyntaxError(InvalidPattern)))
    decreases |s| - j, 1
  {
    var k := SkipWs(s, j);
    if k < |s| {
      UnclosedExpr(s, k, plain);
      var r := ParseExprAt(s, k);
      if r.Success? {
        UnclosedList(s, r.value.next, acc + [r.value.expr], plain);
      }
    }
  }

  // ---------------------------------------------------------------------
  // Atoms and underscore suffixes

  /** `AtomEnd` is the first index from `i` on that holds no atom character. */
  lemma AtomEndAt(s: string, i: nat, j: nat)
    requires i <= j <= |s|
    requires forall k :: i <= k < j ==> IsAtomChar(s[k])
    requires j == |s| || !IsAtomChar(s[j])
    ensures AtomEnd(s, i) == j
  {
  }

  /** A non-empty name of atom characters. */
  predicate IsName(a: string)
  {
    |a| > 0 && forall k :: 0 <= k < |a| ==> IsAtomChar(a[k])
  }

  /**
   * A word is a name followed by `n` underscores, 0 <= n <= 3, then a
   * terminator: with no underscore it reads as an atom, otherwise as the
   * wildcard with `n` underscores, unnamed when the name is empty.
   */
  lemma ParseWord(s: string, i: nat, name: string, n: nat)
    requires n <= 3 && (if n == 0 then IsName(name) else name == [] || IsName(name))
    requires i + |name| + n <= |s| && s[i..i + |name|] == name
    requires forall k :: i + |name| <= k < i + |name| + n ==> s[k] == '_'
    requires TerminatorAt(s, i + |name| + n)
    ensures ParseExprAt(s, i) == Success(Parsed(if n == 0 then Atom(name) else Wildcard(name, n), i + |name| + n))
  {
    var j := i + |name|;
    forall k | i <= k < j
      ensures IsAtomChar(s[k])
    {
      assert s[k] == s[i..j][k - i];
    }
    AtomEndAt(s, i, j);
    if n == 0 {
      assert s[i] == name[0];
    } else {
      assert s[j] == '_';
      if name != [] {
        assert s[i] == name[0];
      }
    }
  }

  /**
   * A name followed by a run of `m` >= 1 underscores is an invalid pattern
   * when the run is longer than three, or when an atom character follows it.
   */
  lemma ParseBadSuffix(s: string, i: nat, name: string, m: nat)
    requires 1 <= m && (name == [] || IsName(name))
    requires i + |name| + m <= |s| && s[i..i + |name|] == name
    requires forall k :: i + |name| <= k < i + |name| + m ==> s[k] == '_'
    requires m > 3 || (i + |name| + m < |s| && IsAtomChar(s[i + |name| + m]))
    ensures ParseExprAt(s, i) == Failure(SyntaxError(InvalidPattern))
  {
    var j := i + |name|;
    forall k | i <= k < j
      ensures IsAtomChar(s[k])
    {
      assert s[k] == s[i..j][k - i];
    }
    AtomEndAt(s, i, j);
    assert s[j] == '_';
    if name != [] {
      assert s[i] == name[0];
    }
  }

  /** What an atom reads as: a maximal non-empty run of atom characters, ended by a terminator. */
  lemma ParsedAtom(s: string, i: nat)
    requires i <= |s|
    ensures var r := ParseExprAt(s, i);
      r.Success? && r.value.expr.Atom? ==>
        && r.value.expr.name == s[i..r.value.next]
        && IsName(r.value.expr.name)
        && TerminatorAt(s, r.value.next)
  {
    if i < |s| && s[i] != '(' && s[i] != ')' {
      var j := AtomEnd(s, i);
      if !(j < |s| && s[j] == '_') && j != i {
        assert forall k :: 0 <= k < j - i ==> s[i..j][k] == s[i + k];
      }
    }
  }

  // ---------------------------------------------------------------------
  // Reading back the rendering

  /** A tree whose every atom and pattern name is a non-empty run of atom characters. */
  predicate WellFormed(e: Expression)
  {
    match e
    case List(es) => forall k :: 0 <= k < |es| ==> WellFormed(es[k])
    case Atom(a) => IsName(a)
    case Pattern(a) => IsName(a)
    case PatternSeq(a) => IsName(a)
    case PatternNullSeq(a) => IsName(a)
    case _ => true
  }

  /** The rendering of a well-formed tree starts with neither whitespace nor `)`. */
  lemma ShowStart(e: Expression)
    requires WellFormed(e)
    ensures |Show(e)| > 0 && !IsWhitespace(Show(e)[0]) && Show(e)[0] != ')'
  {
    match e
    case Atom(a) => assert Show(e)[0] == a[0];
    case Pattern(a) => assert Show(e)[0] == a[0];
    case PatternSeq(a) => assert Show(e)[0] == a[0];
    case PatternNullSeq(a) => assert Show(e)[0] == a[0];
    case _ =>
  }

  /** A slice that spells `a + b` spells `a` and then `b`. */
  lemma SliceSplit(s: string, i: nat, a: string, b: string)
    requires i + |a| + |b| <= |s| && s[i..i + |a| + |b|] == a + b
    ensures s[i..i + |a|] == a && s[i + |a|..i + |a| + |b|] == b
  {
    var w := s[i..i + |a| + |b|];
    forall k | 0 <= k < |a|
      ensures s[i..i + |a|][k] == a[k]
    {
      assert w[k] == (a + b)[k];
    }
    forall k | 0 <= k < |b|
      ensures s[i + |a|..i + |a| + |b|][k] == b[k]
    {
      assert w[|a| + k] == (a + b)[|a| + k];
    }
  }

  /** The rendering of an unnamed wildcard, followed by a terminator or the end, reads back as itself. */
  lemma ParseShowBlank(s: string, i: nat, e: Expression)
    requires e.Blank? || e.BlankSeq? || e.BlankNullSeq?
    requires i + |Show(e)| <= |s| && s[i..i + |Show(e)|] == Show(e)
    requires TerminatorAt(s, i + |Show(e)|)
    ensures ParseExprAt(s, i) == Success(Parsed(e, i + |Show(e)|))
  {
    match e
    case Blank =>
      assert s[i] == Show(e)[0];
      ParseWord(s, i, "", 1);
    case BlankSeq =>
      assert s[i] == Show(e)[0] && s[i + 1] == Show(e)[1];
      ParseWord(s, i, "", 2);
    case BlankNullSeq =>
      assert s[i] == Show(e)[0] && s[i + 1] == Show(e)[1] && s[i + 2] == Show(e)[2];
      ParseWord(s, i, "", 3);
  }

  /**
   * A wildcard rendered as a name and then a run `u` of one to three
   * underscores reads back as itself.
   */
  lemma ParseNamedWildcard(s: string, i: nat, e: Expression, a: string, u: string)
    requires IsName(a) && 1 <= |u| <= 3 && forall k :: 0 <= k < |u| ==> u[k] == '_'
    requires e == Wildcard(a, |u|) && Show(e) == a + u
    requires i + |Show(e)| <= |s| && s[i..i + |Show(e)|] == Show(e)
    requires TerminatorAt(s, i + |Show(e)|)
    ensures ParseExprAt(s, i) == Success(Parsed(e, i + |Show(e)|))
  {
    SliceSplit(s, i, a, u);
    forall k | i + |a| <= k < i + |a| + |u|
      ensures s[k] == '_'
    {
      assert s[k] == s[i + |a|..i + |a| + |u|][k - i - |a|];
    }
    ParseWord(s, i, a, |u|);
  }

  /** The rendering of a named wildcard, followed by a terminator or the end, reads back as itself. */
  lemma ParseShowPattern(s: string, i: nat, e: Expression)
    requires (e.Pattern? || e.PatternSeq? || e.PatternNullSeq?) && IsName(e.name)
    requires i + |Show(e)| <= |s| && s[i..i + |Show(e)|] == Show(e)
    requires TerminatorAt(s, i + |Show(e)|)
    ensures ParseExprAt(s, i) == Success(Parsed(e, i + |Show(e)|))
  {
    match e
    case Pattern(a) => ParseNamedWildcard(s, i, e, a, "_");
    case PatternSeq(a) => ParseNamedWildcard(s, i, e, a, "__");
    case PatternNullSeq(a) => ParseNamedWildcard(s, i, e, a, "___");
  }

  /** The rendering of a well-formed tree, followed by a terminator or the end, reads back as that tree. */
  lemma {:induction false} ParseShowAt(s: string, i: nat, e: Expression)
    requires WellFormed(e)
    requires i + |Show(e)| <= |s| && s[i..i + |Show(e)|] == Show(e)
    requires TerminatorAt(s, i + |Show(e)|)
    ensures ParseExprAt(s, i) == Success(Parsed(e, i + |Show(e)|))
    decreases e, 0
  {
    if e.List? {
      ParseShowList(s, i, e.items);
    } else if e.Atom? {
      ParseWord(s, i, e.name, 0);
    } else if e.Blank? || e.BlankSeq? || e.BlankNullSeq? {
      ParseShowBlank(s, i, e);
    } else {
      ParseShowPattern(s, i, e);
    }
  }

  /** The rendering of a list of well-formed trees reads back as that list. */
  lemma {:induction false} ParseShowList(s: string, i: nat, es: seq<Expression>)
    requires forall k :: 0 <= k < |es| ==> WellFormed(es[k])
    requires i + |Show(List(es))| <= |s| && s[i..i + |Show(List(es))|] == Show(List(es))
    ensures ParseExprAt(s, i) == Success(Parsed(List(es), i + |Show(List(es))|))
    decreases es, 4
  {
    var next := i + |Show(List(es))|;
    var inner := ShowItems(es) + ")";
    assert s[i] == '(' && next == i + 1 + |ShowItems(es)| + 1 && s[i + 1..next] == inner by {
      assert Show(List(es)) == "(" + inner;
      SliceSplit(s, i, "(", inner);
    }
    assert [] + es == es;
    ParseShowItems(s, i + 1, es, [], next);
  }

  /**
   * The rendering of a well-formed child, ending at `m` and followed by a
   * terminator, starts neither with whitespace nor with `)` and reads back
   * as that child.
   */
  lemma ParseChild(s: string, j: nat, e: Expression, m: nat)
    requires WellFormed(e)
    requires m == j + |Show(e)| && m < |s| && s[j..m] == Show(e) && IsTerminator(s[m])
    ensures j < |s| && !IsWhitespace(s[j]) && s[j] != ')'
    ensures ParseExprAt(s, j) == Success(Parsed(e, m))
    decreases e, 1
  {
    ShowStart(e);
    assert s[j] == Show(e)[0];
    ParseShowAt(s, j, e);
  }

  /** A child read from `j` to `m` is appended, and the list reads on from `m`. */
  lemma ParseItemsStep(s: string, j: nat, e: Expression, acc: seq<Expression>, m: nat)
    requires j < |s| && !IsWhitespace(s[j]) && s[j] != ')'
    requires ParseExprAt(s, j) == Success(Parsed(e, m))
    ensures ParseItems(s, j, acc) == ParseItems(s, m, acc + [e])
  {
    assert SkipWs(s, j) == j;
  }

  /** Whitespace between the children of a list is skipped. */
  lemma ParseItemsSpace(s: string, m: nat, acc: seq<Expression>)
    requires m < |s| && IsWhitespace(s[m])
    ensures ParseItems(s, m, acc) == ParseItems(s, m + 1, acc)
  {
    assert SkipWs(s, m) == SkipWs(s, m + 1);
  }

  /**
   * The rendering of the children of a list and its `)`, ending just before
   * `next`, read back as those children.
   */
  lemma {:induction false} ParseShowItems(s: string, j: nat, es: seq<Expression>, acc: seq<Expression>, next: nat)
    requires forall k :: 0 <= k < |es| ==> WellFormed(es[k])
    requires next == j + |ShowItems(es)| + 1 && next <= |s| && s[j..next] == ShowItems(es) + ")"
    ensures ParseItems(s, j, acc) == Success(ParsedItems(acc + es, next))
    decreases es, 3
  {
    if |es| == 0 {
      assert s[j] == (ShowItems(es) + ")")[0];
      assert acc + es == acc;
      ParseItemsClose(s, j, acc, next);
    } else if |es| == 1 {
      var t := Show(es[0]);
      assert next == j + |t| + 1 && s[j..j + |t|] == t && s[j + |t|] == ')' by {
        assert ShowItems(es) == t;
        SliceSplit(s, j, t, ")");
      }
      assert acc + [es[0]] == acc + es;
      ParseChild(s, j, es[0], j + |t|);
      ParseItemsLast(s, j, es[0], acc, j + |t|, next);
    } else {
      var t := Show(es[0]);
      var rest := es[1..];
      ShowItemsSplit(s, j, es, next);
      assert acc + [es[0]] + rest == acc + es && es == [es[0]] + rest by {
        AppendFirst(acc, es);
      }
      ParseShowItemsMany(s, j, es[0], rest, acc, es, next);
    }
  }

  /**
   * Two or more children, `e` and then `rest`: the first, the space after
   * it, then the others by induction (`es` is the whole list, for termination).
   */
  lemma {:induction false} ParseShowItemsMany(s: string, j: nat, e: Expression, rest: seq<Expression>, acc: seq<Expression>, es: seq<Expression>, next: nat)
    requires es == [e] + rest
    requires WellFormed(e) && forall k :: 0 <= k < |rest| ==> WellFormed(rest[k])
    requires j + |Show(e)| < |s| && s[j..j + |Show(e)|] == Show(e) && s[j + |Show(e)|] == ' '
    requires var n := j + |Show(e)| + 1;
      next == n + |ShowItems(rest)| + 1 && next <= |s| && s[n..next] == ShowItems(rest) + ")"
    ensures ParseItems(s, j, acc) == Success(ParsedItems(acc + [e] + rest, next))
    decreases es, 2
  {
    var m := j + |Show(e)|;
    assert e in es && rest == es[1..];
    ParseChild(s, j, e, m);
    ParseShowItems(s, m + 1, rest, acc + [e], next);
    ParseItemsCons(s, j, e, acc, m, Success(ParsedItems(acc + [e] + rest, next)));
  }

  /** The last child, read from `j` to `m`: the `)` after it closes the list just before `next`. */
  lemma ParseItemsLast(s: string, j: nat, e: Expression, acc: seq<Expression>, m: nat, next: nat)
    requires j < |s| && !IsWhitespace(s[j]) && s[j] != ')'
    requires ParseExprAt(s, j) == Success(Parsed(e, m))
    requires m < |s| && s[m] == ')' && next == m + 1
    ensures ParseItems(s, j, acc) == Success(ParsedItems(acc + [e], next))
  {
    ParseItemsStep(s, j, e, acc, m);
    ParseItemsClose(s, m, acc + [e], next);
  }

  /** A `)` where the next child could start closes the list. */
  lemma ParseItemsClose(s: string, m: nat, acc: seq<Expression>, next: nat)
    requires m < |s| && s[m] == ')' && next == m + 1
    ensures ParseItems(s, m, acc) == Success(ParsedItems(acc, next))
  {
    assert SkipWs(s, m) == m;
  }

  /**
   * A child read from `j` to `m` and a space after it: the list reads on
   * from just after the space.
   */
  lemma ParseItemsCons(s: string, j: nat, e: Expression, acc: seq<Expression>, m: nat, r: Result<ParsedItems, ParserError>)
    requires j < |s| && !IsWhitespace(s[j]) && s[j] != ')'
    requires ParseExprAt(s, j) == Success(Parsed(e, m))
    requires m < |s| && s[m] == ' ' && ParseItems(s, m + 1, acc + [e]) == r
    ensures ParseItems(s, j, acc) == r
  {
    ParseItemsStep(s, j, e, acc, m);
    ParseItemsSpace(s, m, acc + [e]);
  }

  /** Moving the first element of `es` onto the end of `acc` leaves `acc + es` as it is. */
  lemma AppendFirst(acc: seq<Expression>, es: seq<Expression>)
    requires |es| > 0
    ensures acc + [es[0]] + es[1..] == acc + es
  {
    assert es == [es[0]] + es[1..];
  }

  /** Where the rendering of two or more children is spelt: the first child, a space, then the others. */
  lemma ShowItemsSplit(s: string, j: nat, es: seq<Expression>, next: nat)
    requires |es| > 1
    requires next == j + |ShowItems(es)| + 1 && next <= |s| && s[j..next] == ShowItems(es) + ")"
    ensures var t := Show(es[0]); var n := j + |t| + 1;
      && j + |t| < |s| && s[j..j + |t|] == t && s[j + |t|] == ' '
      && next == n + |ShowItems(es[1..])| + 1 && s[n..next] == ShowItems(es[1..]) + ")"
  {
    var t := Show(es[0]);
    var u := ShowItems(es[1..]);
    assert ShowItems(es) == t + " " + u;
    SliceSplit4(s, j, t, " ", u, ")", next);
    assert s[j + |t|] == s[j + |t|..j + |t| + 1][0];
  }

  /** A slice that spells `a + b + c + d` spells `a`, then `b`, then `c + d`. */
  lemma SliceSplit4(s: string, i: nat, a: string, b: string, c: string, d: string, e: nat)
    requires e == i + |a| + |b| + |c| + |d| && e <= |s| && s[i..e] == a + b + c + d
    ensures s[i..i + |a|] == a && s[i + |a|..i + |a| + |b|] == b && s[i + |a| + |b|..e] == c + d
  {
    var w := s[i..e];
    forall k | 0 <= k < |a|
      ensures s[i..i + |a|][k] == a[k]
    {
      assert w[k] == (a + b + c + d)[k];
    }
    forall k | 0 <= k < |b|
      ensures s[i + |a|..i + |a| + |b|][k] == b[k]
    {
      assert w[|a| + k] == (a + b + c + d)[|a| + k];
    }
    forall k | 0 <= k < |c| + |d|
      ensures s[i + |a| + |b|..e][k] == (c + d)[k]
    {
      assert w[|a| + |b| + k] == (a + b + c + d)[|a| + |b| + k];
    }
  }

  /**
   * Round trip: the rendering of a well-formed tree, followed by nothing or
   * by anything that starts with a terminator, parses back as that tree.
   */
  lemma RoundTrip(e: Expression, rest: string)
    requires WellFormed(e)
    requires rest == [] || IsTerminator(rest[0])
    ensures Parse(Show(e) + rest) == Success(e)
  {
    var s := Show(e) + rest;
    ShowStart(e);
    assert s[0] == Show(e)[0];
    assert SkipWs(s, 0) == 0;
    assert s[0..|Show(e)|] == Show(e);
    ParseShowAt(s, 0, e);
  }

  // ---------------------------------------------------------------------
  // Examples

  /** `(a b (c d))` reads as the nested list the renderer prints as `(a b (c d))`. */
  lemma ExampleNestedList()
    ensures Parse("(a b (c d))") == Success(List([Atom("a"), Atom("b"), List([Atom("c"), Atom("d")])]))
  {
    var e := List([Atom("a"), Atom("b"), List([Atom("c"), Atom("d")])]);
    ShowNestedList();
    assert WellFormed(List([Atom("c"), Atom("d")]));
    assert WellFormed(e);
    RoundTrip(e, "");
    assert Show(e) + "" == "(a b (c d))";
  }

  /** `(a ` is unbalanced, the empty string is empty input, and `x____` is an invalid pattern. */
  lemma ExampleErrors()
    ensures Parse("(a ") == Failure(SyntaxError(UnbalancedParens))
    ensures Parse("") == Failure(SyntaxError(EmptyInput))
    ensures Parse("x____") == Failure(SyntaxError(InvalidPattern))
    ensures Parse("a_b") == Failure(SyntaxError(InvalidPattern))
  {
    var open := "(a ";
    assert SkipWs(open, 0) == 0;
    UnclosedList(open, 1, [], true);
    var bad := "x____";
    assert SkipWs(bad, 0) == 0;
    ParseBadSuffix(bad, 0, "x", 4);
    var ab := "a_b";
    assert SkipWs(ab, 0) == 0;
    ParseBadSuffix(ab, 0, "a", 1);
  }

  /** `from_str`: a reader over `s`, then `parse`. */
  method FromStr(s: string) returns (r: Result<Expression, ParserError>)
    ensures r == Parse(s)
  {
    var p := new Parser(s);
    r := p.Parse();
  }
}
