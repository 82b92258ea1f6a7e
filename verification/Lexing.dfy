/** The blueprint lexer (blueprint_lang/lexer.py): its tokens are exact slices of the source, in
    order, with nothing but whitespace and comments between them, and their lines and columns are
    those of their offsets. The three character tests are Python's and stay abstract. */
module Lexing {
  import opened MellTypes

  datatype CharClasses = CharClasses(digit: char -> bool, alpha: char -> bool, alnum: char -> bool)

  ghost predicate Sane(cc: CharClasses) {
    forall c :: cc.alpha(c) ==> cc.alnum(c)
  }

  datatype Position = Position(line: nat, col: nat, offset: nat)

  datatype LexKind = IdentKind | StringKind | NumberKind | BoolKind | Punctuation | EofKind

  datatype Lexeme = Lexeme(kind: LexKind, text: string, value: string, start: Position, end: Position)

  // ----- positions -----

  function Newlines(s: string, k: nat): nat
    requires k <= |s|
  {
    if k == 0 then 0 else Newlines(s, k - 1) + if s[k - 1] == '\n' then 1 else 0
  }

  function LineStart(s: string, k: nat): (r: nat)
    requires k <= |s|
    ensures r <= k
  {
    if k == 0 then 0 else if s[k - 1] == '\n' then k else LineStart(s, k - 1)
  }

  /** The position of an offset, counted from one. */
  function At(s: string, k: nat): Position
    requires k <= |s|
  {
    Position(1 + Newlines(s, k), 1 + k - LineStart(s, k), k)
  }

  /** The line of an offset counts the newlines before it; its column counts from the last of them. */
  lemma {:induction false} PositionsCount(s: string, k: nat)
    requires k <= |s|
    ensures At(s, k).line == 1 + |set i | 0 <= i < k && s[i] == '\n' :: Place(i)|
    ensures var first := k + 1 - At(s, k).col;
            0 <= first <= k && (first == 0 || s[first - 1] == '\n') && forall i :: first <= i < k ==> s[i] != '\n'
  {
    if k > 0 {
      PositionsCount(s, k - 1);
      var before := set i | 0 <= i < k - 1 && s[i] == '\n' :: Place(i);
      var now := set i | 0 <= i < k && s[i] == '\n' :: Place(i);
      assert now == if s[k - 1] == '\n' then before + {Place(k - 1)} else before;
    }
  }

  datatype Spot = Place(index: int)

  // ----- runs of characters -----

  /** From i to j all characters satisfy p, and j is as far as that goes. */
  ghost predicate Run(s: string, i: nat, j: nat, p: char -> bool) {
    && i <= j <= |s| && (forall k :: i <= k < j ==> p(s[k])) && (j < |s| ==> !p(s[j]))
  }

  function RunEnd(s: string, i: nat, p: char -> bool): (j: nat)
    requires i <= |s|
    ensures Run(s, i, j, p)
    decreases |s| - i
  {
    if i < |s| && p(s[i]) then RunEnd(s, i + 1, p) else i
  }

  lemma RunUnique(s: string, i: nat, j: nat, k: nat, p: char -> bool)
    requires Run(s, i, j, p) && Run(s, i, k, p)
    ensures j == k
  {
  }

  // ----- trivia -----

  predicate White(c: char) {
    c == ' ' || c == '\t' || c == '\r' || c == '\n'
  }

  predicate CommentAt(s: string, i: nat) {
    i < |s| && (s[i] == '#' || (s[i] == '/' && i + 1 < |s| && s[i + 1] == '/'))
  }

  const NotNewline: char -> bool := c => c != '\n'

  function SkipFrom(s: string, i: nat): (j: nat)
    requires i <= |s|
    ensures i <= j <= |s|
    decreases |s| - i
  {
    if i < |s| && White(s[i]) then SkipFrom(s, i + 1)
    else if CommentAt(s, i) then SkipFrom(s, CommentEnd(s, i))
    else i
  }

  function CommentEnd(s: string, i: nat): (j: nat)
    requires CommentAt(s, i)
    ensures i < j <= |s| && Run(s, i, j, NotNewline)
  {
    assert NotNewline(s[i]);
    RunEnd(s, i, NotNewline)
  }

  /** The character at k is whitespace, or on the same line after the start of a comment. */
  ghost predicate Trivial(s: string, from: nat, k: nat) {
    k < |s| && (White(s[k]) || exists c: nat :: InComment(s, from, c, k))
  }

  ghost predicate InComment(s: string, from: nat, c: nat, k: nat) {
    from <= c <= k < |s| && CommentAt(s, c) && forall i :: c <= i <= k ==> s[i] != '\n'
  }

  lemma {:induction false} SkipsTrivia(s: string, i: nat)
    requires i <= |s|
    ensures var j := SkipFrom(s, i);
            && (forall k :: i <= k < j ==> Trivial(s, i, k)) && (j < |s| ==> !Trivial(s, i, j))
    decreases |s| - i
  {
    var j := SkipFrom(s, i);
    var next := if i < |s| && White(s[i]) then i + 1 else if CommentAt(s, i) then CommentEnd(s, i) else i;
    if next > i {
      SkipsTrivia(s, next);
      forall k | i <= k < j ensures Trivial(s, i, k) {
        if k >= next {
          assert Trivial(s, next, k);
          if !White(s[k]) { var c: nat :| InComment(s, next, c, k); assert InComment(s, i, c, k); }
        } else if !White(s[i]) {
          assert forall n :: i <= n <= k ==> NotNewline(s[n]);
          assert InComment(s, i, i, k);
        }
      }
      if j < |s| { Uncovered(s, i, next, j); }
    } else if i < |s| {
      assert forall c: nat :: InComment(s, i, c, i) ==> c == i;
    }
  }

  /** No comment that starts before next reaches beyond it. */
  lemma Uncovered(s: string, i: nat, next: nat, j: nat)
    requires i < next <= j < |s| && !Trivial(s, next, j)
    requires if White(s[i]) then next == i + 1 else CommentAt(s, i) && next == CommentEnd(s, i)
    ensures !Trivial(s, i, j)
  {
    forall c: nat ensures !InComment(s, i, c, j) {
      if c >= next {
        assert !InComment(s, next, c, j);
      } else if !White(s[i]) {
        assert !NotNewline(s[next]);
      }
    }
  }

  // ----- strings -----

  function Escape(c: char): Option<char> {
    if c == '"' || c == '\\' || c == '/' then Some(c)
    else if c == 'n' then Some('\n')
    else if c == 't' then Some('\t')
    else if c == 'r' then Some('\r')
    else None
  }

  function Prefix(c: char, rest: Option<string>): Option<string> {
    if rest.None? then None else Some([c] + rest.value)
  }

  /** What is between the quotes of a string literal stands for a value. */
  function Decoded(body: string): Option<string> {
    if body == [] then Some([])
    else if body[0] == '"' || body[0] == '\n' then None
    else if body[0] == '\\' then
      if |body| < 2 || Escape(body[1]).None? then None else Prefix(Escape(body[1]).value, Decoded(body[2..]))
    else Prefix(body[0], Decoded(body[1..]))
  }

  lemma DecodedFrom(s: string, i: nat, q: nat)
    requires i < q <= |s|
    ensures Decoded(s[i..q]) ==
      if s[i] == '"' || s[i] == '\n' then None
      else if s[i] == '\\' then
        if i + 1 == q || Escape(s[i + 1]).None? then None else Prefix(Escape(s[i + 1]).value, Decoded(s[i + 2..q]))
      else Prefix(s[i], Decoded(s[i + 1..q]))
  {
    assert s[i..q][1..] == s[i + 1..q];
    if i + 1 < q { assert s[i..q][2..] == s[i + 2..q]; }
  }

  /** Read on inside a string literal: where its closing quote is, and what is decoded by then. */
  function StringFrom(s: string, i: nat, decoded: string): (r: Option<(nat, string)>)
    requires i <= |s|
    ensures r.Some? ==> i <= r.value.0 < |s| && s[r.value.0] == '"'
    decreases |s| - i
  {
    if i == |s| || s[i] == '\n' then None
    else if s[i] == '"' then Some((i, decoded))
    else if s[i] == '\\' then
      if i + 1 == |s| || s[i + 1] == '\n' || Escape(s[i + 1]).None? then None
      else StringFrom(s, i + 2, decoded + [Escape(s[i + 1]).value])
    else StringFrom(s, i + 1, decoded + [s[i]])
  }

  lemma {:induction false} StringSound(s: string, i: nat, decoded: string)
    requires i <= |s| && StringFrom(s, i, decoded).Some?
    ensures var (q, value) := StringFrom(s, i, decoded).value;
            Decoded(s[i..q]).Some? && value == decoded + Decoded(s[i..q]).value
    decreases |s| - i
  {
    hide Decoded;
    var q := StringFrom(s, i, decoded).value.0;
    if i < q { DecodedFrom(s, i, q); } else { NothingDecoded(s, i, decoded); }
    if s[i] == '\\' {
      StringSound(s, i + 2, decoded + [Escape(s[i + 1]).value]);
    } else if s[i] != '"' {
      StringSound(s, i + 1, decoded + [s[i]]);
    }
  }

  lemma NothingDecoded(s: string, i: nat, decoded: string)
    requires i <= |s|
    ensures Decoded(s[i..i]) == Some([]) && decoded + [] == decoded
  {
  }

  /** A closed literal is read to its end: no other quote could have closed it. */
  lemma {:induction false} StringComplete(s: string, i: nat, decoded: string, q: nat)
    requires i <= q < |s| && s[q] == '"' && Decoded(s[i..q]).Some?
    ensures StringFrom(s, i, decoded) == Some((q, decoded + Decoded(s[i..q]).value))
    decreases q - i
  {
    hide Decoded;
    if i < q { DecodedFrom(s, i, q); } else { NothingDecoded(s, i, decoded); }
    if s[i] == '\\' {
      var c := Escape(s[i + 1]).value;
      StringComplete(s, i + 2, decoded + [c], q);
      assert decoded + ([c] + Decoded(s[i + 2..q]).value) == decoded + [c] + Decoded(s[i + 2..q]).value;
    } else if i < q {
      StringComplete(s, i + 1, decoded + [s[i]], q);
      assert decoded + ([s[i]] + Decoded(s[i + 1..q]).value) == decoded + [s[i]] + Decoded(s[i + 1..q]).value;
    }
  }

  // ----- numbers -----

  predicate DigitAt(cc: CharClasses, s: string, i: nat) {
    i < |s| && cc.digit(s[i])
  }

  predicate SignAt(s: string, i: nat) {
    i < |s| && (s[i] == '+' || s[i] == '-')
  }

  predicate FractionAt(cc: CharClasses, s: string, i: nat) {
    i < |s| && s[i] == '.' && DigitAt(cc, s, i + 1)
  }

  predicate ExponentAt(cc: CharClasses, s: string, i: nat) {
    i < |s| && (s[i] == 'e' || s[i] == 'E') && (DigitAt(cc, s, i + 1) || (SignAt(s, i + 1) && DigitAt(cc, s, i + 2)))
  }

  /** An optional minus, digits, then a fraction and an exponent where one follows: i to b to c to e. */
  ghost predicate NumberSplit(cc: CharClasses, s: string, i: nat, b: nat, c: nat, e: nat) {
    && i < |s| && Run(s, if s[i] == '-' then i + 1 else i, b, cc.digit)
    && (if FractionAt(cc, s, b) then Run(s, b + 1, c, cc.digit) else c == b)
    && (if ExponentAt(cc, s, c) then Run(s, if SignAt(s, c + 1) then c + 2 else c + 1, e, cc.digit) else e == c)
  }

  ghost predicate NumberText(cc: CharClasses, s: string, i: nat, e: nat) {
    exists b: nat, c: nat :: NumberSplit(cc, s, i, b, c, e)
  }

  lemma NumberUnique(cc: CharClasses, s: string, i: nat, e: nat, f: nat)
    requires NumberText(cc, s, i, e) && NumberText(cc, s, i, f)
    ensures e == f
  {
    hide Run;
    var b: nat, c: nat :| NumberSplit(cc, s, i, b, c, e);
    var b': nat, c': nat :| NumberSplit(cc, s, i, b', c', f);
    RunUnique(s, if s[i] == '-' then i + 1 else i, b, b', cc.digit);
    if FractionAt(cc, s, b) { RunUnique(s, b + 1, c, c', cc.digit); }
    if ExponentAt(cc, s, c) { RunUnique(s, if SignAt(s, c + 1) then c + 2 else c + 1, e, f, cc.digit); }
  }

  function FractionEnd(cc: CharClasses, s: string, b: nat): (c: nat)
    requires b <= |s|
    ensures b <= c <= |s|
  {
    if FractionAt(cc, s, b) then RunEnd(s, b + 1, cc.digit) else b
  }

  function ExponentEnd(cc: CharClasses, s: string, c: nat): (e: nat)
    requires c <= |s|
    ensures c <= e <= |s|
  {
    if ExponentAt(cc, s, c) then RunEnd(s, if SignAt(s, c + 1) then c + 2 else c + 1, cc.digit) else c
  }

  predicate NumberStart(cc: CharClasses, s: string, i: nat) {
    DigitAt(cc, s, i) || (i < |s| && s[i] == '-' && DigitAt(cc, s, i + 1))
  }

  function NumberEnd(cc: CharClasses, s: string, i: nat): (e: nat)
    requires NumberStart(cc, s, i)
    ensures i < e <= |s| && NumberText(cc, s, i, e)
  {
    var b := RunEnd(s, if s[i] == '-' then i + 1 else i, cc.digit);
    var c := FractionEnd(cc, s, b);
    var e := ExponentEnd(cc, s, c);
    assert NumberSplit(cc, s, i, b, c, e);
    e
  }

  // ----- names -----

  function IdentChar(cc: CharClasses): char -> bool {
    c => cc.alnum(c) || c == '_'
  }

  predicate IdentStart(cc: CharClasses, s: string, i: nat) {
    i < |s| && (cc.alpha(s[i]) || s[i] == '_')
  }

  predicate IsPunctuation(c: char) {
    c == '{' || c == '}' || c == '[' || c == ']' || c == '=' || c == ','
  }

  // ----- one token -----

  function IdentOf(text: string): LexKind {
    if text == "true" || text == "false" then BoolKind else IdentKind
  }

  function LexemeAt(s: string, kind: LexKind, value: string, i: nat, e: nat): Lexeme
    requires i <= e <= |s|
  {
    Lexeme(kind, s[i..e], value, At(s, i), At(s, e))
  }

  function NextLexeme(cc: CharClasses, s: string, i: nat): (r: Option<Lexeme>)
    requires i < |s| && Sane(cc)
    ensures r.Some? ==> i < r.value.end.offset <= |s|
  {
    if s[i] == '"' then
      var r := StringFrom(s, i + 1, []);
      if r.None? then None else Some(LexemeAt(s, StringKind, r.value.1, i, r.value.0 + 1))
    else if NumberStart(cc, s, i) then
      var e := NumberEnd(cc, s, i);
      Some(LexemeAt(s, NumberKind, s[i..e], i, e))
    else if IdentStart(cc, s, i) then
      assert IdentChar(cc)(s[i]);
      var e := RunEnd(s, i, IdentChar(cc));
      assert e > i;
      Some(LexemeAt(s, IdentOf(s[i..e]), s[i..e], i, e))
    else if IsPunctuation(s[i]) then Some(LexemeAt(s, Punctuation, s[i..i + 1], i, i + 1))
    else None
  }

  /** What the slice from i to e is a token of, as long as it can be, and the value it stands for. */
  ghost predicate Spells(cc: CharClasses, s: string, kind: LexKind, value: string, i: nat, e: nat) {
    i < e <= |s| &&
    match kind
    case StringKind => s[i] == '"' && i + 2 <= e && s[e - 1] == '"' && Decoded(s[i + 1..e - 1]) == Some(value)
    case NumberKind => s[i] != '"' && NumberStart(cc, s, i) && NumberText(cc, s, i, e) && value == s[i..e]
    case Punctuation =>
      !NumberStart(cc, s, i) && !IdentStart(cc, s, i) && IsPunctuation(s[i]) && e == i + 1 && value == s[i..e]
    case EofKind => false
    case _ =>
      && s[i] != '"' && !NumberStart(cc, s, i) && IdentStart(cc, s, i) && Run(s, i, e, IdentChar(cc))
      && kind == IdentOf(s[i..e]) && value == s[i..e]
  }

  ghost predicate TokenOf(cc: CharClasses, s: string, i: nat, t: Lexeme) {
    var e := t.end.offset;
    Spells(cc, s, t.kind, t.value, i, e) && t == LexemeAt(s, t.kind, t.value, i, e)
  }

  /** The lexer produces a token at i exactly when one is spelled there, and then that one. */
  lemma NextExactly(cc: CharClasses, s: string, i: nat, t: Lexeme)
    requires i < |s| && Sane(cc)
    ensures NextLexeme(cc, s, i) == Some(t) <==> TokenOf(cc, s, i, t)
  {
    if NextLexeme(cc, s, i) == Some(t) { NextSound(cc, s, i, t); }
    if TokenOf(cc, s, i, t) { NextComplete(cc, s, i, t); }
  }

  lemma NextSound(cc: CharClasses, s: string, i: nat, t: Lexeme)
    requires i < |s| && Sane(cc) && NextLexeme(cc, s, i) == Some(t)
    ensures TokenOf(cc, s, i, t)
  {
    hide Decoded;
    if s[i] == '"' {
      StringSound(s, i + 1, []);
      FromNothing(Decoded(s[i + 1..t.end.offset - 1]).value);
    }
  }

  lemma FromNothing(value: string)
    ensures [] + value == value
  {
  }

  lemma NextComplete(cc: CharClasses, s: string, i: nat, t: Lexeme)
    requires i < |s| && Sane(cc) && TokenOf(cc, s, i, t)
    ensures NextLexeme(cc, s, i) == Some(t)
  {
    hide Decoded;
    var e := t.end.offset;
    match t.kind
    case StringKind =>
      StringComplete(s, i + 1, [], e - 1);
      FromNothing(t.value);
    case NumberKind => NumberUnique(cc, s, i, e, NumberEnd(cc, s, i));
    case Punctuation =>
    case EofKind =>
    case IdentKind => RunUnique(s, i, e, RunEnd(s, i, IdentChar(cc)), IdentChar(cc));
    case BoolKind => RunUnique(s, i, e, RunEnd(s, i, IdentChar(cc)), IdentChar(cc));
  }

  // ----- the whole source -----

  function EofAt(s: string): Lexeme {
    LexemeAt(s, EofKind, [], |s|, |s|)
  }

  function LexFrom(cc: CharClasses, s: string, i: nat): Option<seq<Lexeme>>
    requires i <= |s| && Sane(cc)
    decreases |s| - i
  {
    var j := SkipFrom(s, i);
    if j == |s| then Some([EofAt(s)])
    else
      var t := NextLexeme(cc, s, j);
      if t.None? then None
      else
        var rest := LexFrom(cc, s, t.value.end.offset);
        if rest.None? then None else Some([t.value] + rest.value)
  }

  /** The source from i on: trivia, a token, and so on until the end of the file. */
  ghost predicate Tiled(cc: CharClasses, s: string, i: nat, ts: seq<Lexeme>)
    requires i <= |s|
    decreases |ts|
  {
    ts != [] &&
    var j := ts[0].start.offset;
    && i <= j <= |s| && Gap(s, i, j)
    && if j == |s| then ts == [EofAt(s)] else TokenOf(cc, s, j, ts[0]) && Tiled(cc, s, ts[0].end.offset, ts[1..])
  }

  /** From i to j there is only trivia, and none follows. */
  ghost predicate Gap(s: string, i: nat, j: nat) {
    i <= j <= |s| && (forall k :: i <= k < j ==> Trivial(s, i, k)) && (j < |s| ==> !Trivial(s, i, j))
  }

  lemma GapUnique(s: string, i: nat, j: nat, k: nat)
    requires Gap(s, i, j) && Gap(s, i, k)
    ensures j == k
  {
    assert j < k ==> Trivial(s, i, j);
    assert k < j ==> Trivial(s, i, k);
  }

  /** The lexer succeeds exactly on a source that is tiled by tokens, and returns that tiling, of which
      there is only one. */
  lemma {:induction false} LexerExact(cc: CharClasses, s: string, i: nat, ts: seq<Lexeme>)
    requires i <= |s| && Sane(cc)
    ensures LexFrom(cc, s, i) == Some(ts) <==> Tiled(cc, s, i, ts)
    decreases |s| - i
  {
    hide Trivial, NextLexeme, Spells, Newlines, LineStart;
    var j := SkipFrom(s, i);
    SkipsTrivia(s, i);
    if ts != [] && Gap(s, i, ts[0].start.offset) { GapUnique(s, i, j, ts[0].start.offset); }
    if j < |s| {
      if ts != [] { NextExactly(cc, s, j, ts[0]); }
      var t := NextLexeme(cc, s, j);
      if t.Some? {
        NextExactly(cc, s, j, t.value);
        if ts != [] {
          LexerExact(cc, s, t.value.end.offset, ts[1..]);
          assert ts == [ts[0]] + ts[1..];
        }
      }
    }
  }

  // ----- the lexer -----

  class Lexer {
    const source: string
    const cc: CharClasses
    var pos: nat
    var line: nat
    var col: nat

    constructor (source: string, cc: CharClasses)
      requires Sane(cc)
      ensures this.source == source && this.cc == cc && pos == 0 && Valid()
    {
      this.source, this.cc := source, cc;
      pos, line, col := 0, 1, 1;
    }

    /** The cursor's line and column are those of its offset. */
    ghost predicate Valid()
      reads this
    {
      pos <= |source| && Here() == At(source, pos) && Sane(cc)
    }

    function Here(): Position
      reads this
    {
      Position(line, col, pos)
    }

    method Advance() returns (ch: char)
      requires Valid() && pos < |source|
      modifies this
      ensures Valid() && pos == old(pos) + 1 && ch == source[old(pos)]
    {
      ch := source[pos];
      pos := pos + 1;
      if ch == '\n' {
        line, col := line + 1, 1;
      } else {
        col := col + 1;
      }
    }

    method SkipTrivia()
      requires Valid()
      modifies this
      ensures Valid() && pos == SkipFrom(source, old(pos))
    {
      while pos < |source|
        invariant Valid() && SkipFrom(source, pos) == SkipFrom(source, old(pos))
        decreases |source| - pos
      {
        if White(source[pos]) {
          var _ := Advance();
        } else if CommentAt(source, pos) {
          SkipRun(NotNewline);
        } else {
          break;
        }
      }
    }

    /** Move on as long as p holds. */
    method SkipRun(p: char -> bool)
      requires Valid()
      modifies this
      ensures Valid() && pos == RunEnd(source, old(pos), p)
    {
      while pos < |source| && p(source[pos])
        invariant Valid() && RunEnd(source, pos, p) == RunEnd(source, old(pos), p)
        decreases |source| - pos
      {
        var _ := Advance();
      }
    }

    method LexString() returns (r: Option<Lexeme>)
      requires Valid() && pos < |source| && source[pos] == '"'
      modifies this
      ensures r == NextLexeme(cc, source, old(pos)) && Valid() && (r.Some? ==> pos == r.value.end.offset)
    {
      hide At;
      var start := Here();
      var _ := Advance();
      var decoded: string := [];
      while true
        invariant Valid() && pos > start.offset && StringFrom(source, start.offset + 1, []) == StringFrom(source, pos, decoded)
        decreases |source| - pos
      {
        if pos == |source| || source[pos] == '\n' { return None; }
        if source[pos] == '"' {
          var _ := Advance();
          return Some(Lexeme(StringKind, source[start.offset..pos], decoded, start, Here()));
        }
        if source[pos] == '\\' {
          var _ := Advance();
          if pos == |source| || source[pos] == '\n' { return None; }
          var escape := Escape(source[pos]);
          var _ := Advance();
          if escape.None? { return None; }
          decoded := decoded + [escape.value];
        } else {
          var ch := Advance();
          decoded := decoded + [ch];
        }
      }
    }

    method LexNumber() returns (t: Lexeme)
      requires Valid() && NumberStart(cc, source, pos) && source[pos] != '"'
      modifies this
      ensures Some(t) == NextLexeme(cc, source, old(pos)) && Valid() && pos == t.end.offset
    {
      hide At, Run, NumberText, RunEnd, FractionEnd, ExponentEnd;
      var start := Here();
      if source[pos] == '-' { var _ := Advance(); }
      SkipRun(cc.digit);
      SkipFraction();
      SkipExponent();
      assert pos == NumberEnd(cc, source, start.offset);
      t := Lexeme(NumberKind, source[start.offset..pos], source[start.offset..pos], start, Here());
    }

    method SkipFraction()
      requires Valid()
      modifies this
      ensures Valid() && pos == FractionEnd(cc, source, old(pos))
    {
      hide At, Run;
      if FractionAt(cc, source, pos) {
        var _ := Advance();
        SkipRun(cc.digit);
      }
    }

    method SkipExponent()
      requires Valid()
      modifies this
      ensures Valid() && pos == ExponentEnd(cc, source, old(pos))
    {
      hide At, Run;
      if ExponentAt(cc, source, pos) {
        var _ := Advance();
        if SignAt(source, pos) { var _ := Advance(); }
        SkipRun(cc.digit);
      }
    }

    method LexIdent() returns (t: Lexeme)
      requires Valid() && IdentStart(cc, source, pos) && !NumberStart(cc, source, pos) && source[pos] != '"'
      modifies this
      ensures Some(t) == NextLexeme(cc, source, old(pos)) && Valid() && pos == t.end.offset
    {
      hide At;
      var start := Here();
      SkipRun(IdentChar(cc));
      var text := source[start.offset..pos];
      t := Lexeme(IdentOf(text), text, text, start, Here());
    }

    method NextToken() returns (r: Option<Lexeme>)
      requires Valid() && pos < |source|
      modifies this
      ensures r == NextLexeme(cc, source, old(pos)) && Valid() && (r.Some? ==> pos == r.value.end.offset)
    {
      hide At;
      if source[pos] == '"' {
        r := LexString();
      } else if NumberStart(cc, source, pos) {
        var t := LexNumber();
        r := Some(t);
      } else if IdentStart(cc, source, pos) {
        var t := LexIdent();
        r := Some(t);
      } else if IsPunctuation(source[pos]) {
        var start := Here();
        var ch := Advance();
        assert source[start.offset..pos] == [ch];
        r := Some(Lexeme(Punctuation, [ch], [ch], start, Here()));
      } else {
        var _ := Advance();
        r := None;
      }
    }

    /** Succeeds exactly on a tiled source, and returns the tiling. */
    method Tokenize() returns (r: Option<seq<Lexeme>>)
      requires Valid() && pos == 0
      modifies this
      ensures forall ts :: r == Some(ts) <==> Tiled(cc, source, 0, ts)
    {
      hide At, NextLexeme, Tiled;
      var tokens: seq<Lexeme> := [];
      JoinsNothing(LexFrom(cc, source, 0));
      forall ts ensures LexFrom(cc, source, 0) == Some(ts) <==> Tiled(cc, source, 0, ts) { LexerExact(cc, source, 0, ts); }
      while true
        invariant Valid() && Joined(tokens, LexFrom(cc, source, pos)) == LexFrom(cc, source, 0)
        decreases |source| - pos
      {
        var from := pos;
        SkipTrivia();
        if pos == |source| {
          tokens := tokens + [Lexeme(EofKind, [], [], Here(), Here())];
          EndOfSource(from, tokens);
          return Some(tokens);
        }
        var t := NextToken();
        if t.None? { return None; }
        Joins(tokens, t.value, LexFrom(cc, source, pos));
        tokens := tokens + [t.value];
      }
    }

    lemma EndOfSource(from: nat, tokens: seq<Lexeme>)
      requires Valid() && from <= |source| == pos && SkipFrom(source, from) == pos
      requires tokens != [] && tokens[|tokens| - 1] == Lexeme(EofKind, [], [], Here(), Here())
      ensures Joined(tokens[..|tokens| - 1], LexFrom(cc, source, from)) == Some(tokens)
    {
      assert LexFrom(cc, source, from) == Some([EofAt(source)]);
      assert source[|source|..|source|] == [];
      assert tokens == tokens[..|tokens| - 1] + [EofAt(source)];
    }
  }

  function Joined(before: seq<Lexeme>, rest: Option<seq<Lexeme>>): Option<seq<Lexeme>> {
    if rest.None? then None else Some(before + rest.value)
  }

  lemma JoinsNothing(rest: Option<seq<Lexeme>>)
    ensures Joined([], rest) == rest
  {
    if rest.Some? { assert [] + rest.value == rest.value; }
  }

  lemma Joins(before: seq<Lexeme>, t: Lexeme, rest: Option<seq<Lexeme>>)
    ensures Joined(before, Joined([t], rest)) == Joined(before + [t], rest)
  {
    if rest.Some? { assert before + ([t] + rest.value) == before + [t] + rest.value; }
  }
}
