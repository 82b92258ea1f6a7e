/** Blueprints written out: the text of a derivation, spelled with the characters of the language
    (blueprint_lang/nodes.py, blueprint_lang/lexer.py), is read back as that derivation. */
module Printing {
  import opened MellTypes
  import opened Blueprint
  import opened Lexing
  import opened BlueprintSource

  // ----- spelling -----

  /** The six escapes. */
  predicate Escapes(written: char, meant: char) {
    || (written == '"' && meant == '"') || (written == '\\' && meant == '\\') || (written == '/' && meant == '/')
    || (written == 'n' && meant == '\n') || (written == 't' && meant == '\t') || (written == 'r' && meant == '\r')
  }

  /** Between the quotes: each character as it stands or escaped. */
  predicate Quotes(body: string, value: string) {
    if body == [] then value == []
    else if body[0] == '\\' then |body| >= 2 && value != [] && Escapes(body[1], value[0]) && Quotes(body[2..], value[1..])
    else body[0] != '"' && body[0] != '\n' && value != [] && value[0] == body[0] && Quotes(body[1..], value[1..])
  }

  predicate QuotedAs(text: string, value: string) {
    |text| >= 2 && text[0] == '"' && text[|text| - 1] == '"' && Quotes(text[1..|text| - 1], value)
  }

  /** Decoding is exactly the reading of the escapes. */
  lemma {:induction false} DecodedQuotes(body: string, value: string)
    ensures Decoded(body) == Some(value) <==> Quotes(body, value)
    decreases |body|
  {
    if body != [] {
      if body[0] == '\\' {
        if |body| >= 2 && value != [] { DecodedQuotes(body[2..], value[1..]); Recombine(body[2..], value); }
      } else {
        if value != [] { DecodedQuotes(body[1..], value[1..]); Recombine(body[1..], value); }
      }
    }
  }

  lemma Recombine(rest: string, value: string)
    requires value != []
    ensures forall c :: Prefix(c, Decoded(rest)) == Some(value) <==> c == value[0] && Decoded(rest) == Some(value[1..])
  {
    assert value == [value[0]] + value[1..];
    forall c ensures Prefix(c, Decoded(rest)) == Some(value) <==> c == value[0] && Decoded(rest) == Some(value[1..]) {
      if Decoded(rest).Some? { assert ([c] + Decoded(rest).value)[1..] == Decoded(rest).value; }
    }
  }

  const RESERVED := " {}[]=,-\"#/\t\r\n"

  /** Python's character tests, on the characters that the language itself is written in. */
  ghost predicate Ordinary(cc: CharClasses) {
    && Sane(cc)
    && (forall c :: c in "truefals" ==> cc.alpha(c))
    && (forall c :: c in RESERVED ==> !cc.digit(c) && !cc.alnum(c))
    && (forall c :: c in "truefals" ==> !cc.digit(c))
  }

  /** Tokens that can be written down. */
  ghost predicate Printable(cc: CharClasses, t: Token) {
    match t
    case Ident(text) =>
      text != [] && IdentStart(cc, text, 0) && !cc.digit(text[0]) && text != "true" && text != "false"
      && forall k :: 0 <= k < |text| ==> cc.alnum(text[k]) || text[k] == '_'
    case Str(text, value) => QuotedAs(text, value)
    case Num(text) => NumberStart(cc, text, 0) && text[0] != '"' && NumberText(cc, text, 0, |text|)
    case Eof => false
    case _ => true
  }

  function Spelling(t: Token): string {
    match t
    case Ident(text) => text
    case Str(text, _) => text
    case Num(text) => text
    case Bool(flag) => if flag then "true" else "false"
    case LBrace => "{"
    case RBrace => "}"
    case LBracket => "["
    case RBracket => "]"
    case Equals => "="
    case Comma => ","
    case Eof => ""
  }

  // ----- printing -----

  function PrintValue(v: Value): string
    decreases v
  {
    match v
    case Leaf(t) => " " + Spelling(t)
    case ListOf(items, trailing) => " [" + PrintItems(items) + (if trailing then " ," else "") + " ]"
  }

  function PrintItems(items: seq<Value>): string
    decreases items
  {
    if items == [] then ""
    else if |items| == 1 then PrintValue(items[0])
    else PrintValue(items[0]) + " ," + PrintItems(items[1..])
  }

  function PrintFields(fields: seq<Field>): string {
    if fields == [] then "" else " " + fields[0].key + " =" + PrintValue(fields[0].value) + PrintFields(fields[1..])
  }

  function PrintBlock(b: Block): string {
    " " + b.kind + " " + Spelling(b.name) + " {" + PrintFields(b.fields) + " }"
  }

  function Print(blocks: seq<Block>): string {
    if blocks == [] then "" else PrintBlock(blocks[0]) + Print(blocks[1..])
  }

  /** Tokens one after the other, a space before each. */
  function TextOf(toks: seq<Token>): string {
    if toks == [] then "" else " " + Spelling(toks[0]) + TextOf(toks[1..])
  }

  lemma {:induction false} TextConcat(a: seq<Token>, b: seq<Token>)
    ensures TextOf(a + b) == TextOf(a) + TextOf(b)
  {
    hide Spelling;
    if a == [] {
      assert a + b == b;
    } else {
      TextConcat(a[1..], b);
      assert (a + b)[1..] == a[1..] + b;
      Regroup(" " + Spelling(a[0]), TextOf(a[1..]), TextOf(b));
    }
  }

  lemma Regroup(x: string, y: string, z: string)
    ensures x + (y + z) == x + y + z
  {
  }

  lemma TextOne(t: Token)
    ensures TextOf([t]) == " " + Spelling(t)
  {
    assert [t][1..] == [];
    assert TextOf([t]) == " " + Spelling(t) + TextOf([]);
  }

  lemma Text3(a: seq<Token>, b: seq<Token>, c: seq<Token>)
    ensures TextOf(a + b + c) == TextOf(a) + TextOf(b) + TextOf(c)
  {
    hide TextOf;
    TextConcat(a + b, c);
    TextConcat(a, b);
  }

  lemma Text4(a: seq<Token>, b: seq<Token>, c: seq<Token>, d: seq<Token>)
    ensures TextOf(a + b + c + d) == TextOf(a) + TextOf(b) + TextOf(c) + TextOf(d)
  {
    hide TextOf;
    TextConcat(a + b + c, d);
    Text3(a, b, c);
  }

  lemma {:induction false} ValueText(v: Value)
    ensures PrintValue(v) == TextOf(ValueTokens(v))
    decreases v
  {
    hide TextOf, PrintItems, ItemTokens;
    match v
    case Leaf(t) => TextOne(t);
    case ListOf(items, trailing) =>
      ItemsText(items);
      var tail := if trailing then [Comma] else [];
      Text4([LBracket], ItemTokens(items), tail, [RBracket]);
      TextOne(LBracket);
      TextOne(RBracket);
      TailText(trailing);
  }

  lemma TailText(trailing: bool)
    ensures TextOf(if trailing then [Comma] else []) == if trailing then " ," else ""
  {
    TextOne(Comma);
  }

  lemma {:induction false} ItemsText(items: seq<Value>)
    ensures PrintItems(items) == TextOf(ItemTokens(items))
    decreases items
  {
    if |items| == 0 {
    } else if |items| == 1 {
      hide TextOf, ValueTokens, PrintValue;
      ValueText(items[0]);
    } else {
      hide TextOf, ValueTokens, PrintValue;
      ValueText(items[0]);
      ItemsText(items[1..]);
      Text3(ValueTokens(items[0]), [Comma], ItemTokens(items[1..]));
      TextOne(Comma);
    }
  }

  lemma {:induction false} FieldsText(fields: seq<Field>)
    ensures PrintFields(fields) == TextOf(FieldsTokens(fields))
  {
    if fields != [] {
      hide TextOf, ValueTokens, PrintValue;
      var f := fields[0];
      FieldsText(fields[1..]);
      ValueText(f.value);
      Text4([Ident(f.key)], [Equals], ValueTokens(f.value), FieldsTokens(fields[1..]));
      assert [Ident(f.key), Equals] == [Ident(f.key)] + [Equals];
      TextOne(Ident(f.key));
      TextOne(Equals);
    }
  }

  lemma BlockText(b: Block)
    ensures PrintBlock(b) == TextOf(BlockTokens(b))
  {
    hide TextOf, FieldsTokens, PrintFields;
    FieldsText(b.fields);
    var head := [Ident(b.kind), b.name, LBrace];
    Text3(head, FieldsTokens(b.fields), [RBrace]);
    assert head == [Ident(b.kind)] + [b.name] + [LBrace];
    Text3([Ident(b.kind)], [b.name], [LBrace]);
    TextOne(Ident(b.kind));
    TextOne(b.name);
    TextOne(LBrace);
    TextOne(RBrace);
    HeadText(b.kind, Spelling(b.name));
  }

  lemma HeadText(kind: string, name: string)
    ensures (" " + kind) + (" " + name) + " {" == " " + kind + " " + name + " {"
  {
    assert " {" == " " + "{";
  }

  /** Printing writes the tokens of the derivation. */
  lemma {:induction false} PrintText(blocks: seq<Block>)
    ensures Print(blocks) == TextOf(BlueprintTokens(blocks))
  {
    if blocks != [] {
      hide TextOf, PrintBlock, BlockTokens;
      PrintText(blocks[1..]);
      BlockText(blocks[0]);
      TextConcat(BlockTokens(blocks[0]), BlueprintTokens(blocks[1..]));
    }
  }

  // ----- reading what was printed -----

  /** The text stands in s from j to e, and a space or nothing follows. */
  ghost predicate Stands(s: string, j: nat, text: string, e: nat) {
    j + |text| == e <= |s| && s[j..e] == text && (e < |s| ==> s[e] == ' ')
  }

  lemma StandsAt(s: string, j: nat, text: string, e: nat)
    requires Stands(s, j, text, e)
    ensures forall k :: 0 <= k < |text| ==> s[j + k] == text[k]
  {
    forall k | 0 <= k < |text| ensures s[j + k] == text[k] { assert s[j..e][k] == text[k]; }
  }

  lemma RunShifts(s: string, j: nat, text: string, e: nat, a: nat, b: nat, p: char -> bool)
    requires Stands(s, j, text, e) && Run(text, a, b, p) && !p(' ')
    ensures Run(s, j + a, j + b, p)
  {
    StandsAt(s, j, text, e);
    forall k | j + a <= k < j + b ensures p(s[k]) { assert s[j + (k - j)] == text[k - j]; }
    if b < |text| { assert s[j + b] == text[b]; }
  }

  lemma DigitShifts(cc: CharClasses, s: string, j: nat, text: string, e: nat, a: nat)
    requires Stands(s, j, text, e) && a <= |text| && !cc.digit(' ')
    ensures DigitAt(cc, s, j + a) <==> DigitAt(cc, text, a)
    ensures SignAt(s, j + a) <==> SignAt(text, a)
  {
    StandsAt(s, j, text, e);
    if a < |text| { assert s[j + a] == text[a]; }
  }

  lemma PartsShift(cc: CharClasses, s: string, j: nat, text: string, e: nat, a: nat)
    requires Stands(s, j, text, e) && a <= |text| && !cc.digit(' ')
    ensures FractionAt(cc, s, j + a) <==> FractionAt(cc, text, a)
    ensures ExponentAt(cc, s, j + a) <==> ExponentAt(cc, text, a)
  {
    StandsAt(s, j, text, e);
    if a < |text| {
      assert s[j + a] == text[a];
      DigitShifts(cc, s, j, text, e, a + 1);
      assert j + a + 1 == j + (a + 1);
      if a + 1 < |text| {
        DigitShifts(cc, s, j, text, e, a + 2);
        assert j + a + 2 == j + (a + 2);
      }
    }
  }

  lemma NumberShifts(cc: CharClasses, s: string, j: nat, text: string, e: nat)
    requires Stands(s, j, text, e) && NumberText(cc, text, 0, |text|) && !cc.digit(' ')
    ensures NumberText(cc, s, j, e)
  {
    hide Run, FractionAt, ExponentAt, Stands;
    var b: nat, c: nat :| NumberSplit(cc, text, 0, b, c, |text|);
    SplitInside(cc, text, b, c);
    StandsAt(s, j, text, e);
    StandsEnd(s, j, text, e);
    assert s[j + 0] == text[0];
    RunShifts(s, j, text, e, if text[0] == '-' then 1 else 0, b, cc.digit);
    PartsShift(cc, s, j, text, e, b);
    PartsShift(cc, s, j, text, e, c);
    if FractionAt(cc, text, b) { RunShifts(s, j, text, e, b + 1, c, cc.digit); }
    if ExponentAt(cc, text, c) {
      ExponentInside(cc, text, c);
      DigitShifts(cc, s, j, text, e, c + 1);
      RunShifts(s, j, text, e, if SignAt(text, c + 1) then c + 2 else c + 1, |text|, cc.digit);
    }
    assert NumberSplit(cc, s, j, j + b, j + c, e);
  }

  lemma StandsEnd(s: string, j: nat, text: string, e: nat)
    requires Stands(s, j, text, e)
    ensures e == j + |text| <= |s|
  {
  }

  lemma ExponentInside(cc: CharClasses, text: string, c: nat)
    requires ExponentAt(cc, text, c)
    ensures c + 1 <= |text|
  {
  }

  lemma SplitInside(cc: CharClasses, text: string, b: nat, c: nat)
    requires NumberSplit(cc, text, 0, b, c, |text|)
    ensures b <= |text| && c <= |text| && text != []
  {
  }

  lemma Unreserved(cc: CharClasses, c: char)
    requires Ordinary(cc) && (cc.alnum(c) || cc.digit(c))
    ensures c !in RESERVED
  {
  }

  /** A token never starts like whitespace or a comment. */
  lemma NotTrivia(cc: CharClasses, t: Token)
    requires Ordinary(cc) && Printable(cc, t)
    ensures Spelling(t) != [] && !White(Spelling(t)[0]) && Spelling(t)[0] != '#' && Spelling(t)[0] != '/'
  {
    if (t.Ident? || t.Num?) && (cc.alnum(t.text[0]) || cc.digit(t.text[0])) { Unreserved(cc, t.text[0]); }
  }

  function KindOf(t: Token): LexKind {
    match t
    case Ident(_) => IdentKind
    case Str(_, _) => StringKind
    case Num(_) => NumberKind
    case Bool(_) => BoolKind
    case Eof => EofKind
    case _ => Punctuation
  }

  function ValueOf(t: Token): string {
    if t.Str? then t.value else Spelling(t)
  }

  lemma PunctuationSpells(cc: CharClasses, s: string, j: nat, t: Token, e: nat)
    requires Ordinary(cc) && Stands(s, j, Spelling(t), e) && KindOf(t) == Punctuation
    ensures Spells(cc, s, Punctuation, ValueOf(t), j, e)
  {
    StandsAt(s, j, Spelling(t), e);
    assert s[j + 0] == Spelling(t)[0];
    assert s[j] in RESERVED;
  }

  lemma WordSpells(cc: CharClasses, s: string, j: nat, text: string, e: nat)
    requires Ordinary(cc) && Stands(s, j, text, e) && text != [] && IdentStart(cc, text, 0) && !cc.digit(text[0])
    requires forall k :: 0 <= k < |text| ==> cc.alnum(text[k]) || text[k] == '_'
    ensures Spells(cc, s, IdentOf(text), text, j, e)
  {
    StandsAt(s, j, text, e);
    assert s[j + 0] == text[0];
    if cc.alnum(text[0]) { Unreserved(cc, text[0]); }
    assert '-' in RESERVED && '"' in RESERVED;
    assert Run(text, 0, |text|, IdentChar(cc));
    assert ' ' in RESERVED;
    RunShifts(s, j, text, e, 0, |text|, IdentChar(cc));
    NotMinus(cc, s, j);
  }

  lemma NotMinus(cc: CharClasses, s: string, j: nat)
    requires IdentStart(cc, s, j) && !cc.digit(s[j])
    ensures s[j] != '-' ==> !NumberStart(cc, s, j)
  {
  }

  lemma StringSpells(cc: CharClasses, s: string, j: nat, text: string, value: string, e: nat)
    requires Stands(s, j, text, e) && QuotedAs(text, value)
    ensures Spells(cc, s, StringKind, value, j, e)
  {
    StandsAt(s, j, text, e);
    assert s[j + 0] == text[0] && s[j + (|text| - 1)] == text[|text| - 1];
    assert s[j + 1..e - 1] == text[1..|text| - 1];
    DecodedQuotes(text[1..|text| - 1], value);
  }

  lemma NumberSpells(cc: CharClasses, s: string, j: nat, text: string, e: nat)
    requires Ordinary(cc) && Stands(s, j, text, e) && NumberStart(cc, text, 0) && text[0] != '"' && NumberText(cc, text, 0, |text|)
    ensures Spells(cc, s, NumberKind, text, j, e)
  {
    hide NumberText;
    assert ' ' in RESERVED;
    NumberShifts(cc, s, j, text, e);
    StandsAt(s, j, text, e);
    assert s[j + 0] == text[0];
    if !DigitAt(cc, text, 0) { assert s[j + 1] == text[1]; }
  }

  /** A printed token is lexed as itself. */
  lemma TokenThere(cc: CharClasses, s: string, j: nat, t: Token, e: nat) returns (x: Lexeme)
    requires Ordinary(cc) && Printable(cc, t) && Stands(s, j, Spelling(t), e)
    ensures TokenOf(cc, s, j, x) && Seen(x) == t && x.start.offset == j && x.end.offset == e
  {
    hide Spells, QuotedAs, NumberText;
    x := LexemeAt(s, KindOf(t), ValueOf(t), j, e);
    match t
    case Ident(text) => WordSpells(cc, s, j, text, e);
    case Str(text, value) => StringSpells(cc, s, j, text, value, e);
    case Num(text) => NumberSpells(cc, s, j, text, e);
    case Bool(flag) => BoolSpells(cc, s, j, flag, e);
    case _ => PunctuationSpells(cc, s, j, t, e);
  }

  lemma BoolSpells(cc: CharClasses, s: string, j: nat, flag: bool, e: nat)
    requires Ordinary(cc) && Stands(s, j, Spelling(Bool(flag)), e)
    ensures Spells(cc, s, BoolKind, Spelling(Bool(flag)), j, e)
  {
    hide Spells;
    var text := Spelling(Bool(flag));
    forall k | 0 <= k < |text| ensures text[k] in "truefals" && (cc.alnum(text[k]) || text[k] == '_') {}
    WordSpells(cc, s, j, text, e);
  }

  /** What was printed is tiled by the tokens printed, wherever it stands. */
  lemma {:induction false} TextTiled(cc: CharClasses, s: string, i: nat, toks: seq<Token>) returns (ts: seq<Lexeme>)
    requires Ordinary(cc) && i <= |s| && s[i..] == TextOf(toks) && forall k :: 0 <= k < |toks| ==> Printable(cc, toks[k])
    ensures Tiled(cc, s, i, ts) && AllSeen(ts) == toks + [Eof]
    decreases |toks|
  {
    hide Printable, TokenOf, Spelling;
    if toks == [] {
      ts := [EofAt(s)];
      NoGap(s, i);
    } else {
      var t := toks[0];
      NotTrivia(cc, t);
      var e := i + 1 + |Spelling(t)|;
      FirstStands(s, i, Spelling(t), TextOf(toks[1..]));
      NextSpace(s, e, toks[1..]);
      var x := TokenThere(cc, s, i + 1, t, e);
      SpaceGap(s, i, i + 1);
      var rest := TextTiled(cc, s, e, toks[1..]);
      ts := [x] + rest;
      assert ts[1..] == rest;
      assert toks + [Eof] == [t] + (toks[1..] + [Eof]);
    }
  }

  lemma NoGap(s: string, i: nat)
    requires i == |s|
    ensures Lexing.Gap(s, i, i)
  {
  }

  lemma FirstStands(s: string, i: nat, text: string, rest: string)
    requires i <= |s| && s[i..] == " " + text + rest
    ensures var e := i + 1 + |text|; e <= |s| && s[i + 1..e] == text && s[e..] == rest && s[i] == ' '
    ensures forall k :: 0 <= k < |text| ==> s[i + 1 + k] == text[k]
  {
    var e := i + 1 + |text|;
    assert s[i..][0] == s[i];
    assert s[i..][1..1 + |text|] == s[i + 1..e];
    assert s[i..][1 + |text|..] == s[e..];
    assert (" " + text + rest)[1..1 + |text|] == text && (" " + text + rest)[1 + |text|..] == rest;
    forall k | 0 <= k < |text| ensures s[i + 1 + k] == text[k] { assert s[i + 1..e][k] == text[k]; }
  }

  lemma NextSpace(s: string, e: nat, rest: seq<Token>)
    requires e <= |s| && s[e..] == TextOf(rest)
    ensures e < |s| ==> s[e] == ' '
  {
    if e < |s| { assert s[e..][0] == s[e]; }
  }

  lemma SpaceGap(s: string, i: nat, j: nat)
    requires j == i + 1 < |s| && s[i] == ' ' && !White(s[j]) && s[j] != '#' && s[j] != '/'
    ensures Lexing.Gap(s, i, j)
  {
    forall c: nat ensures !InComment(s, i, c, j) { assert c == i || c == j || !(i <= c <= j); }
  }

  ghost predicate AllPrintable(cc: CharClasses, blocks: seq<Block>) {
    forall k :: 0 <= k < |BlueprintTokens(blocks)| ==> Printable(cc, BlueprintTokens(blocks)[k])
  }

  /** Print, then parse: the blueprint comes back. */
  method PrintThenParse(blocks: seq<Block>, cc: CharClasses) returns (r: Option<seq<Block>>)
    requires Ordinary(cc) && ValidBlueprint(blocks) && AllPrintable(cc, blocks)
    ensures r == Some(blocks)
  {
    hide Tiled, TextOf, Print, BlueprintTokens, Printable;
    PrintText(blocks);
    assert Print(blocks)[0..] == Print(blocks);
    ghost var ts := TextTiled(cc, Print(blocks), 0, BlueprintTokens(blocks));
    assert Written(cc, Print(blocks), blocks);
    r := ParseText(Print(blocks), cc);
  }
}
