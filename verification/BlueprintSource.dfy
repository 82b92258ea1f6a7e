/** From text to blocks (blueprint_lang/parser.py, parse): lex, then parse. */
module BlueprintSource {
  import opened MellTypes
  import opened Blueprint
  import opened Lexing

  /** What the parser sees of a lexeme. */
  function Seen(t: Lexeme): Token {
    match t.kind
    case IdentKind => Ident(t.text)
    case StringKind => Str(t.text, t.value)
    case NumberKind => Num(t.text)
    case BoolKind => Bool(t.text == "true")
    case EofKind => Eof
    case Punctuation =>
      if t.text == "{" then LBrace
      else if t.text == "}" then RBrace
      else if t.text == "[" then LBracket
      else if t.text == "]" then RBracket
      else if t.text == "=" then Equals
      else Comma
  }

  function AllSeen(ts: seq<Lexeme>): (toks: seq<Token>)
    ensures |toks| == |ts| && forall k :: 0 <= k < |ts| ==> toks[k] == Seen(ts[k])
  {
    if ts == [] then [] else [Seen(ts[0])] + AllSeen(ts[1..])
  }

  /** The text is tiled by tokens that spell these blocks. */
  ghost predicate Written(cc: CharClasses, source: string, blocks: seq<Block>) {
    exists ts :: Tiled(cc, source, 0, ts) && ValidBlueprint(blocks) && AllSeen(ts) == BlueprintTokens(blocks) + [Eof]
  }

  /** Only the last token of a tiling is the end of the file. */
  lemma {:induction false} EndsOnce(cc: CharClasses, s: string, i: nat, ts: seq<Lexeme>)
    requires i <= |s| && Tiled(cc, s, i, ts)
    ensures ts != [] && ts[|ts| - 1].kind == EofKind && forall k :: 0 <= k < |ts| - 1 ==> ts[k].kind != EofKind
    decreases |ts|
  {
    if ts[0].start.offset < |s| { EndsOnce(cc, s, ts[0].end.offset, ts[1..]); }
  }

  /** Accepts exactly the texts of blueprints, and returns what is written there. */
  method ParseText(source: string, cc: CharClasses) returns (r: Option<seq<Block>>)
    requires Sane(cc)
    ensures forall blocks :: r == Some(blocks) <==> Written(cc, source, blocks)
  {
    hide Tiled, BlueprintTokens;
    var lexer := new Lexer(source, cc);
    var tokens := lexer.Tokenize();
    if tokens.None? {
      assert forall ts :: !Tiled(cc, source, 0, ts);
      return None;
    }
    EndsOnce(cc, source, 0, tokens.value);
    var parser := new Parser(AllSeen(tokens.value));
    r := parser.Parse();
  }
}
