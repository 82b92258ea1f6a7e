/** The blueprint grammar (blueprint_lang/nodes.py) and the recursive-descent parser
    (blueprint_lang/parser.py): it accepts exactly the token lists of the grammar in which no
    block repeats a key, and returns the derivation. */
module Blueprint {
  import opened MellTypes

  datatype Token =
    | Ident(text: string) | Str(text: string, value: string) | Num(text: string) | Bool(flag: bool)
    | LBrace | RBrace | LBracket | RBracket | Equals | Comma | Eof

  // ----- derivations -----

  /** value := STRING | NUMBER | BOOL | list; a list remembers whether it ended in a comma. */
  datatype Value = Leaf(token: Token) | ListOf(items: seq<Value>, trailing: bool)

  datatype Field = Field(key: string, value: Value)

  datatype Block = Block(kind: string, name: Token, fields: seq<Field>)

  predicate ValidValue(v: Value) {
    match v
    case Leaf(t) => t.Str? || t.Num? || t.Bool?
    case ListOf(items, trailing) => (trailing ==> items != []) && forall i :: 0 <= i < |items| ==> ValidValue(items[i])
  }

  /** No key twice. */
  ghost predicate KeysOnce(fields: seq<Field>) {
    forall i, j :: 0 <= i < j < |fields| ==> fields[i].key != fields[j].key
  }

  ghost predicate ValidBlock(b: Block) {
    b.name.Str? && KeysOnce(b.fields) && forall i :: 0 <= i < |b.fields| ==> ValidValue(b.fields[i].value)
  }

  // ----- the tokens of a derivation -----

  function ValueTokens(v: Value): (toks: seq<Token>)
    ensures toks != []
    decreases v
  {
    match v
    case Leaf(t) => [t]
    case ListOf(items, trailing) => [LBracket] + ItemTokens(items) + (if trailing then [Comma] else []) + [RBracket]
  }

  /** value (',' value)* */
  function ItemTokens(items: seq<Value>): seq<Token>
    decreases items
  {
    if items == [] then []
    else if |items| == 1 then ValueTokens(items[0])
    else ValueTokens(items[0]) + [Comma] + ItemTokens(items[1..])
  }

  function FieldTokens(f: Field): seq<Token> {
    [Ident(f.key), Equals] + ValueTokens(f.value)
  }

  function FieldsTokens(fields: seq<Field>): seq<Token> {
    if fields == [] then [] else FieldTokens(fields[0]) + FieldsTokens(fields[1..])
  }

  function BlockTokens(b: Block): seq<Token> {
    [Ident(b.kind), b.name, LBrace] + FieldsTokens(b.fields) + [RBrace]
  }

  function BlueprintTokens(blocks: seq<Block>): seq<Token> {
    if blocks == [] then [] else BlockTokens(blocks[0]) + BlueprintTokens(blocks[1..])
  }

  // ----- what the parser computes -----

  type Parsed<T> = Option<(T, seq<Token>)>

  function Value_(toks: seq<Token>): (r: Parsed<Value>)
    ensures r.Some? ==> |r.value.1| < |toks|
    decreases |toks|, 0
  {
    if toks == [] then None
    else if toks[0].Str? || toks[0].Num? || toks[0].Bool? then Some((Leaf(toks[0]), toks[1..]))
    else if toks[0] == LBracket then List_(toks[1..], [])
    else None
  }

  /** The list loop: at its head either the list has just been opened or a comma has just been read. */
  function List_(toks: seq<Token>, items: seq<Value>): (r: Parsed<Value>)
    ensures r.Some? ==> |r.value.1| < |toks|
    decreases |toks|, 1
  {
    if toks == [] then None
    else if toks[0] == RBracket then Some((ListOf(items, items != []), toks[1..]))
    else if toks[0] == Eof || toks[0] == RBrace then None
    else
      var v := Value_(toks);
      if v.None? || v.value.1 == [] then None
      else
        var rest := v.value.1;
        if rest[0] == Comma then List_(rest[1..], items + [v.value.0])
        else if rest[0] == RBracket then Some((ListOf(items + [v.value.0], false), rest[1..]))
        else None
  }

  function Field_(toks: seq<Token>): (r: Parsed<Field>)
    ensures r.Some? ==> |r.value.1| < |toks|
  {
    if |toks| < 2 || !toks[0].Ident? || toks[1] != Equals then None
    else
      var v := Value_(toks[2..]);
      if v.None? then None else Some((Field(toks[0].text, v.value.0), v.value.1))
  }

  predicate HasKey(fields: seq<Field>, key: string) {
    exists i :: 0 <= i < |fields| && fields[i].key == key
  }

  function Fields_(toks: seq<Token>, fields: seq<Field>): (r: Parsed<seq<Field>>)
    ensures r.Some? ==> |r.value.1| < |toks|
    decreases |toks|
  {
    if toks == [] then None
    else if toks[0] == RBrace then Some((fields, toks[1..]))
    else if toks[0] == Eof then None
    else
      var f := Field_(toks);
      if f.None? || HasKey(fields, f.value.0.key) then None else Fields_(f.value.1, fields + [f.value.0])
  }

  function Block_(toks: seq<Token>): (r: Parsed<Block>)
    ensures r.Some? ==> |r.value.1| < |toks|
  {
    if |toks| < 3 || !toks[0].Ident? || !toks[1].Str? || toks[2] != LBrace then None
    else
      var fs := Fields_(toks[3..], []);
      if fs.None? then None else Some((Block(toks[0].text, toks[1], fs.value.0), fs.value.1))
  }

  function Blocks_(toks: seq<Token>, blocks: seq<Block>): (r: Parsed<seq<Block>>)
    ensures r.Some? ==> r.value.1 != [] && r.value.1[0] == Eof
    decreases |toks|
  {
    if toks == [] then None
    else if toks[0] == Eof then Some((blocks, toks))
    else
      var b := Block_(toks);
      if b.None? then None else Blocks_(b.value.1, blocks + [b.value.0])
  }

  // ----- what is parsed derives what was read -----

  /** The items already read, each with its comma. */
  function Read(items: seq<Value>): seq<Token> {
    if items == [] then [] else ItemTokens(items) + [Comma]
  }

  lemma {:induction false} ItemsMore(items: seq<Value>, v: Value)
    ensures ItemTokens(items + [v]) == Read(items) + ValueTokens(v)
    decreases |items|
  {
    if items != [] {
      assert (items + [v])[1..] == items[1..] + [v];
      ItemsMore(items[1..], v);
    }
  }

  lemma {:induction false} ValueSound(toks: seq<Token>)
    requires Value_(toks).Some?
    ensures ValidValue(Value_(toks).value.0) && toks == ValueTokens(Value_(toks).value.0) + Value_(toks).value.1
    decreases |toks|, 0
  {
    if toks[0] == LBracket {
      ListSound(toks[1..], []);
      assert toks == [LBracket] + toks[1..];
    }
  }

  lemma {:induction false} ListSound(toks: seq<Token>, items: seq<Value>)
    requires List_(toks, items).Some? && forall i :: 0 <= i < |items| ==> ValidValue(items[i])
    ensures ValidValue(List_(toks, items).value.0)
    ensures [LBracket] + Read(items) + toks == ValueTokens(List_(toks, items).value.0) + List_(toks, items).value.1
    decreases |toks|, 1
  {
    hide ValueTokens, ItemTokens, Read;
    if toks[0] == RBracket {
      ClosedHere(toks, items);
    } else {
      ValueSound(toks);
      var (v, rest) := Value_(toks).value;
      if rest[0] == Comma {
        ListSound(rest[1..], items + [v]);
        ReadOn(toks, items, v, rest);
      } else {
        ClosedAfter(toks, items, v, rest);
      }
    }
  }

  lemma ClosedHere(toks: seq<Token>, items: seq<Value>)
    requires toks != [] && toks[0] == RBracket
    ensures [LBracket] + Read(items) + toks == ValueTokens(ListOf(items, items != [])) + toks[1..]
  {
    assert toks == [RBracket] + toks[1..];
  }

  lemma ReadOn(toks: seq<Token>, items: seq<Value>, v: Value, rest: seq<Token>)
    requires toks == ValueTokens(v) + rest && rest != [] && rest[0] == Comma
    ensures [LBracket] + Read(items + [v]) + rest[1..] == [LBracket] + Read(items) + toks
  {
    hide ValueTokens, ItemTokens, Read;
    ReadMore(items, v);
    Regroup([LBracket], Read(items), ValueTokens(v), rest);
  }

  lemma ReadMore(items: seq<Value>, v: Value)
    ensures Read(items + [v]) == Read(items) + ValueTokens(v) + [Comma]
  {
    hide ValueTokens, ItemTokens;
    ItemsMore(items, v);
  }

  lemma Regroup(a: seq<Token>, b: seq<Token>, c: seq<Token>, d: seq<Token>)
    requires d != []
    ensures a + (b + c + [d[0]]) + d[1..] == a + b + (c + d)
  {
  }

  lemma ClosedAfter(toks: seq<Token>, items: seq<Value>, v: Value, rest: seq<Token>)
    requires toks == ValueTokens(v) + rest && rest != [] && rest[0] == RBracket
    ensures [LBracket] + Read(items) + toks == ValueTokens(ListOf(items + [v], false)) + rest[1..]
  {
    hide ItemTokens, Read;
    ItemsMore(items, v);
    Regroup([LBracket], Read(items), ValueTokens(v), rest);
    Reclose([LBracket], Read(items) + ValueTokens(v), rest);
  }

  lemma Reclose(a: seq<Token>, b: seq<Token>, d: seq<Token>)
    requires d != []
    ensures a + b + [] + [d[0]] + d[1..] == a + (b + [d[0]]) + d[1..]
  {
  }

  lemma FieldSound(toks: seq<Token>)
    requires Field_(toks).Some?
    ensures ValidValue(Field_(toks).value.0.value) && toks == FieldTokens(Field_(toks).value.0) + Field_(toks).value.1
  {
    ValueSound(toks[2..]);
    assert toks == [toks[0], toks[1]] + toks[2..];
  }

  lemma {:induction false} FieldsMore(fields: seq<Field>, f: Field)
    ensures FieldsTokens(fields + [f]) == FieldsTokens(fields) + FieldTokens(f)
    decreases |fields|
  {
    if fields == [] {
      assert fields + [f] == [f] && [f][1..] == [];
    } else {
      assert (fields + [f])[1..] == fields[1..] + [f];
      FieldsMore(fields[1..], f);
    }
  }

  ghost predicate ValidFields(fields: seq<Field>) {
    KeysOnce(fields) && forall i :: 0 <= i < |fields| ==> ValidValue(fields[i].value)
  }

  lemma {:induction false} FieldsSound(toks: seq<Token>, fields: seq<Field>)
    requires Fields_(toks, fields).Some? && ValidFields(fields)
    ensures ValidFields(Fields_(toks, fields).value.0)
    ensures FieldsTokens(fields) + toks == FieldsTokens(Fields_(toks, fields).value.0) + [RBrace] + Fields_(toks, fields).value.1
    decreases |toks|
  {
    if toks[0] == RBrace {
      assert toks == [RBrace] + toks[1..];
    } else {
      FieldSound(toks);
      var (f, rest) := Field_(toks).value;
      FieldsMore(fields, f);
      FieldsSound(rest, fields + [f]);
      assert FieldsTokens(fields) + toks == FieldsTokens(fields + [f]) + rest;
    }
  }

  lemma BlockSound(toks: seq<Token>)
    requires Block_(toks).Some?
    ensures ValidBlock(Block_(toks).value.0) && toks == BlockTokens(Block_(toks).value.0) + Block_(toks).value.1
  {
    hide Fields_, FieldsTokens;
    FieldsSound(toks[3..], []);
    NoFieldTokens(toks[3..]);
    assert toks == [toks[0], toks[1], toks[2]] + toks[3..];
    assert toks[0] == Ident(toks[0].text);
  }

  lemma NoFieldTokens(toks: seq<Token>)
    ensures FieldsTokens([]) + toks == toks
  {
  }

  lemma {:induction false} BlocksMore(blocks: seq<Block>, b: Block)
    ensures BlueprintTokens(blocks + [b]) == BlueprintTokens(blocks) + BlockTokens(b)
    decreases |blocks|
  {
    if blocks == [] {
      assert blocks + [b] == [b] && [b][1..] == [];
    } else {
      assert (blocks + [b])[1..] == blocks[1..] + [b];
      BlocksMore(blocks[1..], b);
    }
  }

  ghost predicate ValidBlueprint(blocks: seq<Block>) {
    forall i :: 0 <= i < |blocks| ==> ValidBlock(blocks[i])
  }

  lemma {:induction false} BlocksSound(toks: seq<Token>, blocks: seq<Block>)
    requires Blocks_(toks, blocks).Some? && ValidBlueprint(blocks)
    ensures ValidBlueprint(Blocks_(toks, blocks).value.0)
    ensures BlueprintTokens(blocks) + toks == BlueprintTokens(Blocks_(toks, blocks).value.0) + Blocks_(toks, blocks).value.1
    decreases |toks|
  {
    hide Block_, BlueprintTokens, ValidBlock;
    if toks[0] != Eof {
      BlockSound(toks);
      var (b, rest) := Block_(toks).value;
      BlocksMore(blocks, b);
      BlocksSound(rest, blocks + [b]);
      assert BlueprintTokens(blocks) + toks == BlueprintTokens(blocks + [b]) + rest;
    }
  }

  // ----- every derivation is parsed back -----

  lemma {:induction false} ValueComplete(v: Value, rest: seq<Token>)
    requires ValidValue(v)
    ensures Value_(ValueTokens(v) + rest) == Some((v, rest))
    decreases v, 1
  {
    var toks := ValueTokens(v) + rest;
    match v
    case Leaf(t) => assert toks[1..] == rest;
    case ListOf(items, trailing) =>
      var inner := ItemTokens(items) + (if trailing then [Comma] else []) + [RBracket] + rest;
      assert toks[1..] == inner;
      ItemsComplete(items, 0, trailing, rest);
      assert items[0..] == items && items[..0] == [];
  }

  /** The remaining items, from the head of the loop. */
  lemma {:induction false} ItemsComplete(items: seq<Value>, k: nat, trailing: bool, rest: seq<Token>)
    requires k <= |items| && (trailing ==> items != []) && (k == |items| ==> trailing || items == [])
    requires forall i :: 0 <= i < |items| ==> ValidValue(items[i])
    ensures List_(LoopTokens(items, k, trailing) + rest, items[..k]) == Some((ListOf(items, trailing), rest))
    decreases items, |items| - k
  {
    var toks := LoopTokens(items, k, trailing) + rest;
    if k == |items| {
      assert items[..k] == items && toks[1..] == rest;
    } else {
      var v := items[k];
      ItemsSplit(items, k, trailing, rest);
      FirstToken(v);
      assert items[..k] + [v] == items[..k + 1];
      if k + 1 < |items| || trailing {
        var after := LoopTokens(items, k + 1, trailing) + rest;
        ValueComplete(v, [Comma] + after);
        assert ([Comma] + after)[1..] == after;
        ItemsComplete(items, k + 1, trailing, rest);
      } else {
        ValueComplete(v, [RBracket] + rest);
        assert ([RBracket] + rest)[1..] == rest;
        assert items[..k + 1] == items;
      }
    }
  }

  /** The tokens from the k-th item to the closing bracket. */
  function LoopTokens(items: seq<Value>, k: nat, trailing: bool): seq<Token>
    requires k <= |items|
  {
    ItemTokens(items[k..]) + (if trailing && k < |items| then [Comma] else []) + [RBracket]
  }

  lemma ItemsSplit(items: seq<Value>, k: nat, trailing: bool, rest: seq<Token>)
    requires k < |items|
    ensures LoopTokens(items, k, trailing) + rest
         == ValueTokens(items[k]) + (if k + 1 < |items| || trailing then [Comma] + (LoopTokens(items, k + 1, trailing) + rest) else [RBracket] + rest)
  {
    assert items[k..][0] == items[k] && items[k..][1..] == items[k + 1..];
  }

  lemma FirstToken(v: Value)
    requires ValidValue(v)
    ensures var t := ValueTokens(v)[0]; t != RBracket && t != Eof && t != RBrace
  {
  }

  lemma FieldComplete(f: Field, rest: seq<Token>)
    requires ValidValue(f.value)
    ensures Field_(FieldTokens(f) + rest) == Some((f, rest))
  {
    assert (FieldTokens(f) + rest)[2..] == ValueTokens(f.value) + rest;
    ValueComplete(f.value, rest);
  }

  lemma {:induction false} FieldsComplete(done: seq<Field>, fields: seq<Field>, rest: seq<Token>)
    requires ValidFields(done + fields)
    ensures Fields_(FieldsTokens(fields) + ([RBrace] + rest), done) == Some((done + fields, rest))
    decreases |fields|
  {
    var toks := FieldsTokens(fields) + ([RBrace] + rest);
    if fields == [] {
      assert toks[1..] == rest && done + fields == done;
    } else {
      var f, more := fields[0], FieldsTokens(fields[1..]) + ([RBrace] + rest);
      assert toks == FieldTokens(f) + more;
      assert (done + fields)[|done|] == f;
      FieldComplete(f, more);
      assert !HasKey(done, f.key) by {
        forall i | 0 <= i < |done| ensures done[i].key != f.key { assert (done + fields)[i] == done[i]; }
      }
      assert done + [f] + fields[1..] == done + fields;
      FieldsComplete(done + [f], fields[1..], rest);
    }
  }

  lemma BlockComplete(b: Block, rest: seq<Token>)
    requires ValidBlock(b)
    ensures Block_(BlockTokens(b) + rest) == Some((b, rest))
  {
    var toks := BlockTokens(b) + rest;
    assert toks[3..] == FieldsTokens(b.fields) + ([RBrace] + rest);
    assert [] + b.fields == b.fields;
    FieldsComplete([], b.fields, rest);
  }

  lemma {:induction false} BlocksComplete(done: seq<Block>, blocks: seq<Block>)
    requires ValidBlueprint(blocks)
    ensures Blocks_(BlueprintTokens(blocks) + [Eof], done) == Some((done + blocks, [Eof]))
    decreases |blocks|
  {
    var toks := BlueprintTokens(blocks) + [Eof];
    if blocks == [] {
      assert toks == [Eof];
      assert done + blocks == done;
    } else {
      var b, more := blocks[0], BlueprintTokens(blocks[1..]) + [Eof];
      assert toks == BlockTokens(b) + more;
      BlockComplete(b, more);
      assert done + [b] + blocks[1..] == done + blocks;
      BlocksComplete(done + [b], blocks[1..]);
    }
  }

  /** A token list ends in its only end-of-file token. */
  ghost predicate Ended(toks: seq<Token>) {
    toks != [] && forall i :: 0 <= i < |toks| ==> (toks[i] == Eof <==> i == |toks| - 1)
  }

  /** The parser accepts a token list with a derivation exactly when that derivation yields it. */
  lemma ParserExact(toks: seq<Token>, blocks: seq<Block>)
    requires Ended(toks)
    ensures Blocks_(toks, []).Some? && Blocks_(toks, []).value.0 == blocks <==> ValidBlueprint(blocks) && toks == BlueprintTokens(blocks) + [Eof]
  {
    hide Blocks_, BlueprintTokens, ValidBlock;
    if Blocks_(toks, []).Some? && Blocks_(toks, []).value.0 == blocks {
      BlocksSound(toks, []);
      NoBlockTokens(toks);
      EndsThere(toks, BlueprintTokens(blocks), Blocks_(toks, []).value.1);
    }
    if ValidBlueprint(blocks) && toks == BlueprintTokens(blocks) + [Eof] {
      BlocksComplete([], blocks);
      assert [] + blocks == blocks;
    }
  }

  lemma NoBlockTokens(toks: seq<Token>)
    ensures BlueprintTokens([]) + toks == toks
  {
  }

  lemma EndsThere(toks: seq<Token>, before: seq<Token>, rest: seq<Token>)
    requires Ended(toks) && toks == before + rest && rest != [] && rest[0] == Eof
    ensures rest == [Eof]
  {
    assert toks[|before|] == Eof;
  }

  /** A token list has at most one derivation. */
  lemma Unambiguous(a: seq<Block>, b: seq<Block>)
    requires ValidBlueprint(a) && ValidBlueprint(b) && BlueprintTokens(a) == BlueprintTokens(b)
    ensures a == b
  {
    hide ValidBlock, BlueprintTokens;
    BlocksComplete([], a);
    BlocksComplete([], b);
    assert [] + a == a && [] + b == b;
  }

  // ----- the parser -----

  class Parser {
    const tokens: seq<Token>
    var index: nat

    constructor (tokens: seq<Token>)
      requires Ended(tokens)
      ensures this.tokens == tokens && Valid() && Ahead() == tokens
    {
      this.tokens, index := tokens, 0;
    }

    ghost predicate Valid() reads this {
      Ended(tokens) && index < |tokens|
    }

    /** The tokens not yet consumed. */
    ghost function Ahead(): seq<Token> reads this requires Valid() {
      tokens[index..]
    }

    function Peek(): (t: Token) reads this requires Valid() ensures t == Ahead()[0] {
      tokens[index]
    }

    /** Steps over one token, but never past the end of file. */
    method Advance() returns (t: Token)
      requires Valid()
      modifies this`index
      ensures Valid() && t == old(Peek()) && index == if t == Eof then old(index) else old(index) + 1
      ensures t != Eof ==> old(Ahead()) == [t] + Ahead()
    {
      t := tokens[index];
      if t != Eof {
        index := index + 1;
      }
    }

    method ParseValue() returns (r: Option<Value>)
      requires Valid()
      modifies this`index
      ensures Valid() && r.Some? == Value_(old(Ahead())).Some?
      ensures r.Some? ==> Value_(old(Ahead())) == Some((r.value, Ahead())) && index > old(index)
      decreases |tokens| - index, 1
    {
      var tok := Peek();
      if tok.Str? || tok.Num? || tok.Bool? {
        var t := Advance();
        return Some(Leaf(t));
      }
      if tok == LBracket {
        r := ParseList();
        return;
      }
      return None;
    }

    method ParseList() returns (r: Option<Value>)
      requires Valid() && Peek() == LBracket
      modifies this`index
      ensures Valid() && r.Some? == Value_(old(Ahead())).Some?
      ensures r.Some? ==> Value_(old(Ahead())) == Some((r.value, Ahead())) && index > old(index)
      decreases |tokens| - index, 0
    {
      var bracket := Advance();
      var items: seq<Value> := [];
      ghost var goal := Value_(old(Ahead()));
      while Peek() != RBracket
        invariant Valid() && index > old(index)
        invariant goal == List_(Ahead(), items)
        decreases |tokens| - index
      {
        if Peek() == Eof || Peek() == RBrace {
          return None;
        }
        var v := ParseValue();
        if v.None? {
          return None;
        }
        items := items + [v.value];
        if Peek() == Comma {
          var comma := Advance();
        } else if Peek() == RBracket {
          var close := Advance();
          return Some(ListOf(items, false));
        } else {
          return None;
        }
      }
      var close := Advance();
      return Some(ListOf(items, items != []));
    }

    method ParseField() returns (r: Option<Field>)
      requires Valid()
      modifies this`index
      ensures Valid() && r.Some? == Field_(old(Ahead())).Some?
      ensures r.Some? ==> Field_(old(Ahead())) == Some((r.value, Ahead())) && index > old(index)
    {
      if !Peek().Ident? {
        return None;
      }
      var key := Advance();
      if Peek() != Equals {
        return None;
      }
      var equals := Advance();
      assert old(Ahead())[2..] == Ahead();
      var v := ParseValue();
      if v.None? {
        return None;
      }
      return Some(Field(key.text, v.value));
    }

    method ParseFields() returns (r: Option<seq<Field>>)
      requires Valid()
      modifies this`index
      ensures Valid() && r.Some? == Fields_(old(Ahead()), []).Some?
      ensures r.Some? ==> Fields_(old(Ahead()), []) == Some((r.value, Ahead())) && index > old(index)
    {
      var fields: seq<Field> := [];
      while Peek() != RBrace
        invariant Valid() && index >= old(index)
        invariant Fields_(old(Ahead()), []) == Fields_(Ahead(), fields)
        decreases |tokens| - index
      {
        if Peek() == Eof {
          return None;
        }
        var f := ParseField();
        if f.None? || HasKey(fields, f.value.key) {
          return None;
        }
        fields := fields + [f.value];
      }
      var close := Advance();
      return Some(fields);
    }

    method ParseBlock() returns (r: Option<Block>)
      requires Valid()
      modifies this`index
      ensures Valid() && r.Some? == Block_(old(Ahead())).Some?
      ensures r.Some? ==> Block_(old(Ahead())) == Some((r.value, Ahead())) && index > old(index)
    {
      if !Peek().Ident? {
        return None;
      }
      var kind := Advance();
      if !Peek().Str? {
        return None;
      }
      var name := Advance();
      if Peek() != LBrace {
        return None;
      }
      var open := Advance();
      assert old(Ahead())[3..] == Ahead();
      var fields := ParseFields();
      if fields.None? {
        return None;
      }
      return Some(Block(kind.text, name, fields.value));
    }

    /** parse: exactly the blueprints of the grammar without a repeated key. */
    method Parse() returns (r: Option<seq<Block>>)
      requires Valid()
      modifies this`index
      ensures forall blocks :: r == Some(blocks) <==> ValidBlueprint(blocks) && old(Ahead()) == BlueprintTokens(blocks) + [Eof]
    {
      hide Block_, ValidBlueprint, BlueprintTokens;
      var blocks: seq<Block> := [];
      ghost var goal := Blocks_(old(Ahead()), []);
      forall bs ensures goal.Some? && goal.value.0 == bs <==> ValidBlueprint(bs) && old(Ahead()) == BlueprintTokens(bs) + [Eof] {
        ParserExact(old(Ahead()), bs);
      }
      while Peek() != Eof
        invariant Valid() && goal == Blocks_(Ahead(), blocks)
        decreases |tokens| - index
      {
        var b := ParseBlock();
        if b.None? {
          return None;
        }
        blocks := blocks + [b.value];
      }
      return Some(blocks);
    }
  }
}
