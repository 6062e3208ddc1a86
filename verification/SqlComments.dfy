/**
 Removing the comments of a migration file before it is classified.

 `StripComments` is the scanning loop. `Lexed` says what a division of a text into strings, comments and single
 characters must look like; `TokensAreTheOnlyLexing` shows there is exactly one. `StrippingKeepsTokens` says that
 stripping turns every comment into one space and leaves every other token what and where it was.
 */
module SqlComments {
  import opened Sequences

  datatype Token =
    | Quoted(body: string, closed: bool)
    | LineComment(body: string)
    | BlockComment(body: string, closed: bool)
    | Plain(c: char)

  const QUOTE: string := "'"
  const DASHES: string := "--"
  const OPEN: string := "/*"
  const CLOSE: string := "*/"

  predicate StartsWith(text: string, prefix: string) {
    prefix <= text
  }

  /** The first position of `pattern`, or -1. */
  function Find(text: string, pattern: string): (k: int)
    ensures -1 <= k && (0 <= k ==> k + |pattern| <= |text|)
  {
    if StartsWith(text, pattern) then 0
    else if text == "" then -1
    else var k := Find(text[1..], pattern); if k < 0 then -1 else k + 1
  }

  lemma {:induction false} FindFinds(text: string, pattern: string)
    requires 0 <= Find(text, pattern)
    ensures text[Find(text, pattern)..Find(text, pattern) + |pattern|] == pattern
  {
    if !StartsWith(text, pattern) {
      FindFinds(text[1..], pattern);
    }
  }

  /** A pattern of one character is not in front of where it is found. */
  lemma {:induction false} FindInPrefix(text: string, pattern: string)
    requires |pattern| == 1 && 0 <= Find(text, pattern)
    ensures Find(text[..Find(text, pattern)], pattern) < 0
  {
    var k := Find(text, pattern);
    if 0 < k {
      FindInPrefix(text[1..], pattern);
      assert text[..k][1..] == text[1..][..k - 1];
    }
  }

  /** A pattern of one character that is not in `body` is first found where the rest starts with it. */
  lemma {:induction false} FindAfter(body: string, pattern: string, rest: string)
    requires |pattern| == 1 && Find(body, pattern) < 0 && (rest == "" || rest[0] == pattern[0])
    ensures Find(body + rest, pattern) == if rest == "" then -1 else |body|
  {
    if body == "" {
      assert body + rest == rest;
    } else {
      assert (body + rest)[1..] == body[1..] + rest;
      FindAfter(body[1..], pattern, rest);
    }
  }

  // ---- The grammar -----------------------------------------------------------------------------------------

  predicate OpensLine(text: string) {
    |text| > 1 && text[0] == '-' && text[1] == '-'
  }

  predicate OpensBlock(text: string) {
    |text| > 1 && text[0] == '/' && text[1] == '*'
  }

  predicate StartsComment(text: string) {
    OpensLine(text) || OpensBlock(text)
  }

  function Source(t: Token): string {
    match t
    case Quoted(body, closed) => QUOTE + body + (if closed then QUOTE else "")
    case LineComment(body) => DASHES + body
    case BlockComment(body, closed) => OPEN + body + (if closed then CLOSE else "")
    case Plain(c) => [c]
  }

  function Sources(tokens: seq<Token>): string {
    if tokens == [] then "" else Source(tokens[0]) + Sources(tokens[1..])
  }

  /** A token may stand before this rest of a text. */
  predicate Fits(t: Token, rest: string) {
    match t
    case Quoted(body, closed) => Find(body, QUOTE) < 0 && (closed || rest == "")
    case LineComment(body) => Find(body, "\n") < 0 && (rest == "" || rest[0] == '\n')
    case BlockComment(body, closed) => if closed then Find(body + CLOSE + rest, CLOSE) == |body| else rest == "" && Find(body, CLOSE) < 0
    case Plain(c) => c != '\'' && !StartsComment([c] + rest)
  }

  predicate Lexed(tokens: seq<Token>) {
    tokens == [] || (Fits(tokens[0], Sources(tokens[1..])) && Lexed(tokens[1..]))
  }

  // ---- The lexer -------------------------------------------------------------------------------------------

  /** The first token of a text and its length. */
  function First(text: string): (r: (Token, nat))
    requires text != ""
    ensures 0 < r.1 <= |text| && Source(r.0) == text[..r.1] && Fits(r.0, text[r.1..])
  {
    if text[0] == '\'' then FirstQuoted(text)
    else if OpensLine(text) then FirstLine(text)
    else if OpensBlock(text) then FirstBlock(text)
    else
      assert [text[0]] + text[1..] == text;
      (Plain(text[0]), 1)
  }

  function FirstQuoted(text: string): (r: (Token, nat))
    requires text != "" && text[0] == '\''
    ensures 0 < r.1 <= |text| && Source(r.0) == text[..r.1] && Fits(r.0, text[r.1..]) && r.0.Quoted?
  {
    var end := Find(text[1..], QUOTE);
    if end < 0 then (Quoted(text[1..], false), |text|)
    else
      FindFinds(text[1..], QUOTE);
      FindInPrefix(text[1..], QUOTE);
      assert text[1..][..end] == text[1..end + 1] && text[end + 1] == '\'';
      (Quoted(text[1..end + 1], true), end + 2)
  }

  function FirstLine(text: string): (r: (Token, nat))
    requires OpensLine(text)
    ensures 0 < r.1 <= |text| && Source(r.0) == text[..r.1] && Fits(r.0, text[r.1..]) && r.0.LineComment?
  {
    var end := Find(text[2..], "\n");
    if end < 0 then (LineComment(text[2..]), |text|)
    else
      FindFinds(text[2..], "\n");
      FindInPrefix(text[2..], "\n");
      assert text[2..][..end] == text[2..end + 2] && text[end + 2] == '\n';
      (LineComment(text[2..end + 2]), end + 2)
  }

  function FirstBlock(text: string): (r: (Token, nat))
    requires OpensBlock(text)
    ensures 0 < r.1 <= |text| && Source(r.0) == text[..r.1] && Fits(r.0, text[r.1..]) && r.0.BlockComment?
  {
    var end := Find(text[2..], CLOSE);
    if end < 0 then (BlockComment(text[2..], false), |text|)
    else
      FindFinds(text[2..], CLOSE);
      assert text[2..end + 2] + CLOSE + text[end + 4..] == text[2..];
      (BlockComment(text[2..end + 2], true), end + 4)
  }

  function Tokens(text: string): seq<Token>
    decreases |text|
  {
    if text == "" then [] else [First(text).0] + Tokens(text[First(text).1..])
  }

  /** The tokens of a text make up the text, and they fit. */
  lemma {:induction false} TokensLexTheText(text: string)
    ensures Sources(Tokens(text)) == text && Lexed(Tokens(text))
    decreases |text|
  {
    if text != "" {
      TokensLexTheText(text[First(text).1..]);
    }
  }

  lemma FittingQuoted(body: string, closed: bool, rest: string)
    requires Fits(Quoted(body, closed), rest)
    ensures First(Source(Quoted(body, closed)) + rest) == (Quoted(body, closed), |Source(Quoted(body, closed))|)
  {
    var text := Source(Quoted(body, closed)) + rest;
    var after := if closed then QUOTE + rest else "";
    assert text == QUOTE + body + after;
    FindAfter(body, QUOTE, after);
    assert text[1..] == body + after && text[0] == '\'';
    if closed {
      assert text[1..|body| + 1] == body;
    } else {
      assert text[1..] == body;
    }
  }

  lemma FittingLine(body: string, rest: string)
    requires Fits(LineComment(body), rest)
    ensures First(Source(LineComment(body)) + rest) == (LineComment(body), |Source(LineComment(body))|)
  {
    var text := Source(LineComment(body)) + rest;
    FindAfter(body, "\n", rest);
    assert text[2..] == body + rest && text[2..|body| + 2] == body;
    assert text[0] == '-' && text[1] == '-';
    assert rest == "" ==> text[2..] == body;
  }

  lemma FittingBlock(body: string, closed: bool, rest: string)
    requires Fits(BlockComment(body, closed), rest)
    ensures First(Source(BlockComment(body, closed)) + rest)
            == (BlockComment(body, closed), |Source(BlockComment(body, closed))|)
  {
    var text := Source(BlockComment(body, closed)) + rest;
    assert text[2..] == if closed then body + CLOSE + rest else body;
    assert text[0] == '/' && text[1] == '*';
    assert closed ==> text[2..|body| + 2] == body;
  }

  /** A token that fits is the first token of the text it starts. */
  lemma FittingTokenIsFirst(t: Token, rest: string)
    requires Fits(t, rest)
    ensures Source(t) + rest != "" && First(Source(t) + rest) == (t, |Source(t)|)
  {
    match t
    case Quoted(body, closed) => FittingQuoted(body, closed, rest);
    case LineComment(body) => FittingLine(body, rest);
    case BlockComment(body, closed) => FittingBlock(body, closed, rest);
    case Plain(c) => assert Source(t) + rest == [c] + rest;
  }

  /** A text has one division into fitting tokens. */
  lemma {:induction false} TokensAreTheOnlyLexing(tokens: seq<Token>)
    requires Lexed(tokens)
    ensures Tokens(Sources(tokens)) == tokens
  {
    if tokens != [] {
      var rest := Sources(tokens[1..]);
      FittingTokenIsFirst(tokens[0], rest);
      TokensAreTheOnlyLexing(tokens[1..]);
      assert (Source(tokens[0]) + rest)[|Source(tokens[0])|..] == rest;
    }
  }

  // ---- Stripping -------------------------------------------------------------------------------------------

  predicate IsComment(t: Token) {
    t.LineComment? || t.BlockComment?
  }

  function Blank(t: Token): Token {
    if IsComment(t) then Plain(' ') else t
  }

  function Blanked(tokens: seq<Token>): seq<Token> {
    if tokens == [] then [] else [Blank(tokens[0])] + Blanked(tokens[1..])
  }

  /** The text with every comment replaced by one space. */
  function Stripped(text: string): string {
    Sources(Blanked(Tokens(text)))
  }

  lemma NothingDone(sql: string)
    ensures Done(sql, 0, "")
  {
    assert sql[0..] == sql;
  }

  lemma AllDone(sql: string, out: string)
    requires Done(sql, |sql|, out)
    ensures out == Stripped(sql)
  {
    assert sql[|sql|..] == "" && Blanked([]) == [];
  }

  /** What one turn takes from a text: the output, and how far it goes. */
  function Turn(text: string): (r: (string, nat))
    requires text != ""
  {
    if text[0] == '\'' then
      var end := Find(text[1..], QUOTE);
      if end < 0 then (text[..|text|], |text|) else (text[..end + 2], end + 2)
    else if OpensLine(text) then
      var end := Find(text[2..], "\n");
      (" ", if end < 0 then |text| else end + 2)
    else if OpensBlock(text) then
      var end := Find(text[2..], CLOSE);
      (" ", if end < 0 then |text| else end + 4)
    else
      ([text[0]], 1)
  }

  lemma TurnTakesFirst(text: string)
    requires text != ""
    ensures Turn(text) == (Source(Blank(First(text).0)), First(text).1)
  {
  }

  lemma NextTurn(sql: string, i: nat, out: string)
    requires i < |sql| && Done(sql, i, out)
    ensures i + Turn(sql[i..]).1 <= |sql| && 0 < Turn(sql[i..]).1
    ensures Done(sql, i + Turn(sql[i..]).1, out + Turn(sql[i..]).0)
  {
    var rest := sql[i..];
    TurnTakesFirst(rest);
    var first := First(rest);
    assert rest[first.1..] == sql[i + first.1..];
    StepOverToken(rest);
    Regroup(out, Source(Blank(first.0)), Stripped(rest[first.1..]));
  }

  /** `out` is what stripping makes of the first `i` characters. */
  ghost predicate Done(sql: string, i: nat, out: string) {
    i <= |sql| && out + Stripped(sql[i..]) == Stripped(sql)
  }

  /** One turn of the loop: what goes to the output, and how far scanning goes on. */
  method TakeTurn(text: string) returns (taken: string, length: nat)
    requires text != ""
    ensures (taken, length) == Turn(text)
  {
    if text[0] == '\'' {
      var end := Find(text[1..], QUOTE);
      length := if end < 0 then |text| else end + 2;
      taken := text[..length];
    } else if OpensLine(text) {
      var end := Find(text[2..], "\n");
      taken, length := " ", if end < 0 then |text| else end + 2;
    } else if OpensBlock(text) {
      var end := Find(text[2..], CLOSE);
      taken, length := " ", if end < 0 then |text| else end + 4;
    } else {
      taken, length := [text[0]], 1;
    }
  }

  method Advance(sql: string, i: nat, out: string) returns (next: nat, longer: string)
    requires i < |sql| && Done(sql, i, out)
    ensures i < next <= |sql| && Done(sql, next, longer)
  {
    NextTurn(sql, i, out);
    var taken, length := TakeTurn(sql[i..]);
    next, longer := i + length, out + taken;
  }

  method StripComments(sql: string) returns (out: string)
    ensures out == Stripped(sql)
  {
    out := "";
    var i := 0;
    NothingDone(sql);
    while i < |sql|
      invariant i <= |sql| && Done(sql, i, out)
    {
      i, out := Advance(sql, i, out);
    }
    AllDone(sql, out);
  }

  lemma StepOverToken(text: string)
    requires text != ""
    ensures Stripped(text) == Source(Blank(First(text).0)) + Stripped(text[First(text).1..])
  {
    BlankedHead(Tokens(text));
  }

  lemma BlankedHead(tokens: seq<Token>)
    requires tokens != []
    ensures Blanked(tokens) == [Blank(tokens[0])] + Blanked(tokens[1..])
    ensures Sources(Blanked(tokens)) == Source(Blank(tokens[0])) + Sources(Blanked(tokens[1..]))
  {
  }

  /** What stands before a rest still does when the comments of the rest are blanked, and so does a blanked comment. */
  lemma BlankFits(t: Token, tokens: seq<Token>)
    requires Fits(t, Sources(tokens)) && Lexed(tokens)
    ensures Fits(Blank(t), Sources(Blanked(tokens)))
  {
    var rest, blanked := Sources(tokens), Sources(Blanked(tokens));
    if tokens == [] {
      assert Blanked(tokens) == [];
    } else {
      BlankedHead(tokens);
      FittingTokenIsFirst(tokens[0], Sources(tokens[1..]));
      SameStart(t, tokens);
    }
  }

  lemma SameStart(t: Token, tokens: seq<Token>)
    requires tokens != [] && Lexed(tokens)
    ensures Sources(tokens) != "" && Sources(Blanked(tokens)) != ""
    ensures Sources(Blanked(tokens))[0] == if IsComment(tokens[0]) then ' ' else Sources(tokens)[0]
  {
    BlankedHead(tokens);
  }

  lemma {:induction false} BlankedIsLexed(tokens: seq<Token>)
    requires Lexed(tokens)
    ensures Lexed(Blanked(tokens))
  {
    if tokens != [] {
      BlankedIsLexed(tokens[1..]);
      BlankFits(tokens[0], tokens[1..]);
      BlankedHead(tokens);
    }
  }

  /** Stripping turns every comment into a space and keeps every other token, quoted strings above all, in place. */
  lemma StrippingKeepsTokens(text: string)
    ensures Tokens(Stripped(text)) == Blanked(Tokens(text)) && |Tokens(Stripped(text))| == |Tokens(text)|
    ensures forall i :: 0 <= i < |Tokens(text)| ==>
              Tokens(Stripped(text))[i] == match Tokens(text)[i]
                                           case LineComment(_) => Plain(' ')
                                           case BlockComment(_, _) => Plain(' ')
                                           case t => t
    ensures forall t :: t in Tokens(Stripped(text)) ==> !t.LineComment? && !t.BlockComment?
  {
    TokensLexTheText(text);
    BlankedIsLexed(Tokens(text));
    TokensAreTheOnlyLexing(Blanked(Tokens(text)));
    BlankedAt(Tokens(text));
  }

  lemma {:induction false} BlankedAt(tokens: seq<Token>)
    ensures |Blanked(tokens)| == |tokens| && forall i :: 0 <= i < |tokens| ==> Blanked(tokens)[i] == Blank(tokens[i])
  {
    if tokens != [] {
      BlankedAt(tokens[1..]);
    }
  }

  /** Stripping again changes nothing. */
  lemma StrippingIsIdempotent(text: string)
    ensures Stripped(Stripped(text)) == Stripped(text)
  {
    StrippingKeepsTokens(text);
    BlankedTwice(Tokens(text));
  }

  lemma {:induction false} BlankedTwice(tokens: seq<Token>)
    ensures Blanked(Blanked(tokens)) == Blanked(tokens)
  {
    if tokens != [] {
      BlankedTwice(tokens[1..]);
      assert Blanked(tokens)[1..] == Blanked(tokens[1..]);
    }
  }
}
