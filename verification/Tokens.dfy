/** Tokens of the definition language and how source text is cut into them (pdef/lexer.c).
    Texts are the rest of the source from the reading position. */
module Tokens {
  import opened Pdef

  datatype TokenKind =
    | Identifier | Number | StringLiteral
    | ProtocolWord | ConstWord | FilterWord
    | TypeWord(ftype: FieldType) | InWord
    | LBrace | RBrace | LBracket | RBracket
    | Semicolon | Comma | Dot | Assign
    | EqualEqual | NotEqual | Less | LessEqual | Greater | GreaterEqual
    | Ampersand | VerticalBar | Bang | AtSign
    | EndOfFile | Bad

  datatype Token = Token(kind: TokenKind, text: string, value: U64)

  const EOF_TOKEN := Token(EndOfFile, "", 0)

  datatype LexError = InvalidHex | UnterminatedString | UnknownKeyword | UnexpectedCharacter

  /** A token, what follows it, and the error that was reported with it. */
  datatype Scanned = Scanned(token: Token, rest: string, error: Option<LexError>)

  /** Room in the token's text buffer, without the terminator. */
  const TEXT_ROOM: nat := 255

  const MAX_U64: U64 := 0xFFFF_FFFF_FFFF_FFFF

  // ---------- Characters ----------

  predicate IsAlpha(c: char) { 'a' <= c <= 'z' || 'A' <= c <= 'Z' || c == '_' }

  predicate IsDigit(c: char) { '0' <= c <= '9' }

  predicate IsHexDigit(c: char) { IsDigit(c) || 'a' <= c <= 'f' || 'A' <= c <= 'F' }

  predicate IsAlnum(c: char) { IsAlpha(c) || IsDigit(c) }

  predicate IsSpace(c: char) { c == ' ' || '\t' <= c <= '\r' }

  datatype CharClass = Alnum | Digits | HexDigits

  predicate InClass(c: char, class_: CharClass) {
    match class_
    case Alnum => IsAlnum(c)
    case Digits => IsDigit(c)
    case HexDigits => IsHexDigit(c)
  }

  /** The character at the reading position, which at the end is the terminator. */
  function Head(s: string): char { if s == "" then '\0' else s[0] }

  function Second(s: string): char
    requires s != ""
  {
    Head(s[1..])
  }

  // ---------- Blanks ----------

  function AfterComment(s: string): (r: string)
    ensures |r| <= |s|
  {
    if Head(s) == '\0' || Head(s) == '\n' then s else AfterComment(s[1..])
  }

  function SkipBlanks(s: string): (r: string)
    ensures |r| <= |s|
    decreases |s|
  {
    if IsSpace(Head(s)) then SkipBlanks(s[1..])
    else if Head(s) == '/' && Second(s) == '/' then SkipBlanks(AfterComment(s[1..]))
    else s
  }

  // ---------- Words, numbers, strings ----------

  /** How many of the first characters, at most `room`, are in the class. */
  function Span(s: string, class_: CharClass, room: nat): (n: nat)
    ensures n <= |s| && n <= room
    ensures forall i :: 0 <= i < n ==> InClass(s[i], class_)
    ensures n < room && n < |s| ==> !InClass(s[n], class_)
  {
    if room == 0 || s == "" || !InClass(s[0], class_) then 0
    else
      var n := Span(s[1..], class_, room - 1);
      assert forall i :: 0 < i < n + 1 ==> s[i] == s[1..][i - 1];
      n + 1
  }

  /** The length of a span is determined by where it stops. */
  lemma {:induction false} SpanIs(s: string, class_: CharClass, room: nat, n: nat)
    requires n <= |s| && n <= room && (forall i :: 0 <= i < n ==> InClass(s[i], class_))
    requires n < room && n < |s| ==> !InClass(s[n], class_)
    ensures Span(s, class_, room) == n
  {
  }

  function WordKind(text: string): TokenKind {
    match text
    case "uint8" => TypeWord(Uint8)
    case "uint16" => TypeWord(Uint16)
    case "uint32" => TypeWord(Uint32)
    case "uint64" => TypeWord(Uint64)
    case "int8" => TypeWord(Int8)
    case "int16" => TypeWord(Int16)
    case "int32" => TypeWord(Int32)
    case "int64" => TypeWord(Int64)
    case "bytes" => TypeWord(Bytes)
    case "string" => TypeWord(String)
    case "varbytes" => TypeWord(Varbytes)
    case "in" => InWord
    case _ => Identifier
  }

  function KeywordKind(text: string): TokenKind {
    match text
    case "protocol" => ProtocolWord
    case "const" => ConstWord
    case "filter" => FilterWord
    case _ => Bad
  }

  function DigitValue(c: char): (d: nat)
    requires IsHexDigit(c)
    ensures d < 16 && (IsDigit(c) ==> d < 10)
  {
    if IsDigit(c) then (c - '0') as nat
    else if 'a' <= c then (c - 'a') as nat + 10
    else (c - 'A') as nat + 10
  }

  /** The number a run of digits denotes. */
  function Numeral(digits: string, base: nat): nat
    requires forall c :: c in digits ==> IsHexDigit(c)
  {
    if digits == "" then 0
    else Numeral(digits[..|digits| - 1], base) * base + DigitValue(digits[|digits| - 1])
  }

  /** strtoull: numbers that do not fit become the largest that does. */
  function Saturated(n: nat): U64 { if n > MAX_U64 then MAX_U64 else n }

  function DecimalValue(digits: string): U64
    requires forall c :: c in digits ==> IsDigit(c)
  {
    Saturated(Numeral(digits, 10))
  }

  /** How many characters of the source the next character of a string literal takes, and what it is. */
  function StringStep(s: string): (n: nat)
    requires s != ""
    ensures 0 < n <= |s|
  {
    if s[0] == '\\' && Second(s) == '"' then 2 else 1
  }

  function StringChar(s: string): char
    requires s != ""
  {
    if s[0] == '\\' && Second(s) == '"' then '"' else s[0]
  }

  predicate StringEnds(s: string, room: nat) { room == 0 || Head(s) == '"' || Head(s) == '\0' }

  /** The text of a string literal after its opening quote, and what follows that text. */
  function StringText(s: string, room: nat): (r: (string, string))
    ensures |r.1| <= |s|
    decreases |s|
  {
    if StringEnds(s, room) then ("", s)
    else var r := StringText(s[StringStep(s)..], room - 1); ([StringChar(s)] + r.0, r.1)
  }

  lemma StringTextUnfolds(s: string, room: nat)
    ensures StringEnds(s, room) ==> StringText(s, room) == ("", s)
    ensures !StringEnds(s, room) ==>
      StringText(s, room).0 == [StringChar(s)] + StringText(s[StringStep(s)..], room - 1).0 &&
      StringText(s, room).1 == StringText(s[StringStep(s)..], room - 1).1
  {
  }

  // ---------- One token ----------

  function ScanWord(s: string): Scanned {
    var n := Span(s, Alnum, TEXT_ROOM);
    Scanned(Token(WordKind(s[..n]), s[..n], 0), s[n..], None)
  }

  lemma SpanDigits(s: string, class_: CharClass)
    ensures var n := Span(s, class_, TEXT_ROOM);
      (class_.Digits? ==> forall c :: c in s[..n] ==> IsDigit(c)) &&
      (class_.HexDigits? ==> forall c :: c in s[..n] ==> IsHexDigit(c))
  {
  }

  function ScanNumber(s: string): Scanned {
    if Head(s) == '0' && (Second(s) == 'x' || Second(s) == 'X') then
      var digits := s[2..];
      var n := Span(digits, HexDigits, TEXT_ROOM);
      SpanDigits(digits, HexDigits);
      if n == 0 then Scanned(Token(Number, "", 0), digits, Some(InvalidHex))
      else Scanned(Token(Number, digits[..n], Saturated(Numeral(digits[..n], 16))), digits[n..], None)
    else
      var n := Span(s, Digits, TEXT_ROOM);
      SpanDigits(s, Digits);
      Scanned(Token(Number, s[..n], DecimalValue(s[..n])), s[n..], None)
  }

  function ScanString(s: string): Scanned
    requires s != ""
  {
    var (text, rest) := StringText(s[1..], TEXT_ROOM);
    if Head(rest) == '"' then Scanned(Token(StringLiteral, text, 0), rest[1..], None)
    else Scanned(Token(StringLiteral, text, 0), rest, Some(UnterminatedString))
  }

  function ScanKeyword(s: string): Scanned
    requires s != ""
  {
    var word := s[1..];
    if !IsAlpha(Head(word)) then Scanned(Token(AtSign, "", 0), word, None)
    else
      var n := Span(word, Alnum, TEXT_ROOM);
      var kind := KeywordKind(word[..n]);
      Scanned(Token(kind, word[..n], 0), word[n..], if kind.Bad? then Some(UnknownKeyword) else None)
  }

  /** Single-character tokens, and those that may be followed by '='. */
  function Symbol(c: char): Option<TokenKind> {
    match c
    case '{' => Some(LBrace)
    case '}' => Some(RBrace)
    case '[' => Some(LBracket)
    case ']' => Some(RBracket)
    case ';' => Some(Semicolon)
    case ',' => Some(Comma)
    case '.' => Some(Dot)
    case '=' => Some(Assign)
    case '!' => Some(Bang)
    case '<' => Some(Less)
    case '>' => Some(Greater)
    case '&' => Some(Ampersand)
    case '|' => Some(VerticalBar)
    case _ => None
  }

  function WithEquals(c: char): Option<TokenKind> {
    match c
    case '=' => Some(EqualEqual)
    case '!' => Some(NotEqual)
    case '<' => Some(LessEqual)
    case '>' => Some(GreaterEqual)
    case _ => None
  }

  function ScanSymbol(s: string): Scanned
    requires s != ""
  {
    if WithEquals(s[0]).Some? && Second(s) == '=' then
      Scanned(Token(WithEquals(s[0]).value, s[..2], 0), s[2..], None)
    else if Symbol(s[0]).Some? then
      Scanned(Token(Symbol(s[0]).value, s[..1], 0), s[1..], None)
    else Scanned(Token(Bad, "", 0), s, Some(UnexpectedCharacter))
  }

  /** The token at the reading position, which is not at a blank. */
  function ScanHere(s: string): Scanned {
    var c := Head(s);
    if c == '\0' then Scanned(EOF_TOKEN, s, None)
    else if IsAlpha(c) then ScanWord(s)
    else if IsDigit(c) then ScanNumber(s)
    else if c == '"' then ScanString(s)
    else if c == '@' then ScanKeyword(s)
    else ScanSymbol(s)
  }

  /** lexer_next_token. */
  function Scan(s: string): Scanned { ScanHere(SkipBlanks(s)) }

  /** Tokens that may leave the reading position where it is. */
  predicate Stuck(kind: TokenKind) { kind.EndOfFile? || kind.Bad? }

  /** Every token takes at least one character, except at the end and at a character no token starts with. */
  lemma ScanAdvances(s: string)
    ensures |Scan(s).rest| <= |s|
    ensures !Stuck(Scan(s).token.kind) ==> |Scan(s).rest| < |s|
  {
  }
}
