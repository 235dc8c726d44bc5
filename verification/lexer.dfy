/**
 * The MicroML lexer. The source scans with one regular expression whose named
 * alternatives are tried in order at every start position (whitespace, digit run,
 * `true`/`false` at a word boundary, identifier, symbol); characters at which no
 * alternative matches are skipped. This module re-states that regex as an explicit
 * ASCII scanner (`MatchAt`, `Matches`) and the token loop that tracks a running
 * position (`LexMatches`, `Lex`).
 */
module Lexer {
  import opened Wrappers
  import opened Numerals

  datatype TokenType =
    | Let | In | End | If | Then | Else
    | LParen | RParen | Equal | Plus | Minus | Star | Less | Assign
    | Ident | IntLit | BoolLit
    | EOF

  /** A token: its kind, its text and the running position at which it was produced. */
  datatype Token = Token(typ: TokenType, lexeme: string, pos: int)

  /** The one lexing failure: a matched symbol with no token kind (only `==`). */
  datatype LexError = UnknownChar(text: string, pos: int)

  /** The named groups of the token regex, listed in the order they are tried. */
  datatype Group = Ws | Num | Bool | Id | Sym

  /** One regex match: the group that matched, where it starts, and the matched text. */
  datatype Match = Match(group: Group, index: nat, value: string)

  const EofLexeme := "<eof>"

  // ---------------------------------------------------------------- characters

  /** `\s`, restricted to ASCII. */
  predicate IsSpace(c: char) {
    c == ' ' || c == '\t' || c == '\n' || c == '\U{B}' || c == '\U{C}' || c == '\r'
  }

  predicate IsLetter(c: char) {
    'a' <= c <= 'z' || 'A' <= c <= 'Z'
  }

  /** `[a-zA-Z_]`, the first character of an identifier. */
  predicate IsIdentStart(c: char) {
    IsLetter(c) || c == '_'
  }

  /** `\w`, restricted to ASCII. */
  predicate IsWordChar(c: char) {
    IsIdentStart(c) || IsDigit(c)
  }

  /** The one-character symbols `[+\-*<()=]`. */
  predicate IsSymbolChar(c: char) {
    c == '+' || c == '-' || c == '*' || c == '<' || c == '(' || c == ')' || c == '='
  }

  datatype CharClass = Space | Digit | Word

  predicate InClass(c: char, k: CharClass) {
    match k
    case Space => IsSpace(c)
    case Digit => IsDigit(c)
    case Word => IsWordChar(c)
  }

  /** True when every character of `s[i..j]` is in class `k`. */
  predicate AllIn(s: string, i: nat, j: nat, k: CharClass)
    requires i <= j <= |s|
  {
    forall m :: i <= m < j ==> InClass(s[m], k)
  }

  /** The end of the longest run of class-`k` characters starting at `i` (a greedy `+`/`*`). */
  function RunEnd(s: string, i: nat, k: CharClass): (j: nat)
    requires i <= |s|
    ensures i <= j <= |s|
    ensures AllIn(s, i, j, k)
    ensures j == |s| || !InClass(s[j], k)
    decreases |s| - i
  {
    if i < |s| && InClass(s[i], k) then RunEnd(s, i + 1, k) else i
  }

  /** A run of class-`k` characters that cannot be extended ends where `RunEnd` says. */
  lemma {:induction false} RunEndIsTheMaximalRun(s: string, i: nat, j: nat, k: CharClass)
    requires i <= j <= |s|
    requires AllIn(s, i, j, k) && (j == |s| || !InClass(s[j], k))
    ensures RunEnd(s, i, k) == j
    decreases j - i
  {
    if i < j {
      assert InClass(s[i], k);
      RunEndIsTheMaximalRun(s, i + 1, j, k);
    }
  }

  // ------------------------------------------------- the regex, declaratively

  /** `w` occurs at `i` and is followed by a word boundary (`\b` after a word character). */
  predicate WordAt(s: string, i: nat, w: string) {
    i + |w| <= |s| && s[i..i + |w|] == w && (i + |w| == |s| || !IsWordChar(s[i + |w|]))
  }

  /** The text `t` occurs at `i`. */
  predicate TextAt(s: string, i: nat, t: string) {
    i + |t| <= |s| && s[i..i + |t|] == t
  }

  /** The position of a group in the alternation: lower ranks are tried first. */
  function Rank(g: Group): nat {
    match g
    case Ws => 0
    case Num => 1
    case Bool => 2
    case Id => 3
    case Sym => 4
  }

  /**
   * The alternative for group `g`, on its own, matches exactly the `n` characters at `i`.
   * Greedy runs take the longest run; within the symbol alternative `==` and `:=` are
   * tried before the one-character symbols.
   */
  predicate AltMatch(g: Group, s: string, i: nat, n: nat) {
    && 0 < n
    && i + n <= |s|
    && match g
       case Ws => AllIn(s, i, i + n, Space) && (i + n == |s| || !IsSpace(s[i + n]))
       case Num => AllIn(s, i, i + n, Digit) && (i + n == |s| || !IsDigit(s[i + n]))
       case Bool => (n == 4 && WordAt(s, i, "true")) || (n == 5 && !TextAt(s, i, "true") && WordAt(s, i, "false"))
       case Id =>
         IsIdentStart(s[i]) && AllIn(s, i + 1, i + n, Word) && (i + n == |s| || !IsWordChar(s[i + n]))
       case Sym =>
         || (n == 2 && s[i..i + 2] == "==")
         || (n == 2 && s[i..i + 2] == ":=" )
         || (n == 1 && IsSymbolChar(s[i]) && !TextAt(s, i, "=="))
  }

  /** `[a-zA-Z_]\w*`: the shape of an identifier. */
  predicate IsIdentifier(v: string) {
    |v| > 0 && IsIdentStart(v[0]) && forall k :: 1 <= k < |v| ==> IsWordChar(v[k])
  }

  /** The text a match of group `m.group` can have. */
  predicate ValueShape(m: Match) {
    match m.group
    case Ws => |m.value| > 0 && forall k :: 0 <= k < |m.value| ==> IsSpace(m.value[k])
    case Num => IsDigits(m.value)
    case Bool => m.value == "true" || m.value == "false"
    case Id => IsIdentifier(m.value) && m.value != "true" && m.value != "false"
    case Sym => m.value == "==" || m.value == ":=" || (|m.value| == 1 && IsSymbolChar(m.value[0]))
  }

  // ------------------------------------------------- the regex, as a scanner

  /** The match the token regex makes when it is tried at position `i`, if any. */
  function MatchAt(s: string, i: nat): (r: Option<Match>)
    requires i < |s|
    ensures r.Some? ==> r.value.index == i && 0 < |r.value.value| && i + |r.value.value| <= |s|
  {
    if IsSpace(s[i]) then Some(Match(Ws, i, s[i..RunEnd(s, i, Space)]))
    else if IsDigit(s[i]) then Some(Match(Num, i, s[i..RunEnd(s, i, Digit)]))
    else if WordAt(s, i, "true") then Some(Match(Bool, i, "true"))
    else if WordAt(s, i, "false") then Some(Match(Bool, i, "false"))
    else if IsIdentStart(s[i]) then
      Some(Match(Id, i, s[i..RunEnd(s, i + 1, Word)]))
    else if TextAt(s, i, "==") then Some(Match(Sym, i, "=="))
    else if TextAt(s, i, ":=") then Some(Match(Sym, i, ":="))
    else if IsSymbolChar(s[i]) then Some(Match(Sym, i, [s[i]]))
    else None
  }

  /** A run of class-`k` characters at `i`, as a match of group `g`, is sound. */
  lemma RunMatchSound(s: string, i: nat, k: CharClass, g: Group)
    requires i < |s| && InClass(s[i], k)
    requires (g == Ws && k == Space) || (g == Num && k == Digit)
    ensures var m := Match(g, i, s[i..RunEnd(s, i, k)]);
            AltMatch(g, s, i, |m.value|) && TextAt(s, i, m.value) && ValueShape(m)
  {
    var j := RunEnd(s, i, k);
    var v := s[i..j];
    assert AllIn(s, i, j, k);
    forall m | 0 <= m < |v| ensures InClass(v[m], k) {
      assert v[m] == s[i + m];
    }
  }

  /** A word-character run at `i` that spells `w` is `w` followed by a word boundary. */
  lemma RunSpellsWord(s: string, i: nat, j: nat, w: string)
    requires i <= j <= |s| && (j == |s| || !IsWordChar(s[j]))
    ensures s[i..j] == w ==> WordAt(s, i, w)
  {
  }

  /** An identifier-shaped word at `i` that is not `true` or `false` is a sound `Id` match. */
  lemma IdMatchSound(s: string, i: nat)
    requires i < |s| && IsIdentStart(s[i]) && !WordAt(s, i, "true") && !WordAt(s, i, "false")
    ensures AltMatch(Id, s, i, |s[i..RunEnd(s, i + 1, Word)]|)
    ensures TextAt(s, i, s[i..RunEnd(s, i + 1, Word)])
    ensures ValueShape(Match(Id, i, s[i..RunEnd(s, i + 1, Word)]))
  {
    var j := RunEnd(s, i + 1, Word);
    var v := s[i..j];
    IdRunIsIdentifier(s, i, j);
    RunSpellsWord(s, i, j, "true");
    RunSpellsWord(s, i, j, "false");
    assert |v| == j - i;
    assert v != "true" && v != "false";
  }

  /** A word-character run after an identifier start spells an identifier. */
  lemma IdRunIsIdentifier(s: string, i: nat, j: nat)
    requires i < j <= |s| && IsIdentStart(s[i]) && AllIn(s, i + 1, j, Word)
    ensures IsIdentifier(s[i..j])
  {
    var v := s[i..j];
    forall m | 1 <= m < |v| ensures IsWordChar(v[m]) {
      assert v[m] == s[i + m] && InClass(s[i + m], Word);
    }
  }

  /** A one-character symbol that does not start `==` or `:=` is a sound `Sym` match. */
  lemma SymbolMatchSound(s: string, i: nat)
    requires i < |s| && IsSymbolChar(s[i]) && !TextAt(s, i, "==")
    ensures AltMatch(Sym, s, i, 1) && TextAt(s, i, [s[i]]) && ValueShape(Match(Sym, i, [s[i]]))
  {
    assert s[i..i + 1] == [s[i]];
  }

  /**
   * The scanner's match is a match of the alternative it names, it is the text of `s`
   * at `i`, and its text has the shape of its group.
   */
  lemma MatchAtIsSound(s: string, i: nat)
    requires i < |s|
    ensures MatchAt(s, i).Some? ==> AltMatch(MatchAt(s, i).value.group, s, i, |MatchAt(s, i).value.value|)
    ensures MatchAt(s, i).Some? ==> TextAt(s, i, MatchAt(s, i).value.value) && ValueShape(MatchAt(s, i).value)
  {
    if IsSpace(s[i]) {
      RunMatchSound(s, i, Space, Ws);
    } else if IsDigit(s[i]) {
      RunMatchSound(s, i, Digit, Num);
    } else if WordAt(s, i, "true") || WordAt(s, i, "false") {
    } else if IsIdentStart(s[i]) {
      IdMatchSound(s, i);
    } else if TextAt(s, i, "==") || TextAt(s, i, ":=") {
    } else if IsSymbolChar(s[i]) {
      SymbolMatchSound(s, i);
    }
  }

  /** What the character at `i` must be for the alternative of group `g` to match there. */
  lemma AltMatchStart(g: Group, s: string, i: nat, n: nat)
    requires AltMatch(g, s, i, n)
    ensures g == Ws ==> IsSpace(s[i])
    ensures g == Num ==> IsDigit(s[i])
    ensures g == Bool ==> (s[i] == 't' && WordAt(s, i, "true")) || (s[i] == 'f' && WordAt(s, i, "false"))
    ensures g == Id ==> IsIdentStart(s[i])
    ensures g == Sym ==> TextAt(s, i, "==") || TextAt(s, i, ":=") || IsSymbolChar(s[i])
  {
    match g {
      case Ws => assert InClass(s[i], Space);
      case Num => assert InClass(s[i], Digit);
      case Bool =>
        assert n == 4 ==> s[i..i + 4][0] == s[i];
        assert n == 5 ==> s[i..i + 5][0] == s[i];
      case Id =>
      case Sym =>
        assert n == 2 ==> s[i..i + 2][0] == s[i];
    }
  }

  /** Each alternative matches at most one length at a given position. */
  lemma AltMatchUnique(g: Group, s: string, i: nat, n: nat, n': nat)
    requires AltMatch(g, s, i, n) && AltMatch(g, s, i, n')
    ensures n == n'
  {
    match g {
      case Ws =>
        RunEndIsTheMaximalRun(s, i, i + n, Space);
        RunEndIsTheMaximalRun(s, i, i + n', Space);
      case Num =>
        RunEndIsTheMaximalRun(s, i, i + n, Digit);
        RunEndIsTheMaximalRun(s, i, i + n', Digit);
      case Id =>
        RunEndIsTheMaximalRun(s, i + 1, i + n, Word);
        RunEndIsTheMaximalRun(s, i + 1, i + n', Word);
      case Bool =>
        assert n == 5 ==> s[i..i + 4] == s[i..i + 5][..4];
        assert n' == 5 ==> s[i..i + 4] == s[i..i + 5][..4];
      case Sym =>
        assert n == 2 ==> s[i..i + 2][0] == s[i];
        assert n' == 2 ==> s[i..i + 2][0] == s[i];
    }
  }

  /**
   * The scanner agrees with the ordered alternation: it reports the first alternative
   * that matches at `i`, with that alternative's length, and reports nothing exactly
   * when no alternative matches.
   */
  lemma MatchAtIsFirstAlternative(s: string, i: nat)
    requires i < |s|
    ensures MatchAt(s, i).Some? ==>
              forall g, n :: Rank(g) < Rank(MatchAt(s, i).value.group) ==> !AltMatch(g, s, i, n)
    ensures MatchAt(s, i).None? <==> forall g, n :: !AltMatch(g, s, i, n)
  {
    var r := MatchAt(s, i);
    MatchAtIsSound(s, i);
    forall g, n | AltMatch(g, s, i, n)
      ensures r.Some? && Rank(r.value.group) <= Rank(g)
    {
      AltMatchStart(g, s, i, n);
    }
  }

  // ------------------------------------------------------- all matches of s

  function MatchEnd(m: Match): nat {
    m.index + |m.value|
  }

  /** No alternative of the regex matches at any position in `[a, b)`. */
  predicate NoMatchIn(s: string, a: nat, b: nat)
    requires b <= |s|
  {
    forall j :: a <= j < b ==> MatchAt(s, j).None?
  }

  /**
   * `ms` is a left-to-right regex scan of `s` from `i`: a stretch of positions where no
   * alternative matches, then the match the regex makes at the next position, then a
   * scan of the rest from the end of that match; with no matches, nothing matches up
   * to the end of `s`.
   */
  predicate IsScan(s: string, i: nat, ms: seq<Match>)
    decreases |ms|
  {
    && i <= |s|
    && if ms == [] then NoMatchIn(s, i, |s|)
       else
         && i <= ms[0].index < |s|
         && NoMatchIn(s, i, ms[0].index)
         && MatchAt(s, ms[0].index) == Some(ms[0])
         && IsScan(s, MatchEnd(ms[0]), ms[1..])
  }

  /** `Regex.Matches(s)` from position `i`: try at `i`; on a match continue after it, otherwise at `i + 1`. */
  function Matches(s: string, i: nat): (ms: seq<Match>)
    requires i <= |s|
    decreases |s| - i
  {
    if i == |s| then []
    else match MatchAt(s, i)
      case None => Matches(s, i + 1)
      case Some(m) => [m] + Matches(s, i + |m.value|)
  }

  /** The total length of all matched text, whitespace included. */
  function TotalLen(ms: seq<Match>): nat {
    if ms == [] then 0 else |ms[0].value| + TotalLen(ms[1..])
  }

  // ------------------------------------------------------------- tokens

  function IsKeyword(v: string): bool {
    v == "let" || v == "in" || v == "end" || v == "if" || v == "then" || v == "else"
  }

  /** The fixed text of every token kind that has one. */
  function Spelling(t: TokenType): Option<string> {
    match t
    case Let => Some("let")
    case In => Some("in")
    case End => Some("end")
    case If => Some("if")
    case Then => Some("then")
    case Else => Some("else")
    case LParen => Some("(")
    case RParen => Some(")")
    case Equal => Some("=")
    case Plus => Some("+")
    case Minus => Some("-")
    case Star => Some("*")
    case Less => Some("<")
    case Assign => Some(":=")
    case EOF => Some(EofLexeme)
    case _ => None
  }

  /** The kind of an identifier-shaped lexeme: a keyword kind for the six keywords, `Ident` otherwise. */
  function KeywordOrIdent(v: string): (t: TokenType)
    ensures t == Ident <==> !IsKeyword(v)
    ensures t != Ident ==> Spelling(t) == Some(v)
  {
    match v
    case "let" => Let
    case "in" => In
    case "end" => End
    case "if" => If
    case "then" => Then
    case "else" => Else
    case _ => Ident
  }

  /** The kind of a symbol lexeme; `None` for text with no symbol kind (the `==` match). */
  function SymbolType(v: string): (r: Option<TokenType>)
    ensures r.Some? ==> r.value != EOF && Spelling(r.value) == Some(v)
    ensures r.None? ==> v != ":=" && (|v| != 1 || !IsSymbolChar(v[0]))
  {
    match v
    case "(" => Some(LParen)
    case ")" => Some(RParen)
    case "+" => Some(Plus)
    case "-" => Some(Minus)
    case "*" => Some(Star)
    case "<" => Some(Less)
    case "=" => Some(Equal)
    case ":=" => Some(Assign)
    case _ =>
      assert |v| == 1 ==> v == [v[0]];
      None
  }

  /** The token made from a non-whitespace match, stamped with the running position. */
  function Classify(m: Match, pos: int): (r: Result<Token, LexError>)
    requires m.group != Ws
    ensures r.Ok? ==> r.value.lexeme == m.value && r.value.pos == pos && r.value.typ != EOF
    ensures r.Err? <==> m.group == Sym && SymbolType(m.value).None?
    ensures r.Err? ==> r.error == UnknownChar(m.value, pos)
  {
    match m.group
    case Num => Ok(Token(IntLit, m.value, pos))
    case Bool => Ok(Token(BoolLit, m.value, pos))
    case Id => Ok(Token(KeywordOrIdent(m.value), m.value, pos))
    case Sym =>
      match SymbolType(m.value)
      case None => Err(UnknownChar(m.value, pos))
      case Some(t) => Ok(Token(t, m.value, pos))
  }

  /** The lexer's last token: EOF with its placeholder text. */
  predicate EndsWithEof(toks: seq<Token>) {
    && |toks| >= 1
    && toks[|toks| - 1].typ == EOF
    && toks[|toks| - 1].lexeme == EofLexeme
    && forall k :: 0 <= k < |toks| - 1 ==> toks[k].typ != EOF
  }

  /** Token positions never go backwards: each token ends before any later token begins. */
  predicate Ordered(toks: seq<Token>) {
    forall k, l :: 0 <= k < l < |toks| ==> toks[k].pos + |toks[k].lexeme| <= toks[l].pos
  }

  /**
   * The kind of a token agrees with its text: identifiers are never keywords or boolean
   * words, literals have literal shape, and every other kind carries its fixed spelling.
   */
  predicate WellFormedToken(t: Token) {
    if t.typ == Ident then IsIdentifier(t.lexeme) && !IsKeyword(t.lexeme) && t.lexeme != "true" && t.lexeme != "false"
    else if t.typ == IntLit then IsDigits(t.lexeme)
    else if t.typ == BoolLit then t.lexeme == "true" || t.lexeme == "false"
    else Spelling(t.typ) == Some(t.lexeme)
  }

  predicate Shaped(ms: seq<Match>) {
    forall k :: 0 <= k < |ms| ==> ValueShape(ms[k])
  }

  /**
   * The token loop over the regex matches: whitespace advances the position and yields
   * nothing; every other match yields a token at the current position and then advances
   * it; one EOF token follows at the final position.
   */
  function LexMatches(ms: seq<Match>, pos: int): (r: Result<seq<Token>, LexError>)
    ensures r.Ok? ==> EndsWithEof(r.value) && Ordered(r.value)
    ensures r.Ok? ==> r.value[|r.value| - 1].pos == pos + TotalLen(ms)
    ensures r.Ok? ==> forall k :: 0 <= k < |r.value| ==> r.value[k].pos >= pos
  {
    if ms == [] then Ok([Token(EOF, EofLexeme, pos)])
    else if ms[0].group == Ws then LexMatches(ms[1..], pos + |ms[0].value|)
    else
      match Classify(ms[0], pos)
      case Err(e) => Err(e)
      case Ok(t) =>
        match LexMatches(ms[1..], pos + |ms[0].value|)
        case Err(e) => Err(e)
        case Ok(rest) =>
          TokenBeforeStream(t, rest, pos + |ms[0].value|);
          Ok([t] + rest)
  }

  /** A non-EOF token that ends by position `p`, put in front of a lexed stream that starts at `p`. */
  lemma TokenBeforeStream(t: Token, rest: seq<Token>, p: int)
    requires t.typ != EOF && t.pos + |t.lexeme| <= p
    requires EndsWithEof(rest) && Ordered(rest)
    requires forall k :: 0 <= k < |rest| ==> rest[k].pos >= p
    ensures EndsWithEof([t] + rest) && Ordered([t] + rest)
    ensures ([t] + rest)[|[t] + rest| - 1] == rest[|rest| - 1]
    ensures forall k :: 0 <= k < |[t] + rest| ==> ([t] + rest)[k].pos >= t.pos
  {
    var r := [t] + rest;
    assert forall k :: 1 <= k < |r| ==> r[k] == rest[k - 1];
  }

  /** `Lexer.Lex`: the tokens of `s`, ending in one EOF token. */
  function Lex(s: string): (r: Result<seq<Token>, LexError>)
    ensures r.Ok? ==> EndsWithEof(r.value) && Ordered(r.value)
    ensures r.Ok? ==> r.value[|r.value| - 1].pos == TotalLen(Matches(s, 0))
  {
    LexMatches(Matches(s, 0), 0)
  }

  // ---------------------------------------------------------------- lemmas

  /** A whitespace match yields no token; the loop continues at the advanced position. */
  lemma LexMatchesSkipsSpace(ms: seq<Match>, pos: int)
    requires ms != [] && ms[0].group == Ws
    ensures LexMatches(ms, pos) == LexMatches(ms[1..], pos + |ms[0].value|)
  {
  }

  /** A successful loop over a non-whitespace match yields its token, then the tokens of the rest. */
  lemma LexMatchesCons(ms: seq<Match>, pos: int) returns (t: Token, tail: seq<Token>)
    requires ms != [] && ms[0].group != Ws && LexMatches(ms, pos).Ok?
    ensures Classify(ms[0], pos) == Ok(t) && LexMatches(ms[1..], pos + |ms[0].value|) == Ok(tail)
    ensures LexMatches(ms, pos) == Ok([t] + tail)
  {
    var c := Classify(ms[0], pos);
    t := c.value;
    tail := LexMatches(ms[1..], pos + |ms[0].value|).value;
  }

  /** Positions where nothing matches are skipped: the scan from `i` is the scan from `j`. */
  lemma {:induction false} MatchesSkipsUnmatched(s: string, i: nat, j: nat)
    requires i <= j <= |s| && NoMatchIn(s, i, j)
    ensures Matches(s, i) == Matches(s, j)
    decreases j - i
  {
    if i < j {
      MatchesSkipsUnmatched(s, i + 1, j);
    }
  }

  /** `Matches` performs a left-to-right scan. */
  lemma {:induction false} MatchesIsAScan(s: string, i: nat)
    requires i <= |s|
    ensures IsScan(s, i, Matches(s, i))
    decreases |s| - i
  {
    if i < |s| {
      match MatchAt(s, i)
      case None =>
        var r := Matches(s, i + 1);
        assert Matches(s, i) == r;
        MatchesIsAScan(s, i + 1);
        if r == [] {
          assert NoMatchIn(s, i, |s|);
        } else {
          assert NoMatchIn(s, i, r[0].index);
        }
      case Some(m) =>
        var r := Matches(s, i + |m.value|);
        var ms := [m] + r;
        assert Matches(s, i) == ms;
        MatchesIsAScan(s, i + |m.value|);
        assert ms[0] == m && ms[1..] == r;
        assert MatchEnd(m) == i + |m.value|;
        assert IsScan(s, MatchEnd(ms[0]), ms[1..]);
        assert NoMatchIn(s, i, i);
        assert MatchAt(s, ms[0].index) == Some(ms[0]);
    }
  }

  /** Where the regex matches, the scan takes that match and continues after it. */
  lemma MatchesTakesMatch(s: string, i: nat)
    requires i < |s| && MatchAt(s, i).Some?
    ensures Matches(s, i) == [MatchAt(s, i).value] + Matches(s, MatchEnd(MatchAt(s, i).value))
  {
  }

  /** A scan is determined by the input: every scan of `s` from `i` is `Matches(s, i)`. */
  lemma {:induction false} ScanIsUnique(s: string, i: nat, ms: seq<Match>)
    requires IsScan(s, i, ms)
    ensures ms == Matches(s, i)
    decreases |ms|
  {
    if ms == [] {
      MatchesSkipsUnmatched(s, i, |s|);
    } else {
      var m := ms[0];
      MatchesSkipsUnmatched(s, i, m.index);
      ScanIsUnique(s, MatchEnd(m), ms[1..]);
      MatchesTakesMatch(s, m.index);
      assert ms == [m] + ms[1..];
    }
  }

  /** Every match of a scan is the regex's match at its own start; the matches are in input order and disjoint. */
  lemma {:induction false} ScanMatchesAreOrdered(s: string, i: nat, ms: seq<Match>)
    requires IsScan(s, i, ms)
    ensures forall k :: 0 <= k < |ms| ==> i <= ms[k].index < |s| && MatchAt(s, ms[k].index) == Some(ms[k])
    ensures forall k :: 0 <= k < |ms| - 1 ==> MatchEnd(ms[k]) <= ms[k + 1].index
    decreases |ms|
  {
    if ms != [] {
      var rest := ms[1..];
      ScanMatchesAreOrdered(s, MatchEnd(ms[0]), rest);
      assert forall k :: 1 <= k < |ms| ==> ms[k] == rest[k - 1];
    }
  }

  /** A token classified from a well-shaped match agrees with its text. */
  lemma ClassifiedTokenIsWellFormed(m: Match, pos: int)
    requires m.group != Ws && ValueShape(m) && Classify(m, pos).Ok?
    ensures WellFormedToken(Classify(m, pos).value)
  {
    var t := Classify(m, pos).value;
    if m.group == Id {
      assert t.typ == KeywordOrIdent(m.value);
    } else if m.group == Sym {
      assert t.typ == SymbolType(m.value).value;
    }
  }

  /** Every token of the list agrees with its text. */
  predicate AllWellFormed(toks: seq<Token>) {
    forall k {:trigger WellFormedToken(toks[k])} :: 0 <= k < |toks| ==> WellFormedToken(toks[k])
  }

  lemma AllWellFormedCons(t: Token, tail: seq<Token>)
    requires WellFormedToken(t) && AllWellFormed(tail)
    ensures AllWellFormed([t] + tail)
  {
    var r := [t] + tail;
    forall k | 0 <= k < |r| ensures WellFormedToken(r[k]) {
      if k > 0 { assert r[k] == tail[k - 1]; }
    }
  }

  lemma ShapedTail(ms: seq<Match>)
    requires ms != [] && Shaped(ms)
    ensures ValueShape(ms[0]) && Shaped(ms[1..])
  {
    var rest := ms[1..];
    forall k | 0 <= k < |rest| ensures ValueShape(rest[k]) {
      assert rest[k] == ms[k + 1];
    }
  }

  /** Every token the loop produces from well-shaped matches agrees with its text. */
  lemma LexMatchesTokensWellFormed(ms: seq<Match>, pos: int)
    requires Shaped(ms) && LexMatches(ms, pos).Ok?
    ensures AllWellFormed(LexMatches(ms, pos).value)
    decreases |ms|
  {
    if ms == [] {
      assert LexMatches(ms, pos).value == [Token(EOF, EofLexeme, pos)];
    } else {
      var rest, pos' := ms[1..], pos + |ms[0].value|;
      ShapedTail(ms);
      if ms[0].group == Ws {
        LexMatchesSkipsSpace(ms, pos);
        LexMatchesTokensWellFormed(rest, pos');
      } else {
        var t, tail := LexMatchesCons(ms, pos);
        LexMatchesTokensWellFormed(rest, pos');
        ClassifiedTokenIsWellFormed(ms[0], pos);
        AllWellFormedCons(t, tail);
      }
    }
  }

  /** Some match of `ms` is a symbol with no token kind. */
  predicate HasUnknownSymbol(ms: seq<Match>) {
    exists k :: 0 <= k < |ms| && ms[k].group == Sym && SymbolType(ms[k].value).None?
  }

  /** An unknown symbol is the first match or one of the rest. */
  lemma HasUnknownSymbolCons(ms: seq<Match>)
    requires ms != []
    ensures HasUnknownSymbol(ms)
        <==> (ms[0].group == Sym && SymbolType(ms[0].value).None?) || HasUnknownSymbol(ms[1..])
  {
    var rest := ms[1..];
    if HasUnknownSymbol(rest) {
      var k :| 0 <= k < |rest| && rest[k].group == Sym && SymbolType(rest[k].value).None?;
      assert ms[k + 1] == rest[k];
    }
    if HasUnknownSymbol(ms) && !(ms[0].group == Sym && SymbolType(ms[0].value).None?) {
      var k :| 0 <= k < |ms| && ms[k].group == Sym && SymbolType(ms[k].value).None?;
      assert rest[k - 1] == ms[k];
    }
  }

  /** The loop fails exactly when some match is a symbol with no token kind, and reports that symbol. */
  lemma {:induction false} LexMatchesFailsOnUnknownSymbol(ms: seq<Match>, pos: int)
    ensures LexMatches(ms, pos).Err? <==> HasUnknownSymbol(ms)
    ensures LexMatches(ms, pos).Err? ==>
              exists k :: 0 <= k < |ms| && ms[k].group == Sym && SymbolType(ms[k].value).None?
                          && LexMatches(ms, pos).error.text == ms[k].value
    decreases |ms|
  {
    if ms != [] {
      var rest, pos' := ms[1..], pos + |ms[0].value|;
      LexMatchesFailsOnUnknownSymbol(rest, pos');
      var head := ms[0].group == Sym && SymbolType(ms[0].value).None?;
      HasUnknownSymbolCons(ms);
      if head {
        assert LexMatches(ms, pos).error.text == ms[0].value;
      } else if LexMatches(rest, pos').Err? {
        var k :| 0 <= k < |rest| && rest[k].group == Sym && SymbolType(rest[k].value).None?
                 && LexMatches(rest, pos').error.text == rest[k].value;
        assert ms[k + 1] == rest[k];
        assert LexMatches(ms, pos) == LexMatches(rest, pos');
      }
    }
  }

  /** Every token of `Lex(s)` agrees with its text: keywords are classified, identifiers are not keywords. */
  lemma LexTokensAreWellFormed(s: string)
    requires Lex(s).Ok?
    ensures AllWellFormed(Lex(s).value)
  {
    MatchesAreShaped(s);
    LexMatchesTokensWellFormed(Matches(s, 0), 0);
  }

  /** The only lexing error is a `==` in the input, reported as an unknown symbol. */
  lemma LexFailsExactlyOnDoubleEquals(s: string)
    ensures Lex(s).Err? <==> exists k :: 0 <= k < |Matches(s, 0)| && Matches(s, 0)[k].value == "=="
    ensures Lex(s).Err? ==> Lex(s).error.text == "=="
  {
    var ms := Matches(s, 0);
    MatchesAreShaped(s);
    LexMatchesFailsOnUnknownSymbol(ms, 0);
    FailingSymbolIsDoubleEquals(ms, 0);
    var r := LexMatches(ms, 0);
    assert Lex(s) == r;
    if r.Err? {
      var k :| 0 <= k < |ms| && ms[k].group == Sym && SymbolType(ms[k].value).None? && r.error.text == ms[k].value;
      UnknownSymbolIsDoubleEquals(ms[k]);
      assert Matches(s, 0)[k].value == "==";
    }
  }

  /** The regex matches of any input are well shaped, and each spells the input at its index. */
  lemma MatchesAreShaped(s: string)
    ensures Shaped(Matches(s, 0))
    ensures forall k :: 0 <= k < |Matches(s, 0)| ==> TextAt(s, Matches(s, 0)[k].index, Matches(s, 0)[k].value)
  {
    var ms := Matches(s, 0);
    MatchesIsAScan(s, 0);
    ScanMatchesAreOrdered(s, 0, ms);
    forall k | 0 <= k < |ms|
      ensures ValueShape(ms[k]) && TextAt(s, ms[k].index, ms[k].value)
    {
      MatchAtIsSound(s, ms[k].index);
    }
  }

  lemma FailingSymbolIsDoubleEquals(ms: seq<Match>, pos: int)
    requires Shaped(ms)
    ensures (exists k :: 0 <= k < |ms| && ms[k].group == Sym && SymbolType(ms[k].value).None?)
            <==> (exists k :: 0 <= k < |ms| && ms[k].value == "==")
  {
    forall k | 0 <= k < |ms|
      ensures ms[k].group == Sym && SymbolType(ms[k].value).None? <==> ms[k].value == "=="
    {
      UnknownSymbolIsDoubleEquals(ms[k]);
    }
  }

  /** Among well-shaped matches, the symbol without a token kind is exactly `==`. */
  lemma UnknownSymbolIsDoubleEquals(m: Match)
    requires ValueShape(m)
    ensures m.group == Sym && SymbolType(m.value).None? <==> m.value == "=="
  {
    if m.value == "==" {
      assert m.value[0] == '=';
    }
  }

  // ------------------------------------------------------------- coverage

  /** A character some alternative can start on: `:` only as the start of `:=`. */
  predicate Recognised(s: string, j: nat)
    requires j < |s|
  {
    IsSpace(s[j]) || IsDigit(s[j]) || IsIdentStart(s[j]) || IsSymbolChar(s[j]) || TextAt(s, j, ":=")
  }

  predicate AllRecognised(s: string) {
    forall j :: 0 <= j < |s| ==> Recognised(s, j)
  }

  /** The matches `ms` follow one another without gaps from `i` to `n`. */
  predicate Tiles(ms: seq<Match>, i: nat, n: nat)
    decreases |ms|
  {
    if ms == [] then i == n else ms[0].index == i && Tiles(ms[1..], MatchEnd(ms[0]), n)
  }

  /** The matched texts, concatenated. */
  function Texts(ms: seq<Match>): string {
    if ms == [] then [] else ms[0].value + Texts(ms[1..])
  }

  lemma RecognisedCharMatches(s: string, j: nat)
    requires j < |s| && Recognised(s, j)
    ensures MatchAt(s, j).Some?
  {
  }

  /**
   * When every character is recognised, no character is skipped: the matches cover the
   * input without gaps, and their texts (whitespace runs included) spell it exactly.
   */
  lemma {:induction false} MatchesTileRecognisedInput(s: string, i: nat)
    requires i <= |s|
    requires forall j :: i <= j < |s| ==> Recognised(s, j)
    ensures Tiles(Matches(s, i), i, |s|)
    ensures Texts(Matches(s, i)) == s[i..]
    decreases |s| - i
  {
    if i < |s| {
      RecognisedCharMatches(s, i);
      var m := MatchAt(s, i).value;
      assert Matches(s, i) == [m] + Matches(s, MatchEnd(m)) by {
        MatchesTakesMatch(s, i);
      }
      assert TextAt(s, i, m.value) by {
        MatchAtIsSound(s, i);
      }
      MatchesTileRecognisedInput(s, MatchEnd(m));
      TilesCons(s, m, Matches(s, MatchEnd(m)));
    } else {
      assert Matches(s, i) == [];
    }
  }

  /** A match spelling the input at its index, before a tiling of the rest, tiles the input from that index. */
  lemma TilesCons(s: string, m: Match, rest: seq<Match>)
    requires TextAt(s, m.index, m.value)
    requires Tiles(rest, MatchEnd(m), |s|) && Texts(rest) == s[MatchEnd(m)..]
    ensures Tiles([m] + rest, m.index, |s|)
    ensures Texts([m] + rest) == s[m.index..]
  {
    var ms := [m] + rest;
    assert ms[0] == m && ms[1..] == rest;
    assert s[m.index..] == s[m.index..MatchEnd(m)] + s[MatchEnd(m)..];
  }

  /** Every match spells the input at its index. */
  predicate SpelledIn(s: string, ms: seq<Match>)
    decreases |ms|
  {
    ms == [] || (TextAt(s, ms[0].index, ms[0].value) && SpelledIn(s, ms[1..]))
  }

  lemma {:induction false} SpelledInOfAll(s: string, ms: seq<Match>)
    requires forall k :: 0 <= k < |ms| ==> TextAt(s, ms[k].index, ms[k].value)
    ensures SpelledIn(s, ms)
    decreases |ms|
  {
    if ms != [] {
      var rest := ms[1..];
      forall k | 0 <= k < |rest| ensures TextAt(s, rest[k].index, rest[k].value) {
        assert rest[k] == ms[k + 1];
      }
      SpelledInOfAll(s, rest);
    }
  }

  /** The token's text is the input at the token's position. */
  predicate AtOffset(s: string, t: Token) {
    0 <= t.pos && TextAt(s, t.pos, t.lexeme)
  }

  /** Every token but the last (the EOF) sits at its offset. */
  predicate AllAtOffsets(s: string, toks: seq<Token>)
    decreases |toks|
  {
    |toks| <= 1 || (AtOffset(s, toks[0]) && AllAtOffsets(s, toks[1..]))
  }

  lemma {:induction false} AllAtOffsetsMeans(s: string, toks: seq<Token>)
    requires AllAtOffsets(s, toks)
    ensures forall k :: 0 <= k < |toks| - 1 ==> AtOffset(s, toks[k])
    decreases |toks|
  {
    if |toks| > 1 {
      var rest := toks[1..];
      AllAtOffsetsMeans(s, rest);
      forall k | 0 <= k < |toks| - 1 ensures AtOffset(s, toks[k]) {
        if k > 0 { assert toks[k] == rest[k - 1]; }
      }
    }
  }

  /** The matches of a tiling add up to the tiled stretch. */
  lemma {:induction false} TilesTotalLen(ms: seq<Match>, i: nat, n: nat)
    requires Tiles(ms, i, n)
    ensures i + TotalLen(ms) == n
    decreases |ms|
  {
    if ms != [] {
      TilesTotalLen(ms[1..], MatchEnd(ms[0]), n);
    }
  }

  /**
   * With the input tiled by its matches, each token's position is its offset in the
   * input and its text is the input there.
   */
  lemma {:induction false} LexMatchesPositionsAreOffsets(s: string, ms: seq<Match>, i: nat)
    requires Tiles(ms, i, |s|) && SpelledIn(s, ms)
    requires LexMatches(ms, i).Ok?
    ensures AllAtOffsets(s, LexMatches(ms, i).value)
    decreases |ms|
  {
    if ms != [] {
      var m, rest := ms[0], ms[1..];
      var next := i + |m.value|;
      assert m.index == i && MatchEnd(m) == next;
      if m.group == Ws {
        LexMatchesSkipsSpace(ms, i);
        LexMatchesPositionsAreOffsets(s, rest, next);
      } else {
        var t, tail := LexMatchesCons(ms, i);
        LexMatchesPositionsAreOffsets(s, rest, next);
        assert ([t] + tail)[0] == t && ([t] + tail)[1..] == tail;
      }
    }
  }

  /** Lexing an input made only of recognised characters places every token at its offset. */
  lemma LexPositionsAreOffsets(s: string)
    requires AllRecognised(s) && Lex(s).Ok?
    ensures forall k :: 0 <= k < |Lex(s).value| - 1 ==> AtOffset(s, Lex(s).value[k])
    ensures Lex(s).value[|Lex(s).value| - 1].pos == |s|
  {
    var ms := Matches(s, 0);
    MatchesTileRecognisedInput(s, 0);
    MatchesAreShaped(s);
    SpelledInOfAll(s, ms);
    LexMatchesPositionsAreOffsets(s, ms, 0);
    AllAtOffsetsMeans(s, Lex(s).value);
    TilesTotalLen(ms, 0, |s|);
  }

  /**
   * Whether or not characters were skipped, the token of the `k`th match (when it is not
   * whitespace) is the one numbered by the non-whitespace matches before it, and its
   * position is the start position plus the total length of the matches before it.
   */
  lemma {:induction false} LexMatchesPositionsAreMatchedLengths(ms: seq<Match>, pos: int, k: nat)
    requires LexMatches(ms, pos).Ok? && k < |ms| && ms[k].group != Ws
    ensures |NonSpace(ms[..k])| < |LexMatches(ms, pos).value| - 1
    ensures LexMatches(ms, pos).value[|NonSpace(ms[..k])|].pos == pos + TotalLen(ms[..k])
    decreases k
  {
    if k == 0 {
      assert ms[..0] == [];
      var t, tail := LexMatchesCons(ms, pos);
      assert ([t] + tail)[0] == t;
    } else {
      var rest, pos' := ms[1..], pos + |ms[0].value|;
      PrefixCons(ms, k);
      LexMatchesTail(ms, pos);
      LexMatchesPositionsAreMatchedLengths(rest, pos', k - 1);
      LexMatchesShift(ms, pos, |NonSpace(rest[..k - 1])|, pos' + TotalLen(rest[..k - 1]));
    }
  }

  /** The first `k` matches are the first one, then the first `k - 1` of the rest. */
  lemma PrefixCons(ms: seq<Match>, k: nat)
    requires 0 < k <= |ms|
    ensures TotalLen(ms[..k]) == |ms[0].value| + TotalLen(ms[1..][..k - 1])
    ensures |NonSpace(ms[..k])| == (if ms[0].group == Ws then 0 else 1) + |NonSpace(ms[1..][..k - 1])|
  {
    assert ms[..k][0] == ms[0] && ms[..k][1..] == ms[1..][..k - 1];
  }

  /** A successful loop succeeded on the rest of the matches too. */
  lemma LexMatchesTail(ms: seq<Match>, pos: int)
    requires ms != [] && LexMatches(ms, pos).Ok?
    ensures LexMatches(ms[1..], pos + |ms[0].value|).Ok?
  {
  }

  /**
   * The `n`th token of the rest of the loop is the `n`th token of the whole loop after a
   * whitespace match, and the `n + 1`st after any other.
   */
  lemma LexMatchesShift(ms: seq<Match>, pos: int, n: nat, p: int)
    requires ms != [] && LexMatches(ms, pos).Ok?
    requires var rest := LexMatches(ms[1..], pos + |ms[0].value|);
             rest.Ok? && n < |rest.value| - 1 && rest.value[n].pos == p
    ensures var n' := if ms[0].group == Ws then n else n + 1;
            n' < |LexMatches(ms, pos).value| - 1 && LexMatches(ms, pos).value[n'].pos == p
  {
    if ms[0].group == Ws {
      LexMatchesSkipsSpace(ms, pos);
    } else {
      var t, tail := LexMatchesCons(ms, pos);
      ConsIndex(t, tail, n);
    }
  }

  lemma ConsIndex(t: Token, tail: seq<Token>, n: nat)
    requires n < |tail|
    ensures |[t] + tail| == |tail| + 1 && ([t] + tail)[n + 1] == tail[n]
  {
  }

  /** In a scan from `i`, the matches before the `k`th fit, end to end, between `i` and its index. */
  lemma {:induction false} ScanLengthsBeforeIndex(s: string, i: nat, ms: seq<Match>, k: nat)
    requires IsScan(s, i, ms) && k < |ms|
    ensures i + TotalLen(ms[..k]) <= ms[k].index
    decreases k
  {
    if k == 0 {
      assert ms[..0] == [];
    } else {
      PrefixCons(ms, k);
      ScanLengthsBeforeIndex(s, MatchEnd(ms[0]), ms[1..], k - 1);
    }
  }

  /**
   * A token's position counts the matched text before it, whitespace included, but not
   * the skipped characters: the token of the `k`th match sits at the total length of the
   * matches before it, and so never after the match's index in the input.
   */
  lemma LexPositionsLag(s: string, k: nat)
    requires Lex(s).Ok? && k < |Matches(s, 0)| && Matches(s, 0)[k].group != Ws
    ensures |NonSpace(Matches(s, 0)[..k])| < |Lex(s).value| - 1
    ensures Lex(s).value[|NonSpace(Matches(s, 0)[..k])|].pos == TotalLen(Matches(s, 0)[..k])
    ensures TotalLen(Matches(s, 0)[..k]) <= Matches(s, 0)[k].index
  {
    LexMatchesPositionsAreMatchedLengths(Matches(s, 0), 0, k);
    MatchesIsAScan(s, 0);
    ScanLengthsBeforeIndex(s, 0, Matches(s, 0), k);
  }

  /** The non-whitespace matches, in order: the ones the token loop turns into tokens. */
  function NonSpace(ms: seq<Match>): (r: seq<Match>)
    ensures |r| <= |ms|
    ensures forall k :: 0 <= k < |r| ==> r[k].group != Ws
  {
    if ms == [] then []
    else if ms[0].group == Ws then NonSpace(ms[1..])
    else [ms[0]] + NonSpace(ms[1..])
  }

  /** The `k`th token is the classification of the `k`th non-whitespace match. */
  predicate TokensFollow(ms: seq<Match>, toks: seq<Token>) {
    && |toks| == |NonSpace(ms)| + 1
    && forall k :: 0 <= k < |NonSpace(ms)| ==> Classify(NonSpace(ms)[k], toks[k].pos) == Ok(toks[k])
  }

  /** `TokensFollow`, match by match as the loop walks the list. */
  predicate Follows(ms: seq<Match>, toks: seq<Token>)
    decreases |ms|
  {
    if ms == [] then |toks| == 1
    else if ms[0].group == Ws then Follows(ms[1..], toks)
    else |toks| >= 1 && Classify(ms[0], toks[0].pos) == Ok(toks[0]) && Follows(ms[1..], toks[1..])
  }

  /**
   * The token loop turns the non-whitespace matches, one for one and in order, into
   * tokens: each token is its match classified at the token's position, so its lexeme
   * is the matched text.
   */
  lemma {:induction false} LexMatchesFollowsMatches(ms: seq<Match>, pos: int)
    requires LexMatches(ms, pos).Ok?
    ensures Follows(ms, LexMatches(ms, pos).value)
    decreases |ms|
  {
    if ms != [] {
      var rest, pos' := ms[1..], pos + |ms[0].value|;
      if ms[0].group == Ws {
        LexMatchesSkipsSpace(ms, pos);
        LexMatchesFollowsMatches(rest, pos');
        FollowsSkipStep(ms, LexMatches(rest, pos').value);
      } else {
        var t, tail := LexMatchesCons(ms, pos);
        LexMatchesFollowsMatches(rest, pos');
        FollowsConsStep(ms, t, tail);
      }
    }
  }

  lemma FollowsSkipStep(ms: seq<Match>, toks: seq<Token>)
    requires ms != [] && ms[0].group == Ws && Follows(ms[1..], toks)
    ensures Follows(ms, toks)
  {
  }

  lemma FollowsConsStep(ms: seq<Match>, t: Token, tail: seq<Token>)
    requires ms != [] && ms[0].group != Ws
    requires Classify(ms[0], t.pos) == Ok(t) && Follows(ms[1..], tail)
    ensures Follows(ms, [t] + tail)
  {
    assert ([t] + tail)[0] == t && ([t] + tail)[1..] == tail;
  }

  lemma {:induction false} FollowsMeans(ms: seq<Match>, toks: seq<Token>)
    requires Follows(ms, toks)
    ensures TokensFollow(ms, toks)
    decreases |ms|
  {
    if ms == [] {
      assert NonSpace(ms) == [];
    } else if ms[0].group == Ws {
      FollowsMeans(ms[1..], toks);
      FollowSkip(ms, toks);
    } else {
      FollowsMeans(ms[1..], toks[1..]);
      FollowCons(ms, toks[0], toks[1..], toks[0].pos);
      assert [toks[0]] + toks[1..] == toks;
    }
  }

  lemma FollowSkip(ms: seq<Match>, toks: seq<Token>)
    requires ms != [] && ms[0].group == Ws && TokensFollow(ms[1..], toks)
    ensures TokensFollow(ms, toks)
  {
    assert NonSpace(ms) == NonSpace(ms[1..]);
  }

  lemma FollowCons(ms: seq<Match>, t: Token, tail: seq<Token>, pos: int)
    requires ms != [] && ms[0].group != Ws
    requires Classify(ms[0], pos) == Ok(t) && TokensFollow(ms[1..], tail)
    ensures TokensFollow(ms, [t] + tail)
  {
    var ns, toks := NonSpace(ms), [t] + tail;
    assert ns == [ms[0]] + NonSpace(ms[1..]);
    forall k | 0 <= k < |ns| ensures Classify(ns[k], toks[k].pos) == Ok(toks[k]) {
      if k > 0 {
        assert ns[k] == NonSpace(ms[1..])[k - 1] && toks[k] == tail[k - 1];
      }
    }
  }

  /** The matches lie in `s` at their indices, at or after `i`, in order and without overlap. */
  predicate InInputInOrder(s: string, i: nat, ms: seq<Match>) {
    && (forall k :: 0 <= k < |ms| ==> i <= ms[k].index && TextAt(s, ms[k].index, ms[k].value))
    && (forall k, l :: 0 <= k < l < |ms| ==> MatchEnd(ms[k]) <= ms[l].index)
  }

  /** Dropping the whitespace matches of a scan keeps the rest in the input, in order. */
  lemma {:induction false} NonSpaceOfScanInOrder(s: string, i: nat, ms: seq<Match>)
    requires IsScan(s, i, ms)
    ensures InInputInOrder(s, i, NonSpace(ms))
    decreases |ms|
  {
    if ms != [] {
      var m, rest := ms[0], ms[1..];
      NonSpaceOfScanInOrder(s, MatchEnd(m), rest);
      MatchAtIsSound(s, m.index);
      if m.group != Ws {
        var ns, nr := NonSpace(ms), NonSpace(rest);
        assert ns == [m] + nr;
        forall k | 0 <= k < |ns| ensures i <= ns[k].index && TextAt(s, ns[k].index, ns[k].value) {
          if k > 0 { assert ns[k] == nr[k - 1]; }
        }
        forall k, l | 0 <= k < l < |ns| ensures MatchEnd(ns[k]) <= ns[l].index {
          assert ns[l] == nr[l - 1];
          if k > 0 { assert ns[k] == nr[k - 1]; }
        }
      }
    }
  }

  /**
   * Every non-EOF token's text is a piece of the input: the `k`th one is found at the
   * index of the `k`th non-whitespace match, and these pieces appear in input order
   * without overlapping. Skipped characters only make positions lag behind the index.
   */
  lemma LexemesArePiecesInOrder(s: string)
    requires Lex(s).Ok?
    ensures var toks, ns := Lex(s).value, NonSpace(Matches(s, 0));
            && |toks| == |ns| + 1
            && (forall k :: 0 <= k < |ns| ==> toks[k].lexeme == ns[k].value && TextAt(s, ns[k].index, toks[k].lexeme))
            && (forall k, l :: 0 <= k < l < |ns| ==> ns[k].index + |toks[k].lexeme| <= ns[l].index)
  {
    var toks, ns := Lex(s).value, NonSpace(Matches(s, 0));
    LexMatchesFollowsMatches(Matches(s, 0), 0);
    FollowsMeans(Matches(s, 0), toks);
    MatchesIsAScan(s, 0);
    NonSpaceOfScanInOrder(s, 0, Matches(s, 0));
    forall k | 0 <= k < |ns| ensures toks[k].lexeme == ns[k].value {
      assert Classify(ns[k], toks[k].pos) == Ok(toks[k]);
    }
  }
}
