/** The scanner of arithmetic expressions (src/arith_yylex.c), and the meaning of a whole text. */
module ArithLexer {
  import opened Chars
  import opened IntmaxArith
  import opened Arith
  import ArithMeaning
  import Words

  // ---------- What the scanner delivers ----------

  const ARITH_REMASS := 24
  const ARITH_BANDASS := 25
  const ARITH_LSHIFTASS := 26
  const ARITH_RSHIFTASS := 27
  const ARITH_MULASS := 28
  const ARITH_ADDASS := 29
  const ARITH_BORASS := 30
  const ARITH_SUBASS := 31
  const ARITH_BXORASS := 32
  const ARITH_DIVASS := 33

  /** The token of an operator of one, two or three characters; 0 for anything else. */
  function OperatorCode(s: string): int {
    if |s| == 1 then Code1(s[0])
    else if |s| == 2 then Code2(s[0], s[1])
    else if s == "<<=" then ARITH_LSHIFTASS
    else if s == ">>=" then ARITH_RSHIFTASS
    else 0
  }

  function Code1(c: char): int {
    match c
    case '=' => ARITH_ASS
    case '!' => ARITH_NOT
    case '<' => ARITH_LT
    case '>' => ARITH_GT
    case '%' => ARITH_REM
    case '&' => ARITH_BAND
    case '*' => ARITH_MUL
    case '+' => ARITH_ADD
    case '|' => ARITH_BOR
    case '-' => ARITH_SUB
    case '^' => ARITH_BXOR
    case '/' => ARITH_DIV
    case '(' => ARITH_LPAREN
    case ')' => ARITH_RPAREN
    case '~' => ARITH_BNOT
    case '?' => ARITH_QMARK
    case ':' => ARITH_COLON
    case _ => 0
  }

  function Code2(c: char, d: char): int {
    if d == '=' then
      match c
      case '=' => ARITH_EQ
      case '!' => ARITH_NE
      case '<' => ARITH_LE
      case '>' => ARITH_GE
      case '%' => ARITH_REMASS
      case '&' => ARITH_BANDASS
      case '*' => ARITH_MULASS
      case '+' => ARITH_ADDASS
      case '|' => ARITH_BORASS
      case '-' => ARITH_SUBASS
      case '^' => ARITH_BXORASS
      case '/' => ARITH_DIVASS
      case _ => 0
    else if c != d then 0
    else
      match c
      case '<' => ARITH_LSHIFT
      case '>' => ARITH_RSHIFT
      case '|' => ARITH_OR
      case '&' => ARITH_AND
      case _ => 0
  }

  predicate IsOperator(s: string) { OperatorCode(s) != 0 }

  /** The length of the longest operator that `s` begins with, or 0. */
  function Longest(s: string): (n: nat)
    ensures n <= |s| && (n > 0 ==> IsOperator(s[..n]))
    ensures forall m :: n < m <= |s| ==> !IsOperator(s[..m])
  {
    assert forall m :: 3 < m <= |s| ==> |s[..m]| == m;
    if |s| >= 3 && IsOperator(s[..3]) then 3
    else if |s| >= 2 && IsOperator(s[..2]) then 2
    else if |s| >= 1 && IsOperator(s[..1]) then 1
    else 0
  }

  predicate IsBlank(c: char) { c == ' ' || c == '\t' || c == '\n' }

  predicate IsSpace(c: char) { IsBlank(c) || c == '\U{0b}' || c == '\U{0c}' || c == '\r' }

  predicate StartsName(c: char) { IsInName(c) && !IsDigit(c) }

  predicate IsDigitOf(c: char, base: nat) {
    if base == 8 then Words.IsOctal(c) else if base == 10 then IsDigit(c) else Words.IsHex(c)
  }

  /** How many characters at the start of `s` are wanted. */
  function Span(s: string, wanted: char -> bool): (n: nat)
    ensures n <= |s| && (forall i :: 0 <= i < n ==> wanted(s[i])) && (n < |s| ==> !wanted(s[n]))
  {
    if s == [] || !wanted(s[0]) then 0 else 1 + Span(s[1..], wanted)
  }

  /** `strtoimax` with base 0, on a text that starts with a digit: the base, and where the digits begin. */
  function BaseOf(s: string): (nat, nat) {
    if |s| >= 3 && s[0] == '0' && (s[1] == 'x' || s[1] == 'X') && Words.IsHex(s[2]) then (16, 2)
    else if s != [] && s[0] == '0' then (8, 0)
    else (10, 0)
  }

  function Value(digits: string, base: nat): nat {
    if digits == [] then 0
    else
      var last := digits[|digits| - 1];
      Value(digits[..|digits| - 1], base) * base + if Words.IsHex(last) then Words.HexValue(last) else 0
  }

  /** How many characters the number at the start of `s` has, and its value. */
  function Number(s: string): (r: (nat, nat))
    ensures r.0 <= |s|
  {
    var (base, start) := BaseOf(s);
    var n := Span(s[start..], c => IsDigitOf(c, base));
    (start + n, Value(s[start..start + n], base))
  }

  /** A token, or a number that is too large. */
  datatype Lexeme = Token(t: Tok) | BadNum

  /** The first token of `s`, the longest there is, and what is left; nothing is left out of an unknown character. */
  function Scan(s: string): (r: (Lexeme, string))
    ensures r.0.BadNum? || r.0.t == Op(0) || r.0.t == Op(ARITH_BAD) || |r.1| < |s|
    decreases |s|
  {
    if s == [] || s[0] == '\0' then (Token(Op(0)), s)
    else if IsBlank(s[0]) then Scan(s[1..])
    else if IsDigit(s[0]) then ScanNumber(s)
    else if StartsName(s[0]) then ScanName(s)
    else ScanOperator(s)
  }

  function ScanNumber(s: string): (r: (Lexeme, string))
    requires s != [] && IsDigit(s[0])
    ensures r.0.BadNum? || |r.1| < |s|
  {
    var (n, v) := Number(s);
    assert n > 0;
    if v >= TWO63 then (BadNum, s) else (Token(Num(v)), s[n..][Span(s[n..], IsSpace)..])
  }

  function ScanName(s: string): (r: (Lexeme, string))
    requires s != [] && StartsName(s[0])
    ensures |r.1| < |s|
  {
    var n := Span(s, IsInName);
    (Token(Var(s[..n])), s[n..])
  }

  function ScanOperator(s: string): (r: (Lexeme, string))
    requires s != []
    ensures r.0.Token? && (r.0.t == Op(ARITH_BAD) || |r.1| < |s|)
  {
    var n := Longest(s);
    (Token(Op(if n == 0 then ARITH_BAD else OperatorCode(s[..n]))), s[n..])
  }

  /** What an operator begins with is one. */
  lemma PrefixClosed(s: string, m: nat, n: nat)
    requires 0 < m <= n <= |s| && IsOperator(s[..n])
    ensures IsOperator(s[..m])
  {
    assert s[..n][..m] == s[..m];
  }

  lemma LongestIs(s: string, n: nat)
    requires n <= |s| && (n > 0 ==> IsOperator(s[..n])) && (n < |s| ==> !IsOperator(s[..n + 1]))
    ensures Longest(s) == n
  {
    var m := Longest(s);
    if m > n {
      PrefixClosed(s, n + 1, m);
    }
  }

  // ---------- The scanner ----------

  class Lexer {
    const text: string
    /** `arith_buf` */
    var pos: nat

    constructor (text: string)
      ensures this.text == text && pos == 0
    {
      this.text, pos := text, 0;
    }

    method Yylex() returns (t: Lexeme)
      requires pos <= |text|
      modifies this`pos
      ensures t == Scan(text[old(pos)..]).0
      ensures pos <= |text|
      ensures if t.Token? && t.t != Op(ARITH_BAD) then text[pos..] == Scan(text[old(pos)..]).1 else pos == old(pos)
    {
      var buf := pos;
      while IsBlank(At(text, buf))
        invariant pos <= buf <= |text| && Scan(text[buf..]) == Scan(text[pos..])
        decreases |text| - buf
      {
        assert text[buf..][1..] == text[buf + 1..];
        buf := buf + 1;
      }
      var c := At(text, buf);
      if c == '\0' {
        pos := buf;
        return Token(Op(0));
      } else if IsDigit(c) {
        t := ReadNumber(buf);
        return;
      } else if StartsName(c) {
        t := ReadName(buf);
        return;
      }
      var code, next := Operator(buf);
      if code != ARITH_BAD {
        pos := next;
      }
      return Token(Op(code));
    }

    /** `atomax`, which skips all white space behind the number */
    method ReadNumber(buf: nat) returns (t: Lexeme)
      requires buf < |text| && IsDigit(text[buf])
      modifies this`pos
      ensures t == ScanNumber(text[buf..]).0
      ensures if t.Token? then pos <= |text| && text[pos..] == ScanNumber(text[buf..]).1 else pos == old(pos)
    {
      hide Number, Span;
      var (n, v) := Number(text[buf..]);
      if v >= TWO63 {
        return BadNum;
      }
      var next := buf + n;
      ghost var rest := text[next..];
      while IsSpace(At(text, next))
        invariant buf + n <= next <= |text| && forall i :: 0 <= i < next - buf - n ==> IsSpace(rest[i])
        decreases |text| - next
      {
        next := next + 1;
      }
      assert rest == text[buf..][n..] && Span(rest, IsSpace) == next - buf - n;
      pos := next;
      t := Token(Num(v));
    }

    method ReadName(buf: nat) returns (t: Lexeme)
      requires buf < |text| && StartsName(text[buf])
      modifies this`pos
      ensures t == ScanName(text[buf..]).0 && t.Token?
      ensures pos <= |text| && text[pos..] == ScanName(text[buf..]).1
    {
      ghost var s := text[buf..];
      var next := buf + 1;
      while IsInName(At(text, next))
        invariant buf < next <= |text| && forall i :: 0 <= i < next - buf ==> IsInName(s[i])
        decreases |text| - next
      {
        next := next + 1;
      }
      assert Span(s, IsInName) == next - buf && s[..next - buf] == text[buf..next] && s[next - buf..] == text[next..];
      pos := next;
      t := Token(Var(text[buf..next]));
    }

    /** The operators; behind many of them `=` makes another one, whose token is larger by 14. */
    method Operator(buf: nat) returns (code: int, next: nat)
      requires buf < |text|
      ensures var n := Longest(text[buf..]);
              next == buf + n && code == if n == 0 then ARITH_BAD else OperatorCode(text[buf..][..n])
    {
      var c, checkeq := text[buf], true;
      code, next := 0, buf + 1;
      if c == '=' {
        code := ARITH_ASS;
      } else if c == '>' {
        code := ARITH_GT;
        if At(text, next) == '>' {
          code, next := ARITH_RSHIFT, next + 1;
        }
      } else if c == '<' {
        code := ARITH_LT;
        if At(text, next) == '<' {
          code, next := ARITH_LSHIFT, next + 1;
        }
      } else if c == '|' {
        code := ARITH_BOR;
        if At(text, next) == '|' {
          code, next, checkeq := ARITH_OR, next + 1, false;
        }
      } else if c == '&' {
        code := ARITH_BAND;
        if At(text, next) == '&' {
          code, next, checkeq := ARITH_AND, next + 1, false;
        }
      } else if c == '!' {
        code := ARITH_NOT;
      } else if c == '*' {
        code := ARITH_MUL;
      } else if c == '/' {
        code := ARITH_DIV;
      } else if c == '%' {
        code := ARITH_REM;
      } else if c == '+' {
        code := ARITH_ADD;
      } else if c == '-' {
        code := ARITH_SUB;
      } else if c == '^' {
        code := ARITH_BXOR;
      } else {
        code, checkeq := Single(c), false;
        if code == ARITH_BAD {
          next := buf;
        }
      }
      if checkeq && At(text, next) == '=' {
        code, next := code + 14, next + 1;
      }
      LongestIs(text[buf..], next - buf);
    }
  }

  /** The operators that are one character in any case. */
  function Single(c: char): int {
    match c
    case '(' => ARITH_LPAREN
    case ')' => ARITH_RPAREN
    case '~' => ARITH_BNOT
    case '?' => ARITH_QMARK
    case ':' => ARITH_COLON
    case _ => ARITH_BAD
  }

  // ---------- All tokens of a text ----------

  /** None: there is a number that is too large. Nothing is read behind a character that begins no token. */
  function Lex(s: string): Option<seq<Tok>>
    decreases |s|
  {
    var (t, rest) := Scan(s);
    if t.BadNum? then None
    else if t.t == Op(0) then Some([])
    else if t.t == Op(ARITH_BAD) then Some([t.t])
    else
      var l := Lex(rest);
      if l.None? then None else Some([t.t] + l.value)
  }

  /** `arith`; which error it is may depend on what else is wrong. */
  function ArithOf(text: string, st: Store, junk: Junk): Result {
    var l := Lex(text);
    if l.None? then Failed(BadNumber) else Evaluate(l.value, st, junk)
  }

  // ---------- Ways to write tokens ----------

  predicate Spells(s: string, t: Tok) {
    match t
    case Num(v) => s != [] && IsDigit(s[0]) && Number(s) == (|s|, v as int)
    case Var(name) => s == name && s != [] && StartsName(s[0]) && forall c <- s :: IsInName(c)
    case Op(code) => code != 0 && OperatorCode(s) == code
  }

  /** Whether `c` right behind the token makes it another one. */
  predicate Joins(s: string, t: Tok, c: char) {
    if t.Op? then IsOperator(s + [c]) else IsInName(c)
  }

  /** An operator is read as such exactly when the character behind it does not make it a longer one. */
  lemma OperatorEnds(s: string, u: string)
    requires IsOperator(s)
    ensures ScanOperator(s + u) == (Token(Op(OperatorCode(s))), u) <==> u == [] || !IsOperator(s + u[..1])
  {
    var l, n := s + u, |s|;
    assert l[..n] == s && l[n..] == u;
    if u != [] {
      assert l[..n + 1] == s + u[..1];
      if IsOperator(s + u[..1]) {
        assert Longest(l) > n;
        assert |ScanOperator(l).1| == |l| - Longest(l);
      } else {
        LongestIs(l, n);
      }
    } else {
      LongestIs(l, n);
    }
  }

  lemma NameEnds(s: string, u: string)
    requires Spells(s, Var(s)) && (u != [] ==> !IsInName(u[0]))
    ensures ScanName(s + u) == (Token(Var(s)), u)
  {
    var l, n := s + u, |s|;
    assert l[0] == s[0] && l[..n] == s && l[n..] == u;
    assert Span(l, IsInName) == n;
  }

  lemma NumberEnds(s: string, v: Intmax, u: string)
    requires Spells(s, Num(v)) && (u != [] ==> !IsInName(u[0]))
    ensures IsDigit((s + u)[0]) && ScanNumber(s + u) == (Token(Num(v)), u[Span(u, IsSpace)..])
  {
    NumberSame(s, u);
    assert (s + u)[|s|..] == u;
  }

  lemma NumberSame(s: string, u: string)
    requires s != [] && Number(s).0 == |s| && (u != [] ==> !IsInName(u[0]))
    ensures Number(s + u) == Number(s)
  {
    var l, n := s + u, |s|;
    var (base, start) := BaseOf(s);
    assert BaseOf(l) == (base, start);
    assert s[start..] + u == l[start..];
    assert forall c :: IsDigitOf(c, base) ==> IsInName(c);
    assert Span(l[start..], c => IsDigitOf(c, base)) == Span(s[start..], c => IsDigitOf(c, base)) == n - start;
    assert l[start..n] == s[start..n];
  }

  // ---------- Texts of tokens ----------

  /** A token as it is written, and the blanks behind it. */
  datatype Item = Item(text: string, tok: Tok, behind: string)

  function Text(items: seq<Item>): string {
    if items == [] then [] else items[0].text + (items[0].behind + Text(items[1..]))
  }

  function Tokens(items: seq<Item>): (l: seq<Tok>)
    ensures |l| == |items| && forall k :: 0 <= k < |l| ==> l[k] == items[k].tok
  {
    if items == [] then [] else [items[0].tok] + Tokens(items[1..])
  }

  predicate Blanks(s: string) { forall c <- s :: IsBlank(c) }

  /** Blanks may be missing wherever the token and what follows do not join. */
  ghost predicate Written(items: seq<Item>) {
    && (forall i <- items :: Spells(i.text, i.tok) && Blanks(i.behind))
    && (forall k :: 0 <= k < |items| - 1 && items[k].behind == [] ==>
          !Joins(items[k].text, items[k].tok, items[k + 1].text[0]))
  }

  lemma {:induction false} ScanBlanks(front: string, s: string)
    requires Blanks(front)
    ensures Scan(front + s) == Scan(s) && Lex(front + s) == Lex(s)
  {
    if front == [] {
      assert front + s == s;
    } else {
      assert IsBlank(front[0]) && (front + s)[0] == front[0] && (front + s)[1..] == front[1..] + s;
      ScanBlanks(front[1..], s);
    }
  }

  lemma BlankNeverJoins(s: string, t: Tok, c: char)
    requires IsBlank(c)
    ensures !Joins(s, t, c)
  {
    assert (s + [c])[|s|] == c;
  }

  /** What follows a token does not join it, and is no other white space. */
  lemma Follows(items: seq<Item>)
    requires items != [] && Written(items)
    ensures var u := items[0].behind + Text(items[1..]);
            u != [] ==> !Joins(items[0].text, items[0].tok, u[0])
  {
    hide Joins, Spells, IsBlank;
    var i := items[0];
    assert i in items;
    if i.behind != [] {
      BlankNeverJoins(i.text, i.tok, i.behind[0]);
    } else if |items| > 1 {
      assert items[1] in items && i.behind + Text(items[1..]) == Text(items[1..]);
      SpellsStart(items[1].text, items[1].tok);
      assert Text(items[1..])[0] == items[1].text[0];
    }
  }

  /** What starts a token does not start white space. */
  lemma SpellsStart(s: string, t: Tok)
    requires Spells(s, t)
    ensures s != [] && s[0] != '\0' && !IsSpace(s[0])
    ensures t.Num? ==> IsDigit(s[0])
    ensures t.Var? ==> StartsName(s[0])
    ensures t.Op? ==> !IsDigit(s[0]) && !StartsName(s[0]) && t.op != ARITH_BAD
  {
    if t.Op? {
      assert |s| == 1 || |s| == 2 || s == "<<=" || s == ">>=";
    }
  }

  /** White space behind a number goes with it; only blanks can be there. */
  lemma SpaceBehind(front: string, items: seq<Item>)
    requires Blanks(front) && Written(items)
    ensures var u := front + Text(items); u[Span(u, IsSpace)..] == Text(items)
  {
    var u := front + Text(items);
    if items != [] {
      assert items[0] in items;
      SpellsStart(items[0].text, items[0].tok);
      assert u[|front|] == items[0].text[0];
    }
    assert Span(u, IsSpace) == |front|;
  }

  lemma ScanSpelled(s: string, t: Tok, u: string)
    requires Spells(s, t) && (u != [] ==> !Joins(s, t, u[0]))
    ensures Scan(s + u) == (Token(t), if t.Num? then u[Span(u, IsSpace)..] else u)
  {
    hide ScanOperator, ScanName, ScanNumber, OperatorCode, Number, Span;
    SpellsStart(s, t);
    assert (s + u)[0] == s[0];
    match t
    case Op(code) =>
      OperatorEnds(s, u);
      assert u != [] ==> u[..1] == [u[0]];
    case Var(_) => NameEnds(s, u);
    case Num(v) => NumberEnds(s, v, u);
  }

  /** The first token of a text. */
  lemma ScanFirst(items: seq<Item>)
    requires items != [] && Written(items)
    ensures var (i, rest) := (items[0], items[0].behind + Text(items[1..]));
            Scan(Text(items)) == (Token(i.tok), if i.tok.Num? then Text(items[1..]) else rest)
  {
    hide Scan, Spells, Joins, Span, IsSpace;
    var i, u := items[0], items[0].behind + Text(items[1..]);
    assert i in items && Text(items) == i.text + u;
    Follows(items);
    ScanSpelled(i.text, i.tok, u);
    if i.tok.Num? {
      assert Written(items[1..]);
      SpaceBehind(i.behind, items[1..]);
    }
  }

  /** However tokens are written and set apart, they are what is read. */
  lemma {:induction false} LexText(front: string, items: seq<Item>)
    requires Blanks(front) && Written(items)
    ensures Lex(front + Text(items)) == Some(Tokens(items))
    decreases |items|
  {
    ScanBlanks(front, Text(items));
    if items != [] {
      hide Scan, Spells, Joins, IsSpace;
      var i, rest := items[0], items[1..];
      assert i in items;
      SpellsStart(i.text, i.tok);
      ScanFirst(items);
      assert Written(rest);
      LexText(i.behind, rest);
      LexText([], rest);
      assert [] + Text(rest) == Text(rest);
    }
  }

  /** `arith` on any way to write the tokens of any expression gives the meaning of the expression. */
  lemma TextMeaning(e: ArithMeaning.Expr, front: string, items: seq<Item>, st: Store, junk: Junk)
    requires Blanks(front) && Written(items) && Tokens(items) == ArithMeaning.Print(e, 12)
    ensures ArithOf(front + Text(items), st, junk) == ArithMeaning.Sem(e, st)
  {
    LexText(front, items);
    ArithMeaning.EvaluatePrinted(e, st, junk);
  }

  // ---------- Every expression can be written ----------

  function Decimal(v: nat): (s: string)
    ensures s != [] && (forall c <- s :: IsDigit(c)) && Value(s, 10) == v && (s[0] == '0' ==> v == 0 && s == "0")
  {
    var last := ['0' + (v % 10) as char];
    if v < 10 then last
    else
      var s := Decimal(v / 10) + last;
      assert s[..|s| - 1] == Decimal(v / 10);
      s
  }

  lemma DecimalSpells(v: Intmax)
    requires v >= 0
    ensures Spells(Decimal(v), Num(v))
  {
    var s := Decimal(v);
    var (base, start) := BaseOf(s);
    assert start == 0 && s[start..] == s;
    assert v == 0 ==> s == "0" && Value("0", 8) == Words.HexValue('0') == 0;
    assert forall c <- s :: IsDigitOf(c, base);
    assert Span(s, c => IsDigitOf(c, base)) == |s| && s[0..|s|] == s;
  }

  /** An operator's text, by its token. */
  function OperatorText(code: int): string {
    match code
    case 1 => "||" case 2 => "&&" case 6 => "=" case 7 => "!" case 8 => "<" case 9 => ">" case 10 => "%"
    case 11 => "&" case 12 => "<<" case 13 => ">>" case 14 => "*" case 15 => "+" case 16 => "|" case 17 => "-"
    case 18 => "^" case 19 => "/" case 20 => "==" case 21 => "!=" case 22 => "<=" case 23 => ">=" case 24 => "%="
    case 25 => "&=" case 26 => "<<=" case 27 => ">>=" case 28 => "*=" case 29 => "+=" case 30 => "|="
    case 31 => "-=" case 32 => "^=" case 33 => "/=" case 34 => "(" case 35 => ")" case 36 => "~" case 37 => "?"
    case 38 => ":" case _ => ""
  }

  predicate CanSpell(t: Tok) {
    match t
    case Num(v) => v >= 0
    case Var(name) => IsVarName(name)
    case Op(code) => 1 <= code <= 2 || 6 <= code <= 38
  }

  function Spelling(t: Tok): string
    requires CanSpell(t)
  {
    match t
    case Num(v) => Decimal(v)
    case Var(name) => name
    case Op(code) => OperatorText(code)
  }

  lemma SpellingSpells(t: Tok)
    requires CanSpell(t)
    ensures Spells(Spelling(t), t)
  {
    match t
    case Num(v) => DecimalSpells(v);
    case Var(_) =>
    case Op(_) =>
  }

  /** Numbers are not negative, as those in a text are, and names are names. */
  predicate Writable(e: ArithMeaning.Expr) {
    match e
    case Lit(v) => v >= 0
    case Name(name) => IsVarName(name)
    case Paren(e1) => Writable(e1)
    case Prefix(_, e1) => Writable(e1)
    case Bin(_, l, r) => Writable(l) && Writable(r)
    case AndE(l, r) => Writable(l) && Writable(r)
    case OrE(l, r) => Writable(l) && Writable(r)
    case CondE(c, t, f) => Writable(c) && Writable(t) && Writable(f)
    case AssignE(name, _, e1) => IsVarName(name) && Writable(e1)
  }

  lemma {:induction false} PrintSpells(e: ArithMeaning.Expr, lvl: nat)
    requires Writable(e)
    ensures forall t <- ArithMeaning.Print(e, lvl) :: CanSpell(t)
  {
    match e
    case Lit(_) =>
    case Name(_) =>
    case Paren(e1) => PrintSpells(e1, 12);
    case Prefix(_, e1) => PrintSpells(e1, 0);
    case Bin(op, l, r) => PrintSpells(l, Prec(op) + 1); PrintSpells(r, Prec(op));
    case AndE(l, r) => PrintSpells(l, 9); PrintSpells(r, 8);
    case OrE(l, r) => PrintSpells(l, 10); PrintSpells(r, 9);
    case CondE(c, t, f) => PrintSpells(c, 10); PrintSpells(t, 12); PrintSpells(f, 11);
    case AssignE(_, _, e1) => PrintSpells(e1, 12);
  }

  /** One blank behind every token. */
  function Spaced(l: seq<Tok>): (items: seq<Item>)
    requires forall t <- l :: CanSpell(t)
    ensures |items| == |l| && forall k :: 0 <= k < |l| ==> items[k] == Item(Spelling(l[k]), l[k], " ")
  {
    if l == [] then [] else [Item(Spelling(l[0]), l[0], " ")] + Spaced(l[1..])
  }

  /** A text for every expression: decimal numbers, and a blank behind every token. */
  lemma SpacedMeaning(e: ArithMeaning.Expr, st: Store, junk: Junk)
    requires Writable(e)
    ensures (forall t <- ArithMeaning.Print(e, 12) :: CanSpell(t))
         && ArithOf(Text(Spaced(ArithMeaning.Print(e, 12))), st, junk) == ArithMeaning.Sem(e, st)
  {
    PrintSpells(e, 12);
    var items := Spaced(ArithMeaning.Print(e, 12));
    forall i | i in items ensures Spells(i.text, i.tok) {
      SpellingSpells(i.tok);
    }
    TextMeaning(e, [], items, st, junk);
    assert [] + Text(items) == Text(items);
  }
}
