/** Reading a word of the shell language: the quoting branches of the tokenizer (src/parser.c). */
module Words {
  import opened Chars

  /**
   * What is read: the marked-up text and the position behind it, an error, or something that the quoting
   * branches leave to others (double quotes, `$` and backquotes).
   */
  datatype Lex = Read(out: string, next: nat) | Error | Elsewhere

  function Before(out: string, l: Lex): Lex {
    if l.Read? then Read(out + l.out, l.next) else l
  }

  predicate IsOctal(c: char) { '0' <= c <= '7' }

  predicate IsHex(c: char) { IsDigit(c) || 'a' <= c <= 'f' || 'A' <= c <= 'F' }

  function HexValue(c: char): nat
    requires IsHex(c)
  {
    if IsDigit(c) then c as int - '0' as int
    else if 'a' <= c <= 'f' then c as int - 'a' as int + 10 else c as int - 'A' as int + 10
  }

  /** The digits at `i`, at most `max` of them: the position behind them and their value. */
  function Digits(s: string, i: nat, max: nat, base: nat): (r: (nat, nat))
    requires i <= |s| && (base == 8 || base == 16)
    ensures i <= r.0 <= |s|
    decreases max
  {
    DigitsFrom(s, i, max, base, 0)
  }

  function DigitsFrom(s: string, i: nat, max: nat, base: nat, value: nat): (r: (nat, nat))
    requires i <= |s| && (base == 8 || base == 16)
    ensures i <= r.0 <= |s|
    decreases max
  {
    if max == 0 || i == |s| || !(if base == 8 then IsOctal(s[i]) else IsHex(s[i])) then (i, value)
    else DigitsFrom(s, i + 1, max - 1, base, value * base + HexValue(s[i]))
  }

  /** The effect of `\c` on the next character. */
  function Toggle(c: int): int {
    var d := if 'a' as int <= c <= 'z' as int then c - 0x20 else c;
    if (d / 0x40) % 2 == 1 then d - 0x40 else d + 0x40
  }

  function ToggleTimes(c: int, n: nat): int
    decreases n
  {
    if n == 0 then c else ToggleTimes(Toggle(c), n - 1)
  }

  /** Characters that the tokenizer marks inside quotes. */
  predicate IsControl(c: char) {
    IsCtl(c) || c in {'!', '*', '?', '[', '=', '~', ':', '/', '-', ']'}
  }

  /** A character behind CTLESC; None when it has become NUL. */
  function Marked(c: int, toggles: nat): Option<string> {
    var b := ToggleTimes(c, toggles) % 0x100;
    if b == 0 then None else Some([CTLESC, b as char])
  }

  /** What a backslash in `$'...'` introduces. */
  datatype Escape = Char(c: int, next: nat) | Control(next: nat) | BadNumber

  function Unletter(l: char): char {
    if l == 'a' then '\U{07}' else if l == 'b' then '\U{08}' else if l == 'e' then '\U{1b}' else if l == 'f' then '\U{0c}'
    else if l == 'n' then '\n' else if l == 'r' then '\r' else if l == 't' then '\t' else if l == 'v' then '\U{0b}'
    else l
  }

  /** The escape sequence whose backslash is in front of `i`. */
  function EscapeAt(s: string, i: nat): (e: Escape)
    requires i <= |s|
    ensures !e.BadNumber? ==> i <= e.next <= |s| && (i < |s| ==> i < e.next)
  {
    if i == |s| then Char('\\' as int, i)
    else if IsOctal(s[i]) then
      var (next, value) := Digits(s, i, 3, 8);
      Char(value, next)
    else if s[i] == 'x' then
      var (next, value) := Digits(s, i + 1, 2, 16);
      if next == i + 1 then BadNumber else Char(value, next)
    else if s[i] == 'c' then Control(i + 1)
    else Char(Signed(Unletter(s[i])), i + 1)
  }

  /** The rest of `'...'`, or of `$'...'` when `dollar`, up to the closing quote. */
  function ReadString(s: string, i: nat, dollar: bool, toggles: nat): Lex
    requires i <= |s|
    decreases |s| - i, 0
  {
    if i == |s| then Error
    else if s[i] == '\'' then Read([], i + 1)
    else if s[i] == '\\' && dollar then
      (match EscapeAt(s, i + 1)
       case BadNumber => Error
       case Control(next) => ReadString(s, next, dollar, (if toggles == 2 then 0 else toggles) + 1)
       case Char(c, next) => ReadMarked(s, next, dollar, c, toggles))
    else if s[i] == '\\' || IsControl(s[i]) || toggles > 0 then ReadMarked(s, i + 1, dollar, Signed(s[i]), toggles)
    else Before([s[i]], ReadString(s, i + 1, dollar, 0))
  }

  /** A NUL cuts the text short; the string is still read to its end. */
  function ReadMarked(s: string, next: nat, dollar: bool, c: int, toggles: nat): Lex
    requires next <= |s|
    decreases |s| - next, 1
  {
    var rest := ReadString(s, next, dollar, 0);
    match Marked(c, toggles)
    case Some(out) => Before(out, rest)
    case None => if rest.Read? then Read([], rest.next) else rest
  }

  /** `pgetc_eatbnl`: the position of the next character, past line continuations. */
  function EatBnl(s: string, i: nat): (j: nat)
    requires i <= |s|
    ensures i <= j <= |s|
    decreases |s| - i
  {
    if i + 1 < |s| && s[i] == '\\' && s[i + 1] == '\n' then EatBnl(s, i + 2) else i
  }

  /** CTL_FIRST to CTL_LAST, which is one byte more than there are control bytes. */
  predicate InCtlRange(c: char) { CTLESC <= c <= CTLQUOTEMARK }

  predicate EndsWord(c: char) {
    c in {'\n', ' ', '\t', '<', '>', ';', '&', '|', '(', ')'}
  }

  /** The rest of an unquoted word. */
  function ReadWord(s: string, i: nat): Lex
    requires i <= |s|
    decreases |s| - i
  {
    var j := EatBnl(s, i);
    if j == |s| || EndsWord(s[j]) then Read([], j)
    else if s[j] == '\'' then ReadQuoted(s, j + 1, false)
    else if s[j] == '$' then
      var k := EatBnl(s, j + 1);
      if At(s, k) == '\'' then ReadQuoted(s, k + 1, true) else Elsewhere
    else if s[j] == '"' || s[j] == '`' then Elsewhere
    else if s[j] != '\\' then Before(if IsCtl(s[j]) then [CTLESC, s[j]] else [s[j]], ReadWord(s, j + 1))
    else if j + 1 == |s| then Read([CTLESC, '\\'], j + 1)
    else
      var c := s[j + 1];
      Before(if InCtlRange(c) then [CTLQUOTEMARK, CTLESC, c, CTLQUOTEMARK] else [CTLESC, c], ReadWord(s, j + 2))
  }

  /** Whether anything in the word at `i` is quoted (`quoteflag`), as far as the quoting branches read it. */
  predicate IsQuoted(s: string, i: nat)
    requires i <= |s|
    decreases |s| - i
  {
    var j := EatBnl(s, i);
    if j == |s| || EndsWord(s[j]) then false
    else if s[j] == '$' then At(s, EatBnl(s, j + 1)) == '\''
    else s[j] in {'\'', '"', '`', '\\'} || IsQuoted(s, j + 1)
  }

  /** A token: a word, a redirection sign with the descriptor number in front of it, or what others read. */
  datatype Token = Word(text: string, next: nat) | Redirection(fd: string, next: nat) | Other(l: Lex)

  /** Nothing is quoted, and there is at most a digit in front of `<` or `>`. */
  predicate IsDescriptor(text: string, quoted: bool, c: char) {
    (c == '<' || c == '>') && !quoted && |text| <= 1 && (text == [] || IsDigit(text[0]))
  }

  /** The token that the word at `i` makes. */
  function TokenAt(s: string, i: nat): Token
    requires i <= |s|
  {
    match ReadWord(s, i)
    case Read(out, next) =>
      if IsDescriptor(out, IsQuoted(s, i), At(s, next)) then Redirection(out, next) else Word(out, next)
    case l => Other(l)
  }

  /** A quoted string inside a word, and the rest of the word. */
  function ReadQuoted(s: string, i: nat, dollar: bool): Lex
    requires i <= |s|
    decreases |s| - i, 1
  {
    ReadStringBounds(s, i, dollar, 0);
    match ReadString(s, i, dollar, 0)
    case Read(out, next) => Before([CTLQUOTEMARK] + out + [CTLQUOTEMARK], ReadWord(s, next))
    case Error => Error
    case Elsewhere => Elsewhere
  }

  lemma {:induction false} ReadStringBounds(s: string, i: nat, dollar: bool, toggles: nat)
    requires i <= |s|
    ensures ReadString(s, i, dollar, toggles).Read? ==> i < ReadString(s, i, dollar, toggles).next <= |s|
    decreases |s| - i
  {
    if i < |s| && s[i] != '\'' {
      if s[i] == '\\' && dollar {
        var e := EscapeAt(s, i + 1);
        if e.Control? {
          ReadStringBounds(s, e.next, dollar, (if toggles == 2 then 0 else toggles) + 1);
        } else if e.Char? {
          ReadStringBounds(s, e.next, dollar, 0);
        }
      } else {
        ReadStringBounds(s, i + 1, dollar, 0);
      }
    }
  }

  lemma BeforeBefore(a: string, b: string, l: Lex)
    ensures Before(a, Before(b, l)) == Before(a + b, l) && Before([], l) == l
  {
    if l.Read? {
      Assoc(a, b, l.out);
    }
  }

  /** What the text `out` in front of the rest of the string becomes when the string ends in a NUL. */
  function Cut(out: string, rest: Lex): Lex {
    if rest.Read? then Read(out, rest.next) else rest
  }

  lemma MarkedStep(out: string, s: string, next: nat, dollar: bool, c: int, toggles: nat)
    requires next <= |s|
    ensures var rest := ReadString(s, next, dollar, 0);
            Before(out, ReadMarked(s, next, dollar, c, toggles)) ==
              (match Marked(c, toggles) case Some(m) => Before(out + m, rest) case None => Cut(out, rest))
  {
    hide ReadString, Marked;
    var rest := ReadString(s, next, dollar, 0);
    if Marked(c, toggles).Some? {
      BeforeBefore(out, Marked(c, toggles).value, rest);
    } else if rest.Read? {
      Assoc(out, [], []);
    }
  }

  /** The loop of the tokenizer inside `'...'` and `$'...'`. */
  method StringLoop(s: string, start: nat, dollar: bool) returns (l: Lex)
    requires start <= |s|
    ensures l == ReadString(s, start, dollar, 0)
    decreases |s| - start
  {
    hide ReadMarked, Marked, EscapeAt, IsControl;
    var i := start;
    var out := [];
    var toggles := 0;
    BeforeBefore([], [], ReadString(s, i, dollar, 0));
    while true
      invariant start <= i <= |s|
      invariant Before(out, ReadString(s, i, dollar, toggles)) == ReadString(s, start, dollar, 0)
      decreases |s| - i
    {
      if i == |s| {
        return Error;
      }
      var c := Signed(s[i]);
      i := i + 1;
      if s[i - 1] == '\'' {
        Assoc(out, [], []);
        return Read(out, i);
      }
      if s[i - 1] == '\\' && dollar {
        var e := EscapeAt(s, i);
        if e.BadNumber? {
          return Error;
        }
        i := e.next;
        if e.Control? {
          toggles := (if toggles == 2 then 0 else toggles) + 1;
          continue;
        }
        c := e.c;
      } else if s[i - 1] != '\\' && !IsControl(s[i - 1]) && toggles == 0 {
        BeforeBefore(out, [s[i - 1]], ReadString(s, i, dollar, 0));
        out := out + [s[i - 1]];
        continue;
      }
      MarkedStep(out, s, i, dollar, c, toggles);
      match Marked(c, toggles) {
        case None =>
          var rest := StringLoop(s, i, dollar);
          return Cut(out, rest);
        case Some(m) =>
          out := out + m;
          toggles := 0;
      }
    }
  }

  /** One turn of the loop outside quotes. */
  lemma {:induction false} WordStep(s: string, i: nat)
    requires i <= |s|
    ensures var j := EatBnl(s, i);
            if j == |s| || EndsWord(s[j]) then ReadWord(s, i) == Read([], j) && !IsQuoted(s, i)
            else if s[j] == '\'' then ReadWord(s, i) == ReadQuoted(s, j + 1, false) && IsQuoted(s, i)
            else if s[j] == '$' then
              var k := EatBnl(s, j + 1);
              if At(s, k) == '\'' then ReadWord(s, i) == ReadQuoted(s, k + 1, true) && IsQuoted(s, i)
              else ReadWord(s, i) == Elsewhere
            else if s[j] == '"' || s[j] == '`' then ReadWord(s, i) == Elsewhere
            else if s[j] != '\\' then
              && ReadWord(s, i) == Before(if IsCtl(s[j]) then [CTLESC, s[j]] else [s[j]], ReadWord(s, j + 1))
              && IsQuoted(s, i) == IsQuoted(s, j + 1)
            else
              && IsQuoted(s, i)
              && ReadWord(s, i) ==
                   if j + 1 == |s| then Read([CTLESC, '\\'], j + 1)
                   else Before(if InCtlRange(s[j + 1]) then [CTLQUOTEMARK, CTLESC, s[j + 1], CTLQUOTEMARK] else [CTLESC, s[j + 1]],
                               ReadWord(s, j + 2))
  {
    hide EndsWord, IsCtl, InCtlRange, EatBnl, ReadQuoted;
  }

  lemma {:induction false} QuotedStep(s: string, i: nat, dollar: bool)
    requires i <= |s|
    ensures var b := ReadString(s, i, dollar, 0);
            if b.Read? then
              b.next <= |s| && ReadQuoted(s, i, dollar) == Before([CTLQUOTEMARK] + b.out + [CTLQUOTEMARK], ReadWord(s, b.next))
            else ReadQuoted(s, i, dollar) == b
  {
    hide ReadString, ReadWord;
    ReadStringBounds(s, i, dollar, 0);
  }

  lemma EmptyWord(s: string)
    ensures ReadWord(s, |s|) == Read([], |s|)
  {
  }

  /** `readtoken1`, with `readtoken1_endword` */
  method ReadToken1(s: string, start: nat) returns (t: Token)
    requires start <= |s|
    ensures t == TokenAt(s, start)
  {
    var l, quoteflag := WordLoop(s, start);
    if !l.Read? {
      return Other(l);
    }
    var c := At(s, l.next);
    if (c == '>' || c == '<') && !quoteflag && |l.out| + 1 <= 2 && (l.out == [] || IsDigit(l.out[0])) {
      return Redirection(l.out, l.next);
    }
    t := Word(l.out, l.next);
  }

  /** The loop of the tokenizer outside quotes. */
  method WordLoop(s: string, start: nat) returns (l: Lex, quoteflag: bool)
    requires start <= |s|
    ensures l == ReadWord(s, start) && (l.Read? ==> quoteflag == IsQuoted(s, start))
  {
    hide ReadString, IsCtl, InCtlRange, EndsWord, ReadWord, ReadQuoted, IsQuoted;
    var i := start;
    var out := [];
    quoteflag := false;
    BeforeBefore([], [], ReadWord(s, i));
    while true
      invariant start <= i <= |s|
      invariant Before(out, ReadWord(s, i)) == ReadWord(s, start)
      invariant if quoteflag then IsQuoted(s, start) else IsQuoted(s, i) == IsQuoted(s, start)
      decreases |s| - i
    {
      WordStep(s, i);
      i := EatBnl(s, i);
      if i == |s| || EndsWord(s[i]) {
        Assoc(out, [], []);
        return Read(out, i), quoteflag;
      }
      var c := s[i];
      var dollar := c == '$';
      i := if dollar then EatBnl(s, i + 1) else i;
      if c == '\'' || (dollar && At(s, i) == '\'') {
        var body := StringLoop(s, i + 1, dollar);
        ReadStringBounds(s, i + 1, dollar, 0);
        QuotedStep(s, i + 1, dollar);
        if !body.Read? {
          return body, false;
        }
        quoteflag := true;
        var m := [CTLQUOTEMARK] + body.out + [CTLQUOTEMARK];
        BeforeBefore(out, m, ReadWord(s, body.next));
        out, i := out + m, body.next;
        continue;
      }
      if dollar || c == '"' || c == '`' {
        return Elsewhere, false;
      }
      var m;
      if c != '\\' {
        m := if IsCtl(c) then [CTLESC, c] else [c];
      } else if i + 1 == |s| {
        quoteflag := true;
        m := [CTLESC, '\\'];
        EmptyWord(s);
        Assoc(m, [], []);
      } else {
        quoteflag := true;
        i := i + 1;
        m := if InCtlRange(s[i]) then [CTLQUOTEMARK, CTLESC, s[i], CTLQUOTEMARK] else [CTLESC, s[i]];
      }
      i := i + 1;
      BeforeBefore(out, m, ReadWord(s, i));
      out := out + m;
    }
  }
}
