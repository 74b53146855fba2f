/** What `shell_quote` prints is read back as one word with the same text. */
module QuoteRoundTrip {
  import opened Chars
  import opened Escape
  import opened Words
  import opened Quote

  /** The marked-up text `w` is the text `s`: removing the marks from it gives `s`, whatever follows. */
  ghost predicate Stands(w: string, s: string) {
    forall t: string :: RmEscapes(w + t, false) == s + RmEscapes(t, false)
  }

  lemma StandsEmpty()
    ensures Stands([], [])
  {
    forall t: string
      ensures RmEscapes([] + t, false) == [] + RmEscapes(t, false)
    {
      Assoc(t, [], []);
      Assoc(RmEscapes(t, false), [], []);
    }
  }

  lemma StandsPlus(w1: string, s1: string, w2: string, s2: string)
    requires Stands(w1, s1) && Stands(w2, s2)
    ensures Stands(w1 + w2, s1 + s2)
  {
    hide RmEscapes;
    forall t: string
      ensures RmEscapes(w1 + w2 + t, false) == s1 + s2 + RmEscapes(t, false)
    {
      Assoc(w1, w2, t);
      Assoc(s1, s2, RmEscapes(t, false));
    }
  }

  lemma StandsChar(c: char)
    requires !IsCtl(c)
    ensures Stands([c], [c])
  {
    forall t: string
      ensures RmEscapes([c] + t, false) == [c] + RmEscapes(t, false)
    {
      assert ([c] + t)[1..] == t;
    }
  }

  lemma StandsEscaped(c: char)
    ensures Stands([CTLESC, c], [c])
  {
    forall t: string
      ensures RmEscapes([CTLESC, c] + t, false) == [c] + RmEscapes(t, false)
    {
      var s := [CTLESC, c] + t;
      assert s[0] == CTLESC && s[1] == c && s[2..] == t;
      assert RmEscapes(s, false) == [] + [c] + RmEscapes(t, false);
    }
  }

  lemma StandsMark()
    ensures Stands([CTLQUOTEMARK], [])
  {
    forall t: string
      ensures RmEscapes([CTLQUOTEMARK] + t, false) == [] + RmEscapes(t, false)
    {
      assert ([CTLQUOTEMARK] + t)[1..] == t;
      Assoc(RmEscapes(t, false), [], []);
    }
  }

  lemma StandsWhole(w: string, s: string)
    requires Stands(w, s)
    ensures RmEscapes(w, false) == s
  {
    Assoc(w, [], []);
    Assoc(s, [], []);
    assert RmEscapes(w + [], false) == s + RmEscapes([], false);
  }

  /** `t` is in the input at `i`. */
  ghost predicate Has(input: string, i: nat, t: string) {
    i + |t| <= |input| && input[i..i + |t|] == t
  }

  lemma HasSplit(input: string, i: nat, a: string, b: string)
    requires Has(input, i, a + b)
    ensures Has(input, i, a) && Has(input, i + |a|, b)
  {
    assert input[i..i + |a|] == input[i..i + |a + b|][..|a|] == a;
    assert input[i + |a|..i + |a| + |b|] == input[i..i + |a + b|][|a|..] == b;
  }

  /** The reading `l` stands for `s` and ends at `next`. */
  ghost predicate Reads(l: Lex, s: string, next: nat) {
    l.Read? && l.next == next && Stands(l.out, s)
  }

  lemma ReadsBefore(w: string, a: string, l: Lex, s: string, next: nat)
    requires Stands(w, a) && Reads(l, s, next)
    ensures Reads(Before(w, l), a + s, next)
  {
    hide Stands;
    StandsPlus(w, a, l.out, s);
  }

  lemma MarkedByte(c: char)
    requires '\0' < c < '\U{100}'
    ensures Marked(Signed(c), 0) == Marked(c as int, 0) == Some([CTLESC, c])
  {
    assert (c as int - 256) % 256 == c as int;
  }

  lemma ReadClose(input: string, i: nat, dollar: bool)
    requires i < |input| && input[i] == '\''
    ensures ReadString(input, i, dollar, 0) == Read([], i + 1)
  {
  }

  /** Inside `'...'`. */
  lemma {:induction false} ReadSingle(input: string, i: nat, s: seq<Byte>)
    requires Has(input, i, s + ['\'']) && forall k :: 0 <= k < |s| ==> s[k] != '\''
    ensures Reads(ReadString(input, i, false, 0), s, i + |s| + 1)
    decreases |s|
  {
    if s == [] {
      StandsEmpty();
    } else {
      var c: Byte := s[0];
      assert s + ['\''] == [c] + (s[1..] + ['\'']);
      HasSplit(input, i, [c], s[1..] + ['\'']);
      ReadSingle(input, i + 1, s[1..]);
      var rest := ReadString(input, i + 1, false, 0);
      MarkedByte(c);
      assert s == [c] + s[1..];
      if c == '\\' || IsControl(c) {
        StandsEscaped(c);
        ReadsBefore([CTLESC, c], [c], rest, s[1..], i + |s| + 1);
      } else {
        StandsChar(c);
        ReadsBefore([c], [c], rest, s[1..], i + |s| + 1);
      }
    }
  }

  /** Three octal digits are read back as the byte, whatever follows them. */
  lemma OctalBack(input: string, i: nat, c: Byte)
    requires Has(input, i, Octal(c))
    ensures i + 3 <= |input| && IsOctal(input[i]) && Digits(input, i, 3, 8) == (i + 3, c as int)
  {
    var n := c as int;
    var d := Octal(c);
    assert DigitsFrom(input, i + 3, 0, 8, n) == (i + 3, n);
    assert (n / 64 * 8 + n / 8 % 8) * 8 + n % 8 == n;
    assert DigitsFrom(input, i + 2, 1, 8, n / 64 * 8 + n / 8 % 8) == (i + 3, n);
    assert DigitsFrom(input, i + 1, 2, 8, n / 64) == (i + 3, n);
  }

  lemma EscapeLetter(input: string, i: nat, c: Byte)
    requires c in ESCCHARS && Has(input, i, ['\\', Letter(c)])
    ensures input[i] == '\\' && EscapeAt(input, i + 1) == Char(c as int, i + 2)
  {
    hide Letter, ESCCHARS, Digits;
    assert input[i..i + 2][0] == input[i] && input[i..i + 2][1] == input[i + 1];
  }

  lemma ReadLetter(input: string, i: nat, c: Byte)
    requires c in ESCCHARS && Has(input, i, ['\\', Letter(c)])
    ensures ReadString(input, i, true, 0) == Before([CTLESC, c], ReadString(input, i + 2, true, 0))
  {
    hide Letter, ESCCHARS, EscapeAt, Has, Marked;
    assert i + 2 <= |input| by {
      HasRoom(input, i, ['\\', Letter(c)]);
    }
    EscapeLetter(input, i, c);
    MarkedByte(c);
  }

  lemma HasRoom(input: string, i: nat, t: string)
    requires Has(input, i, t)
    ensures i + |t| <= |input|
  {
  }

  lemma ReadOctal(input: string, i: nat, c: Byte)
    requires Has(input, i, ['\\'] + Octal(c))
    ensures ReadString(input, i, true, 0) == Before([CTLESC, c], ReadString(input, i + 4, true, 0))
  {
    hide Has, Octal, Digits;
    HasSplit(input, i, ['\\'], Octal(c));
    OctalBack(input, i + 1, c);
    MarkedByte(c);
  }

  /** One character of `$'...'`: the text that stands for it, and the rest. */
  lemma ReadOne(input: string, i: nat, c: Byte) returns (w: string)
    requires Has(input, i, Dollar(c))
    ensures i + |Dollar(c)| <= |input| && Stands(w, [c])
    ensures ReadString(input, i, true, 0) == Before(w, ReadString(input, i + |Dollar(c)|, true, 0))
  {
    hide Stands, Letter, RmEscapes, Digits, EscapeAt, QCHARS;
    StandsEscaped(c);
    w := [CTLESC, c];
    if c in ESCCHARS {
      ReadLetter(input, i, c);
    } else if !IsPlain(c) {
      ReadOctal(input, i, c);
    } else {
      StandsChar(c);
      MarkedByte(c);
      w := if IsControl(c) then [CTLESC, c] else [c];
    }
  }

  /** Inside `$'...'`. */
  lemma {:induction false} ReadDollar(input: string, i: nat, s: seq<Byte>)
    requires Has(input, i, DollarAll(s) + ['\''])
    ensures Reads(ReadString(input, i, true, 0), s, i + |DollarAll(s)| + 1)
    decreases |s|
  {
    hide Stands, ReadString, ReadMarked, Dollar;
    if s == [] {
      ReadClose(input, i, true);
      StandsEmpty();
    } else {
      var c: Byte, d := s[0], Dollar(s[0]);
      Assoc(d, DollarAll(s[1..]), ['\'']);
      HasSplit(input, i, d, DollarAll(s[1..]) + ['\'']);
      ReadDollar(input, i + |d|, s[1..]);
      var w := ReadOne(input, i, c);
      var rest := ReadString(input, i + |d|, true, 0);
      ReadsBefore(w, [c], rest, s[1..], i + |DollarAll(s)| + 1);
      assert s == [c] + s[1..];
    }
  }

  /** The input ends at `i`, or goes on with a character that ends a word. */
  predicate AtWordEnd(input: string, i: nat) {
    i == |input| || (i < |input| && EndsWord(input[i]))
  }

  /** Outside quotes. */
  lemma {:induction false} ReadPlain(input: string, i: nat, s: seq<Byte>)
    requires Has(input, i, s) && AtWordEnd(input, i + |s|)
    requires forall k :: 0 <= k < |s| ==> !NeedsDollar(s[k]) && s[k] !in QCHARS
    ensures Reads(ReadWord(input, i), s, i + |s|)
    decreases |s|
  {
    hide Has, ReadWord, Stands, QCHARS, NeedsDollar;
    HasRoom(input, i, s);
    if s == [] {
      WordStops(input, i);
      StandsEmpty();
    } else {
      var c: Byte := s[0];
      PlainIsOrdinary(c);
      assert s == [c] + s[1..];
      HasSplit(input, i, [c], s[1..]);
      ReadPlain(input, i + 1, s[1..]);
      PlainStep(input, i, c);
      StandsChar(c);
      ReadsBefore([c], [c], ReadWord(input, i + 1), s[1..], i + |s|);
    }
  }

  lemma WordStops(input: string, i: nat)
    requires i <= |input| && AtWordEnd(input, i)
    ensures ReadWord(input, i) == Read([], i)
  {
  }

  lemma PlainStep(input: string, i: nat, c: Byte)
    requires Has(input, i, [c]) && !NeedsDollar(c) && c !in QCHARS
    ensures i < |input| && ReadWord(input, i) == Before([c], ReadWord(input, i + 1))
  {
    hide QCHARS, NeedsDollar;
    PlainIsOrdinary(c);
    assert input[i] == input[i..i + 1][0];
  }

  lemma PlainIsOrdinary(c: Byte)
    requires !NeedsDollar(c) && c !in QCHARS
    ensures c != '\\' && c != '\'' && c != '$' && c != '"' && c != '`' && !EndsWord(c) && !IsCtl(c)
  {
  }

  /** A quoted string that makes up a whole word. */
  lemma ReadWhole(input: string, i: nat, dollar: bool, s: seq<Byte>, next: nat)
    requires i <= |input| && Reads(ReadString(input, i, dollar, 0), s, next) && next <= |input| && AtWordEnd(input, next)
    ensures Reads(ReadQuoted(input, i, dollar), s, next)
  {
    hide Stands, ReadString, ReadMarked, RmEscapes;
    var w := ReadString(input, i, dollar, 0).out;
    StandsMark();
    StandsPlus([CTLQUOTEMARK], [], w, s);
    StandsPlus([CTLQUOTEMARK] + w, [] + s, [CTLQUOTEMARK], []);
    StandsEmpty();
    Assoc(s, [], []);
    ReadsBefore([CTLQUOTEMARK] + w + [CTLQUOTEMARK], s, ReadWord(input, next), [], next);
  }

  /** Behind the opening of `'...'` or `$'...'`. */
  lemma ReadOpen(input: string, i: nat, dollar: bool)
    requires Has(input, i, if dollar then ['$', '\''] else ['\''])
    ensures i + 2 <= |input| || !dollar
    ensures ReadWord(input, i) == ReadQuoted(input, if dollar then i + 2 else i + 1, dollar)
  {
    hide ReadQuoted;
  }

  lemma QuotedReads(s: seq<Byte>, force: bool, input: string)
    requires Has(input, 0, Quoted(s, force)) && AtWordEnd(input, |Quoted(s, force)|)
    ensures Reads(ReadWord(input, 0), s, |Quoted(s, force)|)
  {
    hide Stands, ReadWord, ReadString, ReadQuoted, DollarAll, Reads, AtWordEnd, NeedsDollar, QCHARS;
    var next := |Quoted(s, force)|;
    if HasDollar(s, |s|) {
      Assoc(['$', '\''], DollarAll(s), ['\'']);
      HasSplit(input, 0, ['$', '\''], DollarAll(s) + ['\'']);
      ReadOpen(input, 0, true);
      ReadDollar(input, 2, s);
      ReadWhole(input, 2, true, s, next);
    } else if force || s == [] || HasSpecial(s, |s|) {
      Assoc(['\''], s, ['\'']);
      HasSplit(input, 0, ['\''], s + ['\'']);
      ReadOpen(input, 0, false);
      NoApostrophe(s);
      ReadSingle(input, 1, s);
      ReadWhole(input, 1, false, s, next);
    } else {
      ReadPlain(input, 0, s);
    }
  }

  lemma NoApostrophe(s: seq<Byte>)
    requires !HasDollar(s, |s|)
    ensures '\'' !in s
  {
  }

  lemma QuotedIsRead(s: seq<Byte>, force: bool, rest: string)
    requires rest == [] || EndsWord(rest[0])
    ensures var l := ReadWord(Quoted(s, force) + rest, 0);
            l.Read? && l.next == |Quoted(s, force)| && RmEscapes(l.out, false) == s
  {
    hide Stands, ReadWord, Quoted, RmEscapes, EndsWord;
    var q := Quoted(s, force);
    var input := q + rest;
    assert input[0..|q|] == q;
    QuotedReads(s, force, input);
    StandsWhole(ReadWord(input, 0).out, s);
  }

  /** One digit, which nothing makes `shell_quote` put in quotes. */
  predicate IsBareDigit(s: seq<Byte>, force: bool) { !force && |s| == 1 && IsDigit(s[0]) }

  lemma BareDigit(s: seq<Byte>, rest: string)
    requires |s| == 1 && IsDigit(s[0]) && rest != [] && EndsWord(rest[0])
    ensures Quoted(s, false) == s && ReadWord(s + rest, 0) == Read(s, 1) && !IsQuoted(s + rest, 0)
  {
    var input := s + rest;
    assert input[0] == s[0] && input[1] == rest[0];
    assert !HasDollar(s, 1) && !HasSpecial(s, 1);
    assert EatBnl(input, 0) == 0 && EatBnl(input, 1) == 1;
    assert ReadWord(input, 1) == Read([], 1) && !IsQuoted(input, 1);
    assert [s[0]] + [] == s;
  }

  lemma QuotesShow(s: seq<Byte>, force: bool, rest: string)
    requires force || s == [] || HasDollar(s, |s|) || HasSpecial(s, |s|)
    ensures IsQuoted(Quoted(s, force) + rest, 0)
  {
    hide DollarAll;
    var input := Quoted(s, force) + rest;
    if HasDollar(s, |s|) {
      assert input[0] == '$' && input[1] == '\'';
      assert EatBnl(input, 0) == 0 && EatBnl(input, 1) == 1;
    } else {
      assert input[0] == '\'';
      assert EatBnl(input, 0) == 0;
    }
  }

  lemma DigitsStay(w: string)
    requires |w| <= 1 && (w == [] || IsDigit(w[0]))
    ensures RmEscapes(w, false) == w
  {
    if w != [] {
      assert w[1..] == [] && [w[0]] + [] == w;
    }
  }

  /**
   * For every C string `s`, in any quoting style and whatever ends it, the output of `shell_quote` is read as a word
   * that ends where the output does and is `s` once its quotes are removed, exactly unless it is a bare digit in
   * front of `<` or `>`, which is the number of a descriptor.
   */
  lemma QuoteRoundTrip(s: seq<Byte>, force: bool, rest: string)
    requires rest == [] || rest[0] in {'\n', ' ', '\t', '<', '>', ';', '&', '|', '(', ')'}
    ensures var t := TokenAt(Quoted(s, force) + rest, 0);
            (t.Word? && t.next == |Quoted(s, force)| && RmEscapes(t.text, false) == s) <==>
              !(IsBareDigit(s, force) && rest != [] && rest[0] in {'<', '>'})
  {
    assert rest != [] ==> EndsWord(rest[0]);
    hide ReadWord, Quoted, RmEscapes, IsQuoted, HasDollar, HasSpecial, EndsWord;
    QuotedIsRead(s, force, rest);
    var q := Quoted(s, force);
    var l := ReadWord(q + rest, 0);
    assert At(q + rest, |q|) == At(rest, 0);
    if IsBareDigit(s, force) && rest != [] {
      BareDigit(s, rest);
    } else if |l.out| <= 1 && (l.out == [] || IsDigit(l.out[0])) {
      DigitsStay(l.out);
      if s == [] || force {
        QuotesShow(s, force, rest);
      }
    }
  }

  /** `2>x` is what `shell_quote` prints of `2`, and `>x`; it redirects descriptor 2. */
  lemma DigitIsDescriptor()
    ensures Quoted("2", false) == "2" && TokenAt(Quoted("2", false) + ">x", 0) == Redirection("2", 1)
  {
    BareDigit("2", ">x");
  }
}
