/** What quoting protects: a quoted text is no pattern, and nothing in it is special (section 2.2 of POSIX.1-2017 XCU). */
module WordLaws {
  import opened Chars
  import opened Glob
  import opened Escape
  import opened Words
  import opened Quote
  import opened QuoteRoundTrip

  /** What is special in a pattern outside brackets, and in addition what is in brackets, assignments, paths and `~`. */
  const PATTERN: set<char> := {'*', '?', '[', '\\'}
  const ACTIVE: set<char> := {'*', '?', '[', '\\', '!', '=', '~', ':', '/', '-', ']'}
  const CONTROL: set<char> := {'\U{81}', '\U{82}', '\U{83}', '\U{84}', '\U{86}', '\U{87}', '\U{88}'}

  /** The marked-up text `out` is `text`, with each character of `active` and each control byte behind CTLESC. */
  predicate Shown(out: string, text: string, active: set<char>)
    decreases |out|
  {
    if out == [] then text == []
    else if out[0] == CTLQUOTEMARK then Shown(out[1..], text, active)
    else
      text != [] &&
      if out[0] == CTLESC then |out| > 1 && out[1] == text[0] && Shown(out[2..], text[1..], active)
      else out[0] == text[0] && text[0] !in active && text[0] !in CONTROL && Shown(out[1..], text[1..], active)
  }

  lemma {:induction false} ShownRemoves(out: string, text: string, active: set<char>)
    requires Shown(out, text, active)
    ensures RmEscapes(out, false) == text
    decreases |out|
  {
    if out != [] {
      if out[0] == CTLQUOTEMARK {
        ShownRemoves(out[1..], text, active);
      } else if out[0] == CTLESC {
        ShownRemoves(out[2..], text[1..], active);
        assert [] + [out[1]] + text[1..] == text;
      } else {
        ShownRemoves(out[1..], text[1..], active);
      }
    }
  }

  lemma {:induction false} ShownElems(p: string, i: nat, out: string, text: string, active: set<char>)
    requires Shown(out, text, active) && PATTERN <= active && i <= |p| && p[i..] == RmEscapes(out, true)
    ensures Elems(p, i) == Some(Literals(text))
    decreases |out|
  {
    if out != [] {
      if out[0] == CTLQUOTEMARK {
        ShownElems(p, i, out[1..], text, active);
      } else if out[0] == CTLESC {
        var c, rest := out[1], RmEscapes(out[2..], true);
        if IsInName(c) {
          assert p[i..] == [c] + rest;
          NextElem(p, i, [c], rest);
          ShownElems(p, i + 1, out[2..], text[1..], active);
          assert ElemAt(p, i) == Found(Lit(c), i + 1);
        } else {
          assert p[i..] == [CTLESC, c] + rest;
          NextElem(p, i, [CTLESC, c], rest);
          ShownElems(p, i + 2, out[2..], text[1..], active);
          assert ElemAt(p, i) == Found(Lit(c), i + 2);
        }
      } else {
        var c, rest := out[0], RmEscapes(out[1..], true);
        assert p[i..] == [c] + rest;
        NextElem(p, i, [c], rest);
        ShownElems(p, i + 1, out[1..], text[1..], active);
        assert ElemAt(p, i) == Found(Lit(c), i + 1);
      }
    }
  }

  lemma NextElem(p: string, i: nat, first: string, rest: string)
    requires i <= |p| && p[i..] == first + rest && first != []
    ensures i + |first| <= |p| && p[i + |first|..] == rest
    ensures p[i] == first[0] && (|first| > 1 ==> p[i + 1] == first[1])
  {
    assert p[i..][0] == p[i] && (|first| > 1 ==> p[i..][1] == p[i + 1]);
    assert p[i..][|first|..] == rest;
  }

  /** As a pattern, the marked-up text matches the text it stands for and no other. */
  ghost predicate OnlyMatches(out: string, text: string) {
    && RmEscapes(out, false) == text
    && Elems(RmEscapes(out, true), 0).Some?
    && forall u: string :: Matches(Elems(RmEscapes(out, true), 0).value, u) <==> u == text
  }

  lemma ShownMatches(out: string, text: string, active: set<char>)
    requires Shown(out, text, active) && PATTERN <= active
    ensures OnlyMatches(out, text)
  {
    hide RmEscapes;
    var p := RmEscapes(out, true);
    assert p[0..] == p;
    ShownRemoves(out, text, active);
    ShownElems(p, 0, out, text, active);
    forall u: string
      ensures Matches(Elems(p, 0).value, u) <==> u == text
    {
      LiteralsMatch(text, u);
    }
  }

  /** Every active character stands behind CTLESC. */
  lemma {:induction false} ShownBehind(out: string, text: string, active: set<char>, k: nat)
    requires Shown(out, text, active) && k < |out| && out[k] in active && active !! CONTROL
    ensures k > 0 && out[k - 1] == CTLESC
    decreases |out|
  {
    if out[0] == CTLQUOTEMARK || (out[0] != CTLESC && k > 0) {
      ShownBehind(out[1..], if out[0] == CTLQUOTEMARK then text else text[1..], active, k - 1);
    } else if k > 1 {
      ShownBehind(out[2..], text[1..], active, k - 2);
    }
  }

  // ---------- Quoted strings ----------

  /** What is read inside quotes has nothing active, whatever the string is. */
  lemma {:induction false} StringShown(s: string, i: nat, dollar: bool, toggles: nat)
    requires i <= |s| && ReadString(s, i, dollar, toggles).Read?
    ensures var out := ReadString(s, i, dollar, toggles).out; Shown(out, RmEscapes(out, false), ACTIVE)
    decreases |s| - i, 0
  {
    hide RmEscapes, Marked, EscapeAt;
    if s[i] == '\'' {
      NothingShown();
    } else if s[i] == '\\' && dollar {
      var e := EscapeAt(s, i + 1);
      if e.Control? {
        StringShown(s, e.next, dollar, (if toggles == 2 then 0 else toggles) + 1);
      } else {
        MarkedShown(s, e.next, dollar, e.c, toggles);
      }
    } else if s[i] == '\\' || IsControl(s[i]) || toggles > 0 {
      MarkedShown(s, i + 1, dollar, Signed(s[i]), toggles);
    } else {
      StringShown(s, i + 1, dollar, 0);
      ShownCons(s[i], ReadString(s, i + 1, dollar, 0).out);
    }
  }

  lemma {:induction false} MarkedShown(s: string, next: nat, dollar: bool, c: int, toggles: nat)
    requires next <= |s| && ReadMarked(s, next, dollar, c, toggles).Read?
    ensures var out := ReadMarked(s, next, dollar, c, toggles).out; Shown(out, RmEscapes(out, false), ACTIVE)
    decreases |s| - next, 1
  {
    hide RmEscapes;
    StringShown(s, next, dollar, 0);
    NothingShown();
    var b := ToggleTimes(c, toggles) % 0x100;
    if b != 0 {
      ShownEscaped(b as char, ReadString(s, next, dollar, 0).out);
    }
  }

  lemma NothingShown()
    ensures RmEscapes([], false) == [] && Shown([], [], ACTIVE)
  {
  }

  lemma ShownCons(c: char, out: string)
    requires Shown(out, RmEscapes(out, false), ACTIVE) && c !in ACTIVE && c !in CONTROL
    ensures Shown([c] + out, RmEscapes([c] + out, false), ACTIVE)
  {
    assert ([c] + out)[1..] == out;
    assert ([c] + RmEscapes(out, false))[1..] == RmEscapes(out, false);
  }

  lemma ShownEscaped(c: char, out: string)
    requires Shown(out, RmEscapes(out, false), ACTIVE)
    ensures Shown([CTLESC, c] + out, RmEscapes([CTLESC, c] + out, false), ACTIVE)
  {
    assert ([CTLESC, c] + out)[2..] == out;
    assert RmEscapes([CTLESC, c] + out, false) == [] + [c] + RmEscapes(out, false);
    assert ([c] + RmEscapes(out, false))[1..] == RmEscapes(out, false);
  }

  /** Marks around a text, and nothing behind. */
  lemma {:induction false} ShownAround(out: string, text: string, active: set<char>)
    requires Shown(out, text, active)
    ensures Shown([CTLQUOTEMARK] + out + [CTLQUOTEMARK], text, active)
  {
    var all := [CTLQUOTEMARK] + out + [CTLQUOTEMARK];
    assert all[1..] == out + [CTLQUOTEMARK];
    ShownEnds(out, text, active);
  }

  lemma {:induction false} ShownEnds(out: string, text: string, active: set<char>)
    requires Shown(out, text, active)
    ensures Shown(out + [CTLQUOTEMARK], text, active)
    decreases |out|
  {
    var all := out + [CTLQUOTEMARK];
    if out == [] {
      assert all[1..] == [];
    } else if out[0] == CTLQUOTEMARK {
      assert all[1..] == out[1..] + [CTLQUOTEMARK];
      ShownEnds(out[1..], text, active);
    } else if out[0] == CTLESC {
      assert all[2..] == out[2..] + [CTLQUOTEMARK];
      ShownEnds(out[2..], text[1..], active);
    } else {
      assert all[1..] == out[1..] + [CTLQUOTEMARK];
      ShownEnds(out[1..], text[1..], active);
    }
  }

  /** A word that is one quoted string. */
  lemma WholeWord(input: string, i: nat, dollar: bool)
    requires i <= |input| && ReadString(input, i, dollar, 0).Read?
    requires var next := ReadString(input, i, dollar, 0).next; next <= |input| && AtWordEnd(input, next)
    ensures var b, l := ReadString(input, i, dollar, 0), ReadQuoted(input, i, dollar);
            l == Read([CTLQUOTEMARK] + b.out + [CTLQUOTEMARK], b.next)
  {
    hide ReadString, ReadWord;
    QuotedStep(input, i, dollar);
    var b := ReadString(input, i, dollar, 0);
    WordStops(input, b.next);
    var m := [CTLQUOTEMARK] + b.out + [CTLQUOTEMARK];
    assert m + [] == m;
  }

  /** The word `w` is read, to the end of the input, as `text`: as a pattern too, and with nothing active in it. */
  ghost predicate IsLiteral(w: string, text: string) {
    var l := ReadWord(w, 0);
    && l.Read? && l.next == |w| && OnlyMatches(l.out, text) && Shown(l.out, text, ACTIVE)
  }

  /** `'...'` */
  lemma SingleIsLiteral(s: seq<Byte>)
    requires '\'' !in s
    ensures IsLiteral("'" + s + "'", s)
  {
    hide Stands, RmEscapes, ReadString, ReadQuoted, ReadWord, Shown, OnlyMatches;
    var input := "'" + s + "'";
    Assoc("'", s, "'");
    assert input[1..1 + |s + "'"|] == s + "'" && input[0..1] == "'" && input[0] == '\'';
    ReadOpen(input, 0, false);
    ReadSingle(input, 1, s);
    LiteralWord(input, 1, false, s);
  }

  /** `$'...'`, as `shell_quote` writes it. */
  lemma DollarIsLiteral(s: seq<Byte>)
    ensures IsLiteral("$'" + DollarAll(s) + "'", s)
  {
    hide Stands, RmEscapes, ReadString, ReadQuoted, ReadWord, Shown, OnlyMatches, DollarAll;
    var d := DollarAll(s);
    var input := "$'" + d + "'";
    Assoc("$'", d, "'");
    assert input[2..2 + |d + "'"|] == d + "'" && input[0..2] == "$'";
    ReadOpen(input, 0, true);
    ReadDollar(input, 2, s);
    LiteralWord(input, 2, true, s);
  }

  lemma LiteralWord(input: string, i: nat, dollar: bool, s: string)
    requires i <= |input| && Reads(ReadString(input, i, dollar, 0), s, |input|)
    requires ReadWord(input, 0) == ReadQuoted(input, i, dollar)
    ensures IsLiteral(input, s)
  {
    hide Stands, RmEscapes, ReadString, ReadQuoted, ReadWord, Shown, OnlyMatches;
    var out := ReadString(input, i, dollar, 0).out;
    StandsWhole(out, s);
    StringShown(input, i, dollar, 0);
    WholeWord(input, i, dollar);
    ShownAround(out, s, ACTIVE);
    ShownMatches([CTLQUOTEMARK] + out + [CTLQUOTEMARK], s, ACTIVE);
  }

  /** Any `$'...'` that is read at all is a pattern for the text it stands for only. */
  lemma AnyDollarIsLiteral(t: string)
    requires var b := ReadString("$'" + t, 2, true, 0); b.Read? && b.next == |t| + 2
    ensures IsLiteral("$'" + t, RmEscapes(ReadString("$'" + t, 2, true, 0).out, false))
  {
    hide Stands, RmEscapes, ReadString, ReadQuoted, ReadWord, Shown, OnlyMatches;
    var input := "$'" + t;
    var out := ReadString(input, 2, true, 0).out;
    assert input[0..2] == "$'";
    ReadOpen(input, 0, true);
    StringShown(input, 2, true, 0);
    WholeWord(input, 2, true);
    var text := RmEscapes(out, false);
    ShownAround(out, text, ACTIVE);
    ShownMatches([CTLQUOTEMARK] + out + [CTLQUOTEMARK], text, ACTIVE);
  }

  // ---------- shell_quote ----------

  lemma {:induction false} DollarLength(s: seq<Byte>)
    ensures |DollarAll(s)| >= |s|
  {
    hide Dollar;
    if s != [] {
      DollarLength(s[1..]);
      DollarSome(s[0]);
    }
  }

  lemma DollarSome(c: Byte)
    ensures |Dollar(c)| >= 1
  {
  }

  /** `shell_quote` prints a text as it is only if that has printing characters alone and nothing that needs quotes. */
  lemma BareIsSafe(s: seq<Byte>)
    ensures Quoted(s, false) == s <==>
              s != [] && forall c <- s :: '!' <= c <= '~' && c !in "'#%&()*;<=>?[|~\"$`\\"
  {
    hide DollarAll;
    DollarLength(s);
    forall c <- s
      ensures ('!' <= c <= '~' && c !in "'#%&()*;<=>?[|~\"$`\\") <==> !(NeedsDollar(c) || c in QCHARS)
    {
      SafeIs(c);
    }
  }

  lemma SafeIs(c: Byte)
    ensures ('!' <= c <= '~' && c !in "'#%&()*;<=>?[|~\"$`\\") <==> !(NeedsDollar(c) || c in QCHARS)
  {
    assert c in "'#%&()*;<=>?[|~\"$`\\" <==>
      c in {'\'', '#', '%', '&', '(', ')', '*', ';', '<', '=', '>', '?', '[', '|', '~', '"', '$', '`', '\\'};
  }

  // ---------- Escapes in $'...' ----------

  /** The word `$'\...'` with the escape sequence `e` stands for one character. */
  ghost predicate EscapeMeans(e: string, c: char) { IsLiteral("$'\\" + e + "'", [c]) }

  lemma EscapeIs(e: string, c: char)
    requires e != [] && '\0' < c < '\U{100}'
    requires forall input: string :: |input| == |e| + 4 && input[3..] == e + "'" ==>
               EscapeAt(input, 3) == Words.Char(Signed(c), |e| + 3) || EscapeAt(input, 3) == Words.Char(c as int, |e| + 3)
    ensures EscapeMeans(e, c)
  {
    hide Stands, ReadQuoted, ReadWord, ReadString, Shown, OnlyMatches, EscapeAt, IsLiteral, RmEscapes;
    var input := "$'\\" + e + "'";
    assert input == "$'" + ("\\" + e + "'") && |input| == |e| + 4;
    assert input[3..] == e + "'" && input[2] == '\\' && input[|e| + 3] == '\'';
    EscapeReads(input, |e| + 3, c);
    AnyDollarIsLiteral("\\" + e + "'");
    RmOne(c);
  }

  lemma EscapeReads(input: string, n: nat, c: char)
    requires |input| == n + 1 && n > 3 && input[2] == '\\' && input[n] == '\'' && '\0' < c < '\U{100}'
    requires EscapeAt(input, 3) == Words.Char(Signed(c), n) || EscapeAt(input, 3) == Words.Char(c as int, n)
    ensures ReadString(input, 2, true, 0) == Read([CTLESC, c], n + 1)
  {
    hide EscapeAt, Marked;
    MarkedByte(c);
    assert ReadString(input, n, true, 0) == Read([], n + 1);
    var x := EscapeAt(input, 3);
    assert ReadString(input, 2, true, 0) == ReadMarked(input, n, true, x.c, 0);
    assert [CTLESC, c] + [] == [CTLESC, c];
  }

  lemma RmOne(c: char)
    ensures RmEscapes([CTLESC, c], false) == [c]
  {
    assert [CTLESC, c][2..] == [];
    assert [] + [c] + [] == [c];
  }

  lemma LetterIs(l: char, c: char)
    requires !IsOctal(l) && l != 'x' && l != 'c' && c == Unletter(l) && '\0' < c < '\U{100}'
    ensures EscapeMeans([l], c)
  {
    hide EscapeMeans, Unletter;
    forall input: string | |input| == 5 && input[3..] == [l] + "'"
      ensures EscapeAt(input, 3) == Words.Char(Signed(c), 4)
    {
      assert input[3] == ([l] + "'")[0] == l;
    }
    EscapeIs([l], c);
  }

  /** Letters for control characters, and characters that stand for themselves. */
  lemma EscapeLetters()
    ensures EscapeMeans(['a'], '\U{07}') && EscapeMeans(['b'], '\U{08}') && EscapeMeans(['e'], '\U{1b}')
    ensures EscapeMeans(['f'], '\U{0c}') && EscapeMeans(['n'], '\U{0a}') && EscapeMeans(['r'], '\U{0d}')
    ensures EscapeMeans(['t'], '\U{09}') && EscapeMeans(['v'], '\U{0b}')
    ensures EscapeMeans(['\\'], '\\') && EscapeMeans(['\''], '\'') && EscapeMeans(['"'], '"')
  {
    hide EscapeMeans;
    LetterIs('a', '\U{07}');
    LetterIs('b', '\U{08}');
    LetterIs('e', '\U{1b}');
    LetterIs('f', '\U{0c}');
    LetterIs('n', '\U{0a}');
    LetterIs('r', '\U{0d}');
    LetterIs('t', '\U{09}');
    LetterIs('v', '\U{0b}');
    LetterIs('\\', '\\');
    LetterIs('\'', '\'');
    LetterIs('"', '"');
  }

  /** Three octal digits. */
  lemma EscapeOctal(a: char, b: char, c: char)
    requires '0' <= a <= '3' && '0' <= b <= '7' && '0' <= c <= '7' && [a, b, c] != "000"
    ensures EscapeMeans([a, b, c], (64 * (a as int - 48) + 8 * (b as int - 48) + (c as int - 48)) as char)
  {
    hide EscapeMeans;
    var n := 64 * (a as int - 48) + 8 * (b as int - 48) + (c as int - 48);
    var e := [a, b, c];
    forall input: string | |input| == 7 && input[3..] == e + "'"
      ensures EscapeAt(input, 3) == Words.Char(n, 6)
    {
      assert input[3] == (e + "'")[0] == a && input[4] == (e + "'")[1] == b && input[5] == (e + "'")[2] == c;
      var x, y := a as int - 48, 8 * (a as int - 48) + (b as int - 48);
      assert DigitsFrom(input, 6, 0, 8, n) == (6, n);
      assert DigitsFrom(input, 5, 1, 8, y) == (6, n);
      assert DigitsFrom(input, 4, 2, 8, x) == (6, n);
      assert DigitsFrom(input, 3, 3, 8, 0) == (6, n);
    }
    assert a == '0' && b == '0' && c == '0' ==> e == "000";
    EscapeIs(e, n as char);
  }

  /** The value of a hexadecimal digit. */
  function HexOf(c: char): int {
    if '0' <= c <= '9' then c as int - 48
    else if 'a' <= c <= 'f' then c as int - 87
    else if 'A' <= c <= 'F' then c as int - 55
    else -1
  }

  /** `\x` and two hexadecimal digits. */
  lemma EscapeHex(a: char, b: char)
    requires HexOf(a) >= 0 && HexOf(b) >= 0 && 16 * HexOf(a) + HexOf(b) > 0
    ensures EscapeMeans(['x', a, b], (16 * HexOf(a) + HexOf(b)) as char)
  {
    hide EscapeMeans;
    var n := 16 * HexOf(a) + HexOf(b);
    var e := ['x', a, b];
    forall input: string | |input| == 7 && input[3..] == e + "'"
      ensures EscapeAt(input, 3) == Words.Char(n, 6)
    {
      assert input[3] == (e + "'")[0] == 'x' && input[4] == (e + "'")[1] == a && input[5] == (e + "'")[2] == b;
      assert DigitsFrom(input, 6, 0, 16, n) == (6, n);
      assert DigitsFrom(input, 5, 1, 16, HexOf(a)) == (6, n);
      assert DigitsFrom(input, 4, 2, 16, 0) == (6, n);
    }
    EscapeIs(e, n as char);
  }

  /** `\c` and a letter: a control character. */
  lemma EscapeControl(l: char)
    requires 'a' <= l <= 'z' || 'A' <= l <= 'Z'
    ensures IsLiteral("$'\\c" + [l] + "'", [(if l >= 'a' then l as int - 96 else l as int - 64) as char])
  {
    hide Stands, ReadQuoted, ReadWord, Shown, OnlyMatches;
    var c := (if l >= 'a' then l as int - 96 else l as int - 64) as char;
    var t := "\\c" + [l] + "'";
    var input := "$'" + t;
    assert input == "$'\\c" + [l] + "'" && |input| == 6;
    assert input[2] == '\\' && input[3] == 'c' && input[4] == l && input[5] == '\'';
    assert EscapeAt(input, 3) == Control(4);
    assert ReadString(input, 5, true, 0) == Read([], 6);
    assert Signed(l) == l as int;
    assert ToggleTimes(l as int, 1) == Toggle(l as int) == c as int;
    assert Marked(Signed(l), 1) == Some([CTLESC, c]);
    assert ReadString(input, 4, true, 1) == Read([CTLESC, c] + [], 6);
    assert ReadString(input, 2, true, 0) == Read([CTLESC, c] + [], 6);
    assert [CTLESC, c] + [] == [CTLESC, c];
    AnyDollarIsLiteral(t);
    RmOne(c);
  }

  // ---------- Outside quotes ----------

  /** A character behind a backslash is literal. */
  lemma BackslashIsLiteral(c: char)
    requires c != '\n'
    ensures IsLiteral(['\\', c], [c])
  {
    var w := ['\\', c];
    assert EatBnl(w, 0) == 0 && ReadWord(w, 2) == Read([], 2);
    var out := if CTLESC <= c <= CTLQUOTEMARK then [CTLQUOTEMARK, CTLESC, c, CTLQUOTEMARK] else [CTLESC, c];
    assert out + [] == out;
    assert ReadWord(w, 0) == Read(out, 2);
    assert [CTLESC, c][2..] == [] && [c][1..] == [];
    assert Shown([CTLESC, c], [c], ACTIVE);
    if |out| == 4 {
      assert out == [CTLQUOTEMARK] + [CTLESC, c] + [CTLQUOTEMARK];
      ShownAround([CTLESC, c], [c], ACTIVE);
    }
    hide Shown;
    ShownMatches(out, [c], ACTIVE);
  }

  /** A pattern character that is not quoted stays one. */
  lemma PlainStaysActive(c: char)
    requires c in {'*', '?', '[', ']', '!', '-', '=', '~', ':', '/'}
    ensures ReadWord([c], 0) == Read([c], 1)
  {
    assert EatBnl([c], 0) == 0 && ReadWord([c], 1) == Read([], 1);
    assert [c] + [] == [c];
  }

  /** Outside quotes a backslash and a newline are not there, in any number and at any place of a word. */
  lemma ContinuationGone(s: string, i: nat)
    requires i + 1 < |s| && s[i] == '\\' && s[i + 1] == '\n'
    ensures ReadWord(s, i) == ReadWord(s, i + 2) && IsQuoted(s, i) == IsQuoted(s, i + 2)
  {
    hide ReadQuoted;
  }

  // ---------- Text from expansions ----------

  /** Quoted text is copied with nothing active in it; text that is not quoted stays active. */
  lemma {:induction false} CopiedShown(t: string, quoted: bool)
    requires '\0' !in t
    ensures Shown(ProtectAll(t, true, quoted, false), t, if quoted then ACTIVE else {})
    ensures !quoted && (forall c <- t :: c !in CONTROL) ==> ProtectAll(t, true, quoted, false) == t
  {
    if t != [] {
      var c, rest := t[0], ProtectAll(t[1..], true, quoted, false);
      CopiedShown(t[1..], quoted);
      assert ([c] + rest)[1..] == rest && ([CTLESC, c] + rest)[2..] == rest;
      assert t == [c] + t[1..];
    }
  }
}
