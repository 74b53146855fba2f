/**
 * Printing a string so that the shell reads it back (src/mystring.c), and the quoting part of the tokenizer
 * that does so (src/parser.c).
 */
module Quote {
  import opened Chars
  import opened Words

  // ---------- Printing ----------

  /** Characters that need quotes. */
  const QCHARS: set<char> :=
    {'\'', ' ', '#', '%', '&', '(', ')', '*', ';', '<', '=', '>', '?', '[', '|', '~', '"', '$', '`', '\\'}

  /** Characters that `$'...'` shows by a letter, and the letters. */
  const ESCCHARS: set<char> :=
    {'\\', '\'', '\U{07}', '\U{08}', '\U{1b}', '\U{0c}', '\n', '\r', '\t', '\U{0b}'}
  const ESCSEQCH: set<char> := {'\\', '\'', 'a', 'b', 'e', 'f', 'n', 'r', 't', 'v'}

  const QS_AUTO := 0
  const QS_AUTO_FORCE := 1
  const QS_DOLLAR_QUOTED := 2

  /** The letter that stands for `c` behind a backslash. */
  function Letter(c: char): (l: char)
    requires c in ESCCHARS
    ensures l in ESCSEQCH && Unletter(l) == c
  {
    if c == '\\' then '\\' else if c == '\'' then '\'' else if c == '\U{07}' then 'a' else if c == '\U{08}' then 'b'
    else if c == '\U{1b}' then 'e' else if c == '\U{0c}' then 'f' else if c == '\n' then 'n' else if c == '\r' then 'r'
    else if c == '\t' then 't' else 'v'
  }

  predicate IsPlain(c: char) { ' ' <= c <= '~' }

  function OctDigit(n: nat): char
    requires n < 8
  {
    '0' + n as char
  }

  /** A byte of a C string. */
  type Byte = c: char | '\0' < c < '\U{100}' witness 'a'

  /** Three octal digits of a byte. */
  function Octal(c: Byte): string {
    [OctDigit(c as int / 64), OctDigit(c as int / 8 % 8), OctDigit(c as int % 8)]
  }

  /** How `$'...'` shows a character. */
  function Dollar(c: Byte): string {
    if c in ESCCHARS then ['\\', Letter(c)] else if !IsPlain(c) then ['\\'] + Octal(c) else [c]
  }

  function DollarAll(s: seq<Byte>): string {
    if s == [] then [] else Dollar(s[0]) + DollarAll(s[1..])
  }

  /** Characters that only `$'...'` can show. */
  predicate NeedsDollar(c: Byte) { c == '\'' || (c in ESCCHARS && c != '\\') || !IsPlain(c) }

  predicate HasDollar(s: seq<Byte>, p: nat)
    requires p <= |s|
  {
    exists i :: 0 <= i < p && NeedsDollar(s[i])
  }

  predicate HasSpecial(s: seq<Byte>, p: nat)
    requires p <= |s|
  {
    exists i :: 0 <= i < p && s[i] in QCHARS
  }

  /** The result of `shell_quote`: nothing, `'...'` or `$'...'`, whichever is enough. */
  function Quoted(s: seq<Byte>, force: bool): string {
    if HasDollar(s, |s|) then ['$', '\''] + DollarAll(s) + ['\'']
    else if force || s == [] || HasSpecial(s, |s|) then ['\''] + s + ['\'']
    else s
  }

  lemma {:induction false} DollarSnoc(s: seq<Byte>, p: nat)
    requires p < |s|
    ensures DollarAll(s[..p + 1]) == DollarAll(s[..p]) + Dollar(s[p])
  {
    hide Dollar;
    if p == 0 {
      assert s[..1][1..] == [];
      Assoc(Dollar(s[0]), [], []);
    } else {
      DollarSnoc(s[1..], p - 1);
      assert s[..p + 1][1..] == s[1..][..p] && s[..p][1..] == s[1..][..p - 1];
      Assoc(Dollar(s[0]), DollarAll(s[1..][..p - 1]), Dollar(s[p]));
    }
  }

  /** Text without characters that need it and without backslashes looks the same in `$'...'`. */
  lemma {:induction false} DollarPlain(s: seq<Byte>, p: nat)
    requires p <= |s| && forall i :: 0 <= i < p ==> !NeedsDollar(s[i]) && s[i] != '\\'
    ensures DollarAll(s[..p]) == s[..p]
  {
    if p > 0 {
      DollarPlain(s, p - 1);
      DollarSnoc(s, p - 1);
      assert s[..p] == s[..p - 1] + [s[p - 1]];
    }
  }

  /** What the loop of `shell_quote` has printed of the first `p` characters. */
  ghost predicate Printed(s: seq<Byte>, p: nat, force: bool, style: int, bs: bool, r: string)
    requires p <= |s|
  {
    if style == QS_DOLLAR_QUOTED then r == DollarAll(s[..p]) && HasDollar(s, |s|)
    else
      && r == s[..p] && !HasDollar(s, p)
      && (bs <==> exists i :: 0 <= i < p && s[i] == '\\')
      && style == (if force || s == [] || HasSpecial(s, p) then 1 else 0)
  }

  /** The first character that needs `$'...'`: go on, or print again what has backslashes. */
  lemma PrintSwitch(s: seq<Byte>, p: nat, force: bool, style: int, bs: bool, r: string)
    requires p < |s| && 0 <= style < QS_DOLLAR_QUOTED && Printed(s, p, force, style, bs, r) && NeedsDollar(s[p])
    ensures Printed(s, 0, force, QS_DOLLAR_QUOTED, bs, [])
    ensures !bs ==> Printed(s, p + 1, force, QS_DOLLAR_QUOTED, bs, r + Dollar(s[p]))
  {
    DollarSnoc(s, p);
    if !bs {
      DollarPlain(s, p);
    }
  }

  lemma PrintDollar(s: seq<Byte>, p: nat, force: bool, bs: bool, bs': bool, r: string)
    requires p < |s| && Printed(s, p, force, QS_DOLLAR_QUOTED, bs, r)
    ensures Printed(s, p + 1, force, QS_DOLLAR_QUOTED, bs', r + Dollar(s[p]))
  {
    DollarSnoc(s, p);
  }

  lemma PrintEnd(s: seq<Byte>, force: bool, style: int, bs: bool, r: string)
    requires 0 <= style <= QS_DOLLAR_QUOTED && Printed(s, |s|, force, style, bs, r)
    ensures Quoted(s, force) == ['$', '\''][2 - style..] + (r + (if style == 0 then [] else ['\'']))
  {
    assert s[..|s|] == s;
    var all := ['$', '\''];
    assert all[0..] == all && all[1..] == ['\''] && all[2..] == [];
    Assoc(all[2 - style..], r, if style == 0 then [] else ['\'']);
    Assoc(r, [], []);
  }

  /** `shell_quote` */
  method ShellQuote(s: seq<Byte>, style0: int) returns (r: string)
    requires style0 == QS_AUTO || style0 == QS_AUTO_FORCE
    ensures r == Quoted(s, style0 == QS_AUTO_FORCE)
  {
    var style := if style0 != 0 then style0 else if s == [] then 1 else 0;
    var sqchars, dlqchars := QCHARS, ESCCHARS - {'\\'};
    var bs := false;
    var p: nat := 0;
    r := [];
    ghost var force := style0 == QS_AUTO_FORCE;
    assert Printed(s, p, force, style, bs, r);
    hide Printed, QCHARS, ESCCHARS, HasDollar, Octal;
    while p < |s|
      invariant p <= |s| && 0 <= style <= QS_DOLLAR_QUOTED
      invariant if style == QS_DOLLAR_QUOTED then sqchars == {} && dlqchars == ESCCHARS
                else sqchars == QCHARS && dlqchars == ESCCHARS - {'\\'}
      invariant Printed(s, p, force, style, bs, r)
      decreases style < QS_DOLLAR_QUOTED, |s| - p
    {
      var c := s[p];
      if style == QS_DOLLAR_QUOTED {
        PrintDollar(s, p, force, bs, bs, r);
      } else if NeedsDollar(c) {
        PrintSwitch(s, p, force, style, bs, r);
      }
      p := p + 1;
      if c in sqchars {
        style := QS_AUTO_FORCE;
        bs := bs || c == '\\';
      }
      if c in dlqchars {
        r := r + ['\\', Letter(c)];
      } else if c < ' ' || c > '~' {
        r := r + (['\\'] + Octal(c));
      } else {
        r := r + [c];
        continue;
      }
      if style < QS_DOLLAR_QUOTED {
        style := QS_DOLLAR_QUOTED;
        sqchars, dlqchars := {}, ESCCHARS;
        if bs {
          p, r := 0, [];
        }
      }
    }
    PrintEnd(s, force, style, bs, r);
    if style != 0 {
      r := r + ['\''];
    } else {
      Assoc(r, [], []);
    }
    r := ['$', '\''][2 - style..] + r;
  }

}
