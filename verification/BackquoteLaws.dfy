/** Writing a text for nested backquotes, and reading it there (section 2.6.3 of POSIX.1-2017 XCU). */
module BackquoteLaws {
  import opened Numbers
  import opened Backquote

  predicate Special(c: char) { c == '$' || c == '`' || c == '\\' }

  /** A text as it has to be written inside backquotes. */
  function Escaped(s: string): string {
    if s == [] then []
    else (if Special(s[0]) then ['\\', s[0]] else [s[0]]) + Escaped(s[1..])
  }

  /** A text as it has to be written inside `n` levels of them, with the backquote that closes the innermost. */
  function Quoted(s: string, n: nat): string
    requires n > 0
  {
    if n == 1 then Escaped(s) + "`" else Escaped(Quoted(s, n - 1))
  }

  lemma {:induction false} OneRead(c: char, t: string, end: End, dq: bool, level: nat)
    ensures Special(c) ==> Unescape(['\\', c] + t, end, dq, level) == Prefix([c], Unescape(t, end, dq, level))
    ensures !Special(c) ==> Unescape([c] + t, end, dq, level) == Prefix([c], Unescape(t, end, dq, level))
  {
    assert (['\\', c] + t)[2..] == t && ([c] + t)[1..] == t;
  }

  lemma {:induction false} ReadsOn(s: string, t: string, end: End, dq: bool, level: nat)
    ensures Unescape(Escaped(s) + t, end, dq, level) == Prefix(s, Unescape(t, end, dq, level))
  {
    hide Unescape;
    var u := Unescape(t, end, dq, level);
    if s == [] {
      assert Escaped(s) + t == t && [] + u.chars == u.chars;
    } else {
      var c, e := s[0], Escaped(s[1..]) + t;
      ReadsOn(s[1..], t, end, dq, level);
      OneRead(c, e, end, dq, level);
      assert Escaped(s) + t == (if Special(c) then ['\\', c] else [c]) + e;
      assert [c] + (s[1..] + u.chars) == s + u.chars;
    }
  }

  /** One level reads the text, to its end or to the backquote behind it, in double quotes or not. */
  lemma EscapedReads(s: string, rest: string, end: End, dq: bool, level: nat)
    ensures Unescape(Escaped(s), end, dq, level) == Stream(s, end)
    ensures Unescape(Escaped(s) + "`" + rest, end, dq, level) == Stream(s, Closed(level))
  {
    hide Escaped;
    ReadsOn(s, [], end, dq, level);
    ReadsOn(s, "`" + rest, end, dq, level);
    assert s + [] == s && Escaped(s) + [] == Escaped(s) && Escaped(s) + "`" + rest == Escaped(s) + ("`" + rest);
  }

  /** A backslash in front of a double quote goes exactly inside double quotes, and any other stays. */
  lemma OthersStay(c: char, s: string, end: End, dq: bool, level: nat)
    requires !Special(c)
    ensures var rest := Unescape(s, end, dq, level);
            Unescape("\\" + [c] + s, end, dq, level) ==
              Stream((if dq && c == '"' then [c] else "\\" + [c]) + rest.chars, rest.end)
  {
    var t := "\\" + [c] + s;
    assert t[0] == '\\' && t[1] == c && t[2..] == s;
  }

  /** All levels read it. */
  lemma {:induction false} NestedReads(s: string, dqs: seq<bool>, level: nat)
    requires dqs != []
    ensures Levels(Stream(Quoted(s, |dqs|), Eof), dqs, level) == Stream(s, Closed(level + |dqs| - 1))
    decreases |dqs|
  {
    hide Unescape;
    if |dqs| == 1 {
      EscapedReads(s, [], Eof, dqs[0], level);
      assert Escaped(s) + "`" + [] == Quoted(s, 1);
    } else {
      EscapedReads(Quoted(s, |dqs| - 1), [], Eof, dqs[0], level);
      NestedReads(s, dqs[1..], level + 1);
    }
  }

  lemma {:induction false} EscapedLines(s: string)
    requires '\n' !in s
    ensures '\n' !in Escaped(s)
  {
    if s != [] {
      EscapedLines(s[1..]);
      assert s[0] in s && forall c <- s[1..] :: c in s;
    }
  }

  lemma {:induction false} QuotedLines(s: string, n: nat)
    requires '\n' !in s && n > 0
    ensures '\n' !in Quoted(s, n)
  {
    if n == 1 {
      EscapedLines(s);
    } else {
      QuotedLines(s, n - 1);
      EscapedLines(Quoted(s, n - 1));
    }
  }

  lemma {:induction false} OneLine(s: string, backq: int)
    requires '\n' !in s && backq >= 1
    ensures NoContinuation(s, backq)
    decreases |s|
  {
    LeadBounds(s);
    var len := Lead(s);
    if len < |s| {
      assert s[len] in s && forall c <- s[len + 1..] :: c in s;
      OneLine(s[len + 1..], backq);
    }
  }

  /** So does the pass with its counter and mask: what is written for the levels of a line is delivered. */
  lemma PassReads(s: string, dqs: seq<bool>)
    requires '\n' !in s && dqs != []
    ensures ReadAll(Quoted(s, |dqs|), Pow2(|dqs|), Mask(dqs)) == Text(s, true)
  {
    hide Levels, ReadAll, NoContinuation, Quoted;
    QuotedLines(s, |dqs|);
    OneLine(Quoted(s, |dqs|), Pow2(|dqs|));
    PassIsLevels(Quoted(s, |dqs|), dqs);
    NestedReads(s, dqs, 1);
  }
}
