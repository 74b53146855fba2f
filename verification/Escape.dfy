/** Protecting text with CTLESC and taking the protection away again (src/expand.c). */
module Escape {
  import opened Chars
  import opened Glob

  /** `_rmescapes`: CTLQUOTEMARK goes; CTLESC goes too, or stays where a pattern may need it. */
  function RmEscapes(s: string, glob: bool): string {
    if s == [] then []
    else if s[0] == CTLQUOTEMARK then RmEscapes(s[1..], glob)
    else if s[0] != CTLESC then [s[0]] + RmEscapes(s[1..], glob)
    else
      var kept := if glob && !IsInName(At(s, 1)) then [CTLESC] else [];
      if |s| == 1 then kept else kept + [s[1]] + RmEscapes(s[2..], glob)
  }

  /** What one turn of the loop writes, and where it leads. */
  function RmOut(s: string, p: nat, glob: bool): (string, nat)
    requires p < |s|
  {
    if s[p] == CTLQUOTEMARK then ([], p + 1)
    else if s[p] != CTLESC then ([s[p]], p + 1)
    else
      var kept := if glob && !IsInName(At(s, p + 1)) then [CTLESC] else [];
      if p + 1 == |s| then (kept, p + 1) else (kept + [s[p + 1]], p + 2)
  }

  /** The buffer: `done` has been written, and what is still to be read is as it was. */
  ghost predicate Held(str: string, buf: string, p: nat, q: nat, done: string) {
    q <= p <= |str| + 1 == |buf| && buf[..q] == done && buf[p..] == (str + ['\0'])[p..]
  }

  lemma HeldRead(str: string, buf: string, p: nat, q: nat, done: string)
    requires Held(str, buf, p, q, done) && p <= |str| && '\0' !in str
    ensures p < |buf| && buf[p] == At(str, p) && (buf[p] == '\0' <==> p == |str|) && Held(str, buf, p + 1, q, done)
  {
    assert buf[p..][0] == (str + ['\0'])[p..][0];
    assert buf[p + 1..] == buf[p..][1..] && (str + ['\0'])[p + 1..] == (str + ['\0'])[p..][1..];
  }

  /** Writing behind what has been read. */
  lemma HeldWrite(str: string, buf: string, p: nat, q: nat, done: string, c: char)
    requires Held(str, buf, p, q, done) && q < p
    ensures q < |buf| && buf[q := c][q] == c && Held(str, buf[q := c], p, q + 1, done + [c])
  {
    var b := buf[q := c];
    assert b[..q + 1] == buf[..q] + [c] && b[p..] == buf[p..];
  }

  /** `_rmescapes`, which compacts the string where it is: the result is `buf` up to its first NUL, at `q`. */
  method RmEscapesInPlace(str: string, glob: bool) returns (buf: string, q: nat)
    requires '\0' !in str
    ensures q < |buf| == |str| + 1 && buf[q] == '\0' && buf[..q] == RmEscapes(str, glob)
  {
    var p: nat := 0;
    buf, q := str + ['\0'], 0;
    ghost var done := [];
    assert str[0..] == str;
    Assoc(RmEscapes(str, glob), [], []);
    assert Held(str, buf, p, q, done) && Removed(str, glob, done, p);
    hide Held, RmEscapes, RmOut, IsInName, Removed;
    while true
      invariant q <= p <= |str| && Held(str, buf, p, q, done) && Removed(str, glob, done, p)
      decreases |str| - p
    {
      RmStep(str, p, glob, done);
      HeldRead(str, buf, p, q, done);
      var c := buf[p];
      p := p + 1;
      if c == CTLQUOTEMARK {
        continue;
      }
      if c == CTLESC {
        HeldRead(str, buf, p, q, done);
        if glob && !IsInName(buf[p]) {
          HeldWrite(str, buf, p, q, done, c);
          buf, done := buf[q := c], done + [c];
          q := q + 1;
          HeldRead(str, buf, p, q, done);
        }
        c := buf[p];
        p := p + 1;
      }
      HeldWrite(str, buf, p, q, done, c);
      buf := buf[q := c];
      if c == '\0' {
        Finished(str, buf, p, q, done);
        return;
      }
      done := done + [c];
      q := q + 1;
    }
  }

  lemma Finished(str: string, buf: string, p: nat, q: nat, done: string)
    requires Held(str, buf, p, q + 1, done + ['\0'])
    ensures q < |buf| == |str| + 1 && buf[..q] == done
  {
    assert buf[..q] == buf[..q + 1][..q];
  }

  /** `done` is what the first `p` characters become. */
  ghost predicate Removed(str: string, glob: bool, done: string, p: nat)
    requires p <= |str|
  {
    done + RmEscapes(str[p..], glob) == RmEscapes(str, glob)
  }

  /** One turn of the loop: what is left to do grows into what is done. */
  lemma RmStep(str: string, p: nat, glob: bool, done: string)
    requires p <= |str| && Removed(str, glob, done, p)
    ensures p == |str| ==> done == RmEscapes(str, glob)
    ensures p < |str| && str[p] == CTLQUOTEMARK ==> Removed(str, glob, done, p + 1)
    ensures p < |str| && str[p] != CTLQUOTEMARK && str[p] != CTLESC ==> Removed(str, glob, done + [str[p]], p + 1)
    ensures p < |str| && str[p] == CTLESC ==>
              var kept := if glob && !IsInName(At(str, p + 1)) then done + [CTLESC] else done;
              if p + 1 == |str| then kept == RmEscapes(str, glob) else Removed(str, glob, kept + [str[p + 1]], p + 2)
  {
    if p < |str| {
      var (out, next) := RmOut(str, p, glob);
      hide RmEscapes;
      Assoc(done, out, RmEscapes(str[next..], glob));
      Assoc(done, [], []);
      if next == |str| {
        Assoc(done + out, [], []);
      }
      if str[p] == CTLESC && p + 1 < |str| {
        Assoc(done, [CTLESC], [str[p + 1]]);
      }
    } else {
      Assoc(done, [], []);
    }
  }

  /** Characters that a quoted text must not show to a pattern or to tilde expansion. */
  predicate IsSpecial(c: char) {
    c in {'\\', '!', '*', '?', '[', '=', '~', ':', '-', '/', ']'}
  }

  /** What `memtodest` writes for one character other than NUL. */
  function Protect(c: char, esc: bool, quoted: bool): string {
    if esc && (IsCtl(c) || (quoted && IsSpecial(c))) then [CTLESC, c] else [c]
  }

  function ProtectAll(t: string, esc: bool, quoted: bool, keepnul: bool): string {
    if t == [] then []
    else Written(t[0], esc, quoted, keepnul) + ProtectAll(t[1..], esc, quoted, keepnul)
  }

  /** What `memtodest` writes for one character. */
  function Written(c: char, esc: bool, quoted: bool, keepnul: bool): string {
    if c != '\0' then Protect(c, esc, quoted) else if keepnul then ['\0'] else []
  }

  /** `memtodest` appends a text to the expansion. */
  method MemToDest(dest: string, t: string, esc: bool, quoted: bool, keepnul: bool) returns (out: string)
    ensures out == dest + ProtectAll(t, esc, quoted, keepnul)
  {
    out := dest;
    var p := 0;
    assert t[0..] == t;
    while p < |t|
      invariant p <= |t|
      invariant out + ProtectAll(t[p..], esc, quoted, keepnul) == dest + ProtectAll(t, esc, quoted, keepnul)
    {
      ghost var before := out;
      assert t[p..][0] == t[p] && t[p..][1..] == t[p + 1..];
      Assoc(out, Written(t[p], esc, quoted, keepnul), ProtectAll(t[p + 1..], esc, quoted, keepnul));
      var c := t[p];
      p := p + 1;
      if c != '\0' {
        if esc && ((quoted && IsSpecial(c)) || IsCtl(c)) {
          out := out + [CTLESC];
        }
      } else if !keepnul {
        Assoc(out, [], []);
        continue;
      }
      out := out + [c];
      assert out == before + Written(c, esc, quoted, keepnul);
    }
    Assoc(out, [], []);
  }

  /** Removing the protection gives the text back. */
  lemma {:induction false} ProtectThenRemove(t: string, quoted: bool, keepnul: bool)
    requires '\0' !in t
    ensures RmEscapes(ProtectAll(t, true, quoted, keepnul), false) == t
  {
    if t != [] {
      var c, rest := t[0], ProtectAll(t[1..], true, quoted, keepnul);
      ProtectThenRemove(t[1..], quoted, keepnul);
      var s := Protect(c, true, quoted) + rest;
      assert if |Protect(c, true, quoted)| == 2 then s[0] == CTLESC && s[1] == c && s[2..] == rest
             else s[0] == c && s[1..] == rest;
    }
  }

  // ---------- Quoted text as a pattern ----------

  function Literals(t: string): seq<Elem> {
    if t == [] then [] else [Lit(t[0])] + Literals(t[1..])
  }

  /** The pattern that quoted text becomes: its characters, protected unless they are part of a name. */
  function QuotedPattern(t: string): string {
    RmEscapes(ProtectAll(t, true, true, false), true)
  }

  lemma {:induction false} PatternOf(t: string)
    requires '\0' !in t
    ensures QuotedPattern(t) == if t == [] then [] else Protect(t[0], true, true) + QuotedPattern(t[1..])
  {
    if t != [] {
      var c, rest := t[0], ProtectAll(t[1..], true, true, false);
      var s := Protect(c, true, true) + rest;
      assert if |Protect(c, true, true)| == 2 then s[0] == CTLESC && s[1] == c && s[2..] == rest
             else s[0] == c && s[1..] == rest;
    }
  }

  lemma {:induction false} LiteralPattern(p: string, i: nat, t: string)
    requires '\0' !in t && i <= |p| && p[i..] == QuotedPattern(t)
    ensures Elems(p, i) == Some(Literals(t)) && '\0' !in p[i..]
    decreases |t|
  {
    PatternOf(t);
    if t != [] {
      var c, pre, rest := t[0], Protect(t[0], true, true), QuotedPattern(t[1..]);
      var j := i + |pre|;
      assert p[i..] == pre + rest;
      assert p[i..][0] == p[i] && p[j..] == p[i..][|pre|..] == rest;
      assert |pre| == 2 ==> p[i + 1] == p[i..][1] == c;
      LiteralPattern(p, j, t[1..]);
      assert ElemAt(p, i) == Found(Lit(c), j);
    }
  }

  lemma {:induction false} LiteralsMatch(t: string, u: string)
    ensures Matches(Literals(t), u) <==> t == u
  {
    if t != [] && u != [] {
      LiteralsMatch(t[1..], u[1..]);
      assert t == [t[0]] + t[1..] && u == [u[0]] + u[1..];
      assert Literals(t)[1..] == Literals(t[1..]);
    }
  }

  /** Quoted text is a pattern that matches this text and nothing else. */
  lemma QuotedMatchesItself(t: string, u: string)
    requires '\0' !in t
    ensures Elems(QuotedPattern(t), 0).Some? && '\0' !in QuotedPattern(t)
    ensures Matches(Elems(QuotedPattern(t), 0).value, u) <==> t == u
  {
    var p := QuotedPattern(t);
    assert p[0..] == p;
    LiteralPattern(p, 0, t);
    LiteralsMatch(t, u);
  }
}
