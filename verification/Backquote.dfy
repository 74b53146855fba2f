/**
 * Reading nested old-style command substitutions (src/input.c): one pass with a counter and a bit mask,
 * and the proof that it is as many passes of unescaping as there are open backquotes.
 */
module Backquote {
  import opened Numbers

  // ---------- Unescaping level by level (XCU section 2.6.3 of POSIX.1-2017) ----------

  /** Why a text ends: the input does, or the backquote that closes a level. */
  datatype End = Eof | Closed(level: nat)

  datatype Stream = Stream(chars: string, end: End)

  /** Whether a backslash in front of `c` is removed; `dq`: the substitution is in double quotes. */
  predicate Removes(c: char, dq: bool) {
    c == '$' || c == '`' || c == '\\' || (dq && c == '"')
  }

  /** The text inside the backquotes of one level, up to the one that closes it. */
  function Unescape(s: string, end: End, dq: bool, level: nat): Stream
    decreases |s|
  {
    if s == [] then Stream([], end)
    else if s[0] == '`' then Stream([], Closed(level))
    else if s[0] != '\\' then Prefix([s[0]], Unescape(s[1..], end, dq, level))
    else if |s| == 1 then Stream([], end)
    else if Removes(s[1], dq) then Prefix([s[1]], Unescape(s[2..], end, dq, level))
    else Prefix(['\\', s[1]], Unescape(s[2..], end, dq, level))
  }

  function Prefix(out: string, st: Stream): Stream {
    Stream(out + st.chars, st.end)
  }

  /** All levels, outermost first; `dqs` says which are in double quotes. The first one has number `level`. */
  function Levels(st: Stream, dqs: seq<bool>, level: nat): Stream
    decreases |dqs|
  {
    if dqs == [] then st else Levels(Unescape(st.chars, st.end, dqs[0], level), dqs[1..], level + 1)
  }

  /** What the parser gets of a text: its characters, then the end of the innermost level or an error. */
  datatype Text = Text(chars: string, ok: bool)

  /** Only the end of the innermost level is a good end. */
  function Delivered(st: Stream, depth: nat): Text {
    Text(st.chars, st.end == (if depth == 0 then Eof else Closed(depth)))
  }

  // ---------- One pass ----------

  function Lead(s: string): nat {
    if s != [] && s[0] == '\\' then 1 + Lead(s[1..]) else 0
  }

  lemma {:induction false} LeadBounds(s: string)
    ensures Lead(s) <= |s| && s == Backslashes(Lead(s)) + s[Lead(s)..]
    ensures Lead(s) < |s| ==> s[Lead(s)] != '\\'
  {
    if s != [] && s[0] == '\\' {
      LeadBounds(s[1..]);
      assert Backslashes(Lead(s)) == ['\\'] + Backslashes(Lead(s[1..]));
    }
  }

  function Backslashes(n: nat): (s: string)
    ensures |s| == n && forall k :: 0 <= k < n ==> s[k] == '\\'
  {
    if n == 0 then [] else ['\\'] + Backslashes(n - 1)
  }

  /** A character that was read, or the end of the input. */
  datatype Read = Char(c: char) | Peof

  /** What `pgetc` does with `len` backslashes and the character `c` behind them. */
  datatype Action = Output(r: Read) | Escape(c: char) | Continue | Fail

  function Decide(len: nat, c: Read, backq: int, dqbackq: int): Action {
    if c == Char('`') || c.Peof? then
      var n := if c.Char? then len + 1 else len;
      if n == backq then Output(c)
      else if n == backq / 2 && (n == 0 || c.Char?) then Output(Peof)
      else Fail
    else if len == 0 then Output(c)
    else if c == Char('\n') then Continue
    else if c == Char('$') || c == Char('\\') || (c == Char('"') && len <= dqbackq) then Output(c)
    else Escape(c.c)
  }

  /** One round of `pgetc`: it reads a run of at most `backq` backslashes and the character behind it. */
  function Step(s: string, backq: int, dqbackq: int): (Action, string)
    requires backq >= 1
  {
    LeadBounds(s);
    var len := Lead(s);
    if len >= backq then (Decide(backq, Char('\\'), backq, dqbackq), s[backq..])
    else if len == |s| then (Decide(len, Peof, backq, dqbackq), [])
    else (Decide(len, Char(s[len]), backq, dqbackq), s[len + 1..])
  }

  lemma StepShrinks(s: string, backq: int, dqbackq: int)
    requires backq >= 1
    ensures Step(s, backq, dqbackq).0.Fail? || Step(s, backq, dqbackq).0 == Output(Peof)
         || |Step(s, backq, dqbackq).1| < |s|
  {
    LeadBounds(s);
  }

  /** All that `pgetc` delivers from `s`; the character behind an escaping backslash is pushed back. */
  function ReadAll(s: string, backq: int, dqbackq: int): Text
    requires backq >= 1
    decreases |s|
  {
    StepShrinks(s, backq, dqbackq);
    var (action, rest) := Step(s, backq, dqbackq);
    match action
    case Fail => Text([], false)
    case Output(Peof) => Text([], true)
    case Output(Char(c)) => PrefixText([c], ReadAll(rest, backq, dqbackq))
    case Escape(c) => PrefixText(['\\', c], ReadAll(rest, backq, dqbackq))
    case Continue => ReadAll(rest, backq, dqbackq)
  }

  function PrefixText(out: string, t: Text): Text {
    Text(out + t.chars, t.ok)
  }

  /** The mask `dqbackq` for the levels `dqs`: bit `i` stands for level `i + 1`. */
  function Mask(dqs: seq<bool>): (m: nat)
    ensures m < Pow2(|dqs|)
  {
    if dqs == [] then 0 else (if dqs[0] then 1 else 0) + 2 * Mask(dqs[1..])
  }

  // ---------- One level on a run of backslashes ----------

  lemma Runs(m: nat, n: nat, t: string)
    ensures Backslashes(m + n) + t == Backslashes(m) + (Backslashes(n) + t)
    ensures Backslashes(0) + t == t && Backslashes(1) + t == ['\\'] + t
  {
  }

  lemma {:induction false} Snoc(n: nat)
    ensures Backslashes(n) + ['\\'] == Backslashes(n + 1)
  {
  }

  lemma Join(a: string, b: string, c: string)
    ensures a + b + c == a + (b + c)
  {
  }

  lemma PrefixTwice(a: string, b: string, st: Stream)
    ensures Prefix(a, Prefix(b, st)) == Prefix(a + b, st) && Prefix([], st) == st
  {
    assert a + (b + st.chars) == a + b + st.chars && [] + st.chars == st.chars;
  }

  lemma TwoInFront(h: nat, t: string)
    requires h > 0
    ensures Backslashes(2 * h) + t == ['\\', '\\'] + (Backslashes(2 * (h - 1)) + t)
  {
    assert Backslashes(2 * h) == ['\\'] + (['\\'] + Backslashes(2 * h - 2));
  }

  /** Pairs of backslashes become backslashes. */
  lemma {:induction false} UnescapePairs(h: nat, t: string, end: End, dq: bool, level: nat)
    ensures Unescape(Backslashes(2 * h) + t, end, dq, level) == Prefix(Backslashes(h), Unescape(t, end, dq, level))
    decreases h
  {
    var st := Unescape(t, end, dq, level);
    if h == 0 {
      Runs(0, 0, t);
      PrefixTwice([], [], st);
    } else {
      TwoInFront(h, t);
      UnescapePairs(h - 1, t, end, dq, level);
      hide Unescape;
      PrefixTwice(['\\'], Backslashes(h - 1), st);
    }
  }

  /** How many of `n` backslashes are left in front of a character. */
  function Left(n: nat, removed: bool): nat { if removed then n / 2 else (n + 1) / 2 }

  lemma EvenChar(h: nat, c: char, t: string, end: End, dq: bool, level: nat)
    requires c != '`' && c != '\\'
    ensures Unescape(Backslashes(2 * h) + ([c] + t), end, dq, level)
         == Prefix(Backslashes(h) + [c], Unescape(t, end, dq, level))
  {
    UnescapePairs(h, [c] + t, end, dq, level);
    assert ([c] + t)[1..] == t;
    PrefixTwice(Backslashes(h), [c], Unescape(t, end, dq, level));
  }

  lemma Escaped(c: char, t: string, end: End, dq: bool, level: nat)
    ensures Unescape(['\\'] + ([c] + t), end, dq, level)
         == Prefix(if Removes(c, dq) then [c] else ['\\', c], Unescape(t, end, dq, level))
  {
    var s := ['\\'] + ([c] + t);
    assert s[0] == '\\' && s[1] == c && s[2..] == t;
  }

  lemma OddChar(h: nat, c: char, t: string, end: End, dq: bool, level: nat)
    requires c != '`' && c != '\\'
    ensures Unescape(Backslashes(2 * h + 1) + ([c] + t), end, dq, level)
         == Prefix(Backslashes(if Removes(c, dq) then h else h + 1) + [c], Unescape(t, end, dq, level))
  {
    var st, rest := Unescape(t, end, dq, level), ['\\'] + ([c] + t);
    Runs(2 * h, 1, [c] + t);
    assert Unescape(Backslashes(2 * h + 1) + ([c] + t), end, dq, level) == Prefix(Backslashes(h), Unescape(rest, end, dq, level)) by {
      UnescapePairs(h, rest, end, dq, level);
    }
    Escaped(c, t, end, dq, level);
    Snoc(h);
    hide Unescape, Backslashes, Removes, Prefix;
    if Removes(c, dq) {
      PrefixTwice(Backslashes(h), [c], st);
    } else {
      Join(Backslashes(h), ['\\'], [c]);
      assert ['\\'] + [c] == ['\\', c];
      PrefixTwice(Backslashes(h), ['\\', c], st);
    }
  }

  lemma UnescapeChar(n: nat, c: char, t: string, end: End, dq: bool, level: nat)
    requires c != '`' && c != '\\'
    ensures Unescape(Backslashes(n) + ([c] + t), end, dq, level)
         == Prefix(Backslashes(Left(n, Removes(c, dq))) + [c], Unescape(t, end, dq, level))
  {
    hide Unescape;
    if n % 2 == 0 {
      EvenChar(n / 2, c, t, end, dq, level);
    } else {
      OddChar(n / 2, c, t, end, dq, level);
    }
  }

  lemma UnescapeQuote(n: nat, t: string, end: End, dq: bool, level: nat)
    ensures Unescape(Backslashes(n) + (['`'] + t), end, dq, level)
         == if n % 2 == 1 then Prefix(Backslashes(n / 2) + ['`'], Unescape(t, end, dq, level))
            else Stream(Backslashes(n / 2), Closed(level))
  {
    var h, r := n / 2, n % 2;
    var s, st := Backslashes(r) + (['`'] + t), Unescape(t, end, dq, level);
    Runs(2 * h, r, ['`'] + t);
    UnescapePairs(h, s, end, dq, level);
    assert if r == 0 then s == ['`'] + t else s == ['\\', '`'] + t;
    assert s[r + 1..] == t;
    PrefixTwice(Backslashes(h), ['`'], st);
    assert Backslashes(h) + [] == Backslashes(h);
  }

  lemma UnescapeEnd(n: nat, end: End, dq: bool, level: nat)
    ensures Unescape(Backslashes(n), end, dq, level) == Stream(Backslashes(n / 2), end)
  {
    var h, r := n / 2, n % 2;
    Runs(2 * h, r, []);
    assert Backslashes(n) + [] == Backslashes(n) && Backslashes(r) + [] == Backslashes(r);
    UnescapePairs(h, Backslashes(r), end, dq, level);
    assert Backslashes(h) + [] == Backslashes(h);
  }

  // ---------- All levels on a run of q * 2^N + r backslashes ----------

  /** Dropping one level from `q * 2^N + r`. */
  lemma HalveRun(q: nat, r: nat, levels: nat)
    requires levels > 0 && r < Pow2(levels)
    ensures q * Pow2(levels) == 2 * (q * Pow2(levels - 1)) >= 0
    ensures (q * Pow2(levels) + r) / 2 == q * Pow2(levels - 1) + r / 2 && (q * Pow2(levels) + r) % 2 == r % 2
    ensures r / 2 < Pow2(levels - 1)
  {
    var p := Pow2(levels - 1);
    assert q * (2 * p) == 2 * (q * p);
    RunLength(q, 0, levels - 1);
  }

  /** The length of a run. */
  function Run(q: nat, r: nat, levels: nat): (n: nat) {
    RunLength(q, r, levels);
    q * Pow2(levels) + r
  }

  lemma RunLength(q: nat, r: nat, levels: nat)
    ensures q * Pow2(levels) >= 0
  {
    if q > 0 {
      ProductAtLeast(q, Pow2(levels));
    }
  }

  lemma RunHalves(q: nat, r: nat, levels: nat)
    requires levels > 0 && r < Pow2(levels)
    ensures Run(q, r, levels) / 2 == Run(q, r / 2, levels - 1) && Run(q, r, levels) % 2 == r % 2
    ensures r / 2 < Pow2(levels - 1)
    ensures r / 2 + 1 < Pow2(levels - 1) ==> Run(q, r / 2, levels - 1) + 1 == Run(q, r / 2 + 1, levels - 1)
    ensures r / 2 + 1 == Pow2(levels - 1) ==> Run(q, r / 2, levels - 1) + 1 == Run(q + 1, 0, levels - 1)
  {
    HalveRun(q, r, levels);
    var p := Pow2(levels - 1);
    assert (q + 1) * p == q * p + p;
  }

  lemma {:induction false} LevelsEnd(q: nat, r: nat, end: End, dqs: seq<bool>, level: nat)
    requires r < Pow2(|dqs|)
    ensures Levels(Stream(Backslashes(Run(q, r, |dqs|)), end), dqs, level) == Stream(Backslashes(q), end)
    decreases |dqs|
  {
    if dqs != [] {
      UnescapeEnd(Run(q, r, |dqs|), end, dqs[0], level);
      RunHalves(q, r, |dqs|);
      LevelsEnd(q, r / 2, end, dqs[1..], level + 1);
    }
  }

  /** The levels that remove a backslash in front of `c`, as a mask. */
  function MaskOf(c: char, dqs: seq<bool>): (m: nat)
    ensures m < Pow2(|dqs|)
  {
    if c == '$' then Pow2(|dqs|) - 1 else if c == '"' then Mask(dqs) else 0
  }

  lemma OneLevelChar(n: nat, c: char, st: Stream, dqs: seq<bool>, level: nat)
    requires dqs != [] && c != '`' && c != '\\'
    ensures Levels(Prefix(Backslashes(n) + [c], st), dqs, level)
         == Levels(Prefix(Backslashes(Left(n, Removes(c, dqs[0]))) + [c], Unescape(st.chars, st.end, dqs[0], level)),
                   dqs[1..], level + 1)
    ensures Levels(st, dqs, level) == Levels(Unescape(st.chars, st.end, dqs[0], level), dqs[1..], level + 1)
  {
    hide Unescape, Backslashes;
    Join(Backslashes(n), [c], st.chars);
    UnescapeChar(n, c, st.chars, st.end, dqs[0], level);
  }

  /** The run `(q', r')` that one level leaves of `(q, r)` in front of a character. */
  function NextRun(q: nat, r: nat, levels: nat, removed: bool): (nat, nat)
    requires levels > 0
  {
    if removed || r % 2 == 0 then (q, r / 2)
    else if r / 2 + 1 < Pow2(levels - 1) then (q, r / 2 + 1)
    else (q + 1, 0)
  }

  lemma LeftRun(q: nat, r: nat, levels: nat, removed: bool, m: nat)
    requires levels > 0 && r < Pow2(levels) && m < Pow2(levels - 1)
    ensures var (q', r') := NextRun(q, r, levels, removed);
            && r' < Pow2(levels - 1)
            && Left(Run(q, r, levels), removed) == Run(q', r', levels - 1)
            && q' + (if r' > m then 1 else 0) == q + (if r > 2 * m + (if removed then 1 else 0) then 1 else 0)
  {
    RunHalves(q, r, levels);
    hide Run;
  }

  /** The backslashes in front of a character other than a backquote. */
  lemma {:induction false} LevelsChar(q: nat, r: nat, c: char, st: Stream, dqs: seq<bool>, level: nat)
    requires c != '`' && c != '\\' && r < Pow2(|dqs|)
    ensures Levels(Prefix(Backslashes(Run(q, r, |dqs|)) + [c], st), dqs, level)
         == Prefix(Backslashes(q + (if r > MaskOf(c, dqs) then 1 else 0)) + [c], Levels(st, dqs, level))
    decreases |dqs|
  {
    if dqs != [] {
      var b := Removes(c, dqs[0]);
      OneLevelChar(Run(q, r, |dqs|), c, st, dqs, level);
      LeftRun(q, r, |dqs|, b, MaskOf(c, dqs[1..]));
      var st' := Unescape(st.chars, st.end, dqs[0], level);
      hide Unescape, Run, Backslashes, MaskOf, Removes, Levels, Left, Prefix, NextRun, Pow2;
      var (q', r') := NextRun(q, r, |dqs|, b);
      LevelsChar(q', r', c, st', dqs[1..], level + 1);
    }
  }

  /** A backquote that the run in front of it protects on every level. */
  lemma {:induction false} LevelsQuote(q: nat, r: nat, st: Stream, dqs: seq<bool>, level: nat)
    requires r + 1 == Pow2(|dqs|)
    ensures Levels(Prefix(Backslashes(Run(q, r, |dqs|)) + ['`'], st), dqs, level)
         == Prefix(Backslashes(q) + ['`'], Levels(st, dqs, level))
    decreases |dqs|
  {
    if dqs != [] {
      var n := Run(q, r, |dqs|);
      Join(Backslashes(n), ['`'], st.chars);
      UnescapeQuote(n, st.chars, st.end, dqs[0], level);
      RunHalves(q, r, |dqs|);
      LevelsQuote(q, r / 2, Unescape(st.chars, st.end, dqs[0], level), dqs[1..], level + 1);
    }
  }

  /** `r + 1` is half of 2^levels: all levels but the last protect the backquote. */
  lemma ClosesLast(r: nat, levels: nat)
    requires r + 1 < Pow2(levels)
    ensures levels > 0 && (r % 2 == 1 ==> levels > 1)
    ensures r % 2 == 0 ==> (r + 1 == Pow2(levels) / 2 <==> levels == 1)
    ensures r % 2 == 1 ==> (r + 1 == Pow2(levels) / 2 <==> r / 2 + 1 == Pow2(levels - 1) / 2)
  {
    if levels > 1 {
      var h := Pow2(levels - 2);
      assert Pow2(levels - 1) == 2 * h && Pow2(levels) == 2 * Pow2(levels - 1);
      hide Pow2;
      Halves(r, h);
    }
  }

  lemma Halves(r: nat, h: nat)
    ensures 4 * h / 2 == 2 * h && 2 * h / 2 == h
    ensures r % 2 == 0 ==> r + 1 != 2 * h
    ensures r % 2 == 1 ==> (r + 1 == 2 * h <==> r / 2 + 1 == h)
  {
  }

  /** Any other backquote closes a level: the innermost one when just that level does not protect it. */
  lemma {:induction false} LevelsClose(q: nat, r: nat, st: Stream, dqs: seq<bool>, level: nat)
    requires r + 1 < Pow2(|dqs|)
    ensures var res := Levels(Prefix(Backslashes(Run(q, r, |dqs|)) + ['`'], st), dqs, level);
            && res.chars == Backslashes(q) && res.end.Closed? && level <= res.end.level < level + |dqs|
            && (res.end.level == level + |dqs| - 1 <==> r + 1 == Pow2(|dqs|) / 2)
    decreases |dqs|
  {
    ClosesLast(r, |dqs|);
    hide Unescape, Run, Backslashes, Pow2;
    var n := Run(q, r, |dqs|);
    Join(Backslashes(n), ['`'], st.chars);
    UnescapeQuote(n, st.chars, st.end, dqs[0], level);
    RunHalves(q, r, |dqs|);
    if r % 2 == 1 {
      LevelsClose(q, r / 2, Unescape(st.chars, st.end, dqs[0], level), dqs[1..], level + 1);
    } else {
      LevelsEnd(q, r / 2, Closed(level), dqs[1..], level + 1);
    }
  }

  // ---------- One pass on a run ----------

  lemma {:induction false} LeadOfRun(n: nat, t: string)
    requires t == [] || t[0] != '\\'
    ensures Lead(Backslashes(n) + t) == n
  {
    var s := Backslashes(n) + t;
    if n > 0 {
      assert s[1..] == Backslashes(n - 1) + t;
      LeadOfRun(n - 1, t);
    } else {
      assert s == t;
    }
  }

  function AddGroups(q: nat, r: nat, p: nat): nat {
    if q == 0 then r else AddGroups(q - 1, r, p) + p
  }

  lemma {:induction false} RunIsGroups(q: nat, r: nat, levels: nat)
    ensures Run(q, r, levels) == AddGroups(q, r, Pow2(levels))
  {
    if q > 0 {
      RunIsGroups(q - 1, r, levels);
      assert q * Pow2(levels) == (q - 1) * Pow2(levels) + Pow2(levels);
    }
  }

  /** Whole groups of 2^N backslashes are delivered as one backslash each. */
  lemma {:induction false} ReadGroups(q: nat, r: nat, t: string, p: nat, mask: int)
    requires r < p && (t == [] || t[0] != '\\')
    ensures ReadAll(Backslashes(AddGroups(q, r, p)) + t, p, mask)
         == PrefixText(Backslashes(q), ReadAll(Backslashes(r) + t, p, mask))
    decreases q
  {
    hide ReadAll, PrefixText;
    var rest := ReadAll(Backslashes(r) + t, p, mask);
    if q == 0 {
      PassTwice([], [], rest);
    } else {
      ReadGroups(q - 1, r, t, p, mask);
      OneMoreGroup(AddGroups(q - 1, r, p), q - 1, t, p, mask, rest);
    }
  }

  lemma OneMoreGroup(n: nat, q: nat, t: string, backq: int, mask: int, rest: Text)
    requires backq >= 1 && (t == [] || t[0] != '\\')
    requires ReadAll(Backslashes(n) + t, backq, mask) == PrefixText(Backslashes(q), rest)
    ensures ReadAll(Backslashes(n + backq) + t, backq, mask) == PrefixText(Backslashes(q + 1), rest)
  {
    hide ReadAll;
    ReadGroup(n, t, backq, mask);
    PassTwice(['\\'], Backslashes(q), rest);
  }

  lemma StepGroup(n: nat, t: string, backq: int, mask: int)
    requires backq >= 1 && (t == [] || t[0] != '\\')
    ensures Step(Backslashes(n + backq) + t, backq, mask) == (Output(Char('\\')), Backslashes(n) + t)
  {
    hide Backslashes, Lead;
    var s := Backslashes(n + backq) + t;
    LeadOfRun(n + backq, t);
    assert s[backq..] == Backslashes(n + backq)[backq..] + t;
    assert Backslashes(n + backq)[backq..] == Backslashes(n);
  }

  lemma ReadGroup(n: nat, t: string, backq: int, mask: int)
    requires backq >= 1 && (t == [] || t[0] != '\\')
    ensures ReadAll(Backslashes(n + backq) + t, backq, mask) == PrefixText(['\\'], ReadAll(Backslashes(n) + t, backq, mask))
  {
    hide Step, Backslashes, PrefixText;
    StepGroup(n, t, backq, mask);
  }

  lemma PassTwice(a: string, b: string, t: Text)
    ensures PrefixText(a, PrefixText(b, t)) == PrefixText(a + b, t) && PrefixText([], t) == t
  {
    assert a + (b + t.chars) == a + b + t.chars && [] + t.chars == t.chars;
  }

  // ---------- One pass is all levels ----------

  /** No backslash run that the levels do not resolve stands before a newline, up to the end of the text. */
  predicate NoContinuation(s: string, backq: int)
    requires backq >= 1
    decreases |s|
  {
    LeadBounds(s);
    var len := Lead(s);
    if len == |s| then true
    else if s[len] == '\n' then len % backq == 0 && NoContinuation(s[len + 1..], backq)
    else if s[len] == '`' then (len + 1) % backq != 0 || NoContinuation(s[len + 1..], backq)
    else NoContinuation(s[len + 1..], backq)
  }

  /** One round over a run with less than a group left, and over what follows it. */
  lemma ReadRest(r: nat, t: string, backq: int, mask: int)
    requires r < backq && (t == [] || t[0] != '\\')
    ensures Step(Backslashes(r) + t, backq, mask)
         == if t == [] then (Decide(r, Peof, backq, mask), []) else (Decide(r, Char(t[0]), backq, mask), t[1..])
  {
    LeadOfRun(r, t);
    var s := Backslashes(r) + t;
    assert |s| == r + |t| && (t != [] ==> s[r] == t[0] && s[r + 1..] == t[1..]);
  }

  lemma Cancel(out: string, a: Text, b: Text)
    ensures PrefixText(out, a) == PrefixText(out, b) <==> a == b
    ensures |PrefixText(out, a).chars| == |out| + |a.chars|
  {
    if PrefixText(out, a) == PrefixText(out, b) {
      assert a.chars == (out + a.chars)[|out|..] == (out + b.chars)[|out|..] == b.chars;
    }
  }

  /** The text of `s` as the levels see it, next to the text as one pass reads it. */
  function ByLevels(s: string, dqs: seq<bool>): Text {
    Delivered(Levels(Stream(s, Eof), dqs, 1), |dqs|)
  }

  function ByPass(s: string, dqs: seq<bool>): Text {
    ReadAll(s, Pow2(|dqs|), Mask(dqs))
  }

  /** What is delivered of a character and the `r` backslashes in front of it. */
  function OfChar(r: nat, c: char, dqs: seq<bool>): string {
    if r == 0 then [c] else if c == '\n' then [] else if r > MaskOf(c, dqs) then ['\\', c] else [c]
  }

  lemma PassRest(r: nat, c: char, t: string, dqs: seq<bool>)
    requires c != '`' && c != '\\' && r < Pow2(|dqs|)
    ensures ReadAll(Backslashes(r) + ([c] + t), Pow2(|dqs|), Mask(dqs)) == PrefixText(OfChar(r, c, dqs), ByPass(t, dqs))
  {
    ReadRest(r, [c] + t, Pow2(|dqs|), Mask(dqs));
    assert ([c] + t)[1..] == t;
    PassTwice([], [], ByPass(t, dqs));
  }

  lemma PassChar(q: nat, r: nat, c: char, t: string, dqs: seq<bool>)
    requires c != '`' && c != '\\' && r < Pow2(|dqs|)
    ensures var s, k := Backslashes(Run(q, r, |dqs|)) + ([c] + t), if r > MaskOf(c, dqs) then 1 else 0;
            ByPass(s, dqs) == PrefixText(if c == '\n' && r > 0 then Backslashes(q) else Backslashes(q + k) + [c], ByPass(t, dqs))
  {
    RunIsGroups(q, r, |dqs|);
    ReadGroups(q, r, [c] + t, Pow2(|dqs|), Mask(dqs));
    PassRest(r, c, t, dqs);
    Snoc(q);
    hide ReadAll, Backslashes;
    PassTwice(Backslashes(q), OfChar(r, c, dqs), ByPass(t, dqs));
    Join(Backslashes(q), ['\\'], [c]);
    assert ['\\'] + [c] == ['\\', c];
    assert Backslashes(q) + [] == Backslashes(q);
  }

  lemma LevelsOfChar(q: nat, r: nat, c: char, t: string, dqs: seq<bool>)
    requires c != '`' && c != '\\' && r < Pow2(|dqs|)
    ensures var s, k := Backslashes(Run(q, r, |dqs|)) + ([c] + t), if r > MaskOf(c, dqs) then 1 else 0;
            ByLevels(s, dqs) == PrefixText(Backslashes(q + k) + [c], ByLevels(t, dqs))
  {
    hide Levels, Backslashes, Run;
    Join(Backslashes(Run(q, r, |dqs|)), [c], t);
    LevelsChar(q, r, c, Stream(t, Eof), dqs, 1);
  }

  /** A protected backquote. */
  lemma ChunkQuote(q: nat, r: nat, t: string, dqs: seq<bool>)
    requires r + 1 == Pow2(|dqs|)
    ensures var s := Backslashes(Run(q, r, |dqs|)) + (['`'] + t);
            && ByLevels(s, dqs) == PrefixText(Backslashes(q) + ['`'], ByLevels(t, dqs))
            && ByPass(s, dqs) == PrefixText(Backslashes(q) + ['`'], ByPass(t, dqs))
  {
    hide Levels, Backslashes, Run;
    var m := Mask(dqs);
    Join(Backslashes(Run(q, r, |dqs|)), ['`'], t);
    LevelsQuote(q, r, Stream(t, Eof), dqs, 1);
    RunIsGroups(q, r, |dqs|);
    ReadGroups(q, r, ['`'] + t, Pow2(|dqs|), m);
    ReadRest(r, ['`'] + t, Pow2(|dqs|), m);
    assert (['`'] + t)[1..] == t;
    PassTwice(Backslashes(q), ['`'], ByPass(t, dqs));
  }

  /** A closing backquote: a good end for the innermost level only. */
  lemma ChunkClose(q: nat, r: nat, t: string, dqs: seq<bool>)
    requires r + 1 < Pow2(|dqs|)
    ensures var s := Backslashes(Run(q, r, |dqs|)) + (['`'] + t);
            ByLevels(s, dqs) == ByPass(s, dqs) == Text(Backslashes(q), r + 1 == Pow2(|dqs|) / 2)
  {
    hide Levels, Backslashes, Run;
    var m := Mask(dqs);
    Join(Backslashes(Run(q, r, |dqs|)), ['`'], t);
    LevelsClose(q, r, Stream(t, Eof), dqs, 1);
    RunIsGroups(q, r, |dqs|);
    ReadGroups(q, r, ['`'] + t, Pow2(|dqs|), m);
    ReadRest(r, ['`'] + t, Pow2(|dqs|), m);
    assert Backslashes(q) + [] == Backslashes(q);
  }

  /** The input ends: only at depth 0 is that a good end. */
  lemma ChunkEnd(q: nat, r: nat, dqs: seq<bool>)
    requires r < Pow2(|dqs|)
    ensures var s := Backslashes(Run(q, r, |dqs|));
            ByLevels(s, dqs) == ByPass(s, dqs) == Text(Backslashes(q), |dqs| == 0)
  {
    hide Levels, Backslashes, Run;
    var s, m := Backslashes(Run(q, r, |dqs|)), Mask(dqs);
    LevelsEnd(q, r, Eof, dqs, 1);
    assert s + [] == s && Backslashes(r) + [] == Backslashes(r) && Backslashes(q) + [] == Backslashes(q);
    RunIsGroups(q, r, |dqs|);
    ReadGroups(q, r, [], Pow2(|dqs|), m);
    ReadRest(r, [], Pow2(|dqs|), m);
  }

  function Split(n: nat, levels: nat): (qr: (nat, nat))
    ensures qr.1 < Pow2(levels) && n == Run(qr.0, qr.1, levels) && qr.1 == n % Pow2(levels)
    ensures (n + 1) % Pow2(levels) == 0 <==> qr.1 + 1 == Pow2(levels)
  {
    var p := Pow2(levels);
    DivBounds(n, p);
    DivMod(n, p);
    NextMod(n, p);
    (n / p, n % p)
  }

  lemma NextMod(n: nat, p: int)
    requires p > 0
    ensures (n + 1) % p == 0 <==> n % p + 1 == p
  {
    DivMod(n, p);
    if n % p + 1 == p {
      assert n + 1 == p * (n / p + 1);
      DivUnique(n + 1, p, n / p + 1, 0);
    } else {
      DivUnique(n + 1, p, n / p, n % p + 1);
    }
  }

  /**
   * One pass with `backq = 2^N` and the mask of the levels delivers what N passes of unescaping leave,
   * and ends as they do, exactly when no unresolved run of backslashes stands before a newline.
   */
  lemma {:induction false} PassIsLevels(s: string, dqs: seq<bool>)
    ensures ByPass(s, dqs) == ByLevels(s, dqs) <==> NoContinuation(s, Pow2(|dqs|))
    ensures |ByPass(s, dqs).chars| <= |ByLevels(s, dqs).chars|
    decreases |s|
  {
    LeadBounds(s);
    var n, p := Lead(s), Pow2(|dqs|);
    var (q, r) := Split(n, |dqs|);
    var rest := s[n..];
    hide ByPass, ByLevels, Backslashes, Run;
    if rest == [] {
      assert s == Backslashes(n);
      ChunkEnd(q, r, dqs);
    } else {
      var c, t := rest[0], rest[1..];
      assert rest == [c] + t && s[n + 1..] == t;
      PassIsLevels(t, dqs);
      if c != '`' {
        PassChar(q, r, c, t, dqs);
        LevelsOfChar(q, r, c, t, dqs);
        Cancel(Backslashes(q + (if r > MaskOf(c, dqs) then 1 else 0)) + [c], ByPass(t, dqs), ByLevels(t, dqs));
      } else if r + 1 == p {
        ChunkQuote(q, r, t, dqs);
        Cancel(Backslashes(q) + ['`'], ByPass(t, dqs), ByLevels(t, dqs));
      } else {
        ChunkClose(q, r, t, dqs);
      }
    }
  }

  /** With one level open, a backslash and a newline are delivered as they are by a level, and deleted by the pass. */
  lemma ContinuationDiffers(dq: bool)
    ensures !NoContinuation("\\\n", Pow2(1))
    ensures ByLevels("\\\n", [dq]).chars == "\\\n" && ByPass("\\\n", [dq]).chars == ""
  {
    var s := "\\\n";
    assert s[1..] == "\n" && s[2..] == "" && s[1..][1..] == "";
    assert Lead(s[1..]) == 0 && Lead(s) == 1;
    assert Pow2(1) == 2;
    assert [dq][1..] == [];
    assert Step(s, 2, Mask([dq])) == (Continue, "");
    assert Step("", 2, Mask([dq])).0 == Output(Peof) || Step("", 2, Mask([dq])).0 == Fail;
    assert Unescape("", Eof, dq, 1) == Stream([], Eof);
    assert ['\\', '\n'] + [] == s;
    assert Unescape(s, Eof, dq, 1) == Stream(s, Eof);
    assert Levels(Stream(s, Eof), [dq], 1) == Levels(Stream(s, Eof), [], 2);
  }
}
