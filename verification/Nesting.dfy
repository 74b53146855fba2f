/** How the depths of old-style substitutions fit together. */
module Nesting {
  import opened Numbers
  import opened Backquote

  /** Unescaping the outer levels and then the inner ones is what `popstring` arranges for. */
  lemma {:induction false} LevelsPlus(st: Stream, d1: seq<bool>, d2: seq<bool>, level: nat)
    ensures Levels(st, d1 + d2, level) == Levels(Levels(st, d1, level), d2, level + |d1|)
    decreases |d1|
  {
    if d1 == [] {
      assert d1 + d2 == d2;
    } else {
      assert (d1 + d2)[1..] == d1[1..] + d2;
      LevelsPlus(Unescape(st.chars, st.end, d1[0], level), d1[1..], d2, level + 1);
    }
  }

  /** The input that is left where `pgetc` stops. */
  function AfterStop(s: string, dqs: seq<bool>): string
    decreases |s|
  {
    StepShrinks(s, Pow2(|dqs|), Mask(dqs));
    var (action, rest) := Step(s, Pow2(|dqs|), Mask(dqs));
    if action == Fail || action == Output(Peof) then rest else AfterStop(rest, dqs)
  }

  /** A run that splits for `levels + 1` levels, split for `levels`. */
  lemma SplitOuter(n: nat, levels: nat)
    ensures var (q, r) := Split(n, levels + 1); var (q', r') := Split(n, levels);
            && (r + 1 == Pow2(levels + 1) ==> r' + 1 == Pow2(levels) && q' == 2 * q + 1)
            && (r + 1 == Pow2(levels) ==> r' + 1 == Pow2(levels) && q' == 2 * q)
  {
    var p := Pow2(levels);
    var (q, r) := Split(n, levels + 1);
    DivMod(n, 2 * p);
    assert n == 2 * p * q + r by {
      assert q * (2 * p) == 2 * p * q;
    }
    if r + 1 == 2 * p {
      assert n == p * (2 * q + 1) + (p - 1);
      DivUnique(n, p, 2 * q + 1, p - 1);
    } else if r + 1 == p {
      assert n == p * (2 * q) + (p - 1);
      DivUnique(n, p, 2 * q, p - 1);
    }
  }

  lemma AfterGroup(n: nat, t: string, dqs: seq<bool>)
    requires t == [] || t[0] != '\\'
    ensures AfterStop(Backslashes(n + Pow2(|dqs|)) + t, dqs) == AfterStop(Backslashes(n) + t, dqs)
  {
    hide Pow2, Mask;
    var p := Pow2(|dqs|);
    var s := Backslashes(n + p) + t;
    LeadOfRun(n + p, t);
    assert s[p..] == Backslashes(n) + t;
    hide Backslashes, Lead;
    assert Step(s, p, Mask(dqs)) == (Output(Char('\\')), Backslashes(n) + t);
  }

  lemma {:induction false} AfterGroups(q: nat, r: nat, t: string, dqs: seq<bool>)
    requires t == [] || t[0] != '\\'
    ensures AfterStop(Backslashes(AddGroups(q, r, Pow2(|dqs|))) + t, dqs) == AfterStop(Backslashes(r) + t, dqs)
    decreases q
  {
    hide AfterStop;
    if q > 0 {
      AfterGroup(AddGroups(q - 1, r, Pow2(|dqs|)), t, dqs);
      AfterGroups(q - 1, r, t, dqs);
    }
  }

  lemma DecideStops(r: nat, c: char, backq: int, mask: int)
    ensures var action := Decide(r, Char(c), backq, mask);
            action == Fail || action == Output(Peof) <==> c == '`' && r + 1 != backq
  {
  }

  lemma AfterRest(r: nat, c: char, t: string, dqs: seq<bool>)
    requires r < Pow2(|dqs|) && c != '\\'
    ensures AfterStop(Backslashes(r) + ([c] + t), dqs) == if c == '`' && r + 1 != Pow2(|dqs|) then t else AfterStop(t, dqs)
  {
    hide Backslashes, Pow2, Mask, Step, Decide;
    ReadRest(r, [c] + t, Pow2(|dqs|), Mask(dqs));
    assert ([c] + t)[1..] == t;
    DecideStops(r, c, Pow2(|dqs|), Mask(dqs));
  }

  lemma AfterRun(q: nat, r: nat, c: char, t: string, dqs: seq<bool>)
    requires r < Pow2(|dqs|) && c != '\\'
    ensures AfterStop(Backslashes(Run(q, r, |dqs|)) + ([c] + t), dqs)
         == if c == '`' && r + 1 != Pow2(|dqs|) then t else AfterStop(t, dqs)
  {
    hide AfterStop, Run, Backslashes;
    RunIsGroups(q, r, |dqs|);
    AfterGroups(q, r, [c] + t, dqs);
    AfterRest(r, c, t, dqs);
  }

  /** The outer levels of `s`. */
  function Outside(s: string, outer: seq<bool>): Stream { Levels(Stream(s, Eof), outer, 1) }

  /** `y` is the text of the innermost level of `s`: its levels deliver what `pgetc` does, up to its backquote. */
  ghost predicate Encloses(s: string, outer: seq<bool>, dq: bool, y: string) {
    var dqs := outer + [dq];
    && Outside(s, outer) == Prefix(y + ['`'], Outside(AfterStop(s, dqs), outer))
    && Unescape(y + ['`'], Eof, dq, |dqs|) == Stream(ByPass(s, dqs).chars, Closed(|dqs|))
  }

  lemma OneLevelMore(s: string, outer: seq<bool>, dq: bool)
    ensures Levels(Stream(s, Eof), outer + [dq], 1) == Unescape(Outside(s, outer).chars, Outside(s, outer).end, dq, |outer| + 1)
  {
    LevelsPlus(Stream(s, Eof), outer, [dq], 1);
    var st := Unescape(Outside(s, outer).chars, Outside(s, outer).end, dq, |outer| + 1);
    assert [dq][1..] == [] && Levels(st, [], |outer| + 2) == st;
  }

  lemma OutsideChar(q: nat, r: nat, c: char, t: string, outer: seq<bool>)
    requires c != '`' && c != '\\' && r < Pow2(|outer|)
    ensures Outside(Backslashes(Run(q, r, |outer|)) + ([c] + t), outer)
         == Prefix(Backslashes(q + (if r > MaskOf(c, outer) then 1 else 0)) + [c], Outside(t, outer))
  {
    hide Levels, Backslashes, Run;
    Join(Backslashes(Run(q, r, |outer|)), [c], t);
    LevelsChar(q, r, c, Stream(t, Eof), outer, 1);
  }

  lemma OutsideQuote(q: nat, r: nat, t: string, outer: seq<bool>)
    requires r + 1 == Pow2(|outer|)
    ensures Outside(Backslashes(Run(q, r, |outer|)) + (['`'] + t), outer) == Prefix(Backslashes(q) + ['`'], Outside(t, outer))
  {
    hide Levels, Backslashes, Run;
    Join(Backslashes(Run(q, r, |outer|)), ['`'], t);
    LevelsQuote(q, r, Stream(t, Eof), outer, 1);
  }

  /** Both ways of unescaping leave the same run in front of a character. */
  lemma SameRun(n: nat, q: nat, r: nat, q': nat, r': nat, c: char, t: string, outer: seq<bool>, dq: bool)
    requires c != '`' && c != '\\' && r < Pow2(|outer| + 1) && r' < Pow2(|outer|)
    requires n == Run(q, r, |outer| + 1) == Run(q', r', |outer|)
    ensures Left(q' + (if r' > MaskOf(c, outer) then 1 else 0), Removes(c, dq))
         == q + (if r > MaskOf(c, outer + [dq]) then 1 else 0)
  {
    var dqs, s := outer + [dq], Backslashes(n) + ([c] + t);
    var k', k := q' + (if r' > MaskOf(c, outer) then 1 else 0), q + (if r > MaskOf(c, dqs) then 1 else 0);
    var u, rest := Outside(t, outer), Levels(Stream(t, Eof), dqs, 1);
    Join(Backslashes(n), [c], t);
    LevelsChar(q, r, c, Stream(t, Eof), dqs, 1);
    assert Levels(Stream(s, Eof), dqs, 1) == Prefix(Backslashes(k) + [c], rest);
    OutsideChar(q', r', c, t, outer);
    Join(Backslashes(k'), [c], u.chars);
    UnescapeChar(k', c, u.chars, u.end, dq, |outer| + 1);
    OneLevelMore(s, outer, dq);
    OneLevelMore(t, outer, dq);
    hide Levels, Unescape, MaskOf;
    assert |Prefix(Backslashes(k) + [c], rest).chars| == |Prefix(Backslashes(Left(k', Removes(c, dq))) + [c], rest).chars|;
  }

  /** Characters in front of the text of the innermost level belong to it. */
  lemma Extend(pre: string, s: string, t: string, inner: string, outer: seq<bool>, dq: bool, y: string)
    requires Encloses(t, outer, dq, y)
    requires AfterStop(s, outer + [dq]) == AfterStop(t, outer + [dq])
    requires Outside(s, outer) == Prefix(pre, Outside(t, outer))
    requires ByPass(s, outer + [dq]) == PrefixText(inner, ByPass(t, outer + [dq]))
    requires Unescape(pre + (y + ['`']), Eof, dq, |outer| + 1) == Prefix(inner, Unescape(y + ['`'], Eof, dq, |outer| + 1))
    ensures Encloses(s, outer, dq, pre + y)
  {
    hide AfterStop, Outside, ByPass, Unescape;
    Join(pre, y, ['`']);
    PrefixTwice(pre, y + ['`'], Outside(AfterStop(t, outer + [dq]), outer));
  }

  lemma EnclosesChar(n: nat, q: nat, r: nat, q': nat, r': nat, c: char, t: string, outer: seq<bool>, dq: bool, y: string)
    requires c != '`' && c != '\\' && r < Pow2(|outer| + 1) && r' < Pow2(|outer|) && (c == '\n' ==> r == 0)
    requires n == Run(q, r, |outer| + 1) == Run(q', r', |outer|)
    requires Encloses(t, outer, dq, y)
    ensures Encloses(Backslashes(n) + ([c] + t), outer, dq, Backslashes(q' + (if r' > MaskOf(c, outer) then 1 else 0)) + [c] + y)
  {
    hide AfterStop, Outside, ByPass, Unescape, Backslashes, Run, MaskOf, Pow2, Encloses;
    var dqs, k := outer + [dq], q' + (if r' > MaskOf(c, outer) then 1 else 0);
    AfterRun(q, r, c, t, dqs);
    OutsideChar(q', r', c, t, outer);
    PassChar(q, r, c, t, dqs);
    SameRun(n, q, r, q', r', c, t, outer, dq);
    UnescapeChar(k, c, y + ['`'], Eof, dq, |dqs|);
    Join(Backslashes(k), [c], y + ['`']);
    Extend(Backslashes(k) + [c], Backslashes(n) + ([c] + t), t, Backslashes(Left(k, Removes(c, dq))) + [c], outer, dq, y);
  }

  lemma EnclosesQuote(n: nat, q: nat, r: nat, q': nat, r': nat, t: string, outer: seq<bool>, dq: bool, y: string)
    requires r + 1 == Pow2(|outer| + 1) && r' + 1 == Pow2(|outer|) && q' == 2 * q + 1
    requires n == Run(q, r, |outer| + 1) == Run(q', r', |outer|)
    requires Encloses(t, outer, dq, y)
    ensures Encloses(Backslashes(n) + (['`'] + t), outer, dq, Backslashes(q') + ['`'] + y)
  {
    hide AfterStop, Outside, ByPass, ByLevels, Unescape, Backslashes, Run, Pow2, Encloses;
    var dqs := outer + [dq];
    AfterRun(q, r, '`', t, dqs);
    OutsideQuote(q', r', t, outer);
    ChunkQuote(q, r, t, dqs);
    UnescapeQuote(q', y + ['`'], Eof, dq, |dqs|);
    Join(Backslashes(q'), ['`'], y + ['`']);
    Extend(Backslashes(q') + ['`'], Backslashes(n) + (['`'] + t), t, Backslashes(q) + ['`'], outer, dq, y);
  }

  lemma DoublePow(n: nat)
    ensures Pow2(n + 1) == 2 * Pow2(n)
  {
  }

  lemma EnclosesLast(n: nat, q: nat, r: nat, q': nat, r': nat, t: string, outer: seq<bool>, dq: bool)
    requires r + 1 == Pow2(|outer|) && r' == r && q' == 2 * q
    requires n == Run(q, r, |outer| + 1) == Run(q', r', |outer|)
    ensures Encloses(Backslashes(n) + (['`'] + t), outer, dq, Backslashes(q'))
  {
    hide Outside, ByPass, ByLevels, Unescape, Backslashes, Run, Pow2, AfterStop;
    var dqs, s := outer + [dq], Backslashes(n) + (['`'] + t);
    assert ['`'] + [] == ['`'];
    DoublePow(|outer|);
    assert AfterStop(s, dqs) == t by {
      AfterRun(q, r, '`', t, dqs);
    }
    OutsideQuote(q', r', t, outer);
    assert Unescape(Backslashes(q') + ['`'], Eof, dq, |dqs|) == Stream(Backslashes(q), Closed(|dqs|)) by {
      UnescapeQuote(2 * q, [], Eof, dq, |dqs|);
    }
    assert ByPass(s, dqs).chars == Backslashes(q) by {
      ChunkClose(q, r, t, dqs);
    }
  }

  /**
   * A backquote that `pgetc` takes for the end of the innermost level is a backquote of the next outer
   * level, and the outer levels go on behind it with the input that `pgetc` has left.
   */
  lemma {:induction false} CloseResumes(s: string, outer: seq<bool>, dq: bool) returns (y: string)
    requires NoContinuation(s, Pow2(|outer| + 1)) && ByPass(s, outer + [dq]).ok
    ensures Encloses(s, outer, dq, y)
    decreases |s|
  {
    var dqs := outer + [dq];
    LeadBounds(s);
    var n := Lead(s);
    var (q, r) := Split(n, |dqs|);
    var (q', r') := Split(n, |outer|);
    SplitOuter(n, |outer|);
    if n == |s| {
      assert s == Backslashes(n);
      ChunkEnd(q, r, dqs);
      assert false;
    }
    var c, t := s[n], s[n + 1..];
    assert s[n..] == [c] + t;
    if c == '`' && r + 1 != Pow2(|dqs|) {
      ChunkClose(q, r, t, dqs);
      y := Backslashes(q');
      EnclosesLast(n, q, r, q', r', t, outer, dq);
    } else if c == '`' {
      ChunkQuote(q, r, t, dqs);
      y := CloseResumes(t, outer, dq);
      EnclosesQuote(n, q, r, q', r', t, outer, dq, y);
      y := Backslashes(q') + ['`'] + y;
    } else {
      PassChar(q, r, c, t, dqs);
      y := CloseResumes(t, outer, dq);
      EnclosesChar(n, q, r, q', r', c, t, outer, dq, y);
      y := Backslashes(q' + (if r' > MaskOf(c, outer) then 1 else 0)) + [c] + y;
    }
  }
}
