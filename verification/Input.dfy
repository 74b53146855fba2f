/** The input of the parser (src/input.c): reading, pushing back, and the depth of old-style substitutions. */
module Input {
  import opened Numbers
  import opened Backquote

  /** The state that `pushstring` saves. */
  datatype Saved = Saved(text: string, unget: nat, last0: Read, last1: Read, backq: int, dqbackq: int)

  /** The saved counters and masks stand for the substitutions that were open. */
  ghost predicate Nested(frames: seq<Saved>, outer: seq<seq<bool>>) {
    |frames| == |outer| &&
    forall i :: 0 <= i < |outer| ==>
      frames[i].backq == Pow2(|outer[i]|) && frames[i].dqbackq == Mask(outer[i]) && frames[i].unget <= 2
  }

  class ParseFile {
    /** What is left of the string being read. */
    var text: string
    /** How many of the latest characters, newest first in `last0` and `last1`, are to be read again. */
    var unget: nat
    var last0: Read
    var last1: Read
    /** 2^N inside N old-style substitutions, and which of them are in double quotes. */
    var backq: int
    var dqbackq: int
    var strpush: seq<Saved>
    /** The open substitutions of the current string, outermost first, and those of the saved ones. */
    ghost var dqs: seq<bool>
    ghost var outer: seq<seq<bool>>
    /** All that was read and not pushed back. */
    ghost var history: seq<Read>

    ghost predicate Valid()
      reads this
    {
      && backq == Pow2(|dqs|) && dqbackq == Mask(dqs)
      && unget <= 2
      && (unget < 2 && history != [] ==> Latest(unget) == history[|history| - 1])
      && (unget == 0 && |history| > 1 ==> last1 == history[|history| - 2])
      && Nested(strpush, outer)
    }

    function Latest(k: nat): Read
      reads this
    {
      if k == 0 then last0 else last1
    }

    /** The characters that were pushed back, next one first. */
    ghost function Again(): (s: seq<Read>)
      reads this
    {
      if unget == 0 then [] else if unget == 1 then [last0] else [last1, last0]
    }

    constructor (text: string)
      ensures Valid() && this.text == text && dqs == [] && unget == 0 && strpush == []
    {
      this.text, unget, backq, dqbackq, strpush := text, 0, 1, 0, [];
      last0, last1 := Peof, Peof;
      dqs, outer, history := [], [], [];
    }

    /** `pgetc1`: the next character of the string. */
    method NextChar() returns (r: Read)
      modifies this`text
      ensures r == (if old(text) == [] then Peof else Char(old(text)[0]))
      ensures text == (if old(text) == [] then [] else old(text)[1..])
    {
      if text == [] {
        return Peof;
      }
      r := Char(text[0]);
      text := text[1..];
    }

    /** A run of backslashes, at most `backq` of them, and the character behind it. */
    method ReadRun() returns (len: nat, c: Read)
      requires Valid()
      modifies this`text
      ensures len <= backq
      ensures len == backq <==> Lead(old(text)) >= backq
      ensures len == backq ==> c == Char('\\') && old(text) == Backslashes(len) + text
      ensures len < backq ==> c != Char('\\')
                              && old(text) == Backslashes(len) + (if c.Peof? then [] else [c.c] + text)
                              && (c.Peof? ==> text == [])
    {
      hide Lead, Pow2, Mask, Backslashes;
      len := 0;
      Runs(0, 0, text);
      ghost var s := text;
      c := NextChar();
      while c == Char('\\')
        invariant len < backq
        invariant s == Backslashes(len) + (if c.Peof? then [] else [c.c] + text)
        invariant c.Peof? ==> text == []
        decreases |text|, c == Char('\\')
      {
        len := len + 1;
        Runs(len - 1, 1, text);
        if len >= backq {
          LeadAtLeast(len, text);
          return;
        }
        ghost var t := text;
        c := NextChar();
        assert t == if c.Peof? then [] else [c.c] + text;
      }
      LeadOfRun(len, if c.Peof? then [] else [c.c] + text);
    }

    /** The loop of `pgetc`, up to the round that delivers or fails. */
    method Rounds() returns (action: Action)
      requires Valid()
      modifies this`text
      ensures action != Continue
      ensures action == Fail ==> ByPass(old(text), dqs) == Text([], false)
      ensures action == Output(Peof) ==> ByPass(old(text), dqs) == Text([], true)
      ensures action.Output? && action.r.Char? ==> ByPass(old(text), dqs) == PrefixText([action.r.c], ByPass(text, dqs))
      ensures action.Escape? ==> ByPass(old(text), dqs) == PrefixText(['\\', action.c], ByPass(text, dqs))
      ensures action != Fail && action != Output(Peof) ==> |text| < |old(text)|
    {
      hide ByPass, Step, Lead, Mask, Pow2, Backslashes, Decide;
      while true
        invariant Valid() && ByPass(text, dqs) == ByPass(old(text), dqs) && |text| <= |old(text)|
        decreases |text|
      {
        ghost var s := text;
        var len, c := ReadRun();
        StepOf(s, len, c, text, backq, dqbackq);
        action := Decide(len, c, backq, dqbackq);
        RoundOf(s, dqs, action, text);
        if action != Continue {
          return;
        }
      }
    }

    /**
     * `pgetc`: again what was pushed back, or else the next character as the substitutions leave it.
     * An error ends the parse and forgets the substitutions.
     */
    method Pgetc() returns (r: Read, error: bool)
      requires Valid()
      modifies this`text, this`unget, this`last0, this`last1, this`backq, this`dqbackq, this`dqs, this`history
      ensures Valid() && (!error ==> dqs == old(dqs) && history == old(history) + [r])
      ensures old(unget) > 0 ==> !error && [r] + Again() == old(Again()) && text == old(text)
      ensures old(unget) == 0 && !error && r.Char? ==>
                if unget == 0 then ByPass(old(text), dqs) == PrefixText([r.c], ByPass(text, dqs))
                else Again() == [last0] && last0.Char? && ByPass(old(text), dqs) == PrefixText([r.c, last0.c], ByPass(text, dqs))
      ensures old(unget) == 0 && !error && r.Peof? ==> unget == 0 && ByPass(old(text), dqs) == Text([], true)
      ensures error ==> ByPass(old(text), old(dqs)) == Text([], false) && dqs == []
      ensures old(unget) == 0 && !error && r.Char? ==> unget <= 1 && |text| < |old(text)|
    {
      error := false;
      if unget > 0 {
        unget := unget - 1;
        r := Latest(unget);
      } else {
        assert Pow2(0) == 1 && Mask([]) == 0;
        hide ByPass, Pow2, Mask, PrefixText, Nested;
        var action := Rounds();
        match action
        case Fail =>
          backq, dqbackq, dqs := 1, 0, [];
          return Peof, true;
        case Output(out) =>
          last0, last1 := out, last0;
          r := out;
        case Escape(c) =>
          last0, last1 := Char(c), Char('\\');
          unget := unget + 1;
          r := Char('\\');
      }
      history := history + [r];
    }

    /** `pungetc` undoes the latest `pgetc`; it can do so for the latest two characters. */
    method Pungetc()
      requires Valid() && history != [] && unget < 2
      modifies this`unget, this`history
      ensures Valid() && history == old(history)[..|old(history)| - 1]
      ensures Again() == [old(history)[|old(history)| - 1]] + old(Again())
    {
      unget := unget + 1;
      history := history[..|history| - 1];
    }

    /** The parser enters an old-style substitution. */
    method OpenBackquote(dq: bool)
      requires Valid()
      modifies this`backq, this`dqbackq, this`dqs
      ensures Valid() && dqs == old(dqs) + [dq]
    {
      MaskOpen(dqs, dq);
      if dq {
        dqbackq := Bitwise(OrBit, dqbackq, backq);
      }
      backq := backq * 2;
      dqs := dqs + [dq];
    }

    /** The parser leaves it. */
    method CloseBackquote()
      requires Valid() && dqs != []
      modifies this`backq, this`dqbackq, this`dqs
      ensures Valid() && dqs == old(dqs)[..|old(dqs)| - 1]
    {
      MaskClose(dqs);
      backq := backq / 2;
      dqbackq := Bitwise(AndBit, dqbackq, -1 - backq);
      dqs := dqs[..|dqs| - 1];
    }

    /** `pushstring`: another string, such as the text of an alias, is read first. */
    method PushString(s: string)
      requires Valid()
      modifies this
      ensures Valid() && text == s && dqs == [] && unget == 0 && outer == old(outer) + [old(dqs)]
      ensures |strpush| == |old(strpush)| + 1 && strpush[|old(strpush)|].text == old(text)
    {
      strpush := strpush + [Saved(text, unget, last0, last1, backq, dqbackq)];
      outer := outer + [dqs];
      text, unget, backq, dqbackq := s, 0, 1, 0;
      dqs, history := [], [];
    }

    /** `popstring`: the substitutions that the string has left open now lie inside those of the saved one. */
    method PopString()
      requires Valid() && strpush != []
      modifies this
      ensures Valid() && dqs == old(outer)[|old(outer)| - 1] + old(dqs)
      ensures text == old(strpush)[|old(strpush)| - 1].text
      ensures strpush == old(strpush)[..|old(strpush)| - 1] && outer == old(outer)[..|old(outer)| - 1]
    {
      NestedPop(strpush, outer);
      hide Mask, Pow2, Bitwise, Nested, Latest;
      var last := |strpush| - 1;
      var sp := strpush[last];
      ghost var saved := outer[last];
      MaskJoin(saved, dqs);
      dqbackq := Bitwise(OrBit, sp.dqbackq, dqbackq * sp.backq);
      backq := sp.backq * backq;
      text, unget, last0, last1 := sp.text, sp.unget, sp.last0, sp.last1;
      strpush, outer := strpush[..last], outer[..last];
      dqs, history := saved + dqs, [];
    }
  }

  /** What is still to be read, with what was pushed back in front. */
  ghost function Ahead(f: ParseFile): Text
    reads f
    requires f.backq >= 1 && f.unget <= 1
  {
    var rest := ByPass(f.text, f.dqs);
    if f.unget == 1 && f.last0.Char? then PrefixText([f.last0.c], rest) else rest
  }

  /**
   * Reading to the end delivers the pass over the text character by character, and so what unescaping once per
   * level delivers, exactly when no run of backslashes stands in front of a newline where it is deleted.
   */
  method ReadToEnd(f: ParseFile) returns (t: Text)
    requires f.Valid() && f.unget == 0
    modifies f
    ensures t == ByPass(old(f.text), old(f.dqs))
    ensures t == ByLevels(old(f.text), old(f.dqs)) <==> NoContinuation(old(f.text), Pow2(|old(f.dqs)|))
  {
    ghost var s, dqs := f.text, f.dqs;
    PassIsLevels(s, dqs);
    hide ByPass, ByLevels, NoContinuation;
    var chars := [];
    PassTwice([], [], ByPass(s, dqs));
    while true
      invariant f.Valid() && f.dqs == dqs && f.unget <= 1 && (f.unget == 1 ==> f.last0.Char?)
      invariant ByPass(s, dqs) == PrefixText(chars, Ahead(f))
      decreases |f.text|, f.unget
    {
      ghost var ahead := Ahead(f);
      ghost var pushed, rest, again := f.unget, ByPass(f.text, f.dqs), f.Again();
      var r, error := f.Pgetc();
      assert pushed == 1 ==> again[0].Char? && ([r] + f.Again())[0] == r;
      if error {
        EndHere(chars, false);
        return Text(chars, false);
      }
      if r.Peof? {
        EndHere(chars, true);
        return Text(chars, true);
      }
      Deliver(chars, r.c, f.last0, pushed, f.unget, rest, ByPass(f.text, f.dqs), ahead, Ahead(f));
      chars := chars + [r.c];
    }
  }

  lemma EndHere(chars: string, ok: bool)
    ensures PrefixText(chars, Text([], ok)) == Text(chars, ok)
  {
    assert chars + [] == chars;
  }

  /** One character is delivered of what is ahead. */
  lemma Deliver(chars: string, c: char, last: Read, pushed: nat, now: nat, was: Text, rest: Text, ahead: Text, ahead': Text)
    requires pushed == 1 ==> now == 0 && was == rest && ahead == PrefixText([c], rest) && ahead' == rest
    requires pushed == 0 && now == 0 ==> ahead == was && was == PrefixText([c], rest) && ahead' == rest
    requires pushed == 0 && now == 1 ==>
               last.Char? && ahead == was && was == PrefixText([c, last.c], rest) && ahead' == PrefixText([last.c], rest)
    requires pushed <= 1 && now <= 1 && (pushed == 1 ==> now == 0)
    ensures PrefixText(chars, ahead) == PrefixText(chars + [c], ahead')
  {
    if pushed == 0 && now == 1 {
      PassTwice([c], [last.c], rest);
      assert [c] + [last.c] == [c, last.c];
    }
    PassTwice(chars, [c], ahead');
  }

  lemma {:induction false} LeadAtLeast(n: nat, t: string)
    ensures Lead(Backslashes(n) + t) >= n
  {
    if n > 0 {
      assert (Backslashes(n) + t)[1..] == Backslashes(n - 1) + t;
      LeadAtLeast(n - 1, t);
    }
  }

  lemma NestedPop(frames: seq<Saved>, outer: seq<seq<bool>>)
    requires Nested(frames, outer) && frames != []
    ensures |frames| == |outer|
    ensures var last := |frames| - 1;
            && Nested(frames[..last], outer[..last]) && frames[last].unget <= 2
            && frames[last].backq == Pow2(|outer[last]|) && frames[last].dqbackq == Mask(outer[last])
  {
  }

  /** The run and the character that were read decide the round of `pgetc`. */
  lemma StepOf(s: string, len: nat, c: Read, rest: string, backq: int, mask: int)
    requires 1 <= backq && len <= backq && (len == backq <==> Lead(s) >= backq)
    requires len == backq ==> c == Char('\\') && s == Backslashes(len) + rest
    requires len < backq ==> c != Char('\\') && s == Backslashes(len) + (if c.Peof? then [] else [c.c] + rest)
    requires c.Peof? ==> rest == []
    ensures Step(s, backq, mask) == (Decide(len, c, backq, mask), rest)
  {
    if len == backq {
      assert s[backq..] == rest;
    } else {
      var t := if c.Peof? then [] else [c.c] + rest;
      ReadRest(len, t, backq, mask);
      assert c.Char? ==> t[1..] == rest;
    }
  }

  /** What one round delivers is in front of what the rest delivers. */
  lemma RoundOf(s: string, d: seq<bool>, action: Action, rest: string)
    requires Step(s, Pow2(|d|), Mask(d)) == (action, rest)
    ensures action == Fail ==> ByPass(s, d) == Text([], false)
    ensures action == Output(Peof) ==> ByPass(s, d) == Text([], true)
    ensures action.Output? && action.r.Char? ==> ByPass(s, d) == PrefixText([action.r.c], ByPass(rest, d))
    ensures action.Escape? ==> ByPass(s, d) == PrefixText(['\\', action.c], ByPass(rest, d))
    ensures action == Continue ==> ByPass(s, d) == ByPass(rest, d) && |rest| < |s|
  {
    StepShrinks(s, Pow2(|d|), Mask(d));
  }

  lemma {:induction false} MaskPlus(d1: seq<bool>, d2: seq<bool>)
    ensures Mask(d1 + d2) == Mask(d1) + Scale(Mask(d2), |d1|)
  {
    if d1 == [] {
      assert d1 + d2 == d2;
    } else {
      assert (d1 + d2)[1..] == d1[1..] + d2;
      MaskPlus(d1[1..], d2);
    }
  }

  lemma MaskOpen(d: seq<bool>, dq: bool)
    ensures Mask(d + [dq]) == if dq then Bitwise(OrBit, Mask(d), Pow2(|d|)) else Mask(d)
  {
    MaskPlus(d, [dq]);
    ScaleIsProduct(1, |d|);
    ScaleIsProduct(0, |d|);
    assert Mask([dq]) == if dq then 1 else 0;
    hide Mask, Bitwise, Scale;
    DisjointBits(Mask(d), 1, |d|);
  }

  lemma MaskClose(d: seq<bool>)
    requires d != []
    ensures var d' := d[..|d| - 1]; Pow2(|d|) / 2 == Pow2(|d'|) && Bitwise(AndBit, Mask(d), -1 - Pow2(|d'|)) == Mask(d')
  {
    var d', dq := d[..|d| - 1], d[|d| - 1];
    assert d == d' + [dq];
    MaskPlus(d', [dq]);
    ScaleIsProduct(1, |d'|);
    ScaleIsProduct(0, |d'|);
    assert Mask([dq]) == if dq then 1 else 0;
    hide Mask, Bitwise;
    ClearBit(Mask(d'), dq, |d'|);
  }

  lemma MaskJoin(d1: seq<bool>, d2: seq<bool>)
    ensures Mask(d1 + d2) == Bitwise(OrBit, Mask(d1), Mask(d2) * Pow2(|d1|))
    ensures Pow2(|d1 + d2|) == Pow2(|d1|) * Pow2(|d2|)
  {
    MaskPlus(d1, d2);
    ScaleIsProduct(Mask(d2), |d1|);
    Pow2Plus(|d1|, |d2|);
    hide Mask, Bitwise, Scale;
    DisjointBits(Mask(d1), Mask(d2), |d1|);
  }
}
