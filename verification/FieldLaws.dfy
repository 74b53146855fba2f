/** What field splitting makes of plain text, character by character (section 2.6.5 of POSIX.1-2017 XCU). */
module FieldLaws {
  import opened Chars
  import opened Fields

  /** A space, tab or newline of IFS, or the NUL between the parts of an unquoted `$@`. */
  predicate IsSpace(c: char, ifs: string) { (c in ifs && c as int in {9, 10, 32}) || c as int == 0 }

  /** Any other character of IFS. */
  predicate IsSign(c: char, ifs: string) { c in ifs && c as int !in {0, 9, 10, 32} }

  predicate Spaces(w: string, ifs: string) { forall c <- w :: IsSpace(c, ifs) }

  /** Text without separators. */
  predicate Plain(x: string, ifs: string) { forall c <- x :: c !in ifs && c as int != 0 }

  predicate Unmarked(s: string) { forall c <- s :: c != CTLESC }

  /** The fields of a text that is split as a whole. */
  function Cut(s: string, ifs: string): seq<string> {
    Split(Units(s, ifs, Region(0, |s|), 0), -1)
  }

  /** IFS white space at the start makes no field. */
  lemma LeadingSpace(w: string, rest: string, ifs: string)
    requires Unmarked(w + rest) && Spaces(w, ifs)
    ensures Cut(w + rest, ifs) == Cut(rest, ifs)
  {
    Parts(w, rest);
    CutIs(w + rest, ifs);
    CutIs(rest, ifs);
    UnitsPlus(w, rest, ifs);
    SpacesWhite(w, ifs);
    var u := CharUnits(rest, ifs);
    var v := SkipWhiteIs(u);
    SkipsPlus(CharUnits(w, ifs), u);
  }

  /** A text without separators is one field; the empty text is none. */
  lemma OneField(x: string, ifs: string)
    requires Unmarked(x) && Plain(x, ifs)
    ensures Cut(x, ifs) == if x == [] then [] else [x]
  {
    CutIs(x, ifs);
    PlainOther(x, ifs);
    FieldsEnd(CharUnits(x, ifs), -1);
  }

  /** IFS white space behind a field ends it, however much there is, and at the end of the text makes no other. */
  lemma SpaceEnds(x: string, w: string, rest: string, ifs: string)
    requires Unmarked(x + w + rest) && Plain(x, ifs) && Spaces(w, ifs) && x != [] && w != []
    requires rest != [] ==> Plain(rest[..1], ifs)
    ensures Cut(x + w + rest, ifs) == [x] + Cut(rest, ifs)
  {
    hide AfterSeparator, SkipWhite, AllWhite, AllOther, IsSeparator;
    var d := CharUnits(w, ifs);
    SpacesWhite(w, ifs);
    WhiteIsSeparator(d);
    StartPlain(rest, ifs);
    Ends(x, w, rest, ifs);
  }

  /** Any other character of IFS ends a field with the white space around it, also an empty one. */
  lemma SignEnds(x: string, v: string, m: char, w: string, rest: string, ifs: string)
    requires Unmarked(x + (v + [m] + w) + rest) && Plain(x, ifs) && Spaces(v, ifs) && IsSign(m, ifs) && Spaces(w, ifs)
    requires (x == [] ==> v == []) && (rest != [] ==> !IsSpace(rest[0], ifs))
    ensures Cut(x + (v + [m] + w) + rest, ifs) == [x] + Cut(rest, ifs)
  {
    hide AfterSeparator, SkipWhite, AllWhite, AllOther, IsSeparator;
    var k := Unit([m], KindOf(ifs, m));
    SpacesWhite(v, ifs);
    SpacesWhite(w, ifs);
    MarkIsSeparator(CharUnits(v, ifs), k, CharUnits(w, ifs));
    UnitsPlus(v + [m], w, ifs);
    UnitsPlus(v, [m], ifs);
    assert CharUnits([m], ifs) == [k];
    if rest != [] {
      assert CharUnits(rest, ifs)[0] == Unit([rest[0]], KindOf(ifs, rest[0]));
    }
    Ends(x, v + [m] + w, rest, ifs);
  }

  /** One separator makes two fields, and none at the end; two of them an empty field, unless they are white space. */
  lemma OneSeparator(x: string, c: char, y: string, ifs: string)
    requires Unmarked(x + [c] + y) && Plain(x, ifs) && Plain(y, ifs) && x != [] && y != [] && c in ifs
    ensures Cut(x + [c] + y, ifs) == [x, y] && Cut(x + [c], ifs) == [x]
    ensures Cut([c] + y, ifs) == if c in " \t\n\0" then [y] else [[], y]
  {
    hide Cut;
    Parts(x + [c], y);
    Parts(x, [c]);
    OneField(y, ifs);
    OneField([], ifs);
    assert y[..1] == [y[0]] && y[0] in y && x + [c] + [] == x + [c];
    if c in " \t\n\0" {
      SpaceEnds(x, [c], y, ifs);
      SpaceEnds(x, [c], [], ifs);
      LeadingSpace([c], y, ifs);
    } else {
      assert [] + [c] + [] == [c] && [] + [c] + y == [c] + y;
      SignEnds(x, [], c, [], y, ifs);
      SignEnds(x, [], c, [], [], ifs);
      SignEnds([], [], c, [], y, ifs);
    }
  }

  lemma TwoSeparators(x: string, c: char, y: string, ifs: string)
    requires Unmarked(x + [c] + y) && Plain(x, ifs) && Plain(y, ifs) && x != [] && y != [] && c in ifs
    ensures Cut(x + [c, c] + y, ifs) == if c in " \t\n\0" then [x, y] else [x, [], y]
  {
    hide Cut;
    Parts(x + [c], y);
    Parts(x, [c]);
    OneField(y, ifs);
    assert y[..1] == [y[0]] && y[0] in y;
    if c in " \t\n\0" {
      SpaceEnds(x, [c, c], y, ifs);
    } else {
      OneSeparator(x, c, y, ifs);
      assert [] + [c] + [] == [c] && x + [c] + ([c] + y) == x + [c, c] + y;
      SignEnds(x, [], c, [], [c] + y, ifs);
    }
  }

  lemma Parts(a: string, b: string)
    requires Unmarked(a + b)
    ensures Unmarked(a) && Unmarked(b)
  {
    assert forall c <- a :: c in a + b;
    assert forall c <- b :: c in a + b;
  }

  /** What is not to be split is one field. */
  lemma NotSplit(s: string, ifs: string, k: nat)
    requires k <= |s| && s != []
    ensures Split(Units(s, ifs, Region(k, k), 0), -1) == [s]
  {
    var os := UnitsBefore(s, ifs, Region(k, k), 0);
    UnitsOutside(s, ifs, Region(k, k), k);
    var rest := Units(s, ifs, Region(k, k), k);
    TextPlus(os, rest);
    assert s[0..k] + s[k..] == s;
    FieldsEnd(os + rest, -1);
  }

  // ---------- Units of plain text ----------

  function CharUnits(s: string, ifs: string): (u: seq<Unit>)
    ensures |u| == |s| && forall i :: 0 <= i < |s| ==> u[i] == Unit([s[i]], KindOf(ifs, s[i]))
  {
    seq(|s|, i requires 0 <= i < |s| => Unit([s[i]], KindOf(ifs, s[i])))
  }

  lemma UnitsPlus(a: string, b: string, ifs: string)
    ensures CharUnits(a + b, ifs) == CharUnits(a, ifs) + CharUnits(b, ifs)
  {
  }

  lemma {:induction false} UnitsFrom(s: string, ifs: string, i: nat)
    requires i <= |s| && Unmarked(s)
    ensures Units(s, ifs, Region(0, |s|), i) == CharUnits(s[i..], ifs)
    decreases |s| - i
  {
    hide KindOf;
    if i < |s| {
      UnitsFrom(s, ifs, i + 1);
      assert s[i] in s;
      assert CharUnits(s[i..], ifs) == [Unit([s[i]], KindOf(ifs, s[i]))] + CharUnits(s[i + 1..], ifs);
    }
  }

  lemma {:induction false} UnitsText(s: string, ifs: string)
    ensures Text(CharUnits(s, ifs)) == s
  {
    if s != [] {
      UnitsText(s[1..], ifs);
      assert CharUnits(s, ifs)[1..] == CharUnits(s[1..], ifs);
    }
  }

  lemma CutIs(s: string, ifs: string)
    requires Unmarked(s)
    ensures Cut(s, ifs) == Split(CharUnits(s, ifs), -1) && Text(CharUnits(s, ifs)) == s
  {
    hide Split;
    UnitsFrom(s, ifs, 0);
    UnitsText(s, ifs);
    assert s[0..] == s;
  }

  lemma SpacesWhite(w: string, ifs: string)
    requires Spaces(w, ifs)
    ensures AllWhite(CharUnits(w, ifs))
  {
    forall i | 0 <= i < |w|
      ensures KindOf(ifs, w[i]).White?
    {
      assert w[i] in w;
    }
  }

  lemma PlainOther(x: string, ifs: string)
    requires Plain(x, ifs)
    ensures AllOther(CharUnits(x, ifs))
  {
    forall i | 0 <= i < |x|
      ensures KindOf(ifs, x[i]).Other?
    {
      assert x[i] in x;
    }
  }

  lemma StartPlain(rest: string, ifs: string)
    requires rest != [] ==> Plain(rest[..1], ifs)
    ensures rest != [] ==> CharUnits(rest, ifs)[0].kind.Other?
  {
    if rest != [] {
      assert rest[..1][0] == rest[0] && rest[0] in rest[..1];
    }
  }

  lemma {:induction false} SkipsPlus(w: seq<Unit>, u: seq<Unit>)
    requires AllWhite(w)
    ensures SkipWhite(w + u) == SkipWhite(u)
  {
    if w == [] {
      assert w + u == u;
    } else {
      assert (w + u)[1..] == w[1..] + u;
      SkipsPlus(w[1..], u);
    }
  }

  /** A field, a separator that goes as far as it can, and the rest. */
  lemma Ends(x: string, d: string, rest: string, ifs: string)
    requires Unmarked(x + d + rest) && Plain(x, ifs)
    requires IsSeparator(CharUnits(d, ifs)) && EndsThere(CharUnits(d, ifs), CharUnits(rest, ifs))
    requires x == [] ==> d != [] && !CharUnits(d, ifs)[0].kind.White?
    ensures Cut(x + d + rest, ifs) == [x] + Cut(rest, ifs)
  {
    hide IsSeparator, EndsThere, AfterSeparator, AllOther, KindOf, Split, Continue, Text, Units, Cut, CharUnits, Unmarked, Plain;
    var os, ds, rs := CharUnits(x, ifs), CharUnits(d, ifs), CharUnits(rest, ifs);
    Parts(x + d, rest);
    CutIs(x + d + rest, ifs);
    CutIs(rest, ifs);
    UnitsText(x, ifs);
    UnitsPlus(x + d, rest, ifs);
    UnitsPlus(x, d, ifs);
    PlainOther(x, ifs);
    SeparatorOnly(ds, rs);
    assert os + ds + rs == os + (ds + rs);
    NotWhite(ds, rs);
    FieldEnds(os, ds + rs, -1);
  }

  lemma NotWhite(d: seq<Unit>, rest: seq<Unit>)
    requires EndsThere(d, rest)
    ensures Continue(rest, -1) == Split(rest, -1)
  {
    hide FieldsOf;
  }
}
