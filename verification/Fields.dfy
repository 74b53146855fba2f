/** Field splitting (src/expand.c), section 2.6.5 of POSIX.1-2017 XCU. */
module Fields {
  import opened Chars

  /** IFS white space, another character of IFS, or no separator. */
  datatype Kind = White | Mark | Other

  /** A character of the text, with the CTLESC in front of it. */
  datatype Unit = Unit(text: string, kind: Kind)

  /** The NUL that separates the parts of an unquoted `$@` is looked up like any character, and found in every string. */
  predicate IsDefault(c: char) { c in {' ', '\t', '\n', '\0'} }

  predicate IsIfs(ifs: string, c: char) { c in ifs || c == '\0' }

  function KindOf(ifs: string, c: char): Kind {
    if !IsIfs(ifs, c) then Other else if IsDefault(c) then White else Mark
  }

  /** The part of a text that is to be split. */
  datatype Region = Region(begin: nat, end: nat)

  /** The units of `s` from `i` on; outside the region nothing separates. */
  function Units(s: string, ifs: string, g: Region, i: nat): seq<Unit>
    decreases |s| - i
  {
    if i >= |s| then []
    else if !(g.begin <= i < g.end) then [Unit([s[i]], Other)] + Units(s, ifs, g, i + 1)
    else if s[i] == CTLESC && i + 1 < |s| then [Unit(s[i..i + 2], KindOf(ifs, s[i + 1]))] + Units(s, ifs, g, i + 2)
    else [Unit([s[i]], KindOf(ifs, s[i]))] + Units(s, ifs, g, i + 1)
  }

  function Text(u: seq<Unit>): string {
    if u == [] then [] else u[0].text + Text(u[1..])
  }

  function SkipWhite(u: seq<Unit>): (r: seq<Unit>)
    ensures |r| <= |u| && (r != [] ==> !r[0].kind.White?)
  {
    if u != [] && u[0].kind.White? then SkipWhite(u[1..]) else u
  }

  /** Behind a separator: white space, at most one other character of IFS, and white space. */
  function AfterSeparator(u: seq<Unit>): (r: seq<Unit>)
    ensures |r| <= |u| && (u != [] && !u[0].kind.Other? ==> |r| < |u|)
  {
    var v := SkipWhite(u);
    if v != [] && v[0].kind.Mark? then SkipWhite(v[1..]) else v
  }

  /** How many units the next separator, or the end, is away. */
  function Others(u: seq<Unit>): (n: nat)
    ensures n <= |u| && (n < |u| ==> !u[n].kind.Other?) && forall i :: 0 <= i < n ==> u[i].kind.Other?
  {
    if u != [] && u[0].kind.Other? then 1 + Others(u[1..]) else 0
  }

  /** The fields of a text that does not begin with IFS white space. */
  function FieldsOf(u: seq<Unit>): seq<string>
    decreases |u|
  {
    if u == [] then []
    else [Text(u[..Others(u)])] + FieldsOf(AfterSeparator(u[Others(u)..]))
  }

  function TrimWhite(u: seq<Unit>): (r: seq<Unit>)
    ensures |r| <= |u| && r == u[..|r|] && (forall i :: |r| <= i < |u| ==> u[i].kind.White?)
    ensures r != [] ==> !r[|r| - 1].kind.White?
  {
    if u != [] && u[|u| - 1].kind.White? then TrimWhite(u[..|u| - 1]) else u
  }

  /** The last field that there is room for: the only one left, or all that is left but for white space at its end. */
  function LastField(u: seq<Unit>): seq<Unit> {
    if AfterSeparator(u[Others(u)..]) == [] then u[..Others(u)] else TrimWhite(u)
  }

  /** At most `max` fields; an empty one is not made of what is left for the last. */
  function FieldsMax(u: seq<Unit>, max: nat): seq<string>
    requires max > 0
    decreases |u|
  {
    if u == [] then []
    else if max == 1 then (if Text(LastField(u)) == [] then [] else [Text(LastField(u))])
    else [Text(u[..Others(u)])] + FieldsMax(AfterSeparator(u[Others(u)..]), max - 1)
  }

  /** The result of field splitting; `max` is negative for no limit. */
  function Split(u: seq<Unit>, max: int): seq<string>
    requires max != 0
  {
    if max < 0 then FieldsOf(SkipWhite(u)) else FieldsMax(SkipWhite(u), max)
  }

  // ---------- What splitting means ----------

  /**
   * There are at most `max` fields, and when there is room for all of them they are the fields without a limit:
   * exactly so unless the last of `max` fields is empty, which is then missing.
   */
  lemma {:induction false} FieldsMaxSize(u: seq<Unit>, max: nat)
    requires max > 0
    ensures var all := FieldsOf(u);
            && |FieldsMax(u, max)| <= max
            && (|all| <= max ==>
                  FieldsMax(u, max) == if |all| == max && all[max - 1] == [] then all[..max - 1] else all)
    decreases |u|
  {
    hide AfterSeparator, Others, Text;
    if u != [] {
      var rest := AfterSeparator(u[Others(u)..]);
      if max == 1 {
        assert rest != [] ==> |FieldsOf(rest)| >= 1;
      } else {
        FieldsMaxSize(rest, max - 1);
      }
    }
  }

  /** A separator: IFS white space, or one other character of IFS with white space around it. */
  predicate IsSeparator(d: seq<Unit>) {
    || (d != [] && AllWhite(d))
    || exists i :: 0 <= i < |d| && d[i].kind.Mark? && AllWhite(d[..i]) && AllWhite(d[i + 1..])
  }

  predicate AllWhite(d: seq<Unit>) { forall i :: 0 <= i < |d| ==> d[i].kind.White? }

  predicate AllOther(d: seq<Unit>) { forall i :: 0 <= i < |d| ==> d[i].kind.Other? }

  /** A field and the separator behind it. */
  datatype Piece = Piece(field: seq<Unit>, sep: seq<Unit>)

  function Joined(pieces: seq<Piece>): seq<Unit> {
    if pieces == [] then [] else pieces[0].field + pieces[0].sep + Joined(pieces[1..])
  }

  /**
   * A division into fields: each is free of IFS and followed by its separator, which goes as far as it can; only
   * the last one may do without, and then it is not empty.
   */
  ghost predicate Proper(pieces: seq<Piece>) {
    pieces == [] ||
    (&& AllOther(pieces[0].field)
     && (if pieces[0].sep == [] then pieces[0].field != [] && |pieces| == 1
         else IsSeparator(pieces[0].sep) && EndsThere(pieces[0].sep, Joined(pieces[1..])))
     && Proper(pieces[1..]))
  }

  /** A separator does not go on into `rest`. */
  predicate EndsThere(sep: seq<Unit>, rest: seq<Unit>) {
    rest != [] ==> !rest[0].kind.White? && (rest[0].kind.Mark? ==> !AllWhite(sep))
  }

  lemma {:induction false} SkipWhiteIs(u: seq<Unit>) returns (w: seq<Unit>)
    ensures u == w + SkipWhite(u) && AllWhite(w) && (u != [] && u[0].kind.White? ==> w != [])
  {
    w := [];
    if u != [] && u[0].kind.White? {
      w := SkipWhiteIs(u[1..]);
      assert u == [u[0]] + (w + SkipWhite(u[1..]));
      w := [u[0]] + w;
    }
  }

  /** What comes before `AfterSeparator` is a separator. */
  lemma SeparatorIs(u: seq<Unit>) returns (d: seq<Unit>)
    requires u != [] && !u[0].kind.Other?
    ensures u == d + AfterSeparator(u) && d != [] && IsSeparator(d) && EndsThere(d, AfterSeparator(u))
  {
    hide AllWhite, IsSeparator, SkipWhite;
    d := SkipWhiteIs(u);
    var v := SkipWhite(u);
    if v != [] && v[0].kind.Mark? {
      var w := SkipWhiteIs(v[1..]);
      MarkIsSeparator(d, v[0], w);
      d := d + [v[0]] + w;
      assert u == d + SkipWhite(v[1..]) by {
        assert v == [v[0]] + v[1..];
      }
    } else {
      WhiteIsSeparator(d);
    }
  }

  lemma WhiteIsSeparator(d: seq<Unit>)
    requires AllWhite(d)
    ensures d != [] ==> IsSeparator(d)
  {
  }

  lemma MarkIsSeparator(a: seq<Unit>, m: Unit, b: seq<Unit>)
    requires AllWhite(a) && m.kind.Mark? && AllWhite(b)
    ensures IsSeparator(a + [m] + b) && !AllWhite(a + [m] + b)
  {
    var d := a + [m] + b;
    assert d[|a|] == m && d[..|a|] == a && d[|a| + 1..] == b;
  }

  /** One field, its separator, and a division of the rest. */
  lemma PieceCons(u: seq<Unit>, n: nat, d: seq<Unit>, pieces: seq<Piece>)
    requires n <= |u| && u[n..] == d + Joined(pieces) && Proper(pieces) && AllOther(u[..n])
    requires if d == [] then n > 0 && pieces == [] else IsSeparator(d) && EndsThere(d, Joined(pieces))
    ensures var all := [Piece(u[..n], d)] + pieces;
            Proper(all) && Joined(all) == u && Texts(all) == [Text(u[..n])] + Texts(pieces)
  {
    hide AllOther, IsSeparator, EndsThere, Text;
    assert ([Piece(u[..n], d)] + pieces)[1..] == pieces;
    assert u == u[..n] + (d + Joined(pieces));
  }

  function Texts(pieces: seq<Piece>): (r: seq<string>)
    ensures |r| == |pieces| && forall i :: 0 <= i < |r| ==> r[i] == Text(pieces[i].field)
  {
    if pieces == [] then [] else [Text(pieces[0].field)] + Texts(pieces[1..])
  }

  lemma TextsCons(p: Piece, pieces: seq<Piece>)
    ensures Texts([p] + pieces) == [Text(p.field)] + Texts(pieces)
  {
    assert ([p] + pieces)[1..] == pieces;
  }

  /** The fields of a text are the parts between its separators. */
  lemma {:induction false} FieldsAreParts(u: seq<Unit>) returns (pieces: seq<Piece>)
    ensures Joined(pieces) == u && Proper(pieces) && FieldsOf(u) == Texts(pieces)
    decreases |u|
  {
    hide AfterSeparator, Text, IsSeparator, AllWhite, EndsThere, Joined, Proper, FieldsOf, Texts;
    FieldsStep(u);
    if u == [] {
      pieces := [];
      NoPieces();
    } else {
      var n := Others(u);
      hide Others;
      var rest := AfterSeparator(u[n..]);
      var d := [];
      NothingBehind();
      if n < |u| {
        d := SeparatorIs(u[n..]);
      }
      FieldsStep(rest);
      pieces := FieldsAreParts(rest);
      assert d == [] ==> rest == [] && pieces == [];
      PieceCons(u, n, d, pieces);
      pieces := [Piece(u[..n], d)] + pieces;
    }
  }

  lemma {:induction false} SkipWhitePlus(w: seq<Unit>, v: seq<Unit>)
    requires AllWhite(w) && (v != [] ==> !v[0].kind.White?)
    ensures SkipWhite(w + v) == v
  {
    if w == [] {
      assert w + v == v;
    } else {
      assert (w + v)[1..] == w[1..] + v;
      SkipWhitePlus(w[1..], v);
    }
  }

  lemma MarkOnly(d: seq<Unit>, i: nat, rest: seq<Unit>)
    requires i < |d| && d[i].kind.Mark? && AllWhite(d[..i]) && AllWhite(d[i + 1..])
    requires rest != [] ==> !rest[0].kind.White?
    ensures !d[0].kind.Other? && AfterSeparator(d + rest) == rest
  {
    var v := d[i..] + rest;
    assert d + rest == d[..i] + v && v[1..] == d[i + 1..] + rest;
    SkipWhitePlus(d[..i], v);
    SkipWhitePlus(d[i + 1..], rest);
    assert i > 0 ==> d[..i][0] == d[0];
  }

  /** A separator that ends at `rest` is what `AfterSeparator` skips. */
  lemma SeparatorOnly(d: seq<Unit>, rest: seq<Unit>)
    requires IsSeparator(d) && EndsThere(d, rest)
    ensures d != [] && !d[0].kind.Other? && AfterSeparator(d + rest) == rest
  {
    if AllWhite(d) {
      SkipWhitePlus(d, rest);
    } else {
      hide AllWhite, AfterSeparator;
      var i :| 0 <= i < |d| && d[i].kind.Mark? && AllWhite(d[..i]) && AllWhite(d[i + 1..]);
      MarkOnly(d, i, rest);
    }
  }

  /** What the first field and the rest of any division are. */
  lemma {:induction false} FirstPiece(pieces: seq<Piece>)
    requires pieces != [] && Proper(pieces)
    ensures var u := Joined(pieces);
            && u != [] && u[..Others(u)] == pieces[0].field
            && AfterSeparator(u[Others(u)..]) == Joined(pieces[1..])
  {
    hide IsSeparator, AfterSeparator, EndsThere;
    var f, d, rest := pieces[0].field, pieces[0].sep, Joined(pieces[1..]);
    var u := Joined(pieces);
    assert u == f + (d + rest);
    if d != [] {
      SeparatorOnly(d, rest);
    } else {
      NothingBehind();
      assert Joined([]) == [];
    }
    hide Joined, Proper;
    OthersIs(f, d + rest);
    assert u[..|f|] == f && u[|f|..] == d + rest;
  }

  /** There is only one division into fields. */
  lemma {:induction false} OneDivision(a: seq<Piece>, b: seq<Piece>)
    requires Proper(a) && Proper(b) && Joined(a) == Joined(b)
    ensures a == b
    decreases |a|
  {
    hide IsSeparator, AfterSeparator, EndsThere, Others, AllOther;
    if a != [] {
      FirstPiece(a);
    }
    if b != [] {
      FirstPiece(b);
    }
    if a != [] && b != [] {
      OneDivision(a[1..], b[1..]);
      var f, rest := a[0].field, Joined(a[1..]);
      assert f + a[0].sep + rest == f + b[0].sep + rest;
      SameMiddle(f, a[0].sep, b[0].sep, rest);
      assert a == [a[0]] + a[1..] && b == [b[0]] + b[1..];
    }
  }

  lemma SameMiddle(f: seq<Unit>, a: seq<Unit>, b: seq<Unit>, rest: seq<Unit>)
    requires f + a + rest == f + b + rest
    ensures a == b
  {
    assert (f + a + rest)[|f|..|f + a|] == a;
    assert (f + b + rest)[|f|..|f + b|] == b;
  }

  /**
   * With more fields than there is room for, all but the last are the first fields of the text, and the last is
   * all that is left, with its separators, but for IFS white space at the end.
   */
  lemma {:induction false} FieldsMaxMany(pieces: seq<Piece>, max: nat)
    requires 0 < max < |pieces| && Proper(pieces) && forall i <- Joined(pieces) :: i.text != []
    ensures FieldsMax(Joined(pieces), max) ==
              Texts(pieces[..max - 1]) + [Text(TrimWhite(Joined(pieces[max - 1..])))]
    decreases |pieces|
  {
    hide AfterSeparator, Others, EndsThere, IsSeparator, TrimWhite, Texts, Text, Joined, FieldsMax, Proper;
    NoPieces();
    var u, rest := Joined(pieces), pieces[1..];
    FirstPiece(pieces);
    PiecesBehind(pieces);
    FirstPiece(rest);
    FieldsMaxStep(u, max);
    if max == 1 {
      NotAllWhite(pieces);
      TextSome(TrimWhite(u));
      assert pieces[0..] == pieces && pieces[..0] == [];
    } else {
      FieldsMaxMany(rest, max - 1);
      assert pieces[max - 1..] == rest[max - 2..] && pieces[..max - 1] == [pieces[0]] + rest[..max - 2];
      TextsCons(pieces[0], rest[..max - 2]);
    }
  }

  lemma {:induction false} PiecesBehind(pieces: seq<Piece>)
    requires pieces != [] && Proper(pieces)
    ensures Proper(pieces[1..])
    ensures forall i <- Joined(pieces[1..]) :: i in Joined(pieces)
  {
    hide AllOther, IsSeparator, EndsThere;
  }

  lemma FieldsMaxStep(u: seq<Unit>, max: nat)
    requires u != [] && max > 0
    ensures var rest := AfterSeparator(u[Others(u)..]);
            && (max > 1 ==> FieldsMax(u, max) == [Text(u[..Others(u)])] + FieldsMax(rest, max - 1))
            && (max == 1 && rest != [] && Text(TrimWhite(u)) != [] ==> FieldsMax(u, max) == [Text(TrimWhite(u))])
  {
    hide AfterSeparator, Others, TrimWhite, Text;
  }

  lemma TextSome(u: seq<Unit>)
    requires u != [] && u[0].text != []
    ensures Text(u) != []
  {
  }

  lemma {:induction false} NotAllWhite(pieces: seq<Piece>)
    requires |pieces| > 1 && Proper(pieces)
    ensures TrimWhite(Joined(pieces)) != []
  {
    hide IsSeparator, AllOther, AfterSeparator, Others;
    var u, f, d, rest := Joined(pieces), pieces[0].field, pieces[0].sep, Joined(pieces[1..]);
    FirstPiece(pieces[1..]);
    assert !rest[0].kind.White?;
    hide Joined, Proper, EndsThere;
    assert u[|f + d|] == rest[0];
    assert |TrimWhite(u)| > |f + d|;
  }

  lemma FieldsStep(u: seq<Unit>)
    ensures FieldsOf(u) == if u == [] then [] else [Text(u[..Others(u)])] + FieldsOf(AfterSeparator(u[Others(u)..]))
    ensures AllOther(u[..Others(u)])
  {
    hide Text, AfterSeparator;
  }

  lemma NoPieces()
    ensures Joined([]) == [] && Proper([]) && Texts([]) == []
  {
  }

  lemma NothingBehind()
    ensures AfterSeparator([]) == []
  {
  }

  // ---------- The loop ----------

  /** Every CTLESC in the region protects a character of the region. */
  predicate Closed(s: string, g: Region, i: nat)
    decreases |s| - i
  {
    if i >= g.end || i >= |s| then i == g.end
    else if s[i] == CTLESC then Closed(s, g, i + 2) else Closed(s, g, i + 1)
  }

  /** What splitting makes of `u` where a field may begin. */
  function Continue(u: seq<Unit>, max: int): seq<string>
    requires max != 0
  {
    if max < 0 then FieldsOf(u) else FieldsMax(u, max)
  }

  function Less(max: int): int { if max > 0 then max - 1 else max }

  lemma ContinueWhite(w: Unit, rest: seq<Unit>)
    requires w.kind.White?
    ensures SkipWhite([w] + rest) == SkipWhite(rest) && AfterSeparator([w] + rest) == AfterSeparator(rest)
  {
    assert ([w] + rest)[1..] == rest;
  }

  lemma ContinueMark(m: Unit, rest: seq<Unit>)
    requires m.kind.Mark?
    ensures SkipWhite([m] + rest) == [m] + rest && AfterSeparator([m] + rest) == SkipWhite(rest)
  {
    assert ([m] + rest)[1..] == rest;
  }

  lemma ContinueOther(o: Unit, rest: seq<Unit>)
    requires o.kind.Other?
    ensures SkipWhite([o] + rest) == [o] + rest && AfterSeparator([o] + rest) == [o] + rest
  {
  }

  lemma {:induction false} OthersIs(os: seq<Unit>, rest: seq<Unit>)
    requires AllOther(os) && (rest == [] || !rest[0].kind.Other?)
    ensures Others(os + rest) == |os|
  {
    if os == [] {
      assert os + rest == rest;
    } else {
      assert (os + rest)[1..] == os[1..] + rest;
      OthersIs(os[1..], rest);
    }
  }

  /** A separator ends the field `os`. */
  lemma FieldEnds(os: seq<Unit>, rest: seq<Unit>, max: int)
    requires AllOther(os) && rest != [] && !rest[0].kind.Other? && max != 0 && max != 1
    requires os != [] || !rest[0].kind.White?
    ensures Split(os + rest, max) == [Text(os)] + Continue(AfterSeparator(rest), Less(max))
  {
    hide AfterSeparator;
    var u := os + rest;
    OthersIs(os, rest);
    assert u[..|os|] == os && u[|os|..] == rest;
    assert SkipWhite(u) == u;
  }

  /** The text ends in the field `os`, which may be empty. */
  lemma FieldsEnd(os: seq<Unit>, max: int)
    requires AllOther(os) && max != 0 && (os != [] ==> Text(os) != [])
    ensures Split(os, max) == Continue(AfterSeparator(os), max) == if os == [] then [] else [Text(os)]
  {
    OthersIs(os, []);
    assert os + [] == os && os[..|os|] == os && os[|os|..] == [];
    NothingBehind();
    assert FieldsOf([]) == [];
    if max > 1 {
      assert FieldsMax([], max - 1) == [];
    }
  }

  lemma {:induction false} TextPlus(a: seq<Unit>, b: seq<Unit>)
    ensures Text(a + b) == Text(a) + Text(b)
  {
    if a == [] {
      assert a + b == b;
    } else {
      assert (a + b)[1..] == a[1..] + b;
      TextPlus(a[1..], b);
    }
  }

  /** Outside the region nothing separates. */
  lemma {:induction false} UnitsOutside(s: string, ifs: string, g: Region, i: nat)
    requires g.end <= i <= |s|
    ensures AllOther(Units(s, ifs, g, i)) && Text(Units(s, ifs, g, i)) == s[i..]
    decreases |s| - i
  {
    if i < |s| {
      UnitsOutside(s, ifs, g, i + 1);
      assert s[i..] == [s[i]] + s[i + 1..];
    }
  }

  lemma OthersCons(x: Unit, os: seq<Unit>)
    ensures AllOther([]) && (AllOther(os) && x.kind.Other? ==> AllOther([x] + os))
  {
  }

  /** In front of the region nothing separates either. */
  lemma {:induction false} UnitsBefore(s: string, ifs: string, g: Region, i: nat) returns (os: seq<Unit>)
    requires i <= g.begin <= g.end <= |s|
    ensures Units(s, ifs, g, i) == os + Units(s, ifs, g, g.begin) && AllOther(os) && Text(os) == s[i..g.begin]
    ensures os == [] <==> i == g.begin
    decreases g.begin - i
  {
    hide AllOther;
    os := [];
    OthersCons(Unit([], Other), []);
    if i < g.begin {
      os := UnitsBefore(s, ifs, g, i + 1);
      OthersCons(Unit([s[i]], Other), os);
      os := [Unit([s[i]], Other)] + os;
      assert s[i..g.begin] == [s[i]] + s[i + 1..g.begin];
    }
  }

  /** The character at `p` in the region, and where the next one is. */
  function CharAt(s: string, p: nat): (r: (char, nat))
    requires p < |s| && (s[p] == CTLESC ==> p + 1 < |s|)
    ensures p < r.1 <= |s|
  {
    if s[p] == CTLESC then (s[p + 1], p + 2) else (s[p], p + 1)
  }

  /** Reading one character of the region. */
  lemma UnitAt(s: string, ifs: string, g: Region, p: nat)
    requires g.begin <= p < g.end <= |s| && Closed(s, g, p)
    ensures s[p] == CTLESC ==> p + 1 < |s|
    ensures var (c, next) := CharAt(s, p);
            && next <= g.end && Closed(s, g, next)
            && Units(s, ifs, g, p) == [Unit(s[p..next], KindOf(ifs, c))] + Units(s, ifs, g, next)
  {
    if s[p] == CTLESC {
      assert Closed(s, g, p + 2);
    } else {
      assert s[p..p + 1] == [s[p]];
    }
  }

  lemma TrimPlus(ds: seq<Unit>, x: Unit)
    ensures TrimWhite(ds + [x]) == if x.kind.White? then TrimWhite(ds) else ds + [x]
  {
    assert (ds + [x])[..|ds|] == ds;
  }

  lemma TextSnoc(s: string, start: nat, p: nat, next: nat, ds: seq<Unit>, x: Unit)
    requires start <= p <= next <= |s| && Text(ds) == s[start..p] && x.text == s[p..next]
    ensures Text(ds + [x]) == s[start..next]
  {
    TextPlus(ds, [x]);
    assert Text([x]) == x.text + [] == x.text;
    assert s[start..next] == s[start..p] + s[p..next];
  }

  lemma Regroup(ds: seq<Unit>, x: Unit, rest: seq<Unit>)
    ensures ds + ([x] + rest) == ds + [x] + rest
  {
  }

  /**
   * The rest of the loop of `ifsbreakup` when there is room for one field only: where that field ends, None for
   * the end of the text. `q` is the first separator, `p` the character behind it.
   */
  method LastOne(s: string, ifs: string, g: Region, start: nat, q: nat, p0: nat, white: bool, ghost os: seq<Unit>)
    returns (r: Option<nat>)
    requires start <= q < p0 <= g.end == |s| && g.begin <= q && Closed(s, g, q) && (s[q] == CTLESC ==> q + 1 < |s|)
    requires var u := Units(s, ifs, g, q);
             && AllOther(os) && Text(os) == s[start..q] && u != [] && !u[0].kind.Other?
             && p0 == CharAt(s, q).1 && white == u[0].kind.White?
    ensures var v := os + Units(s, ifs, g, q);
            var end := if r.Some? then r.value else |s|;
            start <= end <= |s| && s[start..end] == Text(LastField(v))
  {
    hide AfterSeparator, SkipWhite, TrimWhite, Units, Closed, KindOf, IsDefault, IsIfs, AllOther, Others;
    ghost var v := os + Units(s, ifs, g, q);
    OthersIs(os, Units(s, ifs, g, q));
    UnitAt(s, ifs, g, q);
    ghost var first := Units(s, ifs, g, q)[0];
    var p := p0;
    ghost var ds := os + [first];
    Regroup(os, first, Units(s, ifs, g, p));
    TextSnoc(s, start, q, p, os, first);
    if white {
      ContinueWhite(first, Units(s, ifs, g, p));
    } else {
      ContinueMark(first, Units(s, ifs, g, p));
    }
    assert v[|os|..] == Units(s, ifs, g, q) && v[..|os|] == os;
    r := Some(q);
    var ifsspc := white;
    ghost var inFirst := true;
    while p < g.end
      invariant q < p <= g.end && Closed(s, g, p) && v == ds + Units(s, ifs, g, p) && Text(ds) == s[start..p]
      invariant inFirst ==> r == Some(q)
      invariant inFirst && ifsspc ==> AfterSeparator(v[|os|..]) == AfterSeparator(Units(s, ifs, g, p))
      invariant inFirst && !ifsspc ==> AfterSeparator(v[|os|..]) == SkipWhite(Units(s, ifs, g, p))
      invariant !inFirst ==> !ifsspc && AfterSeparator(v[|os|..]) != []
      invariant !inFirst ==> if r.Some? then start <= r.value <= p && s[start..r.value] == Text(TrimWhite(ds))
                             else TrimWhite(ds) == ds
    {
      UnitAt(s, ifs, g, p);
      var (c, next) := CharAt(s, p);
      ghost var x := Unit(s[p..next], KindOf(ifs, c));
      Regroup(ds, x, Units(s, ifs, g, next));
      TextSnoc(s, start, p, next, ds, x);
      TrimPlus(ds, x);
      KindIs(ifs, c);
      var isifs := IsIfs(ifs, c);
      var isdefifs := isifs && IsDefault(c);
      if isdefifs {
        ContinueWhite(x, Units(s, ifs, g, next));
        if r.None? {
          r := Some(p);
        }
      } else {
        if isifs {
          ContinueMark(x, Units(s, ifs, g, next));
        } else {
          ContinueOther(x, Units(s, ifs, g, next));
        }
        if !(isifs && ifsspc) {
          r := None;
          inFirst := false;
        }
        ifsspc := false;
      }
      ds := ds + [x];
      p := next;
    }
    UnitsOutside(s, ifs, g, p);
    UnitsEnd(s, ifs, g);
    assert ds + [] == ds;
  }

  lemma UnitsEnd(s: string, ifs: string, g: Region)
    ensures Units(s, ifs, g, |s|) == [] && AfterSeparator([]) == [] && SkipWhite([]) == []
  {
  }

  lemma KindIs(ifs: string, c: char)
    ensures KindOf(ifs, c).Other? <==> !IsIfs(ifs, c)
    ensures KindOf(ifs, c).White? <==> IsIfs(ifs, c) && IsDefault(c)
  {
  }

  /** What a text that ends in the field `os` still yields. */
  lemma EndOfText(s: string, ifs: string, g: Region, start: nat, p: nat, os: seq<Unit>, max: int)
    requires start <= p == g.end <= |s| && AllOther(os) && Text(os) == s[start..p] && (os == [] <==> start == p) && max != 0
    ensures var u := os + Units(s, ifs, g, p);
            Split(u, max) == Continue(AfterSeparator(u), max) == if start == |s| then [] else [s[start..]]
  {
    hide AfterSeparator, SkipWhite, Continue, Split, AllOther;
    var rest := Units(s, ifs, g, p);
    UnitsOutside(s, ifs, g, p);
    TextPlus(os, rest);
    assert s[start..] == s[start..p] + s[p..];
    OthersPlus(os, rest);
    if p < |s| {
      assert rest != [] by { UnitsSome(s, ifs, g, p); }
    }
    FieldsEnd(os + rest, max);
  }

  lemma UnitsSome(s: string, ifs: string, g: Region, p: nat)
    requires p < |s|
    ensures Units(s, ifs, g, p) != []
  {
  }

  lemma OthersSnoc(os: seq<Unit>, x: Unit)
    ensures AllOther([]) && (AllOther(os) && x.kind.Other? ==> AllOther(os + [x]))
  {
  }

  lemma OthersPlus(a: seq<Unit>, b: seq<Unit>)
    requires AllOther(a) && AllOther(b)
    ensures AllOther(a + b)
  {
  }

  lemma SplitIs(u: seq<Unit>, max: int)
    requires max != 0
    ensures Split(u, max) == Continue(SkipWhite(u), max)
  {
  }

  /** Where there is room for one field only. */
  lemma SplitLast(os: seq<Unit>, rest: seq<Unit>)
    requires AllOther(os) && rest != [] && !rest[0].kind.Other? && (os != [] || !rest[0].kind.White?)
    ensures var text := Text(LastField(os + rest)); Split(os + rest, 1) == if text == [] then [] else [text]
  {
    hide LastField;
    assert SkipWhite(os + rest) == os + rest;
  }

  /** What one more unit means: behind the separator so far, or behind the field `os` so far. */
  lemma Turn(os: seq<Unit>, x: Unit, rest: seq<Unit>, max: int)
    requires AllOther(os) && max != 0
    ensures AllOther([])
    ensures var u, more := [x] + rest, if max == 1 then 1 else Less(max);
      && (x.kind.White? ==>
            && Continue(AfterSeparator(u), max) == Continue(AfterSeparator(rest), max)
            && Continue(AfterSeparator(u), more) == Continue(AfterSeparator(rest), more)
            && (os == [] ==> Split(os + u, max) == Split([] + rest, max)))
      && (x.kind.Mark? ==>
            && Continue(AfterSeparator(u), max) == Split([] + rest, max)
            && Continue(AfterSeparator(u), more) == Split([] + rest, more))
      && (x.kind.Other? ==>
            && Continue(AfterSeparator(u), max) == Split([x] + rest, max)
            && AllOther([x]) && AllOther(os + [x]) && os + [x] + rest == os + u)
      && (!x.kind.Other? && max != 1 && (os != [] || x.kind.Mark?) ==>
            Split(os + u, max) == [Text(os)] + Continue(AfterSeparator(u), more))
  {
    hide AfterSeparator, SkipWhite, Split, Continue, AllOther;
    var u, more := [x] + rest, if max == 1 then 1 else Less(max);
    SplitIs(rest, max);
    SplitIs(rest, more);
    SplitIs(u, max);
    OthersSnoc(os, x);
    assert [] + rest == rest && [] + u == u;
    if x.kind.White? {
      ContinueWhite(x, rest);
    } else if x.kind.Mark? {
      ContinueMark(x, rest);
    } else {
      ContinueOther(x, rest);
      OthersSnoc([], x);
      assert [] + [x] == [x];
    }
    if !x.kind.Other? && max != 1 && (os != [] || x.kind.Mark?) {
      FieldEnds(os, u, max);
    }
  }

  /** The list of fields that `ifsbreakup` makes of a text with one region. */
  method IfsBreakup(s: string, ifs: string, g: Region, maxargs: int) returns (fields: seq<string>)
    requires g.begin <= g.end <= |s| && Closed(s, g, g.begin) && maxargs != 0 && (maxargs > 0 ==> g.end == |s|)
    ensures fields == Split(Units(s, ifs, g, 0), maxargs)
  {
    hide AfterSeparator, SkipWhite, Units, Closed, KindOf, IsDefault, IsIfs, AllOther, Split, Continue, LastField;
    fields := [];
    var max := maxargs;
    var start: nat, p: nat, ifsspc := 0, g.begin, false;
    ghost var all := Split(Units(s, ifs, g, 0), maxargs);
    ghost var os := UnitsBefore(s, ifs, g, 0);
    while p < g.end
      invariant start <= p <= g.end && g.begin <= p && Closed(s, g, p) && max != 0 && (max < 0 <==> maxargs < 0)
      invariant AllOther(os) && Text(os) == s[start..p] && (ifsspc ==> os == [] && start == p)
      invariant (os == [] <==> start == p)
      invariant !ifsspc ==> all == fields + Split(os + Units(s, ifs, g, p), max)
      invariant ifsspc ==> all == fields + Continue(AfterSeparator(Units(s, ifs, g, p)), max)
    {
      var q := p;
      UnitAt(s, ifs, g, p);
      var (c, next) := CharAt(s, p);
      ghost var x, rest := Unit(s[p..next], KindOf(ifs, c)), Units(s, ifs, g, next);
      KindIs(ifs, c);
      p := next;
      var isifs := IsIfs(ifs, c);
      var isdefifs := isifs && IsDefault(c);
      Turn(os, x, rest, max);
      if !isifs {
        TextSnoc(s, start, q, p, os, x);
      }
      if ifsspc {
        if isifs {
          q := p;
        }
        start := q;
        if isdefifs {
          continue;
        }
        os := if isifs then [] else [x];
        isifs := false;
      } else if isifs {
        ifsspc := isdefifs;
        if q == start && ifsspc {
          start := p;
          ifsspc := false;
          continue;
        }
        if max == 1 {
          SplitLast(os, [x] + rest);
          var r := LastOne(s, ifs, g, start, q, p, ifsspc, os);
          var end := if r.Some? then r.value else |s|;
          if start < end {
            fields := fields + [s[start..end]];
          }
          return;
        }
        max := Less(max);
        fields := fields + [s[start..q]];
        start := p;
        os := [];
        continue;
      } else {
        os := os + [x];
      }
      ifsspc := false;
    }
    EndOfText(s, ifs, g, start, p, os, max);
    assert [] + Units(s, ifs, g, p) == Units(s, ifs, g, p) && fields + [] == fields;
    if start < |s| {
      fields := fields + [s[start..]];
    }
  }
}
