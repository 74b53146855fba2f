/** What the text of a pattern matches (section 2.13 of POSIX.1-2017 XCU). */
module GlobLaws {
  import opened Chars
  import opened Glob

  /** The pattern with the text `p` matches `u` as a whole. */
  ghost predicate Fit(p: string, u: string) {
    Elems(p, 0).Some? && Matches(Elems(p, 0).value, u)
  }

  /** A pattern of one element that takes one character. */
  lemma OneElem(p: string, e: Elem, u: string)
    requires p != [] && ElemAt(p, 0) == Found(e, |p|) && !e.Star?
    ensures Fit(p, u) <==> |u| == 1 && Fits(e, u[0])
  {
    hide Fits, ElemAt;
    assert Elems(p, |p|) == Some([]);
    assert Elems(p, 0) == Some([e] + []) && ([e] + [])[1..] == [];
    if u != [] {
      assert Matches([], u[1..]) <==> u[1..] == [];
      assert |u| == 1 <==> u[1..] == [];
    }
  }

  // ---------- Brackets ----------

  /** `[c]` matches `c` only. */
  lemma BracketOne(c: char, u: string)
    requires c !in {'!', '\\', CTLESC}
    ensures Fit("[" + [c] + "]", u) <==> u == [c]
  {
    var p := "[" + [c] + "]";
    assert p[0] == '[' && p[1] == c && p[2] == ']' && |p| == 3;
    assert ItemAt(p, 1) == Found(Single(c), 2);
    assert ItemsAt(p, 1) == Found([Single(c)], 3);
    OneElem(p, Bracket(false, [Single(c)]), u);
    OnlyItem(Single(c), false, u);
  }

  /** `[!c]` matches every character but `c`. */
  lemma BracketNot(c: char, u: string)
    requires c !in {'\\', CTLESC}
    ensures Fit("[!" + [c] + "]", u) <==> |u| == 1 && u != [c]
  {
    var p := "[!" + [c] + "]";
    assert p[0] == '[' && p[1] == '!' && p[2] == c && p[3] == ']' && |p| == 4;
    assert ItemAt(p, 2) == Found(Single(c), 3);
    assert ItemsAt(p, 2) == Found([Single(c)], 4);
    OneElem(p, Bracket(true, [Single(c)]), u);
    OnlyItem(Single(c), true, u);
  }

  /** `[cd]` matches both. */
  lemma BracketTwo(c: char, d: char, u: string)
    requires c !in {'!', '\\', CTLESC} && d !in {'-', ']', ':', '\\', CTLESC}
    ensures Fit("[" + [c, d] + "]", u) <==> u == [c] || u == [d]
  {
    var p := "[" + [c, d] + "]";
    assert p[0] == '[' && p[1] == c && p[2] == d && p[3] == ']' && |p| == 4;
    var items := [Single(c)] + [Single(d)];
    assert ItemAt(p, 1) == Found(Single(c), 2) && ItemAt(p, 2) == Found(Single(d), 3);
    assert ItemsAt(p, 2) == Found([Single(d)], 4);
    assert ItemsAt(p, 1) == Found(items, 4);
    OneElem(p, Bracket(false, items), u);
    if |u| == 1 {
      assert u == [u[0]];
      assert ItemHas(items[0], u[0]) == (u[0] == c) && ItemHas(items[1], u[0]) == (u[0] == d);
    }
  }

  /** `[lo-hi]` matches the characters from `lo` to `hi`, both included. */
  lemma BracketRange(lo: char, hi: char, u: string)
    requires lo < '\U{80}' && hi < '\U{80}' && lo !in {'!', '\\'} && hi !in {']', '\\'}
    requires forall c <- u :: c < '\U{100}'
    ensures Fit("[" + [lo, '-', hi] + "]", u) <==> |u| == 1 && lo <= u[0] <= hi
  {
    var p := "[" + [lo, '-', hi] + "]";
    assert p[0] == '[' && p[1] == lo && p[2] == '-' && p[3] == hi && p[4] == ']' && |p| == 5;
    assert ItemAt(p, 1) == Found(Range(lo, hi), 4);
    assert ItemsAt(p, 1) == Found([Range(lo, hi)], 5);
    OneElem(p, Bracket(false, [Range(lo, hi)]), u);
    assert |u| == 1 ==> u[0] in u;
    OnlyItem(Range(lo, hi), false, u);
  }

  lemma OnlyItem(item: Item, negated: bool, u: string)
    ensures |u| == 1 ==> u == [u[0]] && Fits(Bracket(negated, [item]), u[0]) == (ItemHas(item, u[0]) != negated)
  {
    if |u| == 1 {
      assert AnyHas([item], u[0]) == ItemHas([item][0], u[0]);
    }
  }

  // ---------- Classes ----------

  predicate Between(c: char, lo: int, hi: int) { lo <= c as int <= hi }

  /** The classes of the C locale, by character codes. */
  predicate InClass(name: string, c: char) {
    if name == "digit" then Between(c, 48, 57)
    else if name == "upper" then Between(c, 65, 90)
    else if name == "lower" then Between(c, 97, 122)
    else if name == "alpha" then Between(c, 65, 90) || Between(c, 97, 122)
    else if name == "alnum" then Between(c, 48, 57) || Between(c, 65, 90) || Between(c, 97, 122)
    else if name == "blank" then c as int == 32 || c as int == 9
    else if name == "space" then c as int == 32 || Between(c, 9, 13)
    else if name == "xdigit" then Between(c, 48, 57) || Between(c, 65, 70) || Between(c, 97, 102)
    else if name == "punct" then Between(c, 33, 47) || Between(c, 58, 64) || Between(c, 91, 96) || Between(c, 123, 126)
    else if name == "graph" then Between(c, 33, 126)
    else if name == "print" then Between(c, 32, 126)
    else name == "cntrl" && (Between(c, 0, 31) || c as int == 127)
  }

  lemma ClassIs(name: string, c: char)
    ensures ClassHas(name, c) == InClass(name, c)
  {
  }

  lemma ClassText(name: string)
    requires forall c <- name :: c != ':' && c != CTLESC
    ensures var p := "[[:" + name + ":]]"; ClassAt(p, 1) == Found(Class(name), |p| - 1) && p[|p| - 1] == ']'
  {
    hide ClassEnd;
    var p, n := "[[:" + name + ":]]", |name|;
    assert p[1] == '[' && p[2] == ':' && p[n + 3] == ':' && p[n + 4] == ']';
    forall k | 3 <= k < n + 3
      ensures p[k] != ':' && p[k] != CTLESC
    {
      assert p[k] == name[k - 3] && name[k - 3] in name;
    }
    PlainName(p, 3, n);
    assert p[3..n + 3] == name;
  }

  /** `[[:name:]]` matches the members of the class. */
  lemma BracketClass(name: string, u: string)
    requires name in CLASSES
    ensures Fit("[[:" + name + ":]]", u) <==> |u| == 1 && InClass(name, u[0])
  {
    hide ClassHas, InClass, ClassAt;
    var p := "[[:" + name + ":]]";
    assert p[0] == '[' && p[1] == '[';
    ClassNames(name);
    ClassText(name);
    assert ItemsAt(p, 1) == Found([Class(name)], |p|);
    OneElem(p, Bracket(false, [Class(name)]), u);
    OnlyItem(Class(name), false, u);
    if |u| == 1 {
      ClassIs(name, u[0]);
    }
  }

  lemma ClassNames(name: string)
    requires name in CLASSES
    ensures forall c <- name :: c != ':' && c != CTLESC
  {
  }

  // ---------- Outside brackets ----------

  /** `?` matches every text of one character. */
  lemma QuestionMark(u: string)
    ensures Fit("?", u) <==> |u| == 1
  {
    OneElem("?", Any, u);
  }

  /** A character that is not special matches itself. */
  lemma PlainOne(c: char, u: string)
    requires c !in {'*', '?', '[', '\\', CTLESC}
    ensures Fit([c], u) <==> u == [c]
  {
    OneElem([c], Lit(c), u);
  }

  /** So does any behind a backslash. */
  lemma BackslashOne(c: char, u: string)
    requires c != CTLESC
    ensures Fit(['\\', c], u) <==> u == [c]
  {
    OneElem(['\\', c], Lit(c), u);
  }

  /** And any behind the mark of quoting. */
  lemma MarkedOne(c: char, u: string)
    ensures Fit([CTLESC, c], u) <==> u == [c]
  {
    OneElem([CTLESC, c], Lit(c), u);
  }

  lemma StarAlone()
    ensures Elems("*", 0) == Some([Star])
  {
    assert Elems("*", 1) == Some([]) && [Star] + [] == [Star];
  }

  /** `*` matches every text. */
  lemma StarAll(u: string)
    ensures Fit("*", u)
  {
    StarAlone();
    assert Matches([], u[|u|..]) && [Star][1..] == [];
  }

  /** What follows a star may be any end of the text, and what comes first its start. */
  lemma FirstThenStar(c: char, u: string)
    requires c !in {'*', '?', '[', '\\', CTLESC}
    ensures Fit([c, '*'], u) <==> u != [] && u[0] == c
    ensures Fit(['*', c], u) <==> u != [] && u[|u| - 1] == c
  {
    assert Elems([c, '*'], 1) == Some([Star]) by {
      assert Elems([c, '*'], 2) == Some([]) && [Star] + [] == [Star];
    }
    assert Elems([c, '*'], 0) == Some([Lit(c)] + [Star]) && ([Lit(c)] + [Star])[1..] == [Star];
    if u != [] {
      StarAll(u[1..]);
      StarAlone();
    }
    assert Elems(['*', c], 1) == Some([Lit(c)] + []) by {
      assert Elems(['*', c], 2) == Some([]);
    }
    var t := [Star] + ([Lit(c)] + []);
    assert Elems(['*', c], 0) == Some(t) && t[1..] == [Lit(c)];
    LitEnds(c, u);
  }

  lemma LitEnds(c: char, u: string)
    ensures (exists k :: 0 <= k <= |u| && Matches([Lit(c)], u[k..])) <==> u != [] && u[|u| - 1] == c
  {
    forall k | 0 <= k <= |u|
      ensures Matches([Lit(c)], u[k..]) <==> k == |u| - 1 && u[k] == c
    {
      assert [Lit(c)][1..] == [];
    }
  }

  /** The shortest and the longest that `*` takes away at either end. */
  lemma StarBest(u: string)
    ensures Best([Star], u, ShortestPrefix, 0) && Best([Star], u, LongestPrefix, |u|)
    ensures Best([Star], u, ShortestSuffix, |u|) && Best([Star], u, LongestSuffix, 0)
  {
    forall v: string
      ensures Matches([Star], v)
    {
      StarAll(v);
      StarAlone();
    }
  }
}
