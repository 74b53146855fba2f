/** Glob patterns: their syntax, their meaning, and the backtracking matcher of src/expand.c. */
module Glob {
  import opened Chars

  /** A member of a bracket list. */
  datatype Item = Single(c: char) | Range(lo: char, hi: char) | Class(name: string)

  /** A pattern element; all but `Star` take exactly one character. */
  datatype Elem = Star | Any | Lit(c: char) | Bracket(negated: bool, items: seq<Item>)

  const CLASSES: seq<string> :=
    ["alnum", "cntrl", "lower", "space", "alpha", "digit", "print", "upper", "blank", "graph", "punct", "xdigit"]

  /** The character classes of the C locale. */
  predicate ClassHas(name: string, c: char) {
    if name == "alnum" then IsUpper(c) || IsLower(c) || IsDigit(c)
    else if name == "cntrl" then c < ' ' || c == '\U{7f}'
    else if name == "lower" then IsLower(c)
    else if name == "space" then c == ' ' || '\t' <= c <= '\r'
    else if name == "alpha" then IsUpper(c) || IsLower(c)
    else if name == "digit" then IsDigit(c)
    else if name == "print" then ' ' <= c <= '~'
    else if name == "upper" then IsUpper(c)
    else if name == "blank" then c == ' ' || c == '\t'
    else if name == "graph" then '!' <= c <= '~'
    else if name == "punct" then '!' <= c <= '~' && !(IsUpper(c) || IsLower(c) || IsDigit(c))
    else if name == "xdigit" then IsDigit(c) || 'A' <= c <= 'F' || 'a' <= c <= 'f'
    else false
  }

  predicate ItemHas(item: Item, c: char) {
    match item
    case Single(d) => c == d
    case Range(lo, hi) => Signed(lo) <= Signed(c) <= Signed(hi)
    case Class(name) => ClassHas(name, c)
  }

  predicate AnyHas(items: seq<Item>, c: char) {
    exists k :: 0 <= k < |items| && ItemHas(items[k], c)
  }

  predicate Fits(e: Elem, c: char) {
    match e
    case Star => false
    case Any => true
    case Lit(d) => c == d
    case Bracket(negated, items) => AnyHas(items, c) != negated
  }

  // ---------- Meaning of a pattern ----------

  /** `u` as a whole matches the pattern `t`. */
  ghost predicate Matches(t: seq<Elem>, u: seq<char>)
    decreases |t|
  {
    if t == [] then u == []
    else if t[0].Star? then exists k :: 0 <= k <= |u| && Matches(t[1..], u[k..])
    else u != [] && Fits(t[0], u[0]) && Matches(t[1..], u[1..])
  }

  datatype Mode = Full | ShortestPrefix | LongestPrefix | ShortestSuffix | LongestSuffix {
    predicate Left() { this == ShortestPrefix || this == LongestPrefix }
    predicate Right() { this == ShortestSuffix || this == LongestSuffix }
    predicate Max() { this == LongestPrefix || this == LongestSuffix }
  }

  /** Position `k` of the subject is a right answer, ignoring which one is preferred. */
  ghost predicate Possible(t: seq<Elem>, u: seq<char>, mode: Mode, k: nat) {
    k <= |u| &&
    if mode.Left() then Matches(t, u[..k])
    else if mode.Right() then Matches(t, u[k..])
    else k == |u| && Matches(t, u)
  }

  /** Position `k` is the answer that the mode asks for. */
  ghost predicate Best(t: seq<Elem>, u: seq<char>, mode: Mode, k: nat) {
    Possible(t, u, mode, k) &&
    forall j: nat | Possible(t, u, mode, j) ::
      if mode == LongestPrefix || mode == ShortestSuffix then j <= k else k <= j
  }

  // ---------- Reading characters ----------

  /** The macro GETC_CTLESC: the character at `i`, past a CTLESC when `esc`, and the index after it. */
  function Get(s: string, i: nat, esc: bool): (char, nat) {
    var j := if esc && At(s, i) == CTLESC then i + 1 else i;
    (At(s, j), j + 1)
  }

  /** The characters of a subject; None when a CTLESC has nothing behind it. */
  function Units(s: string, i: nat, esc: bool): Option<seq<char>>
    requires i <= |s|
    decreases |s| - i
  {
    if i == |s| then Some([])
    else
      var (c, j) := Get(s, i, esc);
      if j > |s| then None else
      var rest := Units(s, j, esc);
      if rest.None? then None else Some([c] + rest.value)
  }

  /** Where in `s` character number `k` starts. */
  function Offset(s: string, esc: bool, k: nat): nat {
    if k == 0 then 0 else
    var i := Offset(s, esc, k - 1);
    Get(s, i, esc).1
  }

  lemma {:induction false} UnitsAt(s: string, esc: bool, k: nat)
    requires Units(s, 0, esc).Some? && k <= |Units(s, 0, esc).value|
    ensures Offset(s, esc, k) <= |s|
    ensures Units(s, Offset(s, esc, k), esc) == Some(Units(s, 0, esc).value[k..])
  {
    if k > 0 {
      UnitsAt(s, esc, k - 1);
      assert Units(s, 0, esc).value[k - 1..][1..] == Units(s, 0, esc).value[k..];
    }
  }

  /** Reading at the start of character `k` yields it and moves to character `k + 1`. */
  lemma ReadUnit(s: string, esc: bool, k: nat)
    requires Units(s, 0, esc).Some? && k <= |Units(s, 0, esc).value|
    ensures Offset(s, esc, k) <= |s|
    ensures Offset(s, esc, k) == |s| <==> k == |Units(s, 0, esc).value|
    ensures k < |Units(s, 0, esc).value| ==>
              Get(s, Offset(s, esc, k), esc) == (Units(s, 0, esc).value[k], Offset(s, esc, k + 1))
  {
    UnitsAt(s, esc, k);
    assert |Units(s, 0, esc).value[k..]| == |Units(s, 0, esc).value| - k;
    if k < |Units(s, 0, esc).value| {
      UnitsAt(s, esc, k + 1);
    }
  }

  // ---------- Syntax of a pattern ----------

  /** Outcome of scanning part of a pattern; Overrun stands for reading past its terminator. */
  datatype Scan<+T> = Found(value: T, next: nat) | Missing | Overrun

  /** The name in `[:name:]`, with `i` just behind the first colon. */
  function ClassEnd(p: string, i: nat): Scan<nat>
    requires i <= |p|
    decreases |p| - i
  {
    if i == |p| then Missing
    else if p[i] == ':' && At(p, i + 1) == ']' then Found(i, i + 2)
    else if Get(p, i, true).1 > |p| then Overrun
    else ClassEnd(p, Get(p, i, true).1)
  }

  function ClassAt(p: string, i: nat): (r: Scan<Item>)
    requires i < |p|
    ensures r.Found? ==> i < r.next <= |p|
  {
    if p[i] != '[' || At(p, i + 1) != ':' then Missing else
    ClassEndBounds(p, i + 2);
    match ClassEnd(p, i + 2)
    case Found(end, next) => Found(Class(p[i + 2..end]), next)
    case Missing => Missing
    case Overrun => Overrun
  }

  lemma ClassEndBounds(p: string, i: nat)
    requires i <= |p|
    ensures ClassEnd(p, i).Found? ==> i <= ClassEnd(p, i).value && ClassEnd(p, i).next == ClassEnd(p, i).value + 2 <= |p|
    decreases |p| - i
  {
  }

  /** One character of a list, behind an optional backslash. */
  function CharAt(p: string, i: nat): (char, nat) {
    Get(p, if At(p, i) == '\\' then i + 1 else i, true)
  }

  function ItemAt(p: string, i: nat): (r: Scan<Item>)
    requires i < |p|
    ensures r.Found? ==> i < r.next <= |p|
  {
    var cls := ClassAt(p, i);
    if !cls.Missing? then cls else
    var (lo, j) := CharAt(p, i);
    if j > |p| then Overrun
    else if At(p, j) == '-' && At(p, j + 1) != ']' then
      var (hi, k) := CharAt(p, j + 1);
      if k > |p| then Overrun else Found(Range(lo, hi), k)
    else Found(Single(lo), j)
  }

  function Prepend(done: seq<Item>, rest: Scan<seq<Item>>): Scan<seq<Item>> {
    if rest.Found? then Found(done + rest.value, rest.next) else rest
  }

  /** A bracket list up to its closing bracket; a first `]` is an ordinary member. */
  function ItemsAt(p: string, i: nat): (r: Scan<seq<Item>>)
    requires i <= |p|
    ensures r.Found? ==> i < r.next <= |p|
    decreases |p| - i
  {
    if i == |p| then Missing else
    match ItemAt(p, i)
    case Overrun => Overrun
    case Missing => Missing
    case Found(item, j) =>
      if At(p, j) == ']' then Found([item], j + 1) else
      Prepend([item], ItemsAt(p, j))
  }

  /** The element at `i`; an unclosed bracket stands for itself. */
  function ElemAt(p: string, i: nat): (r: Scan<Elem>)
    requires i < |p|
    ensures r.Found? ==> i < r.next <= |p|
  {
    match p[i]
    case '*' => Found(Star, i + 1)
    case '?' => Found(Any, i + 1)
    case '[' =>
      var negated := At(p, i + 1) == '!';
      (match ItemsAt(p, if negated then i + 2 else i + 1)
       case Found(items, j) => Found(Bracket(negated, items), j)
       case Missing => Found(Lit('['), i + 1)
       case Overrun => Overrun)
    case _ =>
      if p[i] == '\\' && i + 1 == |p| then Found(Lit('\\'), i + 1) else
      var (c, j) := Get(p, if p[i] == '\\' then i + 1 else i, true);
      if j > |p| then Overrun else Found(Lit(c), j)
  }

  /** The elements of the pattern from `i` on; None when reading it would run past its end. */
  function Elems(p: string, i: nat): Option<seq<Elem>>
    requires i <= |p|
    decreases |p| - i
  {
    if i == |p| then Some([]) else
    match ElemAt(p, i)
    case Overrun => None
    case Missing => None
    case Found(e, j) =>
      var rest := Elems(p, j);
      if rest.None? then None else Some([e] + rest.value)
  }

  // ---------- One bracket expression ----------

  predicate HasPrefix(p: string, i: nat, prefix: string) {
    i + |prefix| <= |p| && p[i..i + |prefix|] == prefix
  }

  /** A text free of colons and escapes is scanned up to the `:]` that follows it. */
  lemma {:induction false} PlainName(p: string, i: nat, n: nat)
    requires i + n + 2 <= |p| && p[i + n] == ':' && p[i + n + 1] == ']'
    requires forall k :: i <= k < i + n ==> p[k] != ':' && p[k] != CTLESC
    ensures ClassEnd(p, i) == Found(i + n, i + n + 2)
    decreases n
  {
    if n > 0 {
      PlainName(p, i + 1, n - 1);
    }
  }

  lemma PrefixChars(p: string, i: nat, text: string, k: nat)
    requires HasPrefix(p, i, text) && k < |text|
    ensures p[i + k] == text[k]
  {
    assert p[i..i + |text|][k] == text[k];
  }

  /** A known class name in front of `:]` is what a scan for `:]` finds. */
  lemma KnownClass(p: string, i: nat, name: string)
    requires i + |name| + 2 <= |p| && HasPrefix(p, i, name + ":]") && forall c :: c in name ==> IsLower(c)
    ensures p[i..i + |name|] == name && ClassEnd(p, i) == Found(i + |name|, i + |name| + 2)
  {
    forall k | i <= k < i + |name| + 2
      ensures p[k] == (name + ":]")[k - i]
    {
      PrefixChars(p, i, name + ":]", k - i);
    }
    forall k | i <= k < i + |name|
      ensures IsLower(p[k]) && p[k] == name[k - i]
    {
      assert name[k - i] in name;
    }
    PlainName(p, i, |name|);
  }

  /** Members found one at a time add up to the list. */
  lemma PrependSnoc(done: seq<Item>, item: Item, rest: Scan<seq<Item>>)
    ensures Prepend(done, Prepend([item], rest)) == Prepend(done + [item], rest)
  {
    if rest.Found? {
      assert done + ([item] + rest.value) == done + [item] + rest.value;
    }
  }

  /** `ccmatch`: a character class at `i`; `next` is None when the bracket there is an ordinary member. */
  method CcMatch(p: string, i: nat, chr: char) returns (found: bool, next: Option<nat>)
    requires i < |p| && p[i] == '[' && !ClassAt(p, i).Overrun?
    ensures next.None? <==> ClassAt(p, i).Missing?
    ensures next.Some? ==> next.value == ClassAt(p, i).next && found == ItemHas(ClassAt(p, i).value, chr)
    ensures next.None? ==> !found
  {
    found, next := false, None;
    if At(p, i + 1) != ':' {
      return;
    }
    var n := i + 2;
    ClassEndBounds(p, n);
    for k := 0 to |CLASSES|
      invariant forall j :: 0 <= j < k ==> !HasPrefix(p, n, CLASSES[j] + ":]")
    {
      var name := CLASSES[k];
      if HasPrefix(p, n, name + ":]") {
        KnownClass(p, n, name);
        return ClassHas(name, chr), Some(n + |name| + 2);
      }
    }
    var q := n;
    while true
      invariant n <= q <= |p| && ClassEnd(p, n) == ClassEnd(p, q)
      decreases |p| - q
    {
      if q == |p| {
        return;
      }
      if p[q] == ':' && At(p, q + 1) == ']' {
        break;
      }
      q := Get(p, q, true).1;
    }
    next := Some(q + 2);
    UnknownClass(p, n, q, chr);
  }

  /** A scanned name that is none of the known ones is the name of an empty class. */
  lemma UnknownClass(p: string, n: nat, q: nat, chr: char)
    requires n <= q && q + 2 <= |p| && p[q] == ':' && p[q + 1] == ']'
    requires forall k :: 0 <= k < |CLASSES| ==> !HasPrefix(p, n, CLASSES[k] + ":]")
    ensures !ClassHas(p[n..q], chr)
  {
    assert p[n..q + 2] == p[n..q] + ":]";
    forall k | 0 <= k < |CLASSES|
      ensures CLASSES[k] != p[n..q]
    {
      assert !HasPrefix(p, n, CLASSES[k] + ":]");
    }
    ClassIsKnown(p[n..q], chr);
  }

  lemma ClassIsKnown(name: string, c: char)
    ensures ClassHas(name, c) ==> exists k :: 0 <= k < |CLASSES| && CLASSES[k] == name
  {
    assert ClassHas(name, c) ==> name in CLASSES;
  }

  /** One turn of the bracket loop of `pmatch`. */
  method MatchItem(p: string, i: nat, chr: char) returns (found: bool, next: nat)
    requires i < |p| && ItemAt(p, i).Found?
    ensures next == ItemAt(p, i).next && found == ItemHas(ItemAt(p, i).value, chr)
  {
    if p[i] == '[' {
      var has, r := CcMatch(p, i, chr);
      if r.Some? {
        return has, r.value;
      }
    }
    var (c, j) := CharAt(p, i);
    if At(p, j) == '-' && At(p, j + 1) != ']' {
      var (c2, k) := CharAt(p, j + 1);
      return Signed(c) <= Signed(chr) <= Signed(c2), k;
    }
    return chr == c, j;
  }

  /** The bracket loop of `pmatch`; `next` is None when the bracket is never closed. */
  method MatchBracket(p: string, start: nat, chr: char) returns (found: bool, next: Option<nat>)
    requires start <= |p| && !ItemsAt(p, start).Overrun?
    ensures next.None? <==> ItemsAt(p, start).Missing?
    ensures next.Some? ==> next.value == ItemsAt(p, start).next && found == AnyHas(ItemsAt(p, start).value, chr)
  {
    var i := start;
    found := false;
    ghost var done: seq<Item> := [];
    assert forall items: seq<Item> :: [] + items == items;
    while true
      invariant start <= i <= |p|
      invariant ItemsAt(p, start) == Prepend(done, ItemsAt(p, i))
      invariant found == AnyHas(done, chr)
      decreases |p| - i
    {
      if i == |p| {
        return false, None;
      }
      ghost var item, before := ItemAt(p, i).value, done;
      var has, j := MatchItem(p, i, chr);
      found := found || has;
      i := j;
      done := done + [item];
      AnyHasSnoc(before, item, chr);
      PrependSnoc(before, item, ItemsAt(p, i));
      if At(p, i) == ']' {
        return found, Some(i + 1);
      }
    }
  }

  lemma AnyHasSnoc(items: seq<Item>, item: Item, c: char)
    ensures AnyHas(items + [item], c) <==> AnyHas(items, c) || ItemHas(item, c)
  {
    assert (items + [item])[|items|] == item;
    forall k | 0 <= k < |items| && ItemHas(items[k], c)
      ensures AnyHas(items + [item], c)
    {
      assert (items + [item])[k] == items[k];
    }
  }

  // ---------- Why trying only the last star is enough ----------

  ghost predicate NoStar(seg: seq<Elem>) {
    forall k :: 0 <= k < |seg| ==> !seg[k].Star?
  }

  /** `t` matches a piece of `u` that ends at `e` and starts behind `i`. */
  ghost predicate Later(t: seq<Elem>, u: seq<char>, i: nat, e: nat)
    requires e <= |u|
  {
    exists j :: i < j <= e && Matches(t, u[j..e])
  }

  /** What the matcher can still reach: the rest `tp` from `q`, or `ta` from a later place than `aq`. */
  ghost predicate Reach(u: seq<char>, tp: seq<Elem>, q: nat, ta: Option<seq<Elem>>, aq: nat, e: nat)
    requires e <= |u|
  {
    (q <= e && Matches(tp, u[q..e])) || (ta.Some? && Later(ta.value, u, aq, e))
  }

  lemma {:induction false} SkipSegment(seg: seq<Elem>, t: seq<Elem>, u: seq<char>, j: nat, e: nat)
    requires NoStar(seg) && j <= e <= |u| && Matches(seg + t, u[j..e])
    ensures j + |seg| <= e && Matches(t, u[j + |seg|..e])
  {
    if seg == [] {
      assert seg + t == t;
    } else {
      assert (seg + t)[1..] == seg[1..] + t && u[j..e][1..] == u[j + 1..e];
      SkipSegment(seg[1..], t, u, j + 1, e);
    }
  }

  lemma StarMatches(t: seq<Elem>, u: seq<char>, i: nat, e: nat)
    requires i <= e <= |u|
    ensures Matches([Star] + t, u[i..e]) <==> Matches(t, u[i..e]) || Later(t, u, i, e)
  {
    assert ([Star] + t)[1..] == t;
    if Matches([Star] + t, u[i..e]) {
      var k :| 0 <= k <= e - i && Matches(t, u[i..e][k..]);
      assert u[i..e][k..] == u[i + k..e];
    }
    if Matches(t, u[i..e]) {
      assert u[i..e][0..] == u[i..e];
    }
    if Later(t, u, i, e) {
      var j :| i < j <= e && Matches(t, u[j..e]);
      assert u[i..e][j - i..] == u[j..e];
    }
  }

  /** A further star makes the earlier one obsolete: its own later places lead to places behind `q`. */
  lemma ForgetStar(u: seq<char>, seg: seq<Elem>, t: seq<Elem>, q: nat, ta: Option<seq<Elem>>, aq: nat, e: nat)
    requires e <= |u|
    requires ta.Some? ==> NoStar(seg) && q == aq + |seg| && ta.value == seg + ([Star] + t)
    ensures Reach(u, [Star] + t, q, ta, aq, e) <==> Reach(u, t, q, Some(t), q, e)
  {
    if q <= e {
      StarMatches(t, u, q, e);
    }
    if ta.Some? && Later(ta.value, u, aq, e) {
      var j :| aq < j <= e && Matches(ta.value, u[j..e]);
      SkipSegment(seg, [Star] + t, u, j, e);
      StarMatches(t, u, j + |seg|, e);
    }
  }

  /** An element that fits is taken by every match that starts here. */
  lemma TakeOne(u: seq<char>, x: Elem, t: seq<Elem>, q: nat, ta: Option<seq<Elem>>, aq: nat, e: nat)
    requires e <= |u| && q < |u| && Fits(x, u[q])
    ensures Reach(u, [x] + t, q, ta, aq, e) <==> Reach(u, t, q + 1, ta, aq, e)
  {
    assert ([x] + t)[1..] == t;
    if q < e {
      assert u[q..e][1..] == u[q + 1..e];
    }
  }

  /** Without a star in front of it, a further end is reached only from a further place. */
  lemma LaterEndsLater(u: seq<char>, seg: seq<Elem>, q: nat, aq: nat, e: nat)
    requires e <= |u| && NoStar(seg) && q == aq + |seg| && Later(seg, u, aq, e)
    ensures q < e
  {
    var j :| aq < j <= e && Matches(seg, u[j..e]);
    assert seg + [] == seg;
    SkipSegment(seg, [], u, j, e);
  }

  // ---------- The matcher ----------

  /** One element other than a star against the character at `q`: a turn of the switch of `pmatch`. */
  method MatchOne(pattern: string, p: nat, str: string, q: nat, esc: bool) returns (ok: bool, p': nat, q': nat)
    requires '\0' !in pattern && '\0' !in str
    requires q < |str| ==> Get(str, q, esc).1 <= |str|
    requires p < |pattern| && q <= |str| && pattern[p] != '*' && ElemAt(pattern, p).Found?
    ensures ok <==> q < |str| && Fits(ElemAt(pattern, p).value, Get(str, q, esc).0)
    ensures ok ==> p' == ElemAt(pattern, p).next && q' == Get(str, q, esc).1
  {
    var (chr, next) := Get(str, q, esc);
    q' := next;
    var c := pattern[p];
    p' := p + 1;
    if c == '?' {
      return chr != '\0', p', q';
    }
    if c == '[' {
      if chr == '\0' {
        return false, p', q';
      }
      var invert := At(pattern, p') == '!';
      var found, end := MatchBracket(pattern, if invert then p' + 1 else p', chr);
      if end.Some? {
        return found != invert, end.value, q';
      }
    } else if c == '\\' && At(pattern, p') == '\0' {
      c := '\\';
    } else {
      var (d, end) := Get(pattern, if c == '\\' then p' else p, true);
      c, p' := d, end;
    }
    ok := chr == c;
  }

  /** The pattern that the search decides: a suffix search starts with an implicit star. */
  function Sought(t: seq<Elem>, mode: Mode): seq<Elem> {
    if mode.Right() then [Star] + t else t
  }

  /**
   * A state of the search, counted in characters and elements. The search began at `s0`; the rest `tp` of
   * the pattern is due at `q`; `seg` lies between the last star, whose rest is `ta` and whose place is
   * `aq`, and `q`. A prefix search has dealt with all ends below `lo`. A suffix search is at start `s`,
   * and `first` says that no star of the pattern itself has been met. `best` is the recorded answer.
   */
  datatype Search = Search(s0: nat, s: nat, lo: nat, tp: seq<Elem>, q: nat,
                           ta: Option<seq<Elem>>, aq: nat, seg: seq<Elem>, first: bool, best: Option<nat>)

  ghost predicate Reaches(u: seq<char>, st: Search, e: nat)
    requires e <= |u|
  {
    Reach(u, st.tp, st.q, st.ta, st.aq, e)
  }

  /** Every relevant end is a match iff the search can still reach it. */
  ghost predicate Complete(t: seq<Elem>, u: seq<char>, mode: Mode, st: Search) {
    && st.s0 <= st.q <= |u|
    && (st.ta.Some? ==> st.s0 <= st.aq && NoStar(st.seg) && st.q == st.aq + |st.seg| && st.ta.value == st.seg + st.tp)
    && (forall e :: st.s0 <= e <= |u| && st.lo <= e && (mode.Left() || e == |u|) ==>
                      (Matches(Sought(t, mode), u[st.s0..e]) <==> Reaches(u, st, e)))
    && (mode.Left() ==> forall e: nat :: e < st.lo && e <= |u| ==> !Reaches(u, st, e))
  }

  /** In a suffix search no start from `s0` up to `s` matches, and reaching the end means that `s` does. */
  ghost predicate Starting(t: seq<Elem>, u: seq<char>, st: Search) {
    && st.s0 <= st.s <= st.aq <= st.q <= |u| && st.ta.Some?
    && (forall a :: st.s0 <= a < st.s ==> !Matches(t, u[a..]))
    && (if st.first then st.ta.value == t && st.s == st.aq && (Matches(t, u[st.s..]) <==> Matches(st.tp, u[st.q..]))
        else Reaches(u, st, |u|) ==> Matches(t, u[st.s..]))
  }

  ghost predicate Recorded(t: seq<Elem>, u: seq<char>, mode: Mode, st: Search) {
    && (mode != ShortestSuffix ==> st.s0 == 0)
    && (mode != LongestPrefix ==> st.lo == 0)
    && (st.best.None? <==> st.s0 == 0 && st.lo == 0)
    && (st.best.Some? ==>
          st.best.value + 1 == (if mode == LongestPrefix then st.lo else st.s0) && Possible(t, u, mode, st.best.value))
  }

  /** The invariant of the matcher's loop. */
  ghost predicate Inv(t: seq<Elem>, u: seq<char>, mode: Mode, st: Search) {
    && Complete(t, u, mode, st)
    && (if mode.Right() then Starting(t, u, st) else !st.first)
    && Recorded(t, u, mode, st)
  }

  /** The state behind a star of the pattern. */
  function Starred(st: Search): Search
    requires st.tp != []
  {
    st.(tp := st.tp[1..], ta := Some(st.tp[1..]), aq := st.q, seg := [], first := false)
  }

  lemma StarCompletes(t: seq<Elem>, u: seq<char>, mode: Mode, st: Search)
    requires Complete(t, u, mode, st) && st.tp != [] && st.tp[0].Star?
    ensures Complete(t, u, mode, Starred(st))
  {
    hide Matches, Later;
    var rest, st' := st.tp[1..], Starred(st);
    assert st.tp == [Star] + rest;
    forall e: nat | e <= |u|
      ensures Reaches(u, st, e) <==> Reaches(u, st', e)
    {
      ForgetStar(u, st.seg, rest, st.q, st.ta, st.aq, e);
    }
  }

  lemma StarStarts(t: seq<Elem>, u: seq<char>, st: Search)
    requires Starting(t, u, st) && st.tp != [] && st.tp[0].Star?
    ensures Starting(t, u, Starred(st))
  {
    hide Matches, Later;
    assert st.tp == [Star] + st.tp[1..];
    assert u[st.q..|u|] == u[st.q..];
    StarMatches(st.tp[1..], u, st.q, |u|);
  }

  lemma OpenStar(t: seq<Elem>, u: seq<char>, mode: Mode, st: Search)
    requires Inv(t, u, mode, st) && st.tp != [] && st.tp[0].Star?
    ensures Inv(t, u, mode, Starred(st))
  {
    hide Complete, Starting;
    StarCompletes(t, u, mode, st);
    if mode.Right() {
      StarStarts(t, u, st);
    }
  }

  /** The state behind an element that fits. */
  function Taken(st: Search): Search
    requires st.tp != []
  {
    st.(tp := st.tp[1..], q := st.q + 1, seg := st.seg + [st.tp[0]])
  }

  lemma TakeCompletes(t: seq<Elem>, u: seq<char>, mode: Mode, st: Search)
    requires Complete(t, u, mode, st) && st.tp != [] && !st.tp[0].Star? && st.q < |u| && Fits(st.tp[0], u[st.q])
    ensures Complete(t, u, mode, Taken(st))
  {
    var st' := Taken(st);
    assert st.tp == [st.tp[0]] + st.tp[1..];
    forall e: nat | e <= |u|
      ensures Reaches(u, st, e) <==> Reaches(u, st', e)
    {
      TakeOne(u, st.tp[0], st.tp[1..], st.q, st.ta, st.aq, e);
    }
    hide Matches;
    assert st.seg + st.tp == st'.seg + st'.tp;
  }

  lemma TakeStep(t: seq<Elem>, u: seq<char>, mode: Mode, st: Search)
    requires Inv(t, u, mode, st) && st.tp != [] && !st.tp[0].Star? && st.q < |u| && Fits(st.tp[0], u[st.q])
    ensures Inv(t, u, mode, Taken(st))
  {
    hide Complete;
    TakeCompletes(t, u, mode, st);
  }

  /** The ends that a state still has to answer for, once those below `lo` are dealt with. */
  ghost predicate DeadEnd(u: seq<char>, mode: Mode, st: Search, lo: nat) {
    && st.lo <= lo
    && (forall e :: st.q <= e <= |u| && lo <= e && (mode.Left() || e == |u|) ==> !Matches(st.tp, u[st.q..e]))
    && (st.ta.Some? && mode.Left() ==> forall e :: st.lo <= e < lo && e <= |u| ==> !Later(st.ta.value, u, st.aq, e))
  }

  /** The state after going back to the last star, one character further on. */
  function Back(st: Search, lo: nat, best: Option<nat>): Search
    requires st.ta.Some?
  {
    st.(tp := st.ta.value, q := st.aq + 1, aq := st.aq + 1, seg := [],
        s := if st.first then st.aq + 1 else st.s, lo := lo, best := best)
  }

  lemma BackCompletes(t: seq<Elem>, u: seq<char>, mode: Mode, st: Search, lo: nat, best: Option<nat>)
    requires Complete(t, u, mode, st) && DeadEnd(u, mode, st, lo) && st.ta.Some? && st.aq < |u|
    ensures Complete(t, u, mode, Back(st, lo, best))
  {
    var st' := Back(st, lo, best);
    forall e: nat | e <= |u|
      ensures Reaches(u, st', e) <==> Later(st.ta.value, u, st.aq, e)
    {
    }
    assert forall e: nat :: e < st.lo && e <= |u| && !Reaches(u, st, e) ==> !Reaches(u, st', e);
    assert st'.seg + st'.tp == st'.ta.value;
  }

  lemma BackStarts(t: seq<Elem>, u: seq<char>, st: Search, lo: nat, best: Option<nat>)
    requires Starting(t, u, st) && st.aq < |u| && !Matches(st.tp, u[st.q..])
    ensures Starting(t, u, Back(st, lo, best))
  {
  }

  lemma FallBack(t: seq<Elem>, u: seq<char>, mode: Mode, st: Search, lo: nat, best: Option<nat>)
    requires Inv(t, u, mode, st) && DeadEnd(u, mode, st, lo) && st.ta.Some? && st.aq < |u|
    requires Recorded(t, u, mode, st.(lo := lo, best := best))
    ensures Inv(t, u, mode, Back(st, lo, best))
  {
    hide Matches, Starting;
    BackCompletes(t, u, mode, st, lo, best);
    if mode.Right() {
      assert u[st.q..|u|] == u[st.q..];
      BackStarts(t, u, st, lo, best);
    }
  }

  /** So the recorded answer is final. */
  lemma GiveUp(t: seq<Elem>, u: seq<char>, mode: Mode, st: Search, lo: nat, best: Option<nat>)
    requires Inv(t, u, mode, st) && DeadEnd(u, mode, st, lo) && (st.ta.None? || st.aq >= |u|)
    requires Recorded(t, u, mode, st.(lo := lo, best := best))
    ensures best.None? ==> forall k: nat :: !Possible(t, u, mode, k)
    ensures best.Some? ==> Best(t, u, mode, best.value)
  {
    assert st.s0 <= st.q <= |u|;
    forall k: nat | Possible(t, u, mode, k)
      ensures best.Some? && k <= best.value && (mode == LongestPrefix || mode == ShortestSuffix)
    {
      hide Complete, DeadEnd, Starting, Matches;
      if mode.Right() {
        if k >= st.s0 {
          assert u[k..|u|] == u[k..];
          StarMatches(t, u, st.s0, |u|);
          assert false;
        }
      } else {
        assert u[0..k] == u[..k] && u[0..|u|] == u;
        if k >= lo {
          assert false;
        }
      }
    }
  }

  /** The initial state; a suffix search opens its implicit star at once. */
  function Start(t: seq<Elem>, mode: Mode): Search {
    Search(0, 0, 0, t, 0, if mode.Right() then Some(t) else None, 0, [], mode.Right(), None)
  }

  /** A fresh suffix search from `s0`, or any other search from the beginning, misses nothing. */
  lemma RestartComplete(t: seq<Elem>, u: seq<char>, mode: Mode, st: Search)
    requires st.s0 <= |u| && st.q == st.s0 && st.tp == t && st.lo == 0
    requires if mode.Right() then st.ta == Some(t) && st.aq == st.s0 && st.seg == [] else st.ta.None?
    ensures Complete(t, u, mode, st)
  {
    forall e: nat | st.s0 <= e <= |u|
      ensures Matches(Sought(t, mode), u[st.s0..e]) <==> Reaches(u, st, e)
    {
      StarMatches(t, u, st.s0, e);
    }
    assert [] + t == t;
  }

  /** A shortest-suffix search goes on behind a match at `s`. */
  function Restart(t: seq<Elem>, st: Search): Search {
    st.(s0 := st.s + 1, s := st.s + 1, tp := t, q := st.s + 1, ta := Some(t), aq := st.s + 1, seg := [],
        first := true, best := Some(st.s))
  }

  lemma RestartInv(t: seq<Elem>, u: seq<char>, st: Search)
    requires Inv(t, u, ShortestSuffix, st) && st.tp == [] && st.q == |u| && st.s < |u|
    ensures Inv(t, u, ShortestSuffix, Restart(t, st))
  {
    SuffixFound(t, u, ShortestSuffix, st);
    RestartComplete(t, u, ShortestSuffix, Restart(t, st));
  }

  lemma SuffixFound(t: seq<Elem>, u: seq<char>, mode: Mode, st: Search)
    requires mode.Right() && Inv(t, u, mode, st) && st.tp == [] && st.q == |u|
    ensures Possible(t, u, mode, st.s)
    ensures mode == LongestSuffix || st.first || st.s == |u| ==> Best(t, u, mode, st.s)
  {
    assert Reaches(u, st, |u|);
    assert Matches(t, u[st.s..]);
    if mode == ShortestSuffix && st.first {
      assert t + [] == t == st.seg;
      forall j: nat | Possible(t, u, mode, j)
        ensures j <= st.s
      {
        assert u[j..|u|] == u[j..];
        SkipSegment(t, [], u, j, |u|);
      }
    }
  }

  lemma WholeFound(t: seq<Elem>, u: seq<char>, st: Search)
    requires Inv(t, u, Full, st) && st.tp == [] && st.q == |u|
    ensures Best(t, u, Full, |u|)
  {
    assert Reaches(u, st, |u|);
    assert u[0..|u|] == u;
  }

  lemma PrefixFound(t: seq<Elem>, u: seq<char>, mode: Mode, st: Search)
    requires mode.Left() && Inv(t, u, mode, st) && st.tp == []
    ensures Possible(t, u, mode, st.q) && st.lo <= st.q
    ensures mode == ShortestPrefix ==> Best(t, u, mode, st.q)
    ensures mode == LongestPrefix ==> DeadEnd(u, mode, st, st.q + 1)
                                      && Recorded(t, u, mode, st.(lo := st.q + 1, best := Some(st.q)))
  {
    assert u[st.q..st.q] == [] && Reaches(u, st, st.q);
    assert u[0..st.q] == u[..st.q];
    forall e: nat | e <= st.q
      ensures st.ta.Some? ==> !Later(st.ta.value, u, st.aq, e)
    {
      assert st.seg + [] == st.seg;
      if st.ta.Some? && Later(st.ta.value, u, st.aq, e) {
        LaterEndsLater(u, st.seg, st.q, st.aq, e);
      }
    }
    forall j: nat | mode == ShortestPrefix && Possible(t, u, mode, j)
      ensures st.q <= j
    {
      assert u[0..j] == u[..j];
      assert Reaches(u, st, j);
    }
  }

  lemma NoElement(t: seq<Elem>, u: seq<char>, mode: Mode, st: Search)
    requires Inv(t, u, mode, st) && st.tp != [] && !st.tp[0].Star? && (st.q == |u| || !Fits(st.tp[0], u[st.q]))
    ensures Recorded(t, u, mode, st)
    ensures DeadEnd(u, mode, st, st.lo)
  {
    assert st.tp == [st.tp[0]] + st.tp[1..];
    forall e | st.q <= e <= |u|
      ensures !Matches(st.tp, u[st.q..e])
    {
    }
  }

  /** The variables of `pmatch`. */
  datatype Vars = Vars(p: nat, q: nat, s: nat, ap: Option<nat>, aq: nat, r: Option<nat>)

  /** What `pmatch` relies on: C strings whose escapes and brackets do not run past their ends. */
  predicate Ready(pattern: string, str: string, esc: bool) {
    '\0' !in pattern && '\0' !in str && Elems(pattern, 0).Some? && Units(str, 0, esc).Some?
  }

  /** The variables describe the state `st` of the search. */
  ghost predicate Linked(pattern: string, str: string, mode: Mode, esc: bool, v: Vars, st: Search)
    requires Ready(pattern, str, esc)
  {
    && Inv(Elems(pattern, 0).value, Units(str, 0, esc).value, mode, st)
    && v.p <= |pattern| && Elems(pattern, v.p) == Some(st.tp) && v.q == Offset(str, esc, st.q)
    && (if v.ap.None? then st.ta.None?
        else v.ap.value <= v.p && st.ta.Some? && Elems(pattern, v.ap.value) == st.ta && v.aq == Offset(str, esc, st.aq))
    && (if mode.Right() then v.s == Offset(str, esc, st.s) && (st.first <==> v.ap == Some(0)) else v.ap != Some(0))
    && v.r == (if st.best.None? then None else Some(Offset(str, esc, st.best.value)))
  }

  lemma LinkStart(pattern: string, str: string, mode: Mode, esc: bool)
    requires Ready(pattern, str, esc)
    ensures Linked(pattern, str, mode, esc, Vars(0, 0, 0, if mode.Right() then Some(0) else None, 0, None),
                   Start(Elems(pattern, 0).value, mode))
  {
  }

  lemma LinkBounds(pattern: string, str: string, mode: Mode, esc: bool, v: Vars, st: Search)
    requires Ready(pattern, str, esc) && Linked(pattern, str, mode, esc, v, st)
    ensures v.p <= |pattern| && (v.ap.Some? ==> v.ap.value <= v.p)
    ensures mode.Right() ==> st.s0 <= st.s <= |Units(str, 0, esc).value|
    ensures st.s0 <= st.q <= |Units(str, 0, esc).value| && (v.ap.Some? ==> st.aq <= |Units(str, 0, esc).value|)
  {
  }

  lemma LinkStar(pattern: string, str: string, mode: Mode, esc: bool, v: Vars, st: Search)
    requires Ready(pattern, str, esc) && Linked(pattern, str, mode, esc, v, st) && At(pattern, v.p) == '*'
    ensures st.tp != [] && Linked(pattern, str, mode, esc, v.(p := v.p + 1, ap := Some(v.p + 1), aq := v.q), Starred(st))
    ensures Starred(st).s0 == st.s0
  {
    hide Inv;
    OpenStar(Elems(pattern, 0).value, Units(str, 0, esc).value, mode, st);
  }

  /** What the character and the element at hand are. */
  lemma LinkHere(pattern: string, str: string, mode: Mode, esc: bool, v: Vars, st: Search)
    requires Ready(pattern, str, esc) && Linked(pattern, str, mode, esc, v, st)
    requires v.p < |pattern|
    ensures '\0' !in pattern && '\0' !in str && v.q <= |str| && (v.q < |str| ==> Get(str, v.q, esc).1 <= |str|)
    ensures ElemAt(pattern, v.p).Found? && st.tp != [] && st.tp[0] == ElemAt(pattern, v.p).value
    ensures Elems(pattern, ElemAt(pattern, v.p).next) == Some(st.tp[1..])
    ensures st.q <= |Units(str, 0, esc).value| && (v.q < |str| <==> st.q < |Units(str, 0, esc).value|)
    ensures v.q < |str| ==> Get(str, v.q, esc) == (Units(str, 0, esc).value[st.q], Offset(str, esc, st.q + 1))
  {
    hide Inv;
    LinkBounds(pattern, str, mode, esc, v, st);
    ReadUnit(str, esc, st.q);
    if st.q < |Units(str, 0, esc).value| {
      ReadUnit(str, esc, st.q + 1);
    }
  }

  lemma LinkTake(pattern: string, str: string, mode: Mode, esc: bool, v: Vars, st: Search)
    requires Ready(pattern, str, esc) && Linked(pattern, str, mode, esc, v, st)
    requires v.p < |pattern| && pattern[v.p] != '*' && ElemAt(pattern, v.p).Found? && v.q < |str|
    requires Fits(ElemAt(pattern, v.p).value, Get(str, v.q, esc).0)
    ensures st.tp != [] && Taken(st).s0 == st.s0 && Taken(st).aq == st.aq
    ensures Linked(pattern, str, mode, esc, v.(p := ElemAt(pattern, v.p).next, q := Get(str, v.q, esc).1), Taken(st))
  {
    hide Inv;
    LinkHere(pattern, str, mode, esc, v, st);
    TakeStep(Elems(pattern, 0).value, Units(str, 0, esc).value, mode, st);
  }

  lemma LinkMiss(pattern: string, str: string, mode: Mode, esc: bool, v: Vars, st: Search)
    requires Ready(pattern, str, esc) && Linked(pattern, str, mode, esc, v, st)
    requires v.p < |pattern| && pattern[v.p] != '*' && ElemAt(pattern, v.p).Found?
    requires v.q < |str| ==> !Fits(ElemAt(pattern, v.p).value, Get(str, v.q, esc).0)
    ensures Settled(pattern, str, mode, esc, v, st, st.lo, st.best)
  {
    hide Inv;
    LinkHere(pattern, str, mode, esc, v, st);
    NoElement(Elems(pattern, 0).value, Units(str, 0, esc).value, mode, st);
    assert st.(lo := st.lo, best := st.best) == st;
  }

  /** The variables after going back to the last star. */
  function BackVars(str: string, esc: bool, v: Vars): Vars
    requires v.ap.Some?
  {
    var q := Get(str, v.aq, esc).1;
    v.(p := v.ap.value, q := q, s := if v.ap == Some(0) then q else v.s, aq := q)
  }

  /** The state once the ends below `lo` are dealt with and `best` is recorded. */
  ghost predicate Settled(pattern: string, str: string, mode: Mode, esc: bool, v: Vars, st: Search, lo: nat, best: Option<nat>)
    requires Ready(pattern, str, esc)
  {
    var u := Units(str, 0, esc).value;
    && DeadEnd(u, mode, st, lo) && Recorded(Elems(pattern, 0).value, u, mode, st.(lo := lo, best := best))
    && v.r == (if best.None? then None else Some(Offset(str, esc, best.value)))
  }

  /** There is a later place for the last star exactly when the subject goes on there. */
  lemma LastStar(pattern: string, str: string, mode: Mode, esc: bool, v: Vars, r: Option<nat>, st: Search)
    requires Ready(pattern, str, esc) && Linked(pattern, str, mode, esc, v.(r := r), st) && v.ap.Some?
    ensures At(str, v.aq) != '\0' <==> st.aq < |Units(str, 0, esc).value|
    ensures st.aq < |Units(str, 0, esc).value| ==> Get(str, v.aq, esc).1 == Offset(str, esc, st.aq + 1)
  {
    hide Inv;
    LinkBounds(pattern, str, mode, esc, v.(r := r), st);
    ReadUnit(str, esc, st.aq);
  }

  lemma LinkBack(pattern: string, str: string, mode: Mode, esc: bool, v: Vars, r: Option<nat>, st: Search, lo: nat, best: Option<nat>)
    requires Ready(pattern, str, esc) && Linked(pattern, str, mode, esc, v.(r := r), st)
    requires Settled(pattern, str, mode, esc, v, st, lo, best)
    requires v.ap.Some? && At(str, v.aq) != '\0'
    ensures st.ta.Some? && Linked(pattern, str, mode, esc, BackVars(str, esc, v), Back(st, lo, best))
    ensures Back(st, lo, best).s0 == st.s0 && Back(st, lo, best).aq == st.aq + 1
  {
    hide Inv;
    LastStar(pattern, str, mode, esc, v, r, st);
    FallBack(Elems(pattern, 0).value, Units(str, 0, esc).value, mode, st, lo, best);
  }

  /** The contract of `pmatch`. */
  ghost predicate Answer(pattern: string, str: string, mode: Mode, esc: bool, r: Option<nat>)
    requires Ready(pattern, str, esc)
  {
    var t, u := Elems(pattern, 0).value, Units(str, 0, esc).value;
    if r.None? then forall k: nat :: !Possible(t, u, mode, k)
    else exists k: nat :: Best(t, u, mode, k) && r.value == Offset(str, esc, k)
  }

  lemma LinkGiveUp(pattern: string, str: string, mode: Mode, esc: bool, v: Vars, r: Option<nat>, st: Search, lo: nat, best: Option<nat>)
    requires Ready(pattern, str, esc) && Linked(pattern, str, mode, esc, v.(r := r), st)
    requires Settled(pattern, str, mode, esc, v, st, lo, best)
    requires v.ap.None? || At(str, v.aq) == '\0'
    ensures Answer(pattern, str, mode, esc, v.r)
  {
    hide Inv;
    if v.ap.Some? {
      LastStar(pattern, str, mode, esc, v, r, st);
    }
    GiveUp(Elems(pattern, 0).value, Units(str, 0, esc).value, mode, st, lo, best);
  }

  /** The end of the pattern: what is found there, and what becomes of the search. */
  lemma LinkEnd(pattern: string, str: string, mode: Mode, esc: bool, v: Vars, st: Search)
    requires Ready(pattern, str, esc) && Linked(pattern, str, mode, esc, v, st) && At(pattern, v.p) == '\0'
    ensures !mode.Left() && At(str, v.q) != '\0' ==> Settled(pattern, str, mode, esc, v, st, st.lo, st.best)
    ensures mode.Left() || At(str, v.q) == '\0' ==>
              (!mode.Right() && mode != LongestPrefix ==> Answer(pattern, str, mode, esc, Some(v.q)))
              && (mode == LongestPrefix ==> Settled(pattern, str, mode, esc, v.(r := Some(v.q)), st, st.q + 1, Some(st.q)))
              && (mode == LongestSuffix || (mode.Right() && v.ap == Some(0)) ==> Answer(pattern, str, mode, esc, Some(v.s)))
  {
    ghost var t, u := Elems(pattern, 0).value, Units(str, 0, esc).value;
    ReadUnit(str, esc, st.q);
    if mode.Left() {
      PrefixFound(t, u, mode, st);
    } else if st.q == |u| && mode.Right() {
      SuffixFound(t, u, mode, st);
    } else if st.q == |u| {
      WholeFound(t, u, st);
    }
  }

  lemma NulAtEnd(str: string, esc: bool, k: nat)
    requires '\0' !in str && Units(str, 0, esc).Some? && k <= |Units(str, 0, esc).value|
    ensures Get(str, Offset(str, esc, k), esc).0 == '\0' <==> k == |Units(str, 0, esc).value|
  {
    ReadUnit(str, esc, k);
    if k < |Units(str, 0, esc).value| {
      ReadUnit(str, esc, k + 1);
    }
  }

  /** A shortest-suffix search that has matched at the end of the subject is done. */
  lemma LinkLast(pattern: string, str: string, esc: bool, v: Vars, st: Search)
    requires Ready(pattern, str, esc) && Linked(pattern, str, ShortestSuffix, esc, v, st)
    requires At(pattern, v.p) == '\0' && At(str, v.q) == '\0' && Get(str, v.s, esc).0 == '\0'
    ensures Answer(pattern, str, ShortestSuffix, esc, Some(v.s))
  {
    hide Inv;
    LinkBounds(pattern, str, ShortestSuffix, esc, v, st);
    ReadUnit(str, esc, st.q);
    NulAtEnd(str, esc, st.s);
    SuffixFound(Elems(pattern, 0).value, Units(str, 0, esc).value, ShortestSuffix, st);
  }

  /** A shortest-suffix search that has matched before the end starts again behind its start. */
  lemma LinkRestart(pattern: string, str: string, esc: bool, v: Vars, st: Search)
    requires Ready(pattern, str, esc) && Linked(pattern, str, ShortestSuffix, esc, v, st)
    requires At(pattern, v.p) == '\0' && At(str, v.q) == '\0' && Get(str, v.s, esc).0 != '\0'
    ensures st.s0 <= st.s < |Units(str, 0, esc).value|
    ensures var next := Get(str, v.s, esc).1;
            Linked(pattern, str, ShortestSuffix, esc, Vars(0, next, next, Some(0), next, Some(v.s)),
                   Restart(Elems(pattern, 0).value, st))
    ensures st.s0 < Restart(Elems(pattern, 0).value, st).s0
  {
    hide Inv;
    LinkBounds(pattern, str, ShortestSuffix, esc, v, st);
    ReadUnit(str, esc, st.q);
    ReadUnit(str, esc, st.s);
    RestartInv(Elems(pattern, 0).value, Units(str, 0, esc).value, st);
  }

  /** What the end of the pattern leads to. */
  datatype Next = Return(r: Option<nat>) | Again(s: nat, r: Option<nat>) | GoBack(r: Option<nat>)

  /** The case of `pmatch` for the end of the pattern. */
  method PatternEnd(pattern: string, str: string, mode: Mode, esc: bool, v: Vars, ghost st: Search)
    returns (next: Next, ghost lo: nat, ghost best: Option<nat>)
    requires Ready(pattern, str, esc) && Linked(pattern, str, mode, esc, v, st) && At(pattern, v.p) == '\0'
    ensures next.Return? ==> Answer(pattern, str, mode, esc, next.r)
    ensures next.Again? ==>
              && st.s0 < Restart(Elems(pattern, 0).value, st).s0
              && Linked(pattern, str, mode, esc, Vars(0, next.s, next.s, Some(0), next.s, next.r), Restart(Elems(pattern, 0).value, st))
    ensures next.GoBack? ==> Settled(pattern, str, mode, esc, v.(r := next.r), st, lo, best)
  {
    hide Linked, Answer, Settled, Offset;
    lo, best := st.lo, st.best;
    LinkEnd(pattern, str, mode, esc, v, st);
    if At(str, v.q) == '\0' || mode.Left() {
      if !mode.Right() && !mode.Max() {
        return Return(Some(v.q)), lo, best;
      }
      if mode.Left() {
        return GoBack(Some(v.q)), st.q + 1, Some(st.q);
      }
      if mode.Max() || v.ap == Some(0) {
        return Return(Some(v.s)), lo, best;
      }
      var (c, s) := Get(str, v.s, esc);
      if c == '\0' {
        LinkLast(pattern, str, esc, v, st);
        return Return(Some(v.s)), lo, best;
      }
      LinkRestart(pattern, str, esc, v, st);
      return Again(s, Some(v.s)), lo, best;
    }
    next := GoBack(v.r);
  }

  /** The other cases: an element that eats the next character, or does not fit. */
  method TryElement(pattern: string, str: string, ghost mode: Mode, esc: bool, v: Vars, ghost st: Search)
    returns (ok: bool, p': nat, q': nat)
    requires Ready(pattern, str, esc) && Linked(pattern, str, mode, esc, v, st)
    requires v.p < |pattern| && pattern[v.p] != '*'
    ensures ok ==>
              && v.p < p' && st.tp != [] && Taken(st).s0 == st.s0 && Taken(st).aq == st.aq
              && Linked(pattern, str, mode, esc, v.(p := p', q := q'), Taken(st))
    ensures !ok ==> Settled(pattern, str, mode, esc, v, st, st.lo, st.best)
  {
    hide Linked, Settled, Ready, Elems, Units, Offset, Taken;
    LinkHere(pattern, str, mode, esc, v, st);
    ok, p', q' := MatchOne(pattern, v.p, str, v.q, esc);
    if ok {
      LinkTake(pattern, str, mode, esc, v, st);
    } else {
      LinkMiss(pattern, str, mode, esc, v, st);
    }
  }

  /** Going back to the last star, when there is one and the subject goes on there. */
  method Retry(pattern: string, str: string, ghost mode: Mode, esc: bool, v: Vars, ghost r: Option<nat>, ghost st: Search,
               ghost lo: nat, ghost best: Option<nat>)
    returns (again: bool, p: nat, q: nat, s: nat)
    requires Ready(pattern, str, esc) && Linked(pattern, str, mode, esc, v.(r := r), st)
    requires Settled(pattern, str, mode, esc, v, st, lo, best)
    ensures !again ==> Answer(pattern, str, mode, esc, v.r)
    ensures again ==>
              && v.ap.Some? && st.ta.Some? && Back(st, lo, best).s0 == st.s0 && Back(st, lo, best).aq == st.aq + 1
              && Linked(pattern, str, mode, esc, v.(p := p, q := q, s := s, aq := q), Back(st, lo, best))
  {
    hide Linked, Answer, Settled, Ready, Elems, Units, Get, Offset, Back;
    p, q, s, again := v.p, v.q, v.s, false;
    if v.ap.None? || At(str, v.aq) == '\0' {
      LinkGiveUp(pattern, str, mode, esc, v, r, st, lo, best);
      return;
    }
    LinkBack(pattern, str, mode, esc, v, r, st, lo, best);
    again := true;
    q := Get(str, v.aq, esc).1;
    p := v.ap.value;
    if v.ap == Some(0) {
      s := q;
    }
  }

  /** How far the search is: the start of the suffix, the last star, where it began, and the element at hand. */
  ghost function Rank(pattern: string, n: nat, v: Vars, st: Search): (int, int, int, int) {
    (n - st.s0, if v.ap.Some? then |pattern| - v.ap.value else |pattern| + 1,
     if v.ap.Some? then n - st.aq else 0, |pattern| - v.p)
  }

  ghost predicate Lower(a: (int, int, int, int), b: (int, int, int, int)) {
    a.0 < b.0 || (a.0 == b.0 && (a.1 < b.1 || (a.1 == b.1 && (a.2 < b.2 || (a.2 == b.2 && a.3 < b.3)))))
  }

  /** One turn of the loop of `pmatch`: the result, or the variables for the next turn. */
  method Turn(pattern: string, str: string, mode: Mode, esc: bool, v: Vars, ghost st: Search)
    returns (found: bool, v': Vars, ghost st': Search)
    requires Ready(pattern, str, esc) && Linked(pattern, str, mode, esc, v, st)
    ensures found ==> Answer(pattern, str, mode, esc, v'.r)
    ensures !found ==>
              && Linked(pattern, str, mode, esc, v', st')
              && Lower(Rank(pattern, |Units(str, 0, esc).value|, v', st'), Rank(pattern, |Units(str, 0, esc).value|, v, st))
  {
    hide Linked, Answer, Settled, Elems, Units, Get, Offset, ElemAt, Starred, Taken, Back, Restart;
    LinkBounds(pattern, str, mode, esc, v, st);
    found, v', st' := false, v, st;
    var c := At(pattern, v.p);
    if c == '*' {
      LinkStar(pattern, str, mode, esc, v, st);
      v', st' := v.(p := v.p + 1, ap := Some(v.p + 1), aq := v.q), Starred(st);
      return;
    }
    ghost var lo, best := st.lo, st.best;
    if c == '\0' {
      var next;
      next, lo, best := PatternEnd(pattern, str, mode, esc, v, st);
      v' := v.(r := next.r);
      if next.Return? {
        found := true;
        return;
      }
      if next.Again? {
        v', st' := Vars(0, next.s, next.s, Some(0), next.s, next.r), Restart(Elems(pattern, 0).value, st);
        return;
      }
    } else {
      var ok, p', q' := TryElement(pattern, str, mode, esc, v, st);
      if ok {
        v', st' := v.(p := p', q := q'), Taken(st);
        return;
      }
    }
    var again, p, q, s := Retry(pattern, str, mode, esc, v', v.r, st, lo, best);
    found := !again;
    if again {
      v', st' := v'.(p := p, q := q, s := s, aq := q), Back(st, lo, best);
    }
  }

  lemma RankBounds(pattern: string, str: string, mode: Mode, esc: bool, v: Vars, st: Search)
    requires Ready(pattern, str, esc) && Linked(pattern, str, mode, esc, v, st)
    ensures var r := Rank(pattern, |Units(str, 0, esc).value|, v, st); r.0 >= 0 && r.1 >= 0 && r.2 >= 0 && r.3 >= 0
  {
    hide Linked, Units;
    LinkBounds(pattern, str, mode, esc, v, st);
  }

  /**
   * `pmatch`: the position that the mode asks for, or None exactly when there is no match.
   * Positions of `str` are those of its characters, which hide their CTLESC when `esc`.
   */
  method PMatch(pattern: string, str: string, mode: Mode, esc: bool) returns (r: Option<nat>)
    requires Ready(pattern, str, esc)
    ensures Answer(pattern, str, mode, esc, r)
  {
    hide Linked, Answer, Elems, Units, Start, Rank;
    ghost var n := |Units(str, 0, esc).value|;
    ghost var st := Start(Elems(pattern, 0).value, mode);
    LinkStart(pattern, str, mode, esc);
    var found := false;
    var v := Vars(0, 0, 0, if mode.Right() then Some(0) else None, 0, None);
    ghost var rank := Rank(pattern, n, v, st);
    RankBounds(pattern, str, mode, esc, v, st);
    while !found
      invariant found ==> Answer(pattern, str, mode, esc, v.r)
      invariant !found ==> Linked(pattern, str, mode, esc, v, st) && rank == Rank(pattern, n, v, st)
      invariant rank.0 >= 0 && rank.1 >= 0 && rank.2 >= 0 && rank.3 >= 0
      decreases !found, rank.0, rank.1, rank.2, rank.3
    {
      found, v, st := Turn(pattern, str, mode, esc, v, st);
      if !found {
        RankBounds(pattern, str, mode, esc, v, st);
        rank := Rank(pattern, n, v, st);
      }
    }
    r := v.r;
  }
}
