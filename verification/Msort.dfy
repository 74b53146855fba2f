/** Sorting the results of file name expansion (src/expand.c): a merge sort that relinks a list in place. */
module Msort {

  // ---------- The order of strings ----------

  /** `strcmp`: the sign of the first difference between two strings of bytes. */
  function Strcmp(a: string, b: string): (r: int)
    ensures r == 0 <==> a == b
  {
    if a == [] then (if b == [] then 0 else -1)
    else if b == [] then 1
    else if a[0] < b[0] then -1
    else if a[0] > b[0] then 1
    else
      assert a == b <==> a[1..] == b[1..] by {
        assert a == [a[0]] + a[1..] && b == [b[0]] + b[1..];
      }
      Strcmp(a[1..], b[1..])
  }

  predicate Less(a: string, b: string) { Strcmp(a, b) < 0 }

  lemma {:induction false} Opposite(a: string, b: string)
    ensures Less(a, b) <==> Strcmp(b, a) > 0
  {
    if a != [] && b != [] && a[0] == b[0] {
      Opposite(a[1..], b[1..]);
    }
  }

  lemma {:induction false} LessTrans(a: string, b: string, c: string)
    requires Less(a, b) && Less(b, c)
    ensures Less(a, c)
  {
    if a != [] && b != [] && c != [] && a[0] == b[0] == c[0] {
      LessTrans(a[1..], b[1..], c[1..]);
    }
  }

  /** The order of two strings is that of the first bytes that differ; the end comes before every byte. */
  lemma {:induction false} LessIs(a: string, b: string)
    ensures Less(a, b) <==>
              exists n :: 0 <= n <= |a| && n < |b| && a[..n] == b[..n] && (n == |a| || (a[n] as int) < (b[n] as int))
  {
    if a != [] && b != [] && a[0] == b[0] {
      LessIs(a[1..], b[1..]);
      if Less(a, b) {
        var n :| 0 <= n <= |a[1..]| && n < |b[1..]| && a[1..][..n] == b[1..][..n]
              && (n == |a[1..]| || (a[1..][n] as int) < (b[1..][n] as int));
        assert a[..n + 1] == [a[0]] + a[1..][..n] && b[..n + 1] == [b[0]] + b[1..][..n];
      } else {
        assert forall n :: 0 < n <= |a| && n <= |b| && a[..n] == b[..n] ==> a[1..][..n - 1] == a[..n][1..] == b[1..][..n - 1];
      }
    } else if Less(a, b) {
      assert a[..0] == b[..0];
    } else if a != [] && b != [] {
      assert forall n :: 0 < n <= |a| && n <= |b| ==> a[..n][0] != b[..n][0];
    }
  }

  /** Strictly increasing: sorted, and nothing twice. */
  predicate Sorted(s: seq<string>) {
    forall i, j :: 0 <= i < j < |s| ==> Less(s[i], s[j])
  }

  lemma {:induction false} HeadIsLeast(a: seq<string>, b: seq<string>)
    requires Sorted(a) && Sorted(b) && a != [] && b != [] && (forall t :: t in a <==> t in b)
    ensures a[0] == b[0]
  {
    assert a[0] in b && b[0] in a;
    var j :| 0 <= j < |b| && b[j] == a[0];
    var i :| 0 <= i < |a| && a[i] == b[0];
    Opposite(a[0], b[0]);
    if i > 0 && j > 0 {
      assert false;
    }
  }

  /** Only one sorted list has given members. */
  lemma {:induction false} SortedIsUnique(a: seq<string>, b: seq<string>)
    requires Sorted(a) && Sorted(b) && forall t :: t in a <==> t in b
    ensures a == b
    decreases |a|
  {
    if a == [] {
      assert forall i :: 0 <= i < |b| ==> b[i] in a;
      assert b == [];
    } else {
      assert a[0] in b;
      HeadIsLeast(a, b);
      forall t
        ensures t in a[1..] <==> t in b[1..]
      {
        TailMember(a, t);
        TailMember(b, t);
      }
      SortedIsUnique(a[1..], b[1..]);
      assert a == [a[0]] + a[1..] && b == [b[0]] + b[1..];
    }
  }

  lemma TailMember(a: seq<string>, t: string)
    requires Sorted(a) && a != []
    ensures t in a[1..] <==> t in a && t != a[0]
  {
    if t in a && t != a[0] {
      var i :| 0 <= i < |a| && a[i] == t;
      assert a[1..][i - 1] == t;
    }
    if t in a[1..] {
      var i :| 0 <= i < |a[1..]| && a[1..][i] == t;
      assert Less(a[0], a[i + 1]);
    }
  }

  // ---------- Linked lists ----------

  const NULL := -1

  predicate Distinct(nodes: seq<int>) {
    forall i, j :: 0 <= i < j < |nodes| ==> nodes[i] != nodes[j]
  }

  /** The nodes `nodes`, in this order, are linked to each other. */
  predicate Linked(next: seq<int>, nodes: seq<int>) {
    && (forall i :: 0 <= i < |nodes| ==> 0 <= nodes[i] < |next|)
    && (forall i :: 0 <= i < |nodes| - 1 ==> next[nodes[i]] == nodes[i + 1])
  }

  /** `head` is the list of the nodes `nodes`. */
  predicate IsList(next: seq<int>, head: int, nodes: seq<int>) {
    && Linked(next, nodes)
    && head == (if nodes == [] then NULL else nodes[0])
    && (nodes != [] ==> next[nodes[|nodes| - 1]] == NULL)
  }

  predicate SameElsewhere(a: seq<int>, b: seq<int>, nodes: seq<int>) {
    |a| == |b| && forall n :: 0 <= n < |a| && n !in nodes ==> a[n] == b[n]
  }

  /** A list is what it was when none of its nodes has changed. */
  lemma ListStays(a: seq<int>, b: seq<int>, head: int, nodes: seq<int>, changed: seq<int>)
    requires IsList(a, head, nodes) && SameElsewhere(a, b, changed) && forall n :: n in nodes ==> n !in changed
    ensures IsList(b, head, nodes)
  {
    assert forall i :: 0 <= i < |nodes| ==> nodes[i] !in changed;
  }

  lemma ListTail(next: seq<int>, head: int, nodes: seq<int>)
    requires IsList(next, head, nodes) && nodes != []
    ensures IsList(next, next[head], nodes[1..])
  {
  }

  /** Ending a list behind its first `k` nodes makes two lists of it. */
  lemma Split(a: seq<int>, head: int, nodes: seq<int>, k: nat)
    requires IsList(a, head, nodes) && Distinct(nodes) && 0 < k < |nodes|
    ensures var b := a[nodes[k - 1] := NULL]; IsList(b, head, nodes[..k]) && IsList(b, nodes[k], nodes[k..])
  {
  }

  /** The texts of the nodes, in order. */
  function Texts(text: seq<string>, nodes: seq<int>): (r: seq<string>)
    requires forall i :: 0 <= i < |nodes| ==> 0 <= nodes[i] < |text|
    ensures |r| == |nodes| && forall i :: 0 <= i < |r| ==> r[i] == text[nodes[i]]
  {
    if nodes == [] then [] else Texts(text, nodes[..|nodes| - 1]) + [text[nodes[|nodes| - 1]]]
  }

  predicate Within(text: seq<string>, nodes: seq<int>) {
    forall i :: 0 <= i < |nodes| ==> 0 <= nodes[i] < |text|
  }

  predicate Has(text: seq<string>, nodes: seq<int>, t: string)
    requires Within(text, nodes)
  {
    exists i :: 0 <= i < |nodes| && text[nodes[i]] == t
  }

  /** `out` is a sorted list of some of the nodes, with all their texts. */
  ghost predicate Sorts(text: seq<string>, nodes: seq<int>, out: seq<int>) {
    && Within(text, nodes) && Within(text, out) && Distinct(out) && Sorted(Texts(text, out))
    && (forall n :: n in out ==> n in nodes)
    && (forall t :: Has(text, out, t) <==> Has(text, nodes, t))
    && (nodes != [] ==> out != [])
  }

  /** What the merge has put out, and what is left of the two lists, in place of `nodes`. */
  ghost predicate Merging(text: seq<string>, nodes: seq<int>, done: seq<int>, ps: seq<int>, qs: seq<int>) {
    && Within(text, nodes) && Within(text, done) && Within(text, ps) && Within(text, qs)
    && Distinct(done + ps + qs) && (forall n :: n in done + ps + qs ==> n in nodes)
    && Sorted(Texts(text, done)) && Sorted(Texts(text, ps)) && Sorted(Texts(text, qs))
    && (forall i, j :: 0 <= i < |done| && 0 <= j < |ps| ==> Less(text[done[i]], text[ps[j]]))
    && (forall i, j :: 0 <= i < |done| && 0 <= j < |qs| ==> Less(text[done[i]], text[qs[j]]))
    && (forall t :: Has(text, nodes, t) <==> Has(text, done, t) || Has(text, ps, t) || Has(text, qs, t))
  }

  lemma MergeStart(text: seq<string>, nodes: seq<int>, half: nat, ps: seq<int>, qs: seq<int>)
    requires Within(text, nodes) && Distinct(nodes) && 0 < half < |nodes|
    requires Sorts(text, nodes[..half], qs) && Sorts(text, nodes[half..], ps)
    ensures Merging(text, nodes, [], ps, qs)
  {
    hide Less;
    forall t
      ensures Has(text, nodes, t) <==> Has(text, ps, t) || Has(text, qs, t)
    {
      HasSplit(text, nodes, half, t);
    }
    assert [] + ps + qs == ps + qs;
    Halves(nodes, half, ps, qs);
  }

  lemma Halves(nodes: seq<int>, half: nat, ps: seq<int>, qs: seq<int>)
    requires Distinct(nodes) && half < |nodes| && Distinct(ps) && Distinct(qs)
    requires (forall n :: n in qs ==> n in nodes[..half]) && (forall n :: n in ps ==> n in nodes[half..])
    ensures Distinct(ps + qs) && forall n :: n in ps + qs ==> n in nodes
  {
    forall i, j | 0 <= i < |ps| && 0 <= j < |qs|
      ensures ps[i] != qs[j]
    {
      assert ps[i] in ps && qs[j] in qs;
      var x :| 0 <= x < |nodes| - half && nodes[half..][x] == ps[i];
      var y :| 0 <= y < half && nodes[..half][y] == qs[j];
    }
  }

  lemma HasSplit(text: seq<string>, nodes: seq<int>, k: nat, t: string)
    requires Within(text, nodes) && k <= |nodes|
    ensures Has(text, nodes, t) <==> Has(text, nodes[..k], t) || Has(text, nodes[k..], t)
  {
    if Has(text, nodes, t) {
      var i :| 0 <= i < |nodes| && text[nodes[i]] == t;
      if i < k {
        assert nodes[..k][i] == nodes[i];
      } else {
        assert nodes[k..][i - k] == nodes[i];
      }
    }
  }

  lemma MergeSwap(text: seq<string>, nodes: seq<int>, done: seq<int>, ps: seq<int>, qs: seq<int>)
    requires Merging(text, nodes, done, ps, qs)
    ensures Merging(text, nodes, done, qs, ps)
  {
    hide Less;
    DistinctSwap(done, ps, qs);
  }

  lemma DistinctSwap(a: seq<int>, b: seq<int>, c: seq<int>)
    requires Distinct(a + b + c)
    ensures Distinct(a + c + b) && forall n :: n in a + c + b <==> n in a + b + c
  {
    var s, t := a + b + c, a + c + b;
    forall i, j | 0 <= i < j < |t|
      ensures t[i] != t[j]
    {
      var i' := if i < |a| then i else if i < |a| + |c| then i + |b| else i - |c|;
      var j' := if j < |a| then j else if j < |a| + |c| then j + |b| else j - |c|;
      assert s[i'] == t[i] && s[j'] == t[j] && i' != j';
    }
  }

  lemma DistinctParts(a: seq<int>, b: seq<int>, c: seq<int>)
    requires Distinct(a + b + c)
    ensures Distinct(a) && Distinct(b) && Distinct(c)
    ensures forall n :: (n in a ==> n !in b && n !in c) && (n in b ==> n !in c)
  {
    var s := a + b + c;
    assert forall i :: 0 <= i < |a| ==> s[i] == a[i];
    assert forall i :: 0 <= i < |b| ==> s[|a| + i] == b[i];
    assert forall i :: 0 <= i < |c| ==> s[|a| + |b| + i] == c[i];
  }

  /** The smaller head is put out. */
  lemma MergeTake(text: seq<string>, nodes: seq<int>, done: seq<int>, ps: seq<int>, qs: seq<int>)
    requires Merging(text, nodes, done, ps, qs) && ps != [] && qs != [] && Less(text[ps[0]], text[qs[0]])
    ensures Merging(text, nodes, done + [ps[0]], ps[1..], qs)
  {
    hide Less, Has, Distinct, Sorted, Texts;
    var out, rest := done + [ps[0]], ps[1..];
    assert out + rest + qs == done + ps + qs by {
      assert ps == [ps[0]] + rest;
    }
    forall t
      ensures Has(text, out, t) || Has(text, rest, t) <==> Has(text, done, t) || Has(text, ps, t)
    {
      HasSplit(text, ps, 1, t);
      HasSplit(text, out, |done|, t);
      assert out[..|done|] == done && out[|done|..] == ps[..1];
    }
    TextsOf(text, ps);
    TextsOf(text, qs);
    TextsOf(text, done);
    forall j | 0 <= j < |qs|
      ensures Less(text[ps[0]], text[qs[j]])
    {
      if j > 0 {
        LessTrans(text[ps[0]], text[qs[0]], text[qs[j]]);
      }
    }
    SortedFrom(text, out);
    SortedFrom(text, rest);
  }

  lemma SortedFrom(text: seq<string>, nodes: seq<int>)
    requires Within(text, nodes)
    requires forall i, j :: 0 <= i < j < |nodes| ==> Less(text[nodes[i]], text[nodes[j]])
    ensures Sorted(Texts(text, nodes))
  {
  }

  /** Of two heads with the same text, one is left out. */
  lemma MergeDrop(text: seq<string>, nodes: seq<int>, done: seq<int>, ps: seq<int>, qs: seq<int>)
    requires Merging(text, nodes, done, ps, qs) && ps != [] && qs != [] && text[ps[0]] == text[qs[0]]
    ensures Merging(text, nodes, done, ps[1..], qs)
  {
    hide Less, Distinct, Sorted, Texts;
    var rest := ps[1..];
    forall t
      ensures Has(text, rest, t) || Has(text, qs, t) <==> Has(text, ps, t) || Has(text, qs, t)
    {
      HasSplit(text, ps, 1, t);
      if Has(text, ps[..1], t) {
        assert t == text[qs[0]];
      }
    }
    DistinctDrop(done, ps, qs);
    TextsOf(text, ps);
    SortedFrom(text, rest);
  }

  lemma DistinctDrop(a: seq<int>, b: seq<int>, c: seq<int>)
    requires Distinct(a + b + c) && b != []
    ensures Distinct(a + b[1..] + c) && forall n :: n in a + b[1..] + c ==> n in a + b + c
  {
    var s, t := a + b + c, a + b[1..] + c;
    assert forall i :: 0 <= i < |t| ==> t[i] == s[if i < |a| then i else i + 1];
  }

  /** One list is used up: the other follows. */
  lemma MergeEnd(text: seq<string>, nodes: seq<int>, done: seq<int>, qs: seq<int>)
    requires Merging(text, nodes, done, [], qs) && qs != []
    ensures Sorts(text, nodes, done + qs)
  {
    hide Less, Distinct, Sorted, Texts;
    var out := done + qs;
    assert done + [] + qs == out;
    forall t
      ensures Has(text, out, t) <==> Has(text, nodes, t)
    {
      HasSplit(text, out, |done|, t);
      assert out[..|done|] == done && out[|done|..] == qs;
    }
    TextsOf(text, done);
    TextsOf(text, qs);
    SortedFrom(text, out);
  }

  lemma TextsOf(text: seq<string>, nodes: seq<int>)
    requires Within(text, nodes) && Sorted(Texts(text, nodes))
    ensures forall i, j :: 0 <= i < j < |nodes| ==> Less(text[nodes[i]], text[nodes[j]])
  {
  }

  /** The nodes put out so far: `last` is the link to fill in next, NULL for the head of the list. */
  predicate PutOut(next: seq<int>, head: int, done: seq<int>, last: int) {
    && Linked(next, done) && last == (if done == [] then NULL else done[|done| - 1])
    && (done != [] ==> head == done[0])
  }

  /** Filling in a link. */
  function Link(next: seq<int>, last: int, node: int): seq<int>
    requires last == NULL || 0 <= last < |next|
  {
    if last == NULL then next else next[last := node]
  }

  lemma LinkTake(next: seq<int>, head: int, done: seq<int>, last: int, p: int, ps: seq<int>, q: int, qs: seq<int>)
    requires PutOut(next, head, done, last) && IsList(next, p, ps) && IsList(next, q, qs) && ps != []
    requires Distinct(done + ps + qs)
    ensures var head', next' := if last == NULL then p else head, Link(next, last, p);
            && PutOut(next', head', done + [p], p)
            && IsList(next', p, ps) && IsList(next', q, qs) && next'[p] == next[p]
  {
    DistinctParts(done, ps, qs);
    if done != [] {
      DistinctLast(done, ps, qs);
    }
    hide Distinct;
  }

  /** The last node put out is in neither list, and comes only once. */
  lemma DistinctLast(done: seq<int>, ps: seq<int>, qs: seq<int>)
    requires Distinct(done + ps + qs) && done != []
    ensures var last := done[|done| - 1];
            && (forall i :: 0 <= i < |done| - 1 ==> done[i] != last)
            && (forall i :: 0 <= i < |ps| ==> ps[i] != last) && (forall i :: 0 <= i < |qs| ==> qs[i] != last)
  {
    DistinctParts(done, ps, qs);
    assert done[|done| - 1] in done;
    assert forall i :: 0 <= i < |ps| ==> ps[i] in ps;
    assert forall i :: 0 <= i < |qs| ==> qs[i] in qs;
  }

  lemma LinkEnd(next: seq<int>, head: int, done: seq<int>, last: int, q: int, qs: seq<int>)
    requires PutOut(next, head, done, last) && IsList(next, q, qs) && qs != [] && Distinct(done + [] + qs)
    ensures IsList(Link(next, last, q), if last == NULL then q else head, done + qs)
  {
    DistinctParts(done, [], qs);
    if done != [] {
      DistinctLast(done, [], qs);
    }
    hide Distinct;
    var out, next' := done + qs, Link(next, last, q);
    forall i | 0 <= i < |out|
      ensures 0 <= out[i] < |next'|
      ensures i < |out| - 1 ==> next'[out[i]] == out[i + 1]
    {
      if i >= |done| {
        assert out[i] == qs[i - |done|];
        assert i < |out| - 1 ==> out[i + 1] == qs[i + 1 - |done|];
      } else if i < |done| - 1 {
        assert out[i] == done[i] && out[i + 1] == done[i + 1];
      } else {
        assert out[i] == last && (qs != [] ==> out[i + 1] == qs[0]);
      }
    }
    assert out[|out| - 1] == qs[|qs| - 1];
  }

  /** `struct strlist`, as a pool of nodes. */
  class Lists {
    const text: seq<string>
    var next: seq<int>

    constructor (text: seq<string>, next: seq<int>)
      requires |next| == |text|
      ensures this.text == text && this.next == next
    {
      this.text := text;
      this.next := next;
    }

    /** Merging two sorted lists, the loop of `msort`. */
    method Merge(p0: int, q0: int, ghost nodes: seq<int>, ghost ps0: seq<int>, ghost qs0: seq<int>)
      returns (list: int, ghost out: seq<int>)
      requires |next| == |text| && Merging(text, nodes, [], ps0, qs0) && ps0 != [] && qs0 != []
      requires IsList(next, p0, ps0) && IsList(next, q0, qs0)
      modifies `next
      ensures |next| == |text| && SameElsewhere(old(next), next, nodes)
      ensures Sorts(text, nodes, out) && IsList(next, list, out)
    {
      hide Merging, Sorts, Distinct, PutOut, IsList, Less;
      var p, q := p0, q0;
      ghost var ps, qs, done := ps0, qs0, [];
      list := NULL;
      var lpp := NULL;
      PutOutNothing(next);
      while true
        invariant |next| == |text| && SameElsewhere(old(next), next, nodes)
        invariant Merging(text, nodes, done, ps, qs) && ps != [] && qs != []
        invariant IsList(next, p, ps) && IsList(next, q, qs) && PutOut(next, list, done, lpp)
        decreases |ps| + |qs|
      {
        ListHead(next, p, ps);
        ListHead(next, q, qs);
        Opposite(text[q], text[p]);
        LessMeans(text[p], text[q]);
        var cmp := Strcmp(text[p], text[q]);
        if cmp > 0 {
          MergeSwap(text, nodes, done, ps, qs);
          p, q := q, p;
          ps, qs := qs, ps;
        }
        MergingFacts(text, nodes, done, ps, qs);
        PutOutLast(next, list, done, lpp);
        if cmp != 0 {
          LinkTake(next, list, done, lpp, p, ps, q, qs);
          MergeTake(text, nodes, done, ps, qs);
          if lpp == NULL {
            list := p;
          } else {
            next := next[lpp := p];
          }
          lpp := p;
          done := done + [p];
        } else {
          MergeDrop(text, nodes, done, ps, qs);
        }
        ListHead(next, p, ps);
        p := next[p];
        ps := ps[1..];
        if p == NULL {
          MergingFacts(text, nodes, done, [], qs);
          PutOutLast(next, list, done, lpp);
          LinkEnd(next, list, done, lpp, q, qs);
          MergeEnd(text, nodes, done, qs);
          if lpp == NULL {
            list := q;
          } else {
            next := next[lpp := q];
          }
          return list, done + qs;
        }
      }
    }

    /** `msort` */
    method Msort(list0: int, len: nat, ghost nodes: seq<int>) returns (list: int, ghost out: seq<int>)
      requires |next| == |text| && IsList(next, list0, nodes) && Distinct(nodes) && len == |nodes|
      modifies `next
      ensures |next| == |text| && SameElsewhere(old(next), next, nodes)
      ensures Sorts(text, nodes, out) && IsList(next, list, out)
      decreases len
    {
      hide Sorts, Merging, Less;
      if len <= 1 {
        SortsOne(text, nodes);
        return list0, nodes;
      }
      var half := len / 2;
      var p, q := list0, NULL;
      for n := 0 to half
        invariant p == nodes[n] && (n > 0 ==> q == nodes[n - 1]) && next == old(next)
      {
        q := p;
        p := next[p];
      }
      Split(next, list0, nodes, half);
      next := next[q := NULL];
      hide IsList, Distinct;
      Parts(nodes, half);
      ghost var one, two := nodes[..half], nodes[half..];
      ghost var qs, ps;
      ghost var a := next;
      q, qs := Msort(list0, half, one);
      ListStays(a, next, p, two, one);
      ghost var b := next;
      p, ps := Msort(p, len - half, two);
      SortsNodes(text, one, qs);
      ListStays(b, next, q, qs, two);
      SortsNodes(text, two, ps);
      MergeStart(text, nodes, half, ps, qs);
      ghost var c := next;
      list, out := Merge(p, q, nodes, ps, qs);
    }

    /** `expsort` */
    method ExpSort(str: int, ghost nodes: seq<int>) returns (list: int, ghost out: seq<int>)
      requires |next| == |text| && IsList(next, str, nodes) && Distinct(nodes)
      modifies `next
      ensures |next| == |text| && SameElsewhere(old(next), next, nodes)
      ensures Sorts(text, nodes, out) && IsList(next, list, out)
    {
      var len := 0;
      var sp := str;
      while sp != NULL
        invariant 0 <= len <= |nodes| && next == old(next) && IsList(next, sp, nodes[len..])
        decreases |nodes| - len
      {
        ListHead(next, sp, nodes[len..]);
        assert nodes[len..][1..] == nodes[len + 1..];
        len := len + 1;
        sp := next[sp];
      }
      list, out := Msort(str, len, nodes);
    }
  }

  lemma PutOutNothing(next: seq<int>)
    ensures PutOut(next, NULL, [], NULL)
  {
  }

  lemma ListHead(next: seq<int>, head: int, nodes: seq<int>)
    requires IsList(next, head, nodes) && nodes != []
    ensures head == nodes[0] && 0 <= head < |next| && (next[head] == NULL <==> |nodes| == 1)
    ensures IsList(next, next[head], nodes[1..])
  {
    ListTail(next, head, nodes);
  }

  lemma LessMeans(a: string, b: string)
    ensures Less(a, b) <==> Strcmp(a, b) < 0
  {
  }

  lemma MergingFacts(text: seq<string>, nodes: seq<int>, done: seq<int>, ps: seq<int>, qs: seq<int>)
    requires Merging(text, nodes, done, ps, qs)
    ensures Distinct(done + ps + qs) && forall n :: n in done ==> n in nodes
  {
    hide Distinct, Sorted, Has;
    assert forall n :: n in done ==> n in done + ps + qs;
  }

  lemma PutOutLast(next: seq<int>, head: int, done: seq<int>, last: int)
    requires PutOut(next, head, done, last)
    ensures last != NULL ==> last in done && 0 <= last < |next|
    ensures last == NULL <==> done == []
  {
  }

  lemma SortsOne(text: seq<string>, nodes: seq<int>)
    requires Within(text, nodes) && |nodes| <= 1
    ensures Sorts(text, nodes, nodes)
  {
  }

  lemma SortsNodes(text: seq<string>, nodes: seq<int>, out: seq<int>)
    requires Sorts(text, nodes, out)
    ensures (forall n :: n in out ==> n in nodes) && (nodes != [] ==> out != [])
  {
    hide Sorted, Has;
  }

  lemma Parts(nodes: seq<int>, k: nat)
    requires Distinct(nodes) && k <= |nodes|
    ensures Distinct(nodes[..k]) && Distinct(nodes[k..])
    ensures forall n :: n in nodes[..k] ==> n in nodes && n !in nodes[k..]
    ensures forall n :: n in nodes[k..] ==> n in nodes && n !in nodes[..k]
  {
  }
}
