/** The stack allocator with its marks (src/memalloc.c), as functions on its state. */
module Arena {
  import opened Chars

  const ALIGN := 8
  const MINSIZE := 504

  predicate OnBoundary(n: nat) { n % ALIGN == 0 }

  /** SHELL_ALIGN */
  function Aligned(n: nat): (r: nat)
    ensures n <= r < n + ALIGN && OnBoundary(r) && (OnBoundary(n) ==> r == n)
  {
    (n + (ALIGN - 1)) / ALIGN * ALIGN
  }

  /** `struct stack_block`: where it is, and its bytes. */
  datatype Block = Block(id: nat, space: string)

  /** A pointer into a block. */
  datatype Pointer = Pointer(id: nat, offset: nat)

  /**
   * The blocks, the base first; `nxt` and `left` are the start and size of the free space in the last block, and
   * `end` is `sstrend`. No block at `unused` or behind has been allocated yet.
   */
  datatype State = State(blocks: seq<Block>, nxt: nat, left: nat, end: nat, unused: nat)

  datatype Mark = Mark(id: nat, nxt: nat, left: nat)

  function Last(s: State): Block
    requires s.blocks != []
  {
    s.blocks[|s.blocks| - 1]
  }

  predicate Ids(blocks: seq<Block>, unused: nat) {
    && (forall i :: 0 <= i < |blocks| ==> blocks[i].id < unused)
    && (forall i, j :: 0 <= i < j < |blocks| ==> blocks[i].id != blocks[j].id)
  }

  /** What always holds: `stacknxt + stacknleft == sstrend`, the end of the last block. */
  predicate Good(s: State) {
    && s.blocks != [] && Ids(s.blocks, s.unused)
    && s.nxt + s.left == s.end == |Last(s).space|
    && OnBoundary(s.nxt) && OnBoundary(s.left)
    && (forall i :: 0 <= i < |s.blocks| ==> |s.blocks[i].space| >= MINSIZE)
  }

  predicate AtStart(s: State) { s.nxt == 0 && |s.blocks| > 1 }

  function Bytes(n: nat): (r: string)
    ensures |r| == n
  {
    if n == 0 then [] else Bytes(n - 1) + ['\0']
  }

  function Max(a: nat, b: nat): nat { if a < b then b else a }

  function NewBlock(s: State, size: nat): State {
    State(s.blocks + [Block(s.unused, Bytes(size))], 0, size, size, s.unused + 1)
  }

  /** `stalloc`: the state behind it; the pointer is to the space just taken. */
  function Stalloc(s: State, n: nat): State {
    var a := Aligned(n);
    var t := if a > s.left then NewBlock(s, Max(a, MINSIZE)) else s;
    t.(nxt := t.nxt + a, left := t.left - a)
  }

  /** `stunalloc`, back to offset `p` of the last block. */
  function Stunalloc(s: State, p: nat): State
    requires p <= s.nxt
  {
    s.(nxt := p, left := s.left + (s.nxt - p))
  }

  /**
   * What is taken is aligned, is as long as was asked for, lies in the last block between the old and the new start
   * of the free space, and so never meets what was taken before; a new block is used only when there is no room.
   */
  lemma StallocTakes(s: State, n: nat) returns (p: nat)
    requires Good(s)
    ensures var t := Stalloc(s, n);
            && t.blocks != [] && p % 8 == 0 && p + n <= t.nxt <= |Last(t).space| && t.nxt < p + n + 8
            && s.blocks <= t.blocks && t.nxt + t.left == t.end
            && (if n <= s.left then t.blocks == s.blocks && p == s.nxt
                else |t.blocks| == |s.blocks| + 1 && p == 0 && (forall b <- s.blocks :: b.id != Last(t).id))
  {
    hide Bytes;
    StallocGood(s, n);
    var a := Aligned(n);
    if n <= s.left {
      Boundaries(s.left, a);
      assert a <= s.left;
    }
    p := if n <= s.left then s.nxt else 0;
  }

  /** What is in the free space. */
  function Scratch(s: State): string
    requires Good(s)
  {
    Last(s).space[s.nxt..]
  }

  /** Sums and differences of aligned sizes are aligned. */
  lemma Boundaries(a: nat, b: nat)
    ensures OnBoundary(128) && OnBoundary(MINSIZE) && OnBoundary(0) && OnBoundary(ALIGN)
    ensures OnBoundary(a) && OnBoundary(b) ==> OnBoundary(a + b) && (b <= a ==> OnBoundary(a - b))
  {
  }

  function NewLength(left: nat): nat {
    if left * 2 < 128 then left * 2 + 128 else left * 2
  }

  /** `growstackblock`: the block is moved when nothing in it is in use, else the free space goes to a new one. */
  function Grow(s: State): State
    requires Good(s)
  {
    var n := NewLength(s.left);
    if AtStart(s) then
      State(s.blocks[..|s.blocks| - 1] + [Block(s.unused, Scratch(s) + Bytes(n - s.left))], 0, n, n, s.unused + 1)
    else
      var t := Stalloc(s, n);
      Copied(t.(nxt := 0, left := t.left + n), Scratch(s))
  }

  /** `memcpy` to the start of the last block. */
  function Copied(s: State, text: string): State
    requires s.blocks != []
  {
    if |text| > |Last(s).space| then s
    else s.(blocks := s.blocks[|s.blocks| - 1 := Last(s).(space := text + Last(s).space[|text|..])])
  }

  /** `makestrspace`: at least `n` bytes behind the `len` bytes of a string that is growing. */
  function MakeSpace(s: State, n: nat, len: nat): State
    requires Good(s) && len <= s.left
    decreases Max(n + len, s.left) - s.left
  {
    if s.left - len >= n then s else GrowGood(s); MakeSpace(Grow(s), n, len)
  }

  /** Writing one byte. */
  function Written(s: State, k: nat, offset: nat, c: char): State
    requires k < |s.blocks| && offset < |s.blocks[k].space|
  {
    s.(blocks := s.blocks[k := s.blocks[k].(space := s.blocks[k].space[offset := c])])
  }

  lemma GrowIds(s: State)
    requires Good(s)
    ensures Ids(Grow(s).blocks, Grow(s).unused)
  {
    hide Bytes, Scratch, OnBoundary, Aligned;
  }

  /** Growing keeps what is in the free space, at its start, and makes more of it. */
  lemma GrowGood(s: State)
    requires Good(s)
    ensures Good(Grow(s)) && Grow(s).nxt == 0 && Grow(s).left > s.left
    ensures Scratch(Grow(s))[..s.left] == Scratch(s)
  {
    hide Bytes, Ids, OnBoundary;
    GrowIds(s);
    var n := NewLength(s.left);
    Boundaries(s.left, s.left);
    Boundaries(s.left + s.left, 128);
    if !AtStart(s) {
      var a := Aligned(n);
      assert a == n;
      var t := NewBlock(s, Max(n, MINSIZE));
      assert Stalloc(s, n) == t.(nxt := n, left := Max(n, MINSIZE) - n);
    }
  }

  lemma StallocGood(s: State, n: nat)
    requires Good(s)
    ensures Good(Stalloc(s, n))
  {
    hide Bytes, Ids, OnBoundary;
    var a := Aligned(n);
    var size := if a > s.left then Max(a, MINSIZE) else s.left;
    StallocIds(s, n);
    Boundaries(s.nxt, a);
    Boundaries(size, a);
  }

  lemma StallocIds(s: State, n: nat)
    requires Good(s)
    ensures Ids(Stalloc(s, n).blocks, Stalloc(s, n).unused)
  {
    hide Bytes, OnBoundary, Aligned;
  }

  /** Room is made, and the string that is growing is still there. */
  lemma {:induction false} MakeSpaceGood(s: State, n: nat, len: nat)
    requires Good(s) && len <= s.left
    ensures var t := MakeSpace(s, n, len); Good(t) && t.left - len >= n && Scratch(t)[..len] == Scratch(s)[..len]
    decreases Max(n + len, s.left) - s.left
  {
    if s.left - len < n {
      GrowGood(s);
      MakeSpaceGood(Grow(s), n, len);
      assert Scratch(Grow(s))[..len] == Scratch(Grow(s))[..s.left][..len];
    }
  }

  // ---------- Marks ----------

  function MarkOf(s: State): Mark
    requires s.blocks != []
  {
    Mark(Last(s).id, s.nxt, s.left)
  }

  /** `setstackmark`: something is taken when the block could otherwise move. */
  function SetMark(s: State): State {
    Stalloc(s, if AtStart(s) then 1 else 0)
  }

  /** The blocks up to the one named `id`. */
  function UpTo(blocks: seq<Block>, id: nat): seq<Block> {
    if blocks == [] || blocks[|blocks| - 1].id == id then blocks else UpTo(blocks[..|blocks| - 1], id)
  }

  /** `popstackmark` */
  function PopMark(s: State, m: Mark): State {
    State(UpTo(s.blocks, m.id), m.nxt, m.left, m.nxt + m.left, s.unused)
  }

  // ---------- Runs ----------

  /** How far down things may be given back: to offset `nxt` of block number `depth`. */
  datatype Floor = Floor(depth: nat, nxt: nat)

  /**
   * What users of the allocator do: take space, give back what is above the floor, make room for a growing string,
   * write to what is above the floor, and run in between two calls that set a mark and pop it.
   */
  datatype Op =
    | Alloc(n: nat)
    | Unalloc(p: nat)
    | GrowBlock
    | Room(n: nat, len: nat)
    | Write(k: nat, offset: nat, c: char)
    | Marked(body: Ops)

  datatype Ops = Done | Then(op: Op, rest: Ops)

  /** The free space, and everything that has been taken above the floor. */
  predicate Above(s: State, f: Floor, k: nat, offset: nat) {
    k < |s.blocks| && offset < |s.blocks[k].space| && (k > f.depth || (k == f.depth && offset >= f.nxt))
  }

  predicate Legal(op: Op, s: State, f: Floor) {
    match op
    case Alloc(_) => true
    case Unalloc(p) => p <= s.nxt && OnBoundary(p) && (|s.blocks| - 1 > f.depth || p >= f.nxt)
    case GrowBlock => true
    case Room(n, len) => len <= s.left
    case Write(k, offset, c) => Above(s, f, k, offset)
    case Marked(_) => true
  }

  function FloorOf(s: State): Floor
    requires s.blocks != []
  {
    Floor(|s.blocks| - 1, s.nxt)
  }

  /** The state after a run; None when it breaks the rules. */
  function Run(ops: Ops, s: State, f: Floor): Option<State> {
    if ops.Done? then Some(s)
    else
      match Step(ops.op, s, f)
      case None => None
      case Some(t) => Run(ops.rest, t, f)
  }

  function Step(op: Op, s: State, f: Floor): Option<State> {
    if !Good(s) || !Legal(op, s, f) then None
    else
      match op
      case Alloc(n) => Some(Stalloc(s, n))
      case Unalloc(p) => Some(Stunalloc(s, p))
      case GrowBlock => Some(Grow(s))
      case Room(n, len) => Some(MakeSpace(s, n, len))
      case Write(k, offset, c) => Some(Written(s, k, offset, c))
      case Marked(body) =>
        var t := SetMark(s);
        StallocGood(s, if AtStart(s) then 1 else 0);
        match Run(body, t, FloorOf(t))
        case None => None
        case Some(u) => Some(PopMark(u, MarkOf(s)))
  }

  /** In `b`, everything below the mark set in `a` is still where and what it was, and cannot move. */
  predicate Kept(a: State, b: State, f: Floor)
    requires a.blocks != []
  {
    && f.depth == |a.blocks| - 1 && |b.blocks| > f.depth && a.unused <= b.unused
    && b.blocks[..f.depth] == a.blocks[..f.depth] && b.blocks[f.depth].id == Last(a).id
    && a.nxt <= |Last(a).space| == |b.blocks[f.depth].space| && b.blocks[f.depth].space[..a.nxt] == Last(a).space[..a.nxt]
    && a.nxt <= f.nxt && (f.nxt > 0 || f.depth == 0) && (|b.blocks| == |a.blocks| ==> b.nxt >= f.nxt)
  }

  lemma KeptSet(a: State)
    requires Good(a)
    ensures Good(SetMark(a)) && |SetMark(a).blocks| == |a.blocks| && Kept(a, SetMark(a), FloorOf(SetMark(a)))
  {
    StallocGood(a, if AtStart(a) then 1 else 0);
  }

  lemma KeptAlloc(a: State, s: State, f: Floor, n: nat)
    requires a.blocks != [] && Good(s) && Kept(a, s, f)
    ensures Good(Stalloc(s, n)) && Kept(a, Stalloc(s, n), f)
  {
    hide Ids, Bytes;
    StallocGood(s, n);
    var t := Stalloc(s, n);
    assert t.blocks[..f.depth] == s.blocks[..f.depth] && t.blocks[f.depth] == s.blocks[f.depth];
  }

  lemma KeptGrow(a: State, s: State, f: Floor)
    requires a.blocks != [] && Good(s) && Kept(a, s, f)
    ensures Good(Grow(s)) && Kept(a, Grow(s), f)
  {
    hide Ids, Bytes;
    GrowGood(s);
    var t := Grow(s);
    assert t.blocks[..f.depth] == s.blocks[..f.depth];
    if |s.blocks| == |a.blocks| {
      assert t.blocks[f.depth] == s.blocks[f.depth];
    } else {
      assert f.depth < |s.blocks| - 1;
    }
  }

  lemma {:induction false} KeptRoom(a: State, s: State, f: Floor, n: nat, len: nat)
    requires a.blocks != [] && Good(s) && Kept(a, s, f) && len <= s.left
    ensures Good(MakeSpace(s, n, len)) && Kept(a, MakeSpace(s, n, len), f)
    decreases Max(n + len, s.left) - s.left
  {
    hide Good, Kept, Grow;
    if s.left - len < n {
      GrowGood(s);
      KeptGrow(a, s, f);
      KeptRoom(a, Grow(s), f, n, len);
    }
  }

  lemma KeptUnalloc(a: State, s: State, f: Floor, p: nat)
    requires a.blocks != [] && Good(s) && Kept(a, s, f) && Legal(Unalloc(p), s, f)
    ensures Good(Stunalloc(s, p)) && Kept(a, Stunalloc(s, p), f)
  {
    hide Ids, Bytes;
    UnallocGood(s, p);
    hide Good;
    assert Stunalloc(s, p).blocks == s.blocks;
  }

  lemma UnallocGood(s: State, p: nat)
    requires Good(s) && p <= s.nxt && OnBoundary(p)
    ensures Good(Stunalloc(s, p))
  {
    Boundaries(s.nxt, p);
    Boundaries(s.left, s.nxt - p);
    hide Ids, Bytes, OnBoundary;
  }

  lemma KeptWrite(a: State, s: State, f: Floor, k: nat, offset: nat, c: char)
    requires a.blocks != [] && Good(s) && Kept(a, s, f) && Above(s, f, k, offset)
    ensures Good(Written(s, k, offset, c)) && Kept(a, Written(s, k, offset, c), f)
  {
    var t := Written(s, k, offset, c);
    assert t.blocks[..f.depth] == s.blocks[..f.depth];
  }

  lemma {:induction false} UpToIs(blocks: seq<Block>, unused: nat, i: nat)
    requires Ids(blocks, unused) && i < |blocks|
    ensures UpTo(blocks, blocks[i].id) == blocks[..i + 1]
    decreases |blocks|
  {
    if i < |blocks| - 1 {
      UpToIs(blocks[..|blocks| - 1], unused, i);
      assert blocks[..|blocks| - 1][..i + 1] == blocks[..i + 1];
    } else {
      assert blocks[..i + 1] == blocks;
    }
  }

  /** Popping a mark gives back the state in which it was set, but for what is free. */
  predicate Restored(a: State, b: State)
    requires a.blocks != []
  {
    && |b.blocks| == |a.blocks| && b.blocks[..|a.blocks| - 1] == a.blocks[..|a.blocks| - 1]
    && Last(b).id == Last(a).id && |Last(b).space| == |Last(a).space| && a.nxt <= |Last(a).space|
    && Last(b).space[..a.nxt] == Last(a).space[..a.nxt]
    && b.nxt == a.nxt && b.left == a.left && b.end == a.end
  }

  lemma PopRestores(a: State, b: State, f: Floor)
    requires Good(a) && Good(b) && Kept(a, b, f)
    ensures Good(PopMark(b, MarkOf(a))) && Restored(a, PopMark(b, MarkOf(a)))
  {
    UpToIs(b.blocks, b.unused, f.depth);
    var t := PopMark(b, MarkOf(a));
    assert t.blocks == b.blocks[..f.depth + 1];
    assert t.blocks[..f.depth] == b.blocks[..f.depth];
  }

  lemma KeptRestored(a: State, s: State, t: State, f: Floor)
    requires a.blocks != [] && Good(s) && Kept(a, s, f) && Restored(s, t) && s.unused <= t.unused
    ensures Kept(a, t, f)
  {
    hide Good, Ids;
    assert t.blocks[..f.depth] == s.blocks[..f.depth] by {
      assert t.blocks[..|s.blocks| - 1][..f.depth] == s.blocks[..|s.blocks| - 1][..f.depth];
    }
    if |s.blocks| == |a.blocks| {
      assert Last(t).space[..a.nxt] == Last(t).space[..s.nxt][..a.nxt];
      assert Last(s).space[..a.nxt] == Last(s).space[..s.nxt][..a.nxt];
    } else {
      assert t.blocks[f.depth] == t.blocks[..|s.blocks| - 1][f.depth];
      assert s.blocks[f.depth] == s.blocks[..|s.blocks| - 1][f.depth];
    }
  }

  /** Every run keeps what is below the floor, wherever it is left. */
  lemma {:induction false} RunKeeps(ops: Ops, a: State, s: State, f: Floor)
    requires a.blocks != [] && Good(s) && Kept(a, s, f) && Run(ops, s, f).Some?
    ensures Good(Run(ops, s, f).value) && Kept(a, Run(ops, s, f).value, f)
    decreases ops, 0
  {
    hide Good, Kept;
    if ops.Then? {
      StepKeeps(ops.op, a, s, f);
      RunKeeps(ops.rest, a, Step(ops.op, s, f).value, f);
    }
  }

  lemma {:induction false} StepKeeps(op: Op, a: State, s: State, f: Floor)
    requires a.blocks != [] && Good(s) && Kept(a, s, f) && Step(op, s, f).Some?
    ensures Good(Step(op, s, f).value) && Kept(a, Step(op, s, f).value, f)
    decreases op, 0
  {
    hide Good, Kept, Grow, MakeSpace, Stalloc, Stunalloc, Written, Above, SetMark, PopMark, Restored, Run;
    match op
    case Alloc(n) => KeptAlloc(a, s, f, n);
    case Unalloc(p) => KeptUnalloc(a, s, f, p);
    case GrowBlock => KeptGrow(a, s, f);
    case Room(n, len) => KeptRoom(a, s, f, n, len);
    case Write(k, offset, c) => KeptWrite(a, s, f, k, offset, c);
    case Marked(body) =>
      MarkedRestores(body, s, f);
      KeptRestored(a, s, Step(op, s, f).value, f);
  }

  /**
   * Between `setstackmark` and its `popstackmark`, whatever is taken, given back, grown, written or marked in
   * between, the marked block does not move, what was taken before is unchanged, and the allocator ends as it began.
   */
  lemma {:induction false} MarkedRestores(body: Ops, s: State, f: Floor)
    requires Good(s) && Step(Marked(body), s, f).Some?
    ensures var t := Step(Marked(body), s, f).value; Good(t) && Restored(s, t) && s.unused <= t.unused
    decreases body, 1
  {
    hide Stalloc, Ids;
    var t := SetMark(s);
    KeptSet(s);
    RunKeeps(body, s, t, FloorOf(t));
    PopRestores(s, Run(body, t, FloorOf(t)).value, FloorOf(t));
  }

  lemma NewLengthIs(left: nat)
    ensures NewLength(left) == if left * 2 < 128 then left * 2 + 128 else left * 2
  {
  }

  // ---------- The allocator ----------

  class Allocator {
    var blocks: seq<Block>
    var stacknxt: nat
    var stacknleft: nat
    var sstrend: nat
    var unused: nat

    ghost function Now(): State
      reads this
    {
      State(blocks, stacknxt, stacknleft, sstrend, unused)
    }

    constructor ()
      ensures Good(Now()) && |blocks| == 1 && stacknxt == 0
    {
      blocks, stacknxt, stacknleft, sstrend, unused := [Block(0, Bytes(MINSIZE))], 0, MINSIZE, MINSIZE, 1;
    }

    /** `ckmalloc`, for a block behind the last one. */
    method Extend(size: nat)
      modifies this
      ensures Now() == NewBlock(old(Now()), size)
    {
      blocks := blocks + [Block(unused, Bytes(size))];
      unused := unused + 1;
      stacknxt, stacknleft, sstrend := 0, size, size;
    }

    /** `stalloc`: the space at `p` is new, `n` bytes long, and not part of the free space. */
    method Alloc(n: nat) returns (p: Pointer)
      requires Good(Now())
      modifies this
      ensures Now() == Stalloc(old(Now()), n) && Good(Now())
      ensures p.id == Last(Now()).id && p.offset + n <= stacknxt
      ensures p.id == Last(old(Now())).id ==> p.offset == old(stacknxt)
    {
      StallocGood(Now(), n);
      var aligned := Aligned(n);
      if aligned > stacknleft {
        Extend(Max(aligned, MINSIZE));
      }
      p := Pointer(blocks[|blocks| - 1].id, stacknxt);
      stacknxt := stacknxt + aligned;
      stacknleft := stacknleft - aligned;
    }

    /** `stunalloc` */
    method Unalloc(p: Pointer)
      requires Good(Now()) && p.id == Last(Now()).id && p.offset <= stacknxt && OnBoundary(p.offset)
      modifies this
      ensures Now() == Stunalloc(old(Now()), p.offset) && Good(Now())
    {
      hide Ids, Good;
      UnallocGood(Now(), p.offset);
      stacknleft := stacknleft + (stacknxt - p.offset);
      stacknxt := p.offset;
    }

    /** `growstackblock` */
    method GrowBlock()
      requires Good(Now())
      modifies this
      ensures Now() == Grow(old(Now())) && Good(Now())
    {
      hide Ids, OnBoundary, Bytes, NewLength;
      NewLengthIs(stacknleft);
      GrowGood(Now());
      var newlen := stacknleft * 2;
      if newlen < 128 {
        newlen := newlen + 128;
      }
      var sp := blocks[|blocks| - 1];
      if stacknxt == 0 && |blocks| > 1 {
        blocks := blocks[..|blocks| - 1] + [Block(unused, sp.space[stacknxt..] + Bytes(newlen - stacknleft))];
        unused := unused + 1;
        stacknxt, stacknleft, sstrend := 0, newlen, newlen;
      } else {
        var oldspace := sp.space[stacknxt..];
        var p := Alloc(newlen);
        stacknxt := p.offset;
        var last := blocks[|blocks| - 1];
        if |oldspace| <= |last.space| {
          blocks := blocks[|blocks| - 1 := last.(space := oldspace + last.space[|oldspace|..])];
        }
        stacknleft := stacknleft + newlen;
      }
    }

    /** `makestrspace`, for a string of `len` bytes in the free space. */
    method MakeStrSpace(newlen: nat, len: nat)
      requires Good(Now()) && len <= stacknleft
      modifies this
      ensures Now() == MakeSpace(old(Now()), newlen, len) && Good(Now())
      ensures stacknleft - len >= newlen && Scratch(Now())[..len] == Scratch(old(Now()))[..len]
    {
      hide Grow, Good;
      MakeSpaceGood(Now(), newlen, len);
      while stacknleft - len < newlen
        invariant Good(Now()) && len <= stacknleft && MakeSpace(Now(), newlen, len) == MakeSpace(old(Now()), newlen, len)
        decreases newlen + len + 1 - stacknleft
      {
        GrowGood(Now());
        GrowBlock();
      }
    }

    /** `setstackmark` */
    method SetStackMark() returns (m: Mark)
      requires Good(Now())
      modifies this
      ensures m == MarkOf(old(Now())) && Now() == SetMark(old(Now())) && Good(Now())
      ensures Kept(old(Now()), Now(), FloorOf(Now()))
    {
      KeptSet(Now());
      m := Mark(blocks[|blocks| - 1].id, stacknxt, stacknleft);
      var p := Alloc(if stacknxt == 0 && |blocks| > 1 then 1 else 0);
    }

    /** `popstackmark`, for a mark whose block is still there. */
    method PopStackMark(m: Mark)
      requires exists i :: 0 <= i < |blocks| && blocks[i].id == m.id
      modifies this
      ensures Now() == PopMark(old(Now()), m)
    {
      ghost var i :| 0 <= i < |blocks| && blocks[i].id == m.id;
      while blocks[|blocks| - 1].id != m.id
        invariant i < |blocks| <= |old(blocks)| && UpTo(blocks, m.id) == UpTo(old(blocks), m.id)
        invariant blocks[i].id == m.id && unused == old(unused)
        decreases |blocks|
      {
        blocks := blocks[..|blocks| - 1];
      }
      stacknxt, stacknleft, sstrend := m.nxt, m.left, m.nxt + m.left;
    }
  }
}
