/**
  The buddy allocator over one 256-page pool.  Addresses are kept in pages: every address it
  handles is a multiple of the page size, and flipping bit (12 + order) of an address is
  flipping bit `order` of its page number.
 */
module Buddy {
  import Pmm
  import opened Bits

  const POOL_ORDER: nat := 8
  const POOL_PAGES: nat := 256
  const MAX_BLOCKS: nat := 1024

  function Pages(order: nat): (n: nat)
    ensures n >= 1
  {
    if order == 0 then 1 else 2 * Pages(order - 1)
  }

  /** `page` with bit `order` flipped, see AddressOfBuddy. */
  function BuddyOf(page: nat, order: nat): int {
    if page / Pages(order) % 2 == 0 then page + Pages(order) else page - Pages(order)
  }

  datatype Block = Block(page: nat, order: nat)

  function End(b: Block): nat { b.page + Pages(b.order) }

  predicate Apart(a: Block, b: Block) { End(a) <= b.page || End(b) <= a.page }

  predicate Within(base: nat, b: Block) {
    b.order <= POOL_ORDER && base <= b.page && End(b) <= base + POOL_PAGES
  }

  predicate Covers(b: Block, page: nat) { b.page <= page < End(b) }

  // ---------------------------------------------------------------- the block table

  datatype Entry = Entry(block: Block, free: bool)

  /** `out` are the blocks handed to callers; `lost` records that the table overflowed once. */
  datatype State = State(base: nat, table: seq<Entry>, out: set<Block>, lost: bool)

  predicate FreeAt(t: seq<Entry>, i: int) { 0 <= i < |t| && t[i].free }

  function Add(s: State, b: Block): State {
    if |s.table| >= MAX_BLOCKS then s.(lost := true) else s.(table := s.table + [Entry(b, true)])
  }

  /** buddy_init after the pool was reserved. */
  function Init(base: nat): State { State(base, [Entry(Block(base, POOL_ORDER), true)], {}, false) }

  /** First free entry of at least the wanted order, or the table's length. */
  function FirstFit(t: seq<Entry>, order: nat, i: nat): (r: nat)
    requires i <= |t|
    ensures i <= r <= |t|
    ensures r < |t| ==> t[r].free && t[r].block.order >= order
    ensures forall j | i <= j < r :: !(t[j].free && t[j].block.order >= order)
    decreases |t| - i
  {
    if i == |t| then i else if t[i].free && t[i].block.order >= order then i else FirstFit(t, order, i + 1)
  }

  /** Entry `i` shrunk to its lower half. */
  function Lower(s: State, i: nat): State
    requires FreeAt(s.table, i) && s.table[i].block.order > 0
  {
    var b := s.table[i].block;
    s.(table := s.table[i := Entry(Block(b.page, b.order - 1), true)])
  }

  /** One turn of the split loop: the upper half becomes an entry of its own. */
  function Halve(s: State, i: nat): State
    requires FreeAt(s.table, i) && s.table[i].block.order > 0
  {
    Add(Lower(s, i), Upper(s.table[i].block))
  }

  function Upper(b: Block): Block
    requires b.order > 0
  {
    Block(b.page + Pages(b.order - 1), b.order - 1)
  }

  /** The split loop; a full table makes it give up. */
  function SplitTo(s: State, i: nat, order: nat): (r: (State, bool))
    requires FreeAt(s.table, i)
    ensures FreeAt(r.0.table, i) && (r.1 ==> r.0.table[i].block.order <= order)
    decreases s.table[i].block.order
  {
    if s.table[i].block.order <= order then (s, true)
    else if |s.table| >= MAX_BLOCKS then (Halve(s, i), false)
    else SplitTo(Halve(s, i), i, order)
  }

  datatype Got = Nothing | At(page: nat)

  /** buddy_alloc. */
  function Alloc(s: State, order: nat): (State, Got) {
    if order > POOL_ORDER then (s, Nothing)
    else
      var i := FirstFit(s.table, order, 0);
      if i == |s.table| then (s, Nothing)
      else
        var (t, ok) := SplitTo(s, i, order);
        if !ok then (t, Nothing) else (HandOut(t, i), At(t.table[i].block.page))
  }

  function HandOut(s: State, i: nat): State
    requires FreeAt(s.table, i)
  {
    var b := s.table[i].block;
    s.(table := s.table[i := Entry(b, false)], out := s.out + {b})
  }

  /** First free entry that is exactly `b`, or the table's length. */
  function FindFree(t: seq<Entry>, page: int, order: nat, i: nat): (r: nat)
    requires i <= |t|
    ensures i <= r <= |t|
    ensures r < |t| ==> t[r].free && t[r].block.page == page && t[r].block.order == order
    ensures r == |t| ==> forall j | i <= j < |t| :: !(t[j].free && t[j].block.page == page && t[j].block.order == order)
    decreases |t| - i
  {
    if i == |t| then i
    else if t[i].free && t[i].block.page == page && t[i].block.order == order then i
    else FindFree(t, page, order, i + 1)
  }

  function Merge(b: Block, buddy: nat): Block { Block(if buddy < b.page then buddy else b.page, b.order + 1) }

  /** The index of the free buddy the coalescing loop would merge with, or the table's length. */
  function Partner(s: State, b: Block): (r: nat)
    ensures r <= |s.table|
    ensures r < |s.table| ==>
              b.order < POOL_ORDER && s.table[r].free && s.table[r].block == Block(BuddyOf(b.page, b.order), b.order)
  {
    var q := BuddyOf(b.page, b.order);
    if b.order >= POOL_ORDER || q < s.base || q >= s.base + POOL_PAGES then |s.table|
    else FindFree(s.table, q, b.order, 0)
  }

  function Absorb(s: State, r: nat): State
    requires r < |s.table|
  {
    s.(table := s.table[r := s.table[r].(free := false)])
  }

  /** The coalescing loop: absorb free buddies, then put the result into the table. */
  function Coalesce(s: State, b: Block): State
    decreases POOL_ORDER - b.order
  {
    var r := Partner(s, b);
    if r == |s.table| then Add(s, b) else Coalesce(Absorb(s, r), Merge(b, s.table[r].block.page))
  }

  /** buddy_free. */
  function Free(s: State, b: Block): State {
    if b.page < s.base || b.page >= s.base + POOL_PAGES || b.order > POOL_ORDER then s
    else Coalesce(s.(out := s.out - {b}), b)
  }

  // ---------------------------------------------------------------- disjointness, for any base

  /** Free entries, outstanding blocks and `extra` are pairwise disjoint and inside the pool. */
  ghost predicate Disjoint(s: State) {
    && (forall i | FreeAt(s.table, i) :: Within(s.base, s.table[i].block))
    && (forall o | o in s.out :: Within(s.base, o))
    && (forall i, j | FreeAt(s.table, i) && FreeAt(s.table, j) && i != j :: Apart(s.table[i].block, s.table[j].block))
    && (forall i, o | FreeAt(s.table, i) && o in s.out :: Apart(s.table[i].block, o))
    && (forall o, p | o in s.out && p in s.out && o != p :: Apart(o, p))
  }

  /** `b` lies in the pool and touches nothing that is free or outstanding. */
  ghost predicate Clear(s: State, b: Block) {
    && Within(s.base, b)
    && (forall i | FreeAt(s.table, i) :: Apart(s.table[i].block, b))
    && (forall o | o in s.out :: Apart(o, b))
  }

  lemma AddDisjoint(s: State, b: Block)
    requires Disjoint(s) && Clear(s, b)
    ensures Disjoint(Add(s, b))
  {
    var t := Add(s, b);
    assert forall j | FreeAt(t.table, j) && j < |s.table| :: FreeAt(s.table, j) && t.table[j] == s.table[j];
    assert forall j | FreeAt(t.table, j) && j >= |s.table| :: j == |s.table| && t.table[j].block == b;
  }

  /** What is apart from a block is apart from both of its halves, which are apart from each other. */
  lemma HalvesApart(base: nat, b: Block)
    requires b.order > 0 && Within(base, b)
    ensures var lower, upper := Block(b.page, b.order - 1), Block(b.page + Pages(b.order - 1), b.order - 1);
            && Within(base, lower) && Within(base, upper) && Apart(lower, upper)
            && forall c | Apart(c, b) :: Apart(c, lower) && Apart(c, upper) && Apart(lower, c) && Apart(upper, c)
  {
    assert Pages(b.order) == 2 * Pages(b.order - 1);
  }

  /** An entry replaced by a part of it. */
  lemma ShrinkDisjoint(s: State, i: nat, c: Block)
    requires Disjoint(s) && FreeAt(s.table, i) && Within(s.base, c)
    requires forall x | Apart(x, s.table[i].block) :: Apart(x, c) && Apart(c, x)
    ensures Disjoint(s.(table := s.table[i := Entry(c, true)]))
  {
    var t := s.(table := s.table[i := Entry(c, true)]);
    assert forall j | FreeAt(t.table, j) && j != i :: FreeAt(s.table, j) && t.table[j] == s.table[j];
  }

  lemma LowerClear(s: State, i: nat)
    requires Disjoint(s) && FreeAt(s.table, i) && s.table[i].block.order > 0
    ensures Clear(Lower(s, i), Upper(s.table[i].block))
  {
    var t := Lower(s, i);
    HalvesApart(s.base, s.table[i].block);
    assert forall j | FreeAt(t.table, j) && j != i :: FreeAt(s.table, j) && t.table[j] == s.table[j];
  }

  lemma HalveDisjoint(s: State, i: nat)
    requires Disjoint(s) && FreeAt(s.table, i) && s.table[i].block.order > 0
    ensures Disjoint(Halve(s, i))
  {
    var b := s.table[i].block;
    assert Disjoint(Lower(s, i)) by {
      HalvesApart(s.base, b);
      ShrinkDisjoint(s, i, Block(b.page, b.order - 1));
    }
    LowerClear(s, i);
    AddDisjoint(Lower(s, i), Upper(b));
  }

  lemma {:induction false} SplitDisjoint(s: State, i: nat, order: nat)
    requires Disjoint(s) && FreeAt(s.table, i)
    ensures Disjoint(SplitTo(s, i, order).0) && SplitTo(s, i, order).0.out == s.out
    ensures SplitTo(s, i, order).0.base == s.base
    decreases s.table[i].block.order
  {
    if s.table[i].block.order > order {
      HalveDisjoint(s, i);
      if |s.table| < MAX_BLOCKS {
        SplitDisjoint(Halve(s, i), i, order);
      }
    }
  }

  lemma AllocDisjoint(s: State, order: nat)
    requires Disjoint(s)
    ensures Disjoint(Alloc(s, order).0)
  {
    var i := FirstFit(s.table, order, 0);
    if order <= POOL_ORDER && i < |s.table| {
      SplitDisjoint(s, i, order);
      var (t, ok) := SplitTo(s, i, order);
      if ok {
        var u := Alloc(s, order).0;
        assert forall j | FreeAt(u.table, j) :: j != i && FreeAt(t.table, j) && u.table[j] == t.table[j];
      }
    }
  }

  // ---------------------------------------------------------------- what is handed out

  /** Splitting brings the entry down to the order wanted, at its own address, unless the table is full. */
  lemma {:induction false} SplitKeepsPage(s: State, i: nat, order: nat)
    requires FreeAt(s.table, i) && order <= s.table[i].block.order
    ensures var (t, ok) := SplitTo(s, i, order);
            && t.table[i].block.page == s.table[i].block.page && t.out == s.out
            && (ok ==> t.table[i].block.order == order) && (!ok ==> t.lost)
    decreases s.table[i].block.order
  {
    if s.table[i].block.order > order && |s.table| < MAX_BLOCKS {
      SplitKeepsPage(Halve(s, i), i, order);
    }
  }

  /** Entry `i` is the first free one that is large enough. */
  predicate FitsFirst(t: seq<Entry>, order: nat, i: nat)
  {
    && FreeAt(t, i) && t[i].block.order >= order
    && forall j | 0 <= j < i :: !(t[j].free && t[j].block.order >= order)
  }

  /**
    A successful allocation hands out exactly one block, of the order asked for, which nobody
    held: the lowest part of the first free block that is large enough.
   */
  lemma AllocHandsOut(s: State, order: nat, page: nat)
    requires Disjoint(s) && Alloc(s, order).1 == At(page)
    ensures Block(page, order) !in s.out && Alloc(s, order).0.out == s.out + {Block(page, order)}
    ensures exists i: nat :: FitsFirst(s.table, order, i) && s.table[i].block.page == page
    ensures Within(s.base, Block(page, order))
  {
    var i := FirstFit(s.table, order, 0);
    SplitKeepsPage(s, i, order);
    SplitDisjoint(s, i, order);
    assert FitsFirst(s.table, order, i);
    assert Within(s.base, SplitTo(s, i, order).0.table[i].block);
    assert Apart(s.table[i].block, Block(page, order)) ==> Apart(Block(page, order), s.table[i].block);
    SmallerInside(s.table[i].block, order);
  }

  /** A block's lowest part is not apart from it. */
  lemma {:induction false} SmallerInside(b: Block, order: nat)
    requires order <= b.order
    ensures 1 <= Pages(order) <= Pages(b.order) && !Apart(b, Block(b.page, order))
    decreases b.order
  {
    if order < b.order {
      SmallerInside(Block(b.page, b.order - 1), order);
    }
  }

  /**
    Otherwise nobody is handed anything; and unless the table overflows, that happens exactly when the
    order is too large or no free block is large enough, and then nothing changes at all.
   */
  lemma AllocRefuses(s: State, order: nat)
    ensures var (t, got) := Alloc(s, order);
            && (got == Nothing ==> t.out == s.out)
            && (got == Nothing && !t.lost ==> t == s)
            && (!t.lost ==>
                (got == Nothing <==> order > POOL_ORDER
                                     || forall i | FreeAt(s.table, i) :: s.table[i].block.order < order))
  {
    var i := FirstFit(s.table, order, 0);
    if order <= POOL_ORDER && i < |s.table| {
      SplitKeepsPage(s, i, order);
      assert FreeAt(s.table, i);
    }
  }

  lemma AllocatedBlock(s: State, order: nat)
    ensures Disjoint(s) ==>
              match Alloc(s, order).1
              case Nothing => Alloc(s, order).0.out == s.out
              case At(p) =>
                && p >= s.base && Block(p, order) !in s.out
                && Alloc(s, order).0.out == s.out + {Block(p, order)}
  {
    if Disjoint(s) {
      AllocRefuses(s, order);
      if Alloc(s, order).1.At? {
        AllocHandsOut(s, order, Alloc(s, order).1.page);
      }
    }
  }

  /** Freeing a block takes exactly that block from what is outstanding. */
  lemma {:induction false} CoalesceOut(s: State, b: Block)
    ensures Coalesce(s, b).out == s.out && Coalesce(s, b).base == s.base
    decreases POOL_ORDER - b.order
  {
    var r := Partner(s, b);
    if r < |s.table| {
      CoalesceOut(Absorb(s, r), Merge(b, s.table[r].block.page));
    }
  }

  lemma FreeTakesBack(s: State, b: Block)
    requires Disjoint(s) && b in s.out
    ensures Free(s, b).out == s.out - {b} && Free(s, b).base == s.base
  {
    SmallerInside(b, 0);
    CoalesceOut(s.(out := s.out - {b}), b);
  }

  /** Two equal adjacent blocks and their union. */
  lemma UnionApart(a: Block, b: Block, x: Block)
    requires a.order == b.order && (End(a) == b.page || End(b) == a.page) && Apart(x, a) && Apart(x, b)
    ensures Apart(x, Merge(a, b.page))
  {
  }

  lemma MergeClear(s: State, b: Block, r: nat)
    requires Disjoint(s) && Clear(s, b) && r == Partner(s, b) && r < |s.table|
    ensures Disjoint(Absorb(s, r)) && Clear(Absorb(s, r), Merge(b, s.table[r].block.page))
  {
    var e := s.table[r].block;
    var t := Absorb(s, r);
    var m := Merge(b, e.page);
    assert FreeAt(s.table, r);
    assert forall j | FreeAt(t.table, j) :: j != r && FreeAt(s.table, j) && t.table[j] == s.table[j];
    forall j | FreeAt(t.table, j)
      ensures Apart(t.table[j].block, m)
    {
      UnionApart(b, e, t.table[j].block);
    }
    forall o | o in t.out
      ensures Apart(o, m)
    {
      assert Apart(e, o);
      UnionApart(b, e, o);
    }
  }

  lemma {:induction false} CoalesceDisjoint(s: State, b: Block)
    requires Disjoint(s) && Clear(s, b)
    ensures Disjoint(Coalesce(s, b)) && Coalesce(s, b).out == s.out && Coalesce(s, b).base == s.base
    decreases POOL_ORDER - b.order
  {
    var r := Partner(s, b);
    if r == |s.table| {
      AddDisjoint(s, b);
    } else {
      MergeClear(s, b, r);
      CoalesceDisjoint(Absorb(s, r), Merge(b, s.table[r].block.page));
    }
  }

  lemma FreeDisjoint(s: State, b: Block)
    requires Disjoint(s) && b in s.out
    ensures Disjoint(Free(s, b)) && Free(s, b).out == s.out - {b} && Free(s, b).base == s.base
  {
    CoalesceDisjoint(s.(out := s.out - {b}), b);
  }

  // ---------------------------------------------------------------- alignment

  predicate Aligned(b: Block) { b.page % Pages(b.order) == 0 }

  lemma Scale(p: nat, a: int, b: int)
    requires p >= 1
    ensures a <= b ==> p * a <= p * b
    ensures p * a < p * b ==> a < b
  {
    if a <= b {
      assert p * b - p * a == p * (b - a);
    } else {
      assert p * a - p * b == p * (a - b);
    }
  }

  lemma Multiple(p: nat, n: nat, x: nat)
    requires p >= 1 && x == p * n
    ensures x / p == n && x % p == 0
  {
    var q, r := x / p, x % p;
    assert x == p * q + r;
    assert p * (n - q) == r;
    Scale(p, 1, n - q);
    Scale(p, n - q, -1);
  }

  lemma Distribute(p: nat, n: int)
    ensures p * (n + 1) == p * n + p && (2 * p) * n == p * (2 * n)
  {
  }

  /** In units of `p`: the even member of a pair is a multiple of `2 * p`, the odd one follows it. */
  lemma EvenOdd(p: nat, half: nat, even: nat)
    requires p >= 1 && even == p * (2 * half)
    ensures even / p == 2 * half && even % p == 0 && even % (2 * p) == 0
    ensures (even + p) / p == 2 * half + 1 && (even + p) % p == 0
  {
    Multiple(p, 2 * half, even);
    Distribute(p, half);
    Multiple(2 * p, half, even);
    Distribute(p, 2 * half);
    Multiple(p, 2 * half + 1, even + p);
  }

  /** The same in units of `p` pages: `q` is the neighbour of `page` in its pair. */
  lemma PairInUnits(p: nat, page: nat, q: int)
    requires p >= 1 && page % p == 0 && q == if page / p % 2 == 0 then page + p else page - p
    ensures 0 <= q && q % p == 0 && page == if q / p % 2 == 0 then q + p else q - p
    ensures q < page ==> q % (2 * p) == 0
    ensures q >= page ==> page % (2 * p) == 0
  {
    var n := page / p;
    var half := n / 2;
    assert page == p * n;
    if n % 2 == 0 {
      EvenOdd(p, half, page);
    } else {
      Distribute(p, n - 1);
      Scale(p, 0, n - 1);
      assert n - 1 == 2 * half;
      EvenOdd(p, half, page - p);
    }
  }

  /** The lower of two buddies is aligned for the next order; the other is one block above it. */
  lemma BuddyPair(page: nat, order: nat)
    requires page % Pages(order) == 0
    ensures var q := BuddyOf(page, order);
            && 0 <= q && q % Pages(order) == 0 && BuddyOf(q, order) == page
            && (q < page ==> q % Pages(order + 1) == 0 && page == q + Pages(order))
            && (q >= page ==> page % Pages(order + 1) == 0 && q == page + Pages(order))
  {
    PairInUnits(Pages(order), page, BuddyOf(page, order));
  }

  lemma {:induction false} PagesDivide(j: nat, k: nat) returns (c: nat)
    requires j <= k
    ensures c >= 1 && Pages(k) == Pages(j) * c
  {
    if j == k {
      c := 1;
    } else {
      c := PagesDivide(j, k - 1);
      c := 2 * c;
    }
  }

  /** In units of `p`: an interval [u, w) that meets the unit `v` contains it. */
  lemma UnitCovered(p: nat, u: int, w: int, v: int)
    requires p >= 1 && p * u < p * v + p && p * v < p * w
    ensures p * u <= p * v && p * v + p <= p * w
  {
    Distribute(p, v);
    Scale(p, u, v + 1);
    Scale(p, v, w);
    Scale(p, u, v);
    Scale(p, v + 1, w);
  }

  lemma Regroup(p: nat, c: nat, t: nat)
    ensures (p * c) * t == p * (c * t) && p * (c * t + c) == p * (c * t) + p * c
  {
  }

  lemma SpanCovered(p: nat, c: nat, size: nat, page: nat, low: nat)
    requires p >= 1 && size >= 1 && size == p * c && page % size == 0 && low % p == 0
    requires page < low + p && low < page + size
    ensures page <= low && low + p <= page + size
  {
    var t, v := page / size, low / p;
    assert page == size * t && low == p * v;
    Regroup(p, c, t);
    UnitCovered(p, c * t, c * t + c, v);
  }

  /** An aligned block that touches a pair of smaller buddies contains them both. */
  lemma PairCovered(big: Block, low: nat, order: nat)
    requires order < big.order && Aligned(big) && low % Pages(order + 1) == 0
    requires big.page < low + Pages(order + 1) && low < End(big)
    ensures big.page <= low && low + Pages(order + 1) <= End(big)
  {
    var c := PagesDivide(order + 1, big.order);
    SpanCovered(Pages(order + 1), c, Pages(big.order), big.page, low);
  }

  // ---------------------------------------------------------------- exclusive or

  lemma {:induction false} XorScaled(k: nat, a: nat, b: nat)
    ensures Xor(Pages(k) * a, Pages(k) * b) == Pages(k) * Xor(a, b)
  {
    if k > 0 {
      var p := Pages(k - 1);
      Twice(p, a);
      Twice(p, b);
      Twice(p, Xor(a, b));
      XorDouble(p * a, p * b);
      XorScaled(k - 1, a, b);
    }
  }

  lemma Twice(p: nat, a: nat)
    ensures (2 * p) * a == 2 * (p * a)
  {
  }

  lemma HalfQuotient(n: nat, p: nat)
    requires p >= 1
    ensures n / (2 * p) == n / 2 / p
  {
    var h, r := n / 2, n % 2;
    var q, s := h / p, h % p;
    assert n == 2 * (p * q + s) + r;
    assert n == (2 * p) * q + (2 * s + r);
    QuotientIs(n, 2 * p, q, 2 * s + r);
  }

  lemma QuotientIs(n: nat, d: nat, q: nat, r: nat)
    requires d >= 1 && n == d * q + r && r < d
    ensures n / d == q
  {
    var q', r' := n / d, n % d;
    assert d * q' + r' == d * q + r;
    assert d * (q' - q) == r - r';
    Scale(d, 1, q' - q);
    Scale(d, q' - q, -1);
  }

  /** Flipping a bit adds or subtracts its weight. */
  lemma {:induction false} XorIsBuddy(page: nat, order: nat)
    ensures Xor(page, Pages(order)) == BuddyOf(page, order)
  {
    if order == 0 {
      XorZero(page / 2);
      assert Xor(page, 1) == (if page % 2 == 1 then 0 else 1) + 2 * Xor(page / 2, 0);
    } else {
      var p, h := Pages(order - 1), page / 2;
      XorIsBuddy(h, order - 1);
      HalfQuotient(page, p);
      XorEven(page, p);
    }
  }

  lemma XorEven(a: nat, p: nat)
    requires p >= 1
    ensures Xor(a, 2 * p) == a % 2 + 2 * Xor(a / 2, p)
  {
  }

  /** The buddy's address by the C expression `addr ^ block_size(order)` is that of the buddy's page. */
  lemma AddressOfBuddy(page: nat, order: nat)
    ensures Xor(Pmm.PAGE_SIZE * page, Pmm.PAGE_SIZE * Pages(order)) == Pmm.PAGE_SIZE * BuddyOf(page, order)
  {
    assert Pages(12) == Pmm.PAGE_SIZE by {
      assert Pages(4) == 16 && Pages(8) == 256;
    }
    XorScaled(12, page, Pages(order));
    XorIsBuddy(page, order);
  }

  // ---------------------------------------------------------------- tiling and full coalescing, for an aligned base

  ghost predicate FreeCovers(s: State, page: nat) {
    exists i :: FreeAt(s.table, i) && Covers(s.table[i].block, page)
  }

  ghost predicate OutCovers(s: State, page: nat) {
    exists o :: o in s.out && Covers(o, page)
  }

  ghost predicate InPool(s: State, page: nat) { s.base <= page < s.base + POOL_PAGES }

  /** Every page of the pool lies in a free entry, an outstanding block or `b`. */
  ghost predicate TiledWith(s: State, b: Block) {
    forall page: nat | InPool(s, page) :: FreeCovers(s, page) || OutCovers(s, page) || Covers(b, page)
  }

  ghost predicate Tiled(s: State) {
    forall page: nat | InPool(s, page) :: FreeCovers(s, page) || OutCovers(s, page)
  }

  ghost predicate AllAligned(s: State) {
    && (forall i | FreeAt(s.table, i) :: Aligned(s.table[i].block))
    && (forall o | o in s.out :: Aligned(o))
  }

  predicate Buddies(a: Block, b: Block) {
    a.order == b.order && a.order < POOL_ORDER && BuddyOf(a.page, a.order) == b.page
  }

  /** No two free entries are buddies, entry `x` aside. */
  ghost predicate NoBuddiesBut(s: State, x: int) {
    forall i, j | FreeAt(s.table, i) && FreeAt(s.table, j) && i != j && i != x && j != x ::
      !Buddies(s.table[i].block, s.table[j].block)
  }

  ghost predicate Exact(s: State) {
    s.base % POOL_PAGES == 0 && AllAligned(s) && Tiled(s) && NoBuddiesBut(s, -1)
  }

  lemma BuddiesSymmetric(a: Block, b: Block)
    requires Aligned(a) && Buddies(a, b)
    ensures Buddies(b, a)
  {
    BuddyPair(a.page, a.order);
  }

  /** The halves of an aligned block are aligned, and are each other's buddies. */
  lemma Halves(page: nat, order: nat)
    requires page % Pages(order + 1) == 0
    ensures page % Pages(order) == 0 && (page + Pages(order)) % Pages(order) == 0
    ensures BuddyOf(page + Pages(order), order) == page
  {
    var p := Pages(order);
    assert Pages(order + 1) == 2 * p;
    var half := page / (2 * p);
    assert page == (2 * p) * half;
    Distribute(p, half);
    EvenOdd(p, half, page);
  }

  lemma HalveTiles(s: State, i: nat)
    requires Tiled(s) && FreeAt(s.table, i) && s.table[i].block.order > 0 && |s.table| < MAX_BLOCKS
    ensures Tiled(Halve(s, i))
  {
    var t, b := Halve(s, i), s.table[i].block;
    assert Pages(b.order) == 2 * Pages(b.order - 1);
    forall page: nat | InPool(t, page)
      ensures FreeCovers(t, page) || OutCovers(t, page)
    {
      assert InPool(s, page);
      if FreeCovers(s, page) {
        var j :| FreeAt(s.table, j) && Covers(s.table[j].block, page);
        if j == i {
          assert FreeAt(t.table, i) && FreeAt(t.table, |s.table|);
          assert Covers(t.table[i].block, page) || Covers(t.table[|s.table|].block, page);
        } else {
          assert FreeAt(t.table, j) && Covers(t.table[j].block, page);
        }
      } else {
        var o :| o in s.out && Covers(o, page);
        assert o in t.out;
      }
    }
  }

  lemma HalveNoBuddies(s: State, i: nat)
    requires Disjoint(s) && AllAligned(s) && NoBuddiesBut(s, i)
    requires FreeAt(s.table, i) && s.table[i].block.order > 0 && |s.table| < MAX_BLOCKS
    ensures AllAligned(Halve(s, i)) && NoBuddiesBut(Halve(s, i), i)
  {
    var t, b := Halve(s, i), s.table[i].block;
    var k, n := b.order - 1, |s.table|;
    Halves(b.page, k);
    assert t.table[n].block == Block(b.page + Pages(k), k);
    assert forall j | FreeAt(t.table, j) && j != i && j != n :: FreeAt(s.table, j) && t.table[j] == s.table[j];
    forall j | FreeAt(t.table, j) && j != i && j != n
      ensures !Buddies(t.table[n].block, t.table[j].block) && !Buddies(t.table[j].block, t.table[n].block)
    {
      assert Apart(s.table[j].block, b);
      if Buddies(t.table[j].block, t.table[n].block) {
        BuddiesSymmetric(t.table[j].block, t.table[n].block);
      }
    }
  }

  lemma {:induction false} SplitExact(s: State, i: nat, order: nat)
    requires Disjoint(s) && AllAligned(s) && Tiled(s) && NoBuddiesBut(s, i) && FreeAt(s.table, i)
    requires !SplitTo(s, i, order).0.lost
    ensures var t := SplitTo(s, i, order).0;
            !s.lost && SplitTo(s, i, order).1 && AllAligned(t) && Tiled(t) && NoBuddiesBut(t, i)
    decreases s.table[i].block.order
  {
    if s.table[i].block.order > order {
      assert |s.table| < MAX_BLOCKS;
      HalveDisjoint(s, i);
      HalveTiles(s, i);
      HalveNoBuddies(s, i);
      SplitExact(Halve(s, i), i, order);
    }
  }

  lemma HandOutExact(s: State, i: nat)
    requires s.base % POOL_PAGES == 0 && AllAligned(s) && Tiled(s) && NoBuddiesBut(s, i) && FreeAt(s.table, i)
    ensures Exact(HandOut(s, i))
  {
    var t, b := HandOut(s, i), s.table[i].block;
    assert forall j | FreeAt(t.table, j) :: j != i && FreeAt(s.table, j) && t.table[j] == s.table[j];
    forall page: nat | InPool(t, page)
      ensures FreeCovers(t, page) || OutCovers(t, page)
    {
      assert InPool(s, page);
      if FreeCovers(s, page) {
        var j :| FreeAt(s.table, j) && Covers(s.table[j].block, page);
        assert if j == i then b in t.out && Covers(b, page) else FreeAt(t.table, j) && Covers(t.table[j].block, page);
      } else {
        var o :| o in s.out && Covers(o, page);
        assert o in t.out;
      }
    }
  }

  lemma AllocExact(s: State, order: nat)
    requires Disjoint(s) && Exact(s) && !Alloc(s, order).0.lost
    ensures Exact(Alloc(s, order).0)
  {
    var i := FirstFit(s.table, order, 0);
    if order <= POOL_ORDER && i < |s.table| {
      assert NoBuddiesBut(s, i);
      SplitDisjoint(s, i, order);
      SplitExact(s, i, order);
      HandOutExact(SplitTo(s, i, order).0, i);
    }
  }

  lemma PoolSize()
    ensures Pages(POOL_ORDER) == POOL_PAGES
  {
    assert Pages(2) == 4;
    assert Pages(4) == 16;
    assert Pages(6) == 64;
  }

  /** With an aligned base, a block's buddy lies in the pool too. */
  lemma BuddyInPool(base: nat, b: Block)
    requires base % POOL_PAGES == 0 && Within(base, b) && Aligned(b) && b.order < POOL_ORDER
    ensures base <= BuddyOf(b.page, b.order) < base + POOL_PAGES
  {
    PoolSize();
    BuddyPair(b.page, b.order);
    var q := BuddyOf(b.page, b.order);
    PairCovered(Block(base, POOL_ORDER), if q < b.page then q else b.page, b.order);
  }

  lemma MergeTiles(s: State, b: Block, r: nat)
    requires TiledWith(s, b) && Aligned(b) && r == Partner(s, b) && r < |s.table|
    ensures TiledWith(Absorb(s, r), Merge(b, s.table[r].block.page)) && Aligned(Merge(b, s.table[r].block.page))
  {
    var t, e := Absorb(s, r), s.table[r].block;
    var m := Merge(b, e.page);
    BuddyPair(b.page, b.order);
    assert Pages(b.order + 1) == 2 * Pages(b.order);
    forall page: nat | InPool(t, page)
      ensures FreeCovers(t, page) || OutCovers(t, page) || Covers(m, page)
    {
      assert InPool(s, page);
      if FreeCovers(s, page) {
        var j :| FreeAt(s.table, j) && Covers(s.table[j].block, page);
        assert if j == r then Covers(m, page) else FreeAt(t.table, j) && Covers(t.table[j].block, page);
      } else if OutCovers(s, page) {
        var o :| o in s.out && Covers(o, page);
        assert o in t.out;
      }
    }
  }

  lemma AddExact(s: State, b: Block)
    requires s.base % POOL_PAGES == 0 && AllAligned(s) && NoBuddiesBut(s, -1) && TiledWith(s, b)
    requires Within(s.base, b) && Aligned(b) && Partner(s, b) == |s.table| && |s.table| < MAX_BLOCKS
    ensures Exact(Add(s, b))
  {
    var t, n := Add(s, b), |s.table|;
    if b.order < POOL_ORDER {
      BuddyInPool(s.base, b);
    }
    assert forall j | FreeAt(t.table, j) && j != n :: FreeAt(s.table, j) && t.table[j] == s.table[j];
    forall j | FreeAt(t.table, j) && j != n
      ensures !Buddies(b, t.table[j].block) && !Buddies(t.table[j].block, b)
    {
      if Buddies(t.table[j].block, b) {
        BuddiesSymmetric(t.table[j].block, b);
      }
    }
    forall page: nat | InPool(t, page)
      ensures FreeCovers(t, page) || OutCovers(t, page)
    {
      assert InPool(s, page);
      if FreeCovers(s, page) {
        var j :| FreeAt(s.table, j) && Covers(s.table[j].block, page);
        assert FreeAt(t.table, j) && Covers(t.table[j].block, page);
      } else if OutCovers(s, page) {
        var o :| o in s.out && Covers(o, page);
        assert o in t.out;
      } else {
        assert FreeAt(t.table, n) && Covers(t.table[n].block, page);
      }
    }
  }

  lemma {:induction false} CoalesceExact(s: State, b: Block)
    requires Disjoint(s) && Clear(s, b) && s.base % POOL_PAGES == 0 && AllAligned(s) && NoBuddiesBut(s, -1)
    requires TiledWith(s, b) && Aligned(b) && !Coalesce(s, b).lost
    ensures Exact(Coalesce(s, b))
    decreases POOL_ORDER - b.order
  {
    var r := Partner(s, b);
    if r == |s.table| {
      AddExact(s, b);
    } else {
      var t := Absorb(s, r);
      assert forall j | FreeAt(t.table, j) :: j != r && FreeAt(s.table, j) && t.table[j] == s.table[j];
      MergeClear(s, b, r);
      MergeTiles(s, b, r);
      CoalesceExact(t, Merge(b, s.table[r].block.page));
    }
  }

  lemma FreeExact(s: State, b: Block)
    requires Disjoint(s) && Exact(s) && b in s.out && !Free(s, b).lost
    ensures Exact(Free(s, b))
  {
    var t := s.(out := s.out - {b});
    forall page: nat | InPool(t, page)
      ensures FreeCovers(t, page) || OutCovers(t, page) || Covers(b, page)
    {
      assert InPool(s, page);
      if FreeCovers(s, page) {
        var j :| FreeAt(s.table, j) && Covers(s.table[j].block, page);
        assert FreeAt(t.table, j) && Covers(t.table[j].block, page);
      } else {
        var o :| o in s.out && Covers(o, page);
        assert o == b || o in t.out;
      }
    }
    CoalesceExact(t, b);
  }

  /** A free entry of least order among the first `n`. */
  lemma {:induction false} LeastOrder(t: seq<Entry>, n: nat) returns (m: int)
    requires n <= |t|
    ensures m == -1 || (0 <= m < n && t[m].free)
    ensures forall i | 0 <= i < n && t[i].free :: m >= 0 && t[m].block.order <= t[i].block.order
  {
    if n == 0 {
      m := -1;
    } else {
      m := LeastOrder(t, n - 1);
      if t[n - 1].free && (m == -1 || t[n - 1].block.order < t[m].block.order) {
        m := n - 1;
      }
    }
  }

  /** With nothing outstanding, a smallest free block can only be the whole pool. */
  lemma SmallestIsPool(s: State, m: nat)
    requires Disjoint(s) && Exact(s) && s.out == {} && FreeAt(s.table, m)
    requires forall i | FreeAt(s.table, i) :: s.table[m].block.order <= s.table[i].block.order
    ensures s.table[m].block == Block(s.base, POOL_ORDER)
  {
    PoolSize();
    var b := s.table[m].block;
    if b.order < POOL_ORDER {
      BuddyInPool(s.base, b);
      BuddyPair(b.page, b.order);
      assert Pages(b.order + 1) == 2 * Pages(b.order);
      var q := BuddyOf(b.page, b.order);
      assert InPool(s, q) && FreeCovers(s, q);
      var j :| FreeAt(s.table, j) && Covers(s.table[j].block, q);
      var c := s.table[j].block;
      if c.order > b.order {
        PairCovered(c, if q < b.page then q else b.page, b.order);
      } else {
        SameOrderCovers(c, q);
        assert Buddies(b, c);
      }
    }
  }

  /** An aligned block covering an aligned page of its own order starts there. */
  lemma SameOrderCovers(c: Block, q: nat)
    requires Aligned(c) && q % Pages(c.order) == 0 && Covers(c, q)
    ensures c.page == q
  {
    SameUnit(Pages(c.order), c.page, q);
  }

  lemma SameUnit(p: nat, page: nat, q: nat)
    requires p >= 1 && page % p == 0 && q % p == 0 && page <= q < page + p
    ensures page == q
  {
    var u, v := page / p, q / p;
    assert page == p * u && q == p * v;
    Distribute(p, u);
    Scale(p, v, u + 1);
    Scale(p, u, v);
    Scale(p, v, u);
  }

  /** Once everything has been freed, the free entries are exactly one block: the whole pool. */
  lemma FullyCoalesced(s: State)
    requires Disjoint(s) && Exact(s) && s.out == {}
    ensures exists m :: FreeAt(s.table, m) && s.table[m].block == Block(s.base, POOL_ORDER)
              && forall i | FreeAt(s.table, i) :: i == m
  {
    assert InPool(s, s.base) && FreeCovers(s, s.base);
    var m := LeastOrder(s.table, |s.table|);
    SmallestIsPool(s, m);
    PoolSize();
    assert forall i | FreeAt(s.table, i) :: i == m || Apart(s.table[i].block, s.table[m].block);
  }

  // ---------------------------------------------------------------- runs

  /** Callers free only blocks they hold. */
  datatype Action = DoAlloc(order: nat) | DoFree(block: Block)

  function Step(s: State, a: Action): State {
    match a
    case DoAlloc(order) => Alloc(s, order).0
    case DoFree(b) => Free(s, b)
  }

  ghost predicate Inv(s: State) {
    Disjoint(s) && (s.base % POOL_PAGES == 0 && !s.lost ==> Exact(s))
  }

  lemma {:induction false} LostStays(s: State, i: nat, order: nat)
    requires FreeAt(s.table, i) && s.lost
    ensures SplitTo(s, i, order).0.lost
    decreases s.table[i].block.order
  {
    if s.table[i].block.order > order && |s.table| < MAX_BLOCKS {
      LostStays(Halve(s, i), i, order);
    }
  }

  lemma {:induction false} LostStaysMerging(s: State, b: Block)
    requires s.lost
    ensures Coalesce(s, b).lost
    decreases POOL_ORDER - b.order
  {
    var r := Partner(s, b);
    if r < |s.table| {
      LostStaysMerging(Absorb(s, r), Merge(b, s.table[r].block.page));
    }
  }

  lemma StepKeepsInv(s: State, a: Action)
    requires Inv(s) && (a.DoFree? ==> a.block in s.out)
    ensures Inv(Step(s, a)) && Step(s, a).base == s.base
  {
    var t := Step(s, a);
    match a {
      case DoAlloc(order) =>
        AllocDisjoint(s, order);
        var i := FirstFit(s.table, order, 0);
        if order <= POOL_ORDER && i < |s.table| {
          SplitDisjoint(s, i, order);
          if s.lost {
            LostStays(s, i, order);
          }
        }
        if s.base % POOL_PAGES == 0 && !t.lost {
          AllocExact(s, order);
        }
      case DoFree(b) =>
        FreeDisjoint(s, b);
        if s.lost {
          LostStaysMerging(s.(out := s.out - {b}), b);
        }
        if s.base % POOL_PAGES == 0 && !t.lost {
          FreeExact(s, b);
        }
    }
  }

  ghost predicate IsRun(s: State, actions: seq<Action>, t: State)
    decreases |actions|
  {
    if actions == [] then t == s
    else (actions[0].DoFree? ==> actions[0].block in s.out) && IsRun(Step(s, actions[0]), actions[1..], t)
  }

  lemma {:induction false} RunKeepsInv(s: State, actions: seq<Action>, t: State)
    requires Inv(s) && IsRun(s, actions, t)
    ensures Inv(t) && t.base == s.base
    decreases |actions|
  {
    if actions != [] {
      StepKeepsInv(s, actions[0]);
      RunKeepsInv(Step(s, actions[0]), actions[1..], t);
    }
  }

  // ---------------------------------------------------------------- how full the table gets

  /** How many table entries a run may take: entries are never given back. */
  function Demand(actions: seq<Action>): nat {
    if actions == [] then 0
    else
      var a := actions[0];
      (match a case DoAlloc(order) => if order <= POOL_ORDER then POOL_ORDER - order else 0 case DoFree(_) => 1)
      + Demand(actions[1..])
  }

  lemma {:induction false} SplitRoom(s: State, i: nat, order: nat)
    requires FreeAt(s.table, i) && !s.lost && order <= s.table[i].block.order
    requires |s.table| + (s.table[i].block.order - order) <= MAX_BLOCKS
    ensures var (t, ok) := SplitTo(s, i, order);
            ok && !t.lost && |t.table| <= |s.table| + (s.table[i].block.order - order)
    decreases s.table[i].block.order
  {
    if s.table[i].block.order > order {
      SplitRoom(Halve(s, i), i, order);
    }
  }

  lemma {:induction false} MergeRoom(s: State, b: Block)
    requires !s.lost && |s.table| < MAX_BLOCKS
    ensures !Coalesce(s, b).lost && |Coalesce(s, b).table| == |s.table| + 1
    decreases POOL_ORDER - b.order
  {
    var r := Partner(s, b);
    if r < |s.table| {
      MergeRoom(Absorb(s, r), Merge(b, s.table[r].block.page));
    }
  }

  /** As long as the demand fits, the table does not overflow. */
  lemma {:induction false} RunRoom(s: State, actions: seq<Action>, t: State)
    requires Inv(s) && IsRun(s, actions, t) && !s.lost && |s.table| + Demand(actions) <= MAX_BLOCKS
    ensures !t.lost
    decreases |actions|
  {
    if actions != [] {
      StepKeepsInv(s, actions[0]);
      match actions[0] {
        case DoAlloc(order) =>
          var i := FirstFit(s.table, order, 0);
          if order <= POOL_ORDER && i < |s.table| {
            assert Within(s.base, s.table[i].block);
            SplitRoom(s, i, order);
          }
        case DoFree(b) => MergeRoom(s.(out := s.out - {b}), b);
      }
      RunRoom(Step(s, actions[0]), actions[1..], t);
    }
  }

  lemma InitInv(base: nat)
    ensures Inv(Init(base))
  {
    PoolSize();
    var s := Init(base);
    if base % POOL_PAGES == 0 {
      forall page: nat | InPool(s, page)
        ensures FreeCovers(s, page)
      {
        assert FreeAt(s.table, 0) && Covers(s.table[0].block, page);
      }
    }
  }

  /**
    From any page-aligned pool, free entries and outstanding blocks stay pairwise disjoint
    inside the pool, even after the table has overflowed.  If the base is a multiple of the
    pool size and the table never overflowed, they also tile the pool, no two free entries are
    buddies, and when everything is freed the free set is the whole pool as one block.  The table
    cannot overflow as long as the calls demand fewer entries than it has.
   */
  lemma EveryRun(base: nat, actions: seq<Action>, t: State)
    requires IsRun(Init(base), actions, t)
    ensures t.base == base && Disjoint(t) && (Demand(actions) < MAX_BLOCKS ==> !t.lost)
    ensures base % POOL_PAGES == 0 && !t.lost ==> Tiled(t) && NoBuddiesBut(t, -1)
    ensures base % POOL_PAGES == 0 && !t.lost && t.out == {} ==>
              exists m :: FreeAt(t.table, m) && t.table[m].block == Block(base, POOL_ORDER)
                  && forall i | FreeAt(t.table, i) :: i == m
  {
    InitInv(base);
    RunKeepsInv(Init(base), actions, t);
    if Demand(actions) < MAX_BLOCKS {
      RunRoom(Init(base), actions, t);
    }
    if base % POOL_PAGES == 0 && !t.lost && t.out == {} {
      FullyCoalesced(t);
    }
  }

  // ---------------------------------------------------------------- the implementation

  /** The frame numbers [first, first + n). */
  ghost function Range(first: nat, n: nat): set<nat> {
    set f: nat | first <= f < first + n && IsFrame(f)
  }

  ghost predicate IsFrame(f: int) { f >= 0 }

  /** Gives back frames [first, first + n) in order. */
  method ReturnFrames(pmm: Pmm.FrameAllocator, first: nat, n: nat)
    requires pmm.Valid() && Range(first, n) <= pmm.held
    modifies pmm`used, pmm`held, pmm.bits
    ensures pmm.Valid() && pmm.held == old(pmm.held) - Range(first, n) && pmm.used == old(pmm.used) - n
    ensures forall f | 0 <= f < Pmm.MAX_FRAMES :: pmm.bits[f] == (old(pmm.bits[f]) && f !in Range(first, n))
  {
    var j := 0;
    while j < n
      invariant 0 <= j <= n
      invariant pmm.Valid() && pmm.held == old(pmm.held) - Range(first, j) && pmm.used == old(pmm.used) - j
      invariant forall f | 0 <= f < Pmm.MAX_FRAMES :: pmm.bits[f] == (old(pmm.bits[f]) && f !in Range(first, j))
    {
      assert first + j in Range(first, n) && (first + j) * Pmm.PAGE_SIZE / Pmm.PAGE_SIZE == first + j;
      label L:
      pmm.Free((first + j) * Pmm.PAGE_SIZE);
      assert pmm.bits[..] == old@L(pmm.bits[..])[first + j := false];
      assert forall f | 0 <= f < Pmm.MAX_FRAMES && f != first + j ::
          pmm.bits[f] == pmm.bits[..][f] == old@L(pmm.bits[..])[f];
      assert !pmm.bits[..][first + j];
      j := j + 1;
    }
  }

  /** Takes one more frame; `next` is its page number, 0 for none. */
  method TakeFrame(pmm: Pmm.FrameAllocator) returns (next: nat)
    requires pmm.Valid()
    modifies pmm`used, pmm`held, pmm.bits
    ensures pmm.Valid()
    ensures next == 0 ==> pmm.held == old(pmm.held) && pmm.used == old(pmm.used) && pmm.bits[..] == old(pmm.bits[..])
    ensures next != 0 ==>
      && next !in old(pmm.held) && pmm.held == old(pmm.held) + {next} && pmm.used == old(pmm.used) + 1
      && forall f | 0 <= f < Pmm.MAX_FRAMES :: pmm.bits[f] == (old(pmm.bits[f]) || f == next)
    ensures next != 0 ==> next < Pmm.MAX_FRAMES && !old(pmm.bits[next])
    ensures forall f | 0 <= f < if next == 0 then Pmm.MAX_FRAMES else next :: old(pmm.bits[f])
  {
    var addr := pmm.Alloc();
    next := addr / Pmm.PAGE_SIZE;
    if addr != 0 {
      assert forall f | 0 <= f < Pmm.MAX_FRAMES ::
          pmm.bits[f] == pmm.bits[..][f] && old(pmm.bits[..])[f] == old(pmm.bits[f]);
    }
  }

  /** A run that broke off: its frames, and the one that did not fit, go back. */
  method GiveBack(pmm: Pmm.FrameAllocator, first: nat, n: nat, next: nat, ghost held: set<nat>, ghost used: nat,
                  ghost bits: seq<bool>)
    requires pmm.Valid() && |bits| == Pmm.MAX_FRAMES && Range(first, n) !! held && next !in held + Range(first, n)
    requires pmm.held == held + Range(first, n) + (if next == 0 then {} else {next})
    requires pmm.used == used + n + (if next == 0 then 0 else 1)
    requires forall f | 0 <= f < Pmm.MAX_FRAMES ::
               pmm.bits[f] == (bits[f] || f in Range(first, n) || (next != 0 && f == next))
    requires forall f | 0 <= f < Pmm.MAX_FRAMES && (f in Range(first, n) || (next != 0 && f == next)) :: !bits[f]
    modifies pmm`used, pmm`held, pmm.bits
    ensures pmm.Valid() && pmm.held == held && pmm.used == used && pmm.bits[..] == bits
  {
    ReturnFrames(pmm, first, n);
    if next != 0 {
      assert Range(next, 1) == {next};
      ReturnFrames(pmm, next, 1);
    }
  }

  /** The lowest free frame, and as many frames from there on as the pool needs, are free. */
  predicate PoolAt(bits: seq<bool>, first: nat) {
    && first + POOL_PAGES <= |bits| && (forall f | 0 <= f < first :: bits[f])
    && forall f | first <= f < first + POOL_PAGES :: !bits[f]
  }

  /**
    find_contiguous_pool: the 256 frames from the lowest free one on, if they are all free;
    otherwise every bit and the counter are exactly as before.  The result is a page number, 0 for
    failure.
   */
  method FindContiguousPool(pmm: Pmm.FrameAllocator) returns (first: nat)
    requires pmm.Valid()
    modifies pmm`used, pmm`held, pmm.bits
    ensures pmm.Valid()
    ensures first == 0 ==> pmm.bits[..] == old(pmm.bits[..]) && pmm.used == old(pmm.used) && pmm.held == old(pmm.held)
    ensures first == 0 ==> forall f: nat :: !PoolAt(old(pmm.bits[..]), f)
    ensures first != 0 ==> PoolAt(old(pmm.bits[..]), first)
    ensures first != 0 ==>
      && Range(first, POOL_PAGES) !! old(pmm.held) && pmm.held == old(pmm.held) + Range(first, POOL_PAGES)
      && pmm.used == old(pmm.used) + POOL_PAGES
      && forall f | 0 <= f < Pmm.MAX_FRAMES :: pmm.bits[f] == (old(pmm.bits[f]) || f in Range(first, POOL_PAGES))
  {
    ghost var held, used, bits := pmm.held, pmm.used, pmm.bits[..];
    first := TakeFrame(pmm);
    if first == 0 {
      NoPoolFull(bits);
      return;
    }
    var i := 1;
    assert Range(first, 1) == {first};
    while i < POOL_PAGES
      invariant 1 <= i <= POOL_PAGES && first > 0 && Reserved(pmm, held, used, bits, first, i)
    {
      var ok := ReserveNext(pmm, first, i, held, used, bits);
      if !ok {
        return 0;
      }
      i := i + 1;
    }
  }

  /** Exactly the `n` frames from the lowest free one on have been taken. */
  ghost predicate Reserved(pmm: Pmm.FrameAllocator, held: set<nat>, used: nat, bits: seq<bool>, first: nat, n: nat)
    reads pmm, pmm.bits
  {
    && pmm.Valid() && |bits| == Pmm.MAX_FRAMES && first + n <= Pmm.MAX_FRAMES
    && Range(first, n) !! held && pmm.held == held + Range(first, n) && pmm.used == used + n
    && (forall f | 0 <= f < Pmm.MAX_FRAMES :: pmm.bits[f] == (bits[f] || f in Range(first, n)))
    && (forall f | 0 <= f < first :: bits[f]) && (forall f | first <= f < first + n :: !bits[f])
  }

  /** The next frame is taken too, or everything goes back. */
  method ReserveNext(pmm: Pmm.FrameAllocator, first: nat, i: nat, ghost held: set<nat>, ghost used: nat,
                     ghost bits: seq<bool>) returns (ok: bool)
    requires 0 < i < POOL_PAGES && Reserved(pmm, held, used, bits, first, i)
    modifies pmm`used, pmm`held, pmm.bits
    ensures ok ==> Reserved(pmm, held, used, bits, first, i + 1)
    ensures !ok ==> pmm.Valid() && pmm.held == held && pmm.used == used && pmm.bits[..] == bits
    ensures !ok ==> forall f: nat :: !PoolAt(bits, f)
  {
    assert Range(first, i + 1) == Range(first, i) + {first + i};
    var next := TakeFrame(pmm);
    if next == first + i {
      return true;
    }
    NoPool(bits, first, i);
    GiveBack(pmm, first, i, next, held, used, bits);
    return false;
  }

  lemma NoPoolFull(bits: seq<bool>)
    requires forall f | 0 <= f < |bits| :: bits[f]
    ensures forall f: nat :: !PoolAt(bits, f)
  {
    assert forall f: nat | PoolAt(bits, f) :: bits[f];
  }

  /** The frames from the lowest free one on are not all free. */
  lemma NoPool(bits: seq<bool>, first: nat, i: nat)
    requires 0 < i < POOL_PAGES && first + i <= |bits| && (forall f | 0 <= f < first :: bits[f])
    requires (forall f | first <= f < first + i :: !bits[f]) && (first + i < |bits| ==> bits[first + i])
    ensures forall f: nat :: !PoolAt(bits, f)
  {
    forall f: nat
      ensures !PoolAt(bits, f)
    {
      assert f < first && f < |bits| ==> bits[f];
      assert f > first ==> !bits[first];
    }
  }

  class Allocator {
    const entries: array<Entry>
    var count: nat
    var base: nat
    var initialized: bool
    ghost var out: set<Block>
    ghost var lost: bool

    ghost predicate Valid()
      reads this
    {
      entries.Length == MAX_BLOCKS && count <= MAX_BLOCKS && (initialized ==> base > 0)
    }

    ghost function View(): State
      reads this, entries
      requires Valid()
    {
      State(base, entries[..count], out, lost)
    }

    /** buddy_init: reserve the pool, and manage it if that worked. */
    constructor (pmm: Pmm.FrameAllocator)
      requires pmm.Valid()
      modifies pmm`used, pmm`held, pmm.bits
      ensures Valid() && fresh(entries) && pmm.Valid()
      ensures initialized <==> exists first: nat :: PoolAt(old(pmm.bits[..]), first)
      ensures initialized ==> View() == Init(base) && pmm.held == old(pmm.held) + Range(base, POOL_PAGES)
      ensures !initialized ==> pmm.held == old(pmm.held) && pmm.used == old(pmm.used)
    {
      var first := FindContiguousPool(pmm);
      entries := new Entry[MAX_BLOCKS](_ => Entry(Block(first, POOL_ORDER), first != 0));
      base := first;
      initialized := first != 0;
      count := if first != 0 then 1 else 0;
      out, lost := {}, false;
    }

    method FindFreeBlock(page: int, order: nat) returns (index: nat)
      requires Valid()
      ensures index == FindFree(entries[..count], page, order, 0)
    {
      index := 0;
      while index < count
        invariant index <= count
        invariant FindFree(entries[..count], page, order, 0) == FindFree(entries[..count], page, order, index)
      {
        if entries[index].free && entries[index].block.page == page && entries[index].block.order == order {
          return;
        }
        index := index + 1;
      }
    }

    method AddBlock(b: Block) returns (ok: bool)
      requires Valid()
      modifies this`count, this`lost, entries
      ensures Valid() && View() == Add(old(View()), b) && ok == (old(count) < MAX_BLOCKS)
    {
      if count >= MAX_BLOCKS {
        lost := true;
        return false;
      }
      entries[count] := Entry(b, true);
      count := count + 1;
      return true;
    }

    /** The first free entry that is large enough, or `count`. */
    method FindFit(order: nat) returns (i: nat)
      requires Valid()
      ensures i == FirstFit(entries[..count], order, 0)
    {
      i := 0;
      while i < count && !(entries[i].free && entries[i].block.order >= order)
        invariant i <= count && FirstFit(entries[..count], order, 0) == FirstFit(entries[..count], order, i)
      {
        i := i + 1;
      }
    }

    /** Halves entry `i` down to the order wanted, unless the table fills up. */
    method SplitLoop(i: nat, order: nat) returns (ok: bool)
      requires Valid() && FreeAt(View().table, i)
      modifies this`count, this`lost, entries
      ensures Valid() && (View(), ok) == SplitTo(old(View()), i, order)
      ensures ok ==> FreeAt(View().table, i) && i < count
    {
      while entries[i].block.order > order
        invariant Valid() && FreeAt(View().table, i)
        invariant SplitTo(View(), i, order) == SplitTo(old(View()), i, order)
        decreases entries[i].block.order
      {
        ghost var before := View();
        var b := entries[i].block;
        entries[i] := Entry(Block(b.page, b.order - 1), true);
        assert View() == Lower(before, i);
        ok := AddBlock(Block(b.page + Pages(b.order - 1), b.order - 1));
        assert View() == Halve(before, i);
        if !ok {
          return;
        }
      }
      ok := true;
    }

    method AllocBlock(order: nat) returns (page: nat)
      requires Valid()
      modifies this`count, this`lost, this`out, entries
      ensures Valid()
      ensures !initialized ==> page == 0 && View() == old(View())
      ensures initialized ==>
        View() == Alloc(old(View()), order).0
            && page == (match Alloc(old(View()), order).1 case Nothing => 0 case At(p) => p)
      ensures Disjoint(old(View())) ==>
        if page == 0 then out == old(out)
        else Block(page, order) !in old(out) && out == old(out) + {Block(page, order)}
    {
      AllocatedBlock(View(), order);
      if !initialized || order > POOL_ORDER {
        return 0;
      }
      var i := FindFit(order);
      if i == count {
        return 0;
      }
      var ok := SplitLoop(i, order);
      if !ok {
        return 0;
      }
      ghost var t := View();
      entries[i] := Entry(entries[i].block, false);
      out := out + {entries[i].block};
      assert View() == HandOut(t, i);
      return entries[i].block.page;
    }

    method FreeBlock(b: Block)
      requires Valid()
      modifies this`count, this`lost, this`out, entries
      ensures Valid()
      ensures View() == if initialized then Free(old(View()), b) else old(View())
      ensures initialized && Disjoint(old(View())) && b in old(out) ==> out == old(out) - {b}
    {
      if Disjoint(View()) && b in out {
        FreeTakesBack(View(), b);
      }
      if !initialized || b.page < base || b.page >= base + POOL_PAGES || b.order > POOL_ORDER {
        return;
      }
      out := out - {b};
      ghost var s := View();
      var c := b;
      while c.order < POOL_ORDER
        invariant Valid() && c.order <= POOL_ORDER && base == s.base && Coalesce(View(), c) == Coalesce(s, b)
        decreases POOL_ORDER - c.order
      {
        var q := BuddyOf(c.page, c.order);
        if q < base || q >= base + POOL_PAGES {
          break;
        }
        var r := FindFreeBlock(q, c.order);
        if r == count {
          break;
        }
        ghost var before := View();
        entries[r] := Entry(entries[r].block, false);
        assert View() == Absorb(before, r);
        c := Merge(c, entries[r].block.page);
      }
      var ok := AddBlock(c);
    }
  }
}
