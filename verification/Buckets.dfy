/** The bucket array of a uthash table: chains of handles, linked both ways through the handles. */
module Buckets {
  import opened Basics

  /** The hash handle of an element. Its key and hash value do not change while it is in a table. */
  class Handle {
    const key: Bytes
    const hashv: nat
    /** Neighbours in insertion order. */
    var prev: Handle?
    var next: Handle?
    /** Neighbours in the bucket. */
    var hhPrev: Handle?
    var hhNext: Handle?

    constructor (key: Bytes, hashv: nat)
      ensures this.key == key && this.hashv == hashv
    {
      this.key, this.hashv := key, hashv;
      prev, next, hhPrev, hhNext := null, null, null, null;
    }
  }

  datatype Bucket = Bucket(head: Handle?, count: nat, expandMult: nat)

  // ---------------------------------------------------------------- chains

  function At(c: seq<Handle>, i: int): Handle? { if 0 <= i < |c| then c[i] else null }

  predicate Distinct(c: seq<Handle>) { forall i, j | 0 <= i < j < |c| :: c[i] != c[j] }

  predicate Within(c: seq<Handle>, known: set<Handle>) { forall x | x in c :: x in known }

  predicate Disjoint(a: seq<Handle>, b: seq<Handle>) { forall x | x in a :: x !in b }

  ghost function Elements(c: seq<Handle>): set<Handle> { set x | x in c }

  /** The links of a bucket run through c, forwards and back. */
  ghost predicate Chain(head: Handle?, c: seq<Handle>)
    reads c`hhNext, c`hhPrev
  {
    head == At(c, 0) && Distinct(c) && Forward(c) && Backward(c)
  }

  ghost predicate Forward(c: seq<Handle>)
    reads c`hhNext
  {
    forall i {:trigger c[i].hhNext} | 0 <= i < |c| :: c[i].hhNext == At(c, i + 1)
  }

  ghost predicate Backward(c: seq<Handle>)
    reads c`hhPrev
  {
    forall i {:trigger c[i].hhPrev} | 0 <= i < |c| :: c[i].hhPrev == At(c, i - 1)
  }

  /** Bucket b of n, as HASH_FSCK checks it. */
  ghost predicate Good(cell: Bucket, c: seq<Handle>, n: nat, b: nat)
    requires n > 0
    reads c`hhNext, c`hhPrev
  {
    Chain(cell.head, c) && cell.count == |c| && InSlot(c, n, b)
  }

  predicate InSlot(c: seq<Handle>, n: nat, b: nat)
    requires n > 0
  {
    forall i | 0 <= i < |c| :: c[i].hashv % n == b
  }

  /** The pointers of HASH_ADD_TO_BKT. */
  method LinkFront(head: Handle?, h: Handle, ghost c: seq<Handle>)
    requires Chain(head, c) && h !in c
    modifies h`hhNext, h`hhPrev, c`hhPrev
    ensures Chain(h, [h] + c)
  {
    h.hhNext, h.hhPrev := head, null;
    if head != null {
      head.hhPrev := h;
    }
  }

  method CutForward(before: Handle?, after: Handle?, ghost c: seq<Handle>, ghost k: nat)
    requires Distinct(c) && Forward(c) && k < |c| && before == At(c, k - 1) && after == At(c, k + 1)
    modifies c`hhNext
    ensures Forward(Without(c, k))
  {
    if before != null {
      before.hhNext := after;
    }
    WithoutAt(c, k);
  }

  method CutBackward(before: Handle?, after: Handle?, ghost c: seq<Handle>, ghost k: nat)
    requires Distinct(c) && Backward(c) && k < |c| && before == At(c, k - 1) && after == At(c, k + 1)
    modifies c`hhPrev
    ensures Backward(Without(c, k))
  {
    if after != null {
      after.hhPrev := before;
    }
    WithoutAt(c, k);
  }

  /** The pointers of HASH_DEL_IN_BKT. */
  method LinkOut(head: Handle, h: Handle, ghost c: seq<Handle>, ghost k: nat) returns (first: Handle?)
    requires Chain(head, c) && k < |c| && c[k] == h
    modifies c`hhNext, c`hhPrev
    ensures Chain(first, Without(c, k))
  {
    first := head;
    if head == h {
      first := h.hhNext;
    }
    var before, after := h.hhPrev, h.hhNext;
    CutForward(before, after, c, k);
    CutBackward(before, after, c, k);
    WithoutAt(c, k);
  }

  lemma WithoutAt(c: seq<Handle>, k: nat)
    requires k < |c| && Distinct(c)
    ensures var d := Without(c, k);
      && |d| == |c| - 1 && Distinct(d) && c[k] !in d
      && (forall i | 0 <= i < |d| :: d[i] == if i < k then c[i] else c[i + 1])
  {
  }

  lemma WithoutInSlot(c: seq<Handle>, k: nat, n: nat, b: nat)
    requires k < |c| && n > 0 && InSlot(c, n, b)
    ensures InSlot(Without(c, k), n, b)
  {
  }

  function Total(chains: seq<seq<Handle>>): nat {
    if chains == [] then 0 else |chains[0]| + Total(chains[1..])
  }

  lemma {:induction false} TotalUpdate(chains: seq<seq<Handle>>, b: nat, c: seq<Handle>)
    requires b < |chains|
    ensures Total(chains[b := c]) == Total(chains) - |chains[b]| + |c|
  {
    if b == 0 {
      assert chains[0 := c][1..] == chains[1..];
    } else {
      TotalUpdate(chains[1..], b - 1, c);
      assert chains[b := c][1..] == chains[1..][b - 1 := c];
    }
  }

  lemma {:induction false} TotalEmpty(chains: seq<seq<Handle>>)
    requires forall i | 0 <= i < |chains| :: chains[i] == []
    ensures Total(chains) == 0
  {
    if chains != [] {
      TotalEmpty(chains[1..]);
    }
  }

  function Over(n: nat, ideal: nat): nat { if n > ideal then n - ideal else 0 }

  /** Number of elements behind the ideal position in their chain. */
  function Excess(chains: seq<seq<Handle>>, ideal: nat): nat {
    if chains == [] then 0 else Over(|chains[0]|, ideal) + Excess(chains[1..], ideal)
  }

  lemma {:induction false} ExcessUpdate(chains: seq<seq<Handle>>, b: nat, c: seq<Handle>, ideal: nat)
    requires b < |chains|
    ensures Excess(chains[b := c], ideal) == Excess(chains, ideal) - Over(|chains[b]|, ideal) + Over(|c|, ideal)
  {
    if b == 0 {
      assert chains[0 := c][1..] == chains[1..];
    } else {
      ExcessUpdate(chains[1..], b - 1, c, ideal);
      assert chains[b := c][1..] == chains[1..][b - 1 := c];
    }
  }

  lemma {:induction false} ExcessEmpty(chains: seq<seq<Handle>>, ideal: nat)
    requires forall i | 0 <= i < |chains| :: chains[i] == []
    ensures Excess(chains, ideal) == 0
  {
    if chains != [] {
      ExcessEmpty(chains[1..], ideal);
    }
  }

  // ---------------------------------------------------------------- masks

  function Pow2(k: nat): nat { if k == 0 then 1 else 2 * Pow2(k - 1) }

  lemma {:induction false} Pow2Positive(k: nat)
    ensures Pow2(k) > 0
  {
    if k > 0 { Pow2Positive(k - 1); }
  }

  /** The bitwise and. */
  function And(a: nat, b: nat): nat {
    if a == 0 || b == 0 then 0 else 2 * And(a / 2, b / 2) + (if a % 2 == 1 && b % 2 == 1 then 1 else 0)
  }

  lemma HalfRemainder(h: nat, p: nat)
    requires p > 0
    ensures h % (2 * p) == 2 * (h / 2 % p) + h % 2
  {
    var q, r := h / 2 / p, h / 2 % p;
    assert h == (2 * p) * q + (2 * r + h % 2);
    RemainderIs(h, 2 * p, q, 2 * r + h % 2);
  }

  lemma RemainderIs(h: nat, n: nat, q: nat, r: nat)
    requires r < n && h == n * q + r
    ensures h % n == r
  {
    var d := h / n - q;
    assert n * d == r - h % n;
    assert (d >= 1 ==> n * d >= n) && (d <= -1 ==> n * d + n <= 0);
  }

  /** The mask of a power of two takes the remainder. */
  lemma {:induction false} MaskIsRemainder(h: nat, k: nat)
    ensures Pow2(k) > 0 && And(h, Pow2(k) - 1) == h % Pow2(k)
  {
    Pow2Positive(k);
    if k > 0 {
      var p := Pow2(k - 1);
      MaskIsRemainder(h / 2, k - 1);
      HalfRemainder(h, p);
      assert (2 * p - 1) / 2 == p - 1 && (2 * p - 1) % 2 == 1;
    }
  }

  class Buckets {
    const log2: nat
    const cells: array<Bucket>
    ghost var chains: seq<seq<Handle>>
    /** Every handle that has been put in. */
    ghost var known: set<Handle>

    /** Bucket b is as its chain says. */
    ghost predicate Sound(b: nat)
      requires b < |chains| == cells.Length
      reads this, cells, known`hhNext, known`hhPrev
    {
      Within(chains[b], known) && Good(cells[b], chains[b], cells.Length, b)
    }

    ghost predicate Valid()
      reads this, cells, known`hhNext, known`hhPrev
    {
      cells.Length == |chains| == Pow2(log2) > 0 && forall b | 0 <= b < |chains| :: Sound(b)
    }

    ghost function Slot(hashv: nat): nat
      requires cells.Length > 0
      ensures Slot(hashv) < cells.Length
    {
      hashv % cells.Length
    }

    /** HASH_TO_BKT: the bucket by the mask. */
    method ToBucket(hashv: nat) returns (b: nat)
      requires Valid()
      ensures b == Slot(hashv)
    {
      MaskIsRemainder(hashv, log2);
      b := And(hashv, cells.Length - 1);
    }

    ghost predicate Has(h: Handle)
      requires cells.Length == |chains| > 0
      reads this
    {
      h in chains[Slot(h.hashv)]
    }

    constructor (log2: nat)
      ensures Valid() && this.log2 == log2 && fresh(cells) && Total(chains) == 0 && known == {}
      ensures forall b | 0 <= b < cells.Length :: chains[b] == [] && cells[b].expandMult == 0
    {
      Pow2Positive(log2);
      var n := Pow2(log2);
      this.log2 := log2;
      cells := new Bucket[n](_ => Bucket(null, 0, 0));
      chains, known := seq(n, _ => []), {};
      new;
      TotalEmpty(chains);
    }

    /** HASH_FIND_IN_BKT. */
    method Find(key: Bytes, hashv: nat) returns (out: Handle?)
      requires Valid()
      ensures out != null ==> Has(out) && out.key == key && out.hashv == hashv
      ensures out == null ==> forall h | h in chains[Slot(hashv)] :: !(h.key == key && h.hashv == hashv)
    {
      ghost var c := chains[Slot(hashv)];
      assert Sound(Slot(hashv));
      var b := ToBucket(hashv);
      out := cells[b].head;
      ghost var i := 0;
      while out != null
        invariant 0 <= i <= |c| && out == At(c, i)
        invariant forall j | 0 <= j < i :: !(c[j].key == key && c[j].hashv == hashv)
        decreases |c| - i
      {
        if out.hashv == hashv && out.key == key {
          break;
        }
        out := out.hhNext;
        i := i + 1;
      }
    }

    /** Different buckets have no handle in common. */
    lemma Separate(b: nat)
      requires Valid() && b < |chains|
      ensures forall d | 0 <= d < |chains| && d != b :: Disjoint(chains[d], chains[b])
    {
      assert Sound(b);
      forall d | 0 <= d < |chains| && d != b
        ensures Disjoint(chains[d], chains[b])
      {
        assert Sound(d);
      }
    }

    /** A handle that is not in its bucket is in none. */
    lemma InNone(h: Handle)
      requires Valid() && !Has(h)
      ensures forall d | 0 <= d < |chains| :: h !in chains[d]
    {
      forall d | 0 <= d < |chains|
        ensures h !in chains[d]
      {
        assert Sound(d);
      }
    }

    /** All buckets but one are good. */
    ghost predicate Others(b: nat)
      reads this, cells, known`hhNext, known`hhPrev
    {
      cells.Length == |chains| == Pow2(log2) > 0 && forall d | 0 <= d < |chains| && d != b :: Sound(d)
    }

    method Link(h: Handle)
      requires Valid() && !Has(h)
      modifies h`hhNext, h`hhPrev, chains[Slot(h.hashv)]`hhPrev
      ensures Others(Slot(h.hashv)) && Chain(h, [h] + chains[Slot(h.hashv)])
    {
      var b := ToBucket(h.hashv);
      assert Sound(b);
      Separate(b);
      InNone(h);
      LinkFront(cells[b].head, h, chains[b]);
      forall d | 0 <= d < |chains| && d != b
        ensures Sound(d)
      {
        assert old(Sound(d));
      }
    }

    /** Bucket b gets a new head and count, for the chain c. */
    method Store(b: nat, head: Handle?, count: nat, ghost c: seq<Handle>)
      requires Others(b) && b < |chains| && Good(Bucket(head, count, cells[b].expandMult), c, cells.Length, b)
      modifies this`chains, this`known, cells
      ensures Valid() && chains == old(chains)[b := c] && known == old(known) + Elements(c)
      ensures forall d | 0 <= d < cells.Length :: cells[d].expandMult == old(cells[d].expandMult)
    {
      cells[b] := Bucket(head, count, cells[b].expandMult);
      chains, known := chains[b := c], known + Elements(c);
      forall d | 0 <= d < |chains|
        ensures Sound(d)
      {
        if d != b { assert old(Sound(d)); }
      }
    }

    /** Put h in front of its bucket. */
    method Push(h: Handle)
      requires Valid() && !Has(h)
      modifies this`chains, this`known, cells, h`hhNext, h`hhPrev, chains[Slot(h.hashv)]`hhPrev
      ensures Valid() && chains == old(chains)[Slot(h.hashv) := [h] + old(chains[Slot(h.hashv)])]
      ensures known == old(known) + {h}
      ensures forall b | 0 <= b < cells.Length :: cells[b].expandMult == old(cells[b].expandMult)
    {
      var b := ToBucket(h.hashv);
      assert Sound(b);
      Link(h);
      Store(b, h, cells[b].count + 1, [h] + chains[b]);
    }

    method Unlink(h: Handle, ghost k: nat) returns (first: Handle?)
      requires Valid() && k < |chains[Slot(h.hashv)]| && chains[Slot(h.hashv)][k] == h
      modifies chains[Slot(h.hashv)]`hhNext, chains[Slot(h.hashv)]`hhPrev
      ensures Others(Slot(h.hashv)) && Chain(first, Without(chains[Slot(h.hashv)], k))
    {
      var b := ToBucket(h.hashv);
      assert Sound(b);
      Separate(b);
      first := LinkOut(cells[b].head, h, chains[b], k);
      forall d | 0 <= d < |chains| && d != b
        ensures Sound(d)
      {
        assert old(Sound(d));
      }
    }

    /** Take h out of its bucket. */
    method Remove(h: Handle, ghost k: nat)
      requires Valid() && k < |chains[Slot(h.hashv)]| && chains[Slot(h.hashv)][k] == h
      modifies this`chains, this`known, cells, chains[Slot(h.hashv)]`hhNext, chains[Slot(h.hashv)]`hhPrev
      ensures Valid() && chains == old(chains)[Slot(h.hashv) := Without(old(chains[Slot(h.hashv)]), k)]
      ensures known == old(known)
    {
      var b := ToBucket(h.hashv);
      assert Sound(b);
      ghost var rest := Without(chains[b], k);
      WithoutInSlot(chains[b], k, cells.Length, b);
      var first := Unlink(h, k);
      Store(b, first, cells[b].count - 1, rest);
    }

    /** The count of bucket b has gone up during an expansion: is its last item behind the ideal length? */
    method Raise(b: nat, idealChainMaxlen: nat) returns (nonideal: bool)
      requires Valid() && b < cells.Length
      modifies cells
      ensures Valid() && nonideal == (|chains[b]| > idealChainMaxlen)
      ensures forall d | 0 <= d < cells.Length && d != b :: cells[d] == old(cells[d])
      ensures
        var mult := old(cells[b].expandMult);
        cells[b].expandMult == if nonideal && |chains[b]| > mult * idealChainMaxlen then mult + 1 else mult
    {
      assert Sound(b);
      nonideal := cells[b].count > idealChainMaxlen;
      if nonideal && cells[b].count > cells[b].expandMult * idealChainMaxlen {
        cells[b] := cells[b].(expandMult := cells[b].expandMult + 1);
      }
      forall d | 0 <= d < |chains|
        ensures Sound(d)
      {
        assert old(Sound(d));
      }
    }
  }
}
