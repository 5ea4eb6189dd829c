/**
 The uthash table: a bucket array that doubles, and a list of all elements in insertion order,
 threaded through the same handles.
 */
module HashTable {
  import opened Basics
  import opened Buckets

  const INITIAL_NUM_BUCKETS := 32
  const INITIAL_NUM_BUCKETS_LOG2 := 5
  const BKT_CAPACITY_THRESH := 10

  // ---------------------------------------------------------------- insertion order

  ghost predicate Nexts(c: seq<Handle>)
    reads c`next
  {
    forall i {:trigger c[i].next} | 0 <= i < |c| :: c[i].next == At(c, i + 1)
  }

  ghost predicate Prevs(c: seq<Handle>)
    reads c`prev
  {
    forall i {:trigger c[i].prev} | 0 <= i < |c| :: c[i].prev == At(c, i - 1)
  }

  ghost predicate Listed(head: Handle?, tail: Handle?, c: seq<Handle>)
    reads c`next, c`prev
  {
    head == At(c, 0) && tail == At(c, |c| - 1) && Distinct(c) && Nexts(c) && Prevs(c)
  }

  /** HASH_APPEND_LIST. */
  method AppendList(head: Handle, tail: Handle, h: Handle, ghost c: seq<Handle>)
    requires Listed(head, tail, c) && h !in c
    modifies h`next, h`prev, c`next
    ensures Listed(head, h, c + [h])
  {
    h.next, h.prev := null, tail;
    tail.next := h;
  }

  method CutNext(before: Handle?, after: Handle?, ghost c: seq<Handle>, ghost k: nat)
    requires Distinct(c) && Nexts(c) && k < |c| && before == At(c, k - 1) && after == At(c, k + 1)
    modifies c`next
    ensures Nexts(Without(c, k))
  {
    if before != null {
      before.next := after;
    }
    WithoutAt(c, k);
  }

  method CutPrev(before: Handle?, after: Handle?, ghost c: seq<Handle>, ghost k: nat)
    requires Distinct(c) && Prevs(c) && k < |c| && before == At(c, k - 1) && after == At(c, k + 1)
    modifies c`prev
    ensures Prevs(Without(c, k))
  {
    if after != null {
      after.prev := before;
    }
    WithoutAt(c, k);
  }

  /** The ends of the list without the element at k. */
  lemma CutEnds(head: Handle?, tail: Handle?, c: seq<Handle>, k: nat)
    requires Listed(head, tail, c) && k < |c|
    ensures
      var d := Without(c, k);
      && Distinct(d)
      && (if c[k].prev == null then c[k].next else head) == At(d, 0)
      && (if c[k] == tail then c[k].prev else tail) == At(d, |d| - 1)
      && c[k].prev == At(c, k - 1) && c[k].next == At(c, k + 1)
  {
    WithoutAt(c, k);
  }

  /** The patch-up of the insertion order in HASH_DELETE_HH; the list has another element. */
  method CutList(head: Handle, tail: Handle, h: Handle, ghost c: seq<Handle>, ghost k: nat) returns (first: Handle?, last: Handle?)
    requires Listed(head, tail, c) && k < |c| && c[k] == h
    modifies c`next, c`prev
    ensures Listed(first, last, Without(c, k))
  {
    CutEnds(head, tail, c, k);
    first, last := head, tail;
    var before, after := h.prev, h.next;
    if h == tail {
      last := before;
    }
    if before == null {
      first := after;
    }
    CutNext(before, after, c, k);
    CutPrev(before, after, c, k);
  }

  // ---------------------------------------------------------------- the table

  /** The elements of the list are those in the buckets. */
  ghost predicate Indexed(chains: seq<seq<Handle>>, c: seq<Handle>) {
    && (forall h | h in c :: |chains| > 0 && h in chains[h.hashv % |chains|])
    && (forall b, j | 0 <= b < |chains| && 0 <= j < |chains[b]| :: chains[b][j] in c)
    && Total(chains) == |c|
  }

  ghost predicate Maps(m: map<Bytes, Handle>, c: seq<Handle>, hash: Bytes -> nat) {
    && (forall h | h in c :: h.hashv == hash(h.key) && h.key in m && m[h.key] == h)
    && (forall k | k in m :: m[k] in c && m[k].key == k)
  }

  lemma MapsAdd(m: map<Bytes, Handle>, c: seq<Handle>, hash: Bytes -> nat, h: Handle)
    requires Maps(m, c, hash) && h.key !in m && h.hashv == hash(h.key)
    ensures Maps(m[h.key := h], c + [h], hash) && h !in c
  {
  }

  lemma MapsRemove(m: map<Bytes, Handle>, c: seq<Handle>, hash: Bytes -> nat, k: nat)
    requires Maps(m, c, hash) && Distinct(c) && k < |c|
    ensures Maps(m - {c[k].key}, Without(c, k), hash)
  {
    WithoutAt(c, k);
    var d := Without(c, k);
    forall x | x in m && x != c[k].key
      ensures m[x] in d
    {
      var i :| 0 <= i < |c| && c[i] == m[x];
      assert if i < k then d[i] == c[i] else d[i - 1] == c[i];
    }
  }

  lemma IndexedAdd(chains: seq<seq<Handle>>, c: seq<Handle>, h: Handle)
    requires Indexed(chains, c) && |chains| > 0
    ensures Indexed(chains[h.hashv % |chains| := [h] + chains[h.hashv % |chains|]], c + [h])
  {
    TotalUpdate(chains, h.hashv % |chains|, [h] + chains[h.hashv % |chains|]);
  }

  lemma IndexedRemove(chains: seq<seq<Handle>>, c: seq<Handle>, k: nat, j: nat)
    requires Indexed(chains, c) && k < |c| && Distinct(c) && |chains| > 0
    requires forall b | 0 <= b < |chains| :: InSlot(chains[b], |chains|, b) && Distinct(chains[b])
    requires j < |chains[c[k].hashv % |chains|]| && chains[c[k].hashv % |chains|][j] == c[k]
    ensures Indexed(chains[c[k].hashv % |chains| := Without(chains[c[k].hashv % |chains|], j)], Without(c, k))
  {
    var b := c[k].hashv % |chains|;
    var after, d := chains[b := Without(chains[b], j)], Without(c, k);
    TotalUpdate(chains, b, Without(chains[b], j));
    WithoutAt(c, k);
    WithoutAt(chains[b], j);
    forall h | h in d
      ensures h in after[h.hashv % |after|]
    {
      InWithout(c, k, h);
      if h.hashv % |chains| == b {
        InWithout(chains[b], j, h);
      }
    }
    forall e, i | 0 <= e < |after| && 0 <= i < |after[e]|
      ensures after[e][i] in d
    {
      var h := after[e][i];
      if e == b {
        InWithout(chains[b], j, h);
      } else {
        assert h == chains[e][i];
        assert InSlot(chains[e], |chains|, e);
      }
      InWithout(c, k, h);
    }
  }

  lemma InWithout(c: seq<Handle>, k: nat, h: Handle)
    requires k < |c| && Distinct(c)
    ensures h in Without(c, k) <==> h in c && h != c[k]
  {
    WithoutAt(c, k);
    if h in c && h != c[k] {
      var i :| 0 <= i < |c| && c[i] == h;
      assert if i < k then Without(c, k)[i] == h else Without(c, k)[i - 1] == h;
    }
  }

  /** An element without neighbours is the only one. */
  lemma OnlyOne(c: seq<Handle>, k: nat)
    requires k < |c| && Nexts(c) && Prevs(c) && c[k].next == null && c[k].prev == null
    ensures c == [c[k]] && k == 0 && Without(c, k) == []
  {
    assert At(c, k + 1) == null && At(c, k - 1) == null;
  }

  lemma ChainInOrder(chains: seq<seq<Handle>>, c: seq<Handle>, b: nat)
    requires Indexed(chains, c) && b < |chains|
    ensures forall x | x in chains[b] :: x in c
  {
  }

  // ---------------------------------------------------------------- doubling

  /** In a walk over the buckets that has come to element k of bucket i, has h been met? */
  ghost predicate Met(src: seq<seq<Handle>>, i: nat, k: nat, h: Handle)
    requires i < |src| ==> k <= |src[i]|
  {
    |src| > 0 && (h.hashv % |src| < i || (h.hashv % |src| == i && i < |src| && h in src[i][..k]))
  }

  /** The elements met are in the new buckets, and no others. */
  ghost predicate Moved(src: seq<seq<Handle>>, i: nat, k: nat, order: seq<Handle>, dst: Buckets)
    requires i < |src| ==> k <= |src[i]|
    requires dst.cells.Length == |dst.chains| > 0
    reads dst
  {
    && (forall h | h in order :: dst.Has(h) <==> Met(src, i, k, h))
    && (forall b, j | 0 <= b < |dst.chains| && 0 <= j < |dst.chains[b]| :: dst.chains[b][j] in order)
  }

  /** The old links of the elements not met yet. */
  ghost predicate Remain(src: seq<seq<Handle>>, i: nat, k: nat)
    requires i < |src| && k <= |src[i]|
    reads set b, j | 0 <= b < |src| && 0 <= j < |src[b]| :: src[b][j]
  {
    && (forall j {:trigger src[i][j].hhNext} | k <= j < |src[i]| :: src[i][j].hhNext == At(src[i], j + 1))
    && (forall b | i < b < |src| :: Forward(src[b]))
  }

  /** The chains of a valid bucket array, apart from their links. */
  ghost predicate Arranged(src: seq<seq<Handle>>, order: seq<Handle>) {
    && |src| > 0 && Indexed(src, order)
    && (forall b | 0 <= b < |src| :: InSlot(src[b], |src|, b) && Distinct(src[b]))
  }

  lemma MetNext(src: seq<seq<Handle>>, order: seq<Handle>, i: nat, k: nat, h: Handle)
    requires Arranged(src, order) && i < |src| && k < |src[i]|
    ensures Met(src, i, k + 1, h) <==> Met(src, i, k, h) || h == src[i][k]
    ensures !Met(src, i, k, src[i][k]) && src[i][k] in order
  {
    assert InSlot(src[i], |src|, i) && Distinct(src[i]);
    assert src[i][..k + 1] == src[i][..k] + [src[i][k]];
  }

  /** One element goes from its old chain to the front of its new one. */
  method Place(h: Handle, dst: Buckets,
               ghost src: seq<seq<Handle>>, ghost order: seq<Handle>, ghost i: nat, ghost k: nat)
    requires Arranged(src, order) && i < |src| && k < |src[i]| && h == src[i][k]
    requires dst.Valid() && Moved(src, i, k, order, dst) && Remain(src, i, k)
    modifies dst, dst.cells, order`hhNext, order`hhPrev
    ensures dst.Valid() && Moved(src, i, k + 1, order, dst) && Remain(src, i, k + 1)
    ensures dst.chains == old(dst.chains)[dst.Slot(h.hashv) := [h] + old(dst.chains[dst.Slot(h.hashv)])]
  {
    MetNext(src, order, i, k, h);
    dst.Push(h);
    forall x | x in order
      ensures dst.Has(x) <==> Met(src, i, k + 1, x)
    {
      MetNext(src, order, i, k, x);
    }
  }

  /** And its new bucket is judged. */
  method Move(h: Handle, dst: Buckets, idealChainMaxlen: nat,
              ghost src: seq<seq<Handle>>, ghost order: seq<Handle>, ghost i: nat, ghost k: nat) returns (nonideal: bool)
    requires Arranged(src, order) && i < |src| && k < |src[i]| && h == src[i][k]
    requires dst.Valid() && Moved(src, i, k, order, dst) && Remain(src, i, k)
    modifies dst, dst.cells, order`hhNext, order`hhPrev
    ensures dst.Valid() && Moved(src, i, k + 1, order, dst) && Remain(src, i, k + 1)
    ensures Total(dst.chains) == old(Total(dst.chains)) + 1
    ensures Excess(dst.chains, idealChainMaxlen) == old(Excess(dst.chains, idealChainMaxlen)) + if nonideal then 1 else 0
  {
    ghost var was, b := dst.chains, dst.Slot(h.hashv);
    TotalUpdate(was, b, [h] + was[b]);
    ExcessUpdate(was, b, [h] + was[b], idealChainMaxlen);
    Place(h, dst, src, order, i, k);
    var bkt := dst.ToBucket(h.hashv);
    nonideal := dst.Raise(bkt, idealChainMaxlen);
  }

  lemma AllArranged(from: Buckets, order: seq<Handle>)
    requires from.Valid() && Indexed(from.chains, order)
    ensures Arranged(from.chains, order) && Remain(from.chains, 0, 0)
    ensures forall b | 0 <= b < |from.chains| :: from.cells[b].head == At(from.chains[b], 0)
  {
    forall b | 0 <= b < |from.chains|
      ensures Good(from.cells[b], from.chains[b], from.cells.Length, b)
    {
      assert from.Sound(b);
    }
  }

  lemma {:induction false} TotalNext(src: seq<seq<Handle>>, i: nat)
    requires i < |src|
    ensures Total(src[..i + 1]) == Total(src[..i]) + |src[i]|
  {
    if i == 0 {
      assert src[..1][1..] == [] && src[..0] == [];
    } else {
      TotalNext(src[1..], i - 1);
      assert src[..i + 1][1..] == src[1..][..i] && src[..i][1..] == src[1..][..i - 1];
    }
  }

  lemma NoneMoved(src: seq<seq<Handle>>, order: seq<Handle>, dst: Buckets)
    requires Arranged(src, order) && dst.Valid() && forall b | 0 <= b < |dst.chains| :: dst.chains[b] == []
    ensures Moved(src, 0, 0, order, dst)
  {
  }

  lemma BucketMoved(src: seq<seq<Handle>>, order: seq<Handle>, i: nat, dst: Buckets)
    requires Arranged(src, order) && i < |src| && dst.Valid() && Moved(src, i, |src[i]|, order, dst)
    ensures Moved(src, i + 1, 0, order, dst)
  {
    assert src[i][..|src[i]|] == src[i];
    forall h | h in order
      ensures Met(src, i, |src[i]|, h) <==> Met(src, i + 1, 0, h)
    {
    }
  }

  lemma AllMoved(src: seq<seq<Handle>>, order: seq<Handle>, dst: Buckets)
    requires Arranged(src, order) && dst.Valid() && Moved(src, |src|, 0, order, dst)
    requires Total(dst.chains) == Total(src)
    ensures Indexed(dst.chains, order)
  {
    forall h | h in order
      ensures h in dst.chains[h.hashv % |dst.chains|]
    {
      assert Met(src, |src|, 0, h);
    }
  }

  /** All of one old bucket. */
  method MoveBucket(first: Handle?, dst: Buckets, idealChainMaxlen: nat, nonidealBefore: nat,
                    ghost src: seq<seq<Handle>>, ghost order: seq<Handle>, ghost i: nat) returns (nonidealItems: nat)
    requires Arranged(src, order) && i < |src| && first == At(src[i], 0)
    requires dst.Valid() && Moved(src, i, 0, order, dst) && Remain(src, i, 0)
    modifies dst, dst.cells, order`hhNext, order`hhPrev
    ensures dst.Valid() && Moved(src, i, |src[i]|, order, dst) && Remain(src, i, |src[i]|)
    ensures Total(dst.chains) == old(Total(dst.chains)) + |src[i]|
    ensures Excess(dst.chains, idealChainMaxlen) - nonidealItems == old(Excess(dst.chains, idealChainMaxlen)) - nonidealBefore
  {
    nonidealItems := nonidealBefore;
    var thh := first;
    ghost var k: nat := 0;
    while thh != null
      invariant k <= |src[i]| && thh == At(src[i], k)
      invariant dst.Valid() && Moved(src, i, k, order, dst) && Remain(src, i, k)
      invariant Total(dst.chains) == old(Total(dst.chains)) + k
      invariant Excess(dst.chains, idealChainMaxlen) - nonidealItems == old(Excess(dst.chains, idealChainMaxlen)) - nonidealBefore
      decreases |src[i]| - k
    {
      var next := thh.hhNext;
      var nonideal := Move(thh, dst, idealChainMaxlen, src, order, i, k);
      if nonideal {
        nonidealItems := nonidealItems + 1;
      }
      thh := next;
      k := k + 1;
    }
  }

  /** The loops of HASH_EXPAND_BUCKETS. */
  method MoveAll(from: Buckets, dst: Buckets, idealChainMaxlen: nat, ghost src: seq<seq<Handle>>, ghost order: seq<Handle>)
      returns (nonidealItems: nat)
    requires Arranged(src, order) && from.cells.Length == |src| && from.cells != dst.cells
    requires forall b | 0 <= b < |src| :: from.cells[b].head == At(src[b], 0)
    requires dst.Valid() && Moved(src, 0, 0, order, dst) && Remain(src, 0, 0)
    requires Total(dst.chains) == 0 && Excess(dst.chains, idealChainMaxlen) == 0
    modifies dst, dst.cells, order`hhNext, order`hhPrev
    ensures dst.Valid() && Moved(src, |src|, 0, order, dst) && Total(dst.chains) == Total(src)
    ensures nonidealItems == Excess(dst.chains, idealChainMaxlen)
  {
    nonidealItems := 0;
    var i := 0;
    while i < from.cells.Length
      invariant i <= |src| && dst.Valid() && Moved(src, i, 0, order, dst)
      invariant i < |src| ==> Remain(src, i, 0)
      invariant Total(dst.chains) == Total(src[..i]) && nonidealItems == Excess(dst.chains, idealChainMaxlen)
    {
      nonidealItems := MoveBucket(from.cells[i].head, dst, idealChainMaxlen, nonidealItems, src, order, i);
      BucketMoved(src, order, i, dst);
      TotalNext(src, i);
      i := i + 1;
    }
    assert src[..|src|] == src;
  }

  function Ceiling(a: nat, b: nat): nat
    requires b > 0
  {
    a / b + if a % b != 0 then 1 else 0
  }

  /** HASH_EXPAND_BUCKETS: twice the buckets, with the same elements. */
  method Double(from: Buckets, numItems: nat, ghost order: seq<Handle>)
      returns (dst: Buckets, idealChainMaxlen: nat, nonidealItems: nat)
    requires from.Valid() && Indexed(from.chains, order)
    modifies order`hhNext, order`hhPrev
    ensures fresh(dst) && fresh(dst.cells) && dst.Valid() && dst.cells.Length == 2 * from.cells.Length
    ensures Indexed(dst.chains, order)
    ensures idealChainMaxlen == Ceiling(numItems, dst.cells.Length)
    ensures nonidealItems == Excess(dst.chains, idealChainMaxlen)
  {
    dst := new Buckets(from.log2 + 1);
    idealChainMaxlen := Ceiling(numItems, 2 * from.cells.Length);
    ExcessEmpty(dst.chains, idealChainMaxlen);
    AllArranged(from, order);
    NoneMoved(from.chains, order, dst);
    nonidealItems := MoveAll(from, dst, idealChainMaxlen, from.chains, order);
    AllMoved(from.chains, order, dst);
  }

  class HashTable {
    const hash: Bytes -> nat
    var head: Handle?
    var tail: Handle?
    var buckets: Buckets
    var numItems: nat
    var log2NumBuckets: nat
    var idealChainMaxlen: nat
    var nonidealItems: nat
    var ineffExpands: nat
    var noexpand: bool

    /** The elements in insertion order, and by key. */
    ghost var order: seq<Handle>
    ghost var m: map<Bytes, Handle>

    /** The buckets hold the elements. */
    ghost predicate Ready()
      reads this`buckets, this`order, this`log2NumBuckets, buckets, buckets.cells, buckets.known`hhNext, buckets.known`hhPrev
    {
      buckets.Valid() && buckets.cells.Length == Pow2(log2NumBuckets) && Indexed(buckets.chains, order)
    }

    ghost predicate Valid()
      reads this, order, buckets, buckets.cells, buckets.known
    {
      && Listed(head, tail, order) && Maps(m, order, hash)
      && (head != null ==> Ready() && numItems == |order|)
    }

    constructor (hash: Bytes -> nat)
      ensures Valid() && this.hash == hash && order == [] && m == map[]
    {
      this.hash, head, tail, order, m := hash, null, null, [], map[];
      buckets := new Buckets(0);
      numItems, log2NumBuckets, idealChainMaxlen, nonidealItems, ineffExpands, noexpand := 0, 0, 0, 0, 0, false;
    }

    /** HASH_FIND: what a map would give. */
    method Find(key: Bytes) returns (out: Handle?)
      requires Valid()
      ensures out == if key in m then m[key] else null
    {
      out := null;
      if head != null {
        out := buckets.Find(key, hash(key));
      }
    }

    /** HASH_MAKE_TABLE. */
    method MakeTable()
      requires order == []
      modifies this`buckets, this`log2NumBuckets, this`numItems, this`idealChainMaxlen, this`nonidealItems,
        this`ineffExpands, this`noexpand
      ensures Ready() && numItems == 0 && fresh(buckets) && fresh(buckets.cells) && buckets.known == {}
      ensures buckets.cells.Length == INITIAL_NUM_BUCKETS && ineffExpands == 0 && !noexpand
    {
      numItems, idealChainMaxlen, nonidealItems, ineffExpands, noexpand := 0, 0, 0, 0, false;
      log2NumBuckets := INITIAL_NUM_BUCKETS_LOG2;
      assert Pow2(3) == 8;
      buckets := new Buckets(INITIAL_NUM_BUCKETS_LOG2);
    }

    /** Was the expansion worth it? After two in a row that were not there are no more. */
    method Judge()
      modifies this`ineffExpands, this`noexpand
      ensures ineffExpands == if nonidealItems > numItems / 2 then old(ineffExpands) + 1 else 0
      ensures noexpand == (old(noexpand) || (nonidealItems > numItems / 2 && old(ineffExpands) >= 1))
    {
      ineffExpands := if nonidealItems > numItems / 2 then ineffExpands + 1 else 0;
      if ineffExpands > 1 {
        noexpand := true;
      }
    }

    /** The new buckets replace the old. */
    method Adopt(dst: Buckets, ideal: nat, nonideal: nat)
      requires dst.Valid() && dst.cells.Length == 2 * Pow2(log2NumBuckets) && Indexed(dst.chains, order)
      modifies this`buckets, this`log2NumBuckets, this`idealChainMaxlen, this`nonidealItems
      ensures Ready() && buckets == dst && log2NumBuckets == old(log2NumBuckets) + 1
      ensures idealChainMaxlen == ideal && nonidealItems == nonideal
    {
      buckets, log2NumBuckets := dst, log2NumBuckets + 1;
      idealChainMaxlen, nonidealItems := ideal, nonideal;
    }

    /** HASH_EXPAND_BUCKETS. */
    method ExpandBuckets()
      requires Ready()
      modifies this`buckets, this`log2NumBuckets, this`idealChainMaxlen, this`nonidealItems, this`ineffExpands, this`noexpand,
        order`hhNext, order`hhPrev
      ensures Ready() && fresh(buckets) && fresh(buckets.cells) && log2NumBuckets == old(log2NumBuckets) + 1
      ensures nonidealItems == Excess(buckets.chains, idealChainMaxlen)
      ensures noexpand == (old(noexpand) || (nonidealItems > numItems / 2 && old(ineffExpands) >= 1))
    {
      var dst, ideal, nonideal := Double(buckets, numItems, order);
      Adopt(dst, ideal, nonideal);
      Judge();
    }

    /** The end of HASH_ADD_TO_BKT: expand if bucket b has reached its limit. */
    method Grow(b: nat)
      requires Ready() && b < buckets.cells.Length
      modifies this`buckets, this`log2NumBuckets, this`idealChainMaxlen, this`nonidealItems, this`ineffExpands, this`noexpand,
        order`hhNext, order`hhPrev
      ensures Ready()
      ensures
        if old(buckets.cells[b].count >= (buckets.cells[b].expandMult + 1) * BKT_CAPACITY_THRESH && !noexpand) then
          fresh(buckets) && fresh(buckets.cells) && log2NumBuckets == old(log2NumBuckets) + 1
        else buckets == old(buckets) && log2NumBuckets == old(log2NumBuckets)
    {
      if buckets.cells[b].count >= (buckets.cells[b].expandMult + 1) * BKT_CAPACITY_THRESH && !noexpand {
        ExpandBuckets();
      }
    }

    /** HASH_ADD_TO_TABLE. */
    method AddToTable(h: Handle)
      requires Ready() && h !in order
      modifies this`order, this`numItems,
        this`buckets, this`log2NumBuckets, this`idealChainMaxlen, this`nonidealItems, this`ineffExpands, this`noexpand,
        buckets, buckets.cells, order`hhNext, order`hhPrev, h`hhNext, h`hhPrev
      ensures Ready() && numItems == old(numItems) + 1 && order == old(order) + [h]
    {
      var bkt := buckets.ToBucket(h.hashv);
      numItems := numItems + 1;
      IndexedAdd(buckets.chains, order, h);
      buckets.Push(h);
      order := order + [h];
      Grow(bkt);
    }

    /** The first element, and a table for it. */
    method BeginOrder(h: Handle)
      requires order == []
      modifies this`head, this`tail, this`buckets, this`log2NumBuckets, this`numItems, this`idealChainMaxlen,
        this`nonidealItems, this`ineffExpands, this`noexpand, h`next, h`prev
      ensures head == h && Listed(head, tail, [h]) && Ready() && numItems == 0 && fresh(buckets) && fresh(buckets.cells)
    {
      h.next, h.prev := null, null;
      MakeTable();
      head, tail := h, h;
    }

    /** The first part of HASH_ADD_KEYPTR_BYHASHVALUE: the insertion order, and a table if there is none. */
    method AppendOrder(h: Handle)
      requires Listed(head, tail, order) && h !in order && (head != null ==> Ready() && numItems == |order|)
      modifies this`head, this`tail, this`buckets, this`log2NumBuckets, this`numItems, this`idealChainMaxlen,
        this`nonidealItems, this`ineffExpands, this`noexpand, order`next, h`next, h`prev
      ensures Listed(head, tail, order + [h]) && head != null && Ready() && numItems == |order|
      ensures if old(head) == null then fresh(buckets) && fresh(buckets.cells) else buckets == old(buckets)
    {
      if head == null {
        BeginOrder(h);
      } else {
        AppendList(head, tail, h, order);
        tail := h;
      }
    }

    method Insert(h: Handle)
      requires Listed(head, tail, order) && h !in order && (head != null ==> Ready() && numItems == |order|)
      modifies this`head, this`tail, this`order, this`buckets, this`log2NumBuckets, this`numItems, this`idealChainMaxlen,
        this`nonidealItems, this`ineffExpands, this`noexpand, order`next, order`hhNext, order`hhPrev, h, buckets, buckets.cells
      ensures order == old(order) + [h]
      ensures Listed(head, tail, order) && head != null && Ready() && numItems == |order|
    {
      ghost var more := order + [h];
      AppendOrder(h);
      assert Listed(head, tail, more);
      AddToTable(h);
      assert order == more;
    }

    /** HASH_ADD: a new key goes to the end of the order. */
    method Add(h: Handle)
      requires Valid() && h.key !in m && h.hashv == hash(h.key)
      modifies this, order, h, buckets, buckets.cells
      ensures Valid() && m == old(m)[h.key := h] && order == old(order) + [h]
    {
      MapsAdd(m, order, hash, h);
      m := m[h.key := h];
      Insert(h);
    }

    /** Take h out of the buckets. */
    method RemoveFromTable(h: Handle, ghost k: nat)
      requires Ready() && Distinct(order) && k < |order| && order[k] == h && numItems == |order|
      modifies this`order, this`numItems, buckets, buckets.cells, order`hhNext, order`hhPrev
      ensures Ready() && order == Without(old(order), k) && numItems == |order|
    {
      ghost var b := buckets.Slot(h.hashv);
      ghost var j :| 0 <= j < |buckets.chains[b]| && buckets.chains[b][j] == h;
      AllArranged(buckets, order);
      ChainInOrder(buckets.chains, order, b);
      IndexedRemove(buckets.chains, order, k, j);
      ghost var rest := Without(order, k);
      buckets.Remove(h, j);
      numItems := numItems - 1;
      order := rest;
    }

    /** The insertion order without h; the buckets do not notice. */
    method CutOrder(h: Handle, ghost k: nat)
      requires Listed(head, tail, order) && k < |order| && order[k] == h
      modifies this`head, this`tail, order`next, order`prev
      ensures Listed(head, tail, Without(order, k))
    {
      var first, last := CutList(head, tail, h, order, k);
      head, tail := first, last;
    }

    /** HASH_DELETE_HH for an element that has a neighbour. */
    method Detach(h: Handle, ghost k: nat)
      requires Listed(head, tail, order) && Ready() && numItems == |order| && k < |order| && order[k] == h
      requires h.prev != null || h.next != null
      modifies this`head, this`tail, this`order, this`numItems, order`next, order`prev, order`hhNext, order`hhPrev,
        buckets, buckets.cells
      ensures Listed(head, tail, order) && Ready() && numItems == |order|
      ensures order == Without(old(order), k)
    {
      ghost var rest := Without(order, k);
      CutOrder(h, k);
      assert Listed(head, tail, rest) && Distinct(order);
      RemoveFromTable(h, k);
      assert order == rest;
    }

    /** HASH_DELETE_HH; with the last element the table goes too. */
    method Unhook(h: Handle, ghost k: nat)
      requires Listed(head, tail, order) && Ready() && numItems == |order| && k < |order| && order[k] == h
      modifies this`head, this`tail, this`order, this`numItems, order`next, order`prev, order`hhNext, order`hhPrev,
        buckets, buckets.cells
      ensures Listed(head, tail, order) && (head != null ==> Ready() && numItems == |order|)
      ensures order == Without(old(order), k)
    {
      if h.prev == null && h.next == null {
        OnlyOne(order, k);
        head, tail, order := null, null, [];
      } else {
        Detach(h, k);
      }
    }

    /** HASH_DELETE: the key goes, and the order of the others stays. */
    method Delete(h: Handle)
      requires Valid() && h in order
      modifies this, order, buckets, buckets.cells
      ensures Valid() && m == old(m) - {h.key}
      ensures exists k | 0 <= k < |old(order)| :: old(order)[k] == h && order == Without(old(order), k)
    {
      ghost var k :| 0 <= k < |order| && order[k] == h;
      MapsRemove(m, order, hash, k);
      m := m - {h.key};
      Unhook(h, k);
    }
  }
}
