/**
 Lists of items in a packet, read one after the other while a 32 bit counter goes down by the
 bytes of each item.  The item type and its reader and writer are parameters.
 */
module ItemList {
  import opened Basics
  import opened Codec

  function ListBytes<T>(f: T -> Bytes, ps: seq<T>): Bytes {
    if ps == [] then [] else f(ps[0]) + ListBytes(f, ps[1..])
  }

  /** Subtraction of 32 bit unsigned integers. */
  function Minus32(a: nat, b: nat): nat { (a - b) % 0x1_0000_0000 }

  /** Read items with r from position pos until the counter is zero. */
  function ReadLoop<T>(r: nat -> Read<T>, limit: nat, pos: nat, len: nat): Read<seq<T>>
    decreases limit - pos
  {
    if len == 0 then Ok([], pos)
    else
      match r(pos)
      case Err(e) => Err(e)
      case Ok(p, mid) =>
        if !(pos < mid <= limit) then Err(Malformed)
        else
          match ReadLoop(r, limit, mid, Minus32(len, mid - pos))
          case Err(e) => Err(e)
          case Ok(ps, end) => Ok([p] + ps, end)
  }

  /** What the reader r finds in s is written there as f writes it, and allowed by ok. */
  ghost predicate Finds<T>(s: Bytes, r: nat -> Read<T>, f: T -> Bytes, ok: T -> bool) {
    forall pos: nat :: r(pos).Ok? ==>
      ok(r(pos).value) && HasAt(s, pos, f(r(pos).value)) && r(pos).pos == pos + |f(r(pos).value)|
  }

  ghost predicate ReadsAt<T>(s: Bytes, r: nat -> Read<T>, f: T -> Bytes, ok: T -> bool, pos: nat, p: T) {
    ok(p) && HasAt(s, pos, f(p)) ==> f(p) != [] && r(pos) == Ok(p, pos + |f(p)|)
  }

  /** What f writes for an allowed item is found by r, and is not empty. */
  ghost predicate Reads<T(!new)>(s: Bytes, r: nat -> Read<T>, f: T -> Bytes, ok: T -> bool) {
    forall pos: nat, p: T :: ReadsAt(s, r, f, ok, pos, p)
  }

  predicate All<T>(ok: T -> bool, ps: seq<T>) {
    if ps == [] then true else ok(ps[0]) && All(ok, ps[1..])
  }

  // ---------------------------------------------------------------- arithmetic

  lemma {:induction false} ModShift(x: int, q: int)
    ensures (x + q * 0x1_0000_0000) % 0x1_0000_0000 == x % 0x1_0000_0000
    decreases if q < 0 then -q else q
  {
    if q > 0 { ModShift(x, q - 1); }
    else if q < 0 { ModShift(x, q + 1); }
  }

  lemma ModMinus(d: int, m: int)
    ensures (d % 0x1_0000_0000 - m) % 0x1_0000_0000 == (d - m) % 0x1_0000_0000
  {
    var q := d / 0x1_0000_0000;
    assert d == q * 0x1_0000_0000 + d % 0x1_0000_0000;
    ModShift(d % 0x1_0000_0000 - m, q);
  }

  lemma SmallMultiple(a: nat, b: nat)
    requires a < TWO_28 && b < TWO_28 && (a - b) % 0x1_0000_0000 == 0
    ensures a == b
  {
  }

  // ---------------------------------------------------------------- lists

  lemma ListCons<T>(f: T -> Bytes, p: T, rest: seq<T>)
    ensures ListBytes(f, [p] + rest) == f(p) + ListBytes(f, rest)
  {
    assert ([p] + rest)[1..] == rest;
  }

  lemma AllCons<T>(ok: T -> bool, p: T, rest: seq<T>)
    ensures All(ok, [p] + rest) <==> ok(p) && All(ok, rest)
  {
    assert ([p] + rest)[1..] == rest;
  }

  lemma {:induction false} ListSnoc<T>(f: T -> Bytes, ps: seq<T>, p: T)
    ensures ListBytes(f, ps + [p]) == ListBytes(f, ps) + f(p)
    decreases |ps|
  {
    if ps == [] {
      ListCons(f, p, []);
      assert ps + [p] == [p] + [];
    } else {
      ListSnoc(f, ps[1..], p);
      ListCons(f, ps[0], ps[1..] + [p]);
      assert ps + [p] == [ps[0]] + (ps[1..] + [p]);
    }
  }

  lemma {:induction false} ListAppend<T>(f: T -> Bytes, a: seq<T>, b: seq<T>)
    ensures ListBytes(f, a + b) == ListBytes(f, a) + ListBytes(f, b)
  {
    if a == [] {
      assert a + b == b;
    } else {
      ListAppend(f, a[1..], b);
      ListCons(f, a[0], a[1..] + b);
      assert a + b == [a[0]] + (a[1..] + b);
      Associates(f(a[0]), ListBytes(f, a[1..]), ListBytes(f, b));
    }
  }

  lemma Associates(a: Bytes, b: Bytes, c: Bytes)
    ensures a + (b + c) == (a + b) + c
  {
  }

  lemma {:induction false} AllAppend<T>(ok: T -> bool, a: seq<T>, b: seq<T>)
    ensures All(ok, a + b) <==> All(ok, a) && All(ok, b)
  {
    if a == [] {
      assert a + b == b;
    } else {
      AllAppend(ok, a[1..], b);
      assert (a + b)[1..] == a[1..] + b;
    }
  }

  /** What the lengths of the first i items, as told by g, add up to in 32 bit arithmetic. */
  function Total<T>(g: T -> nat, ps: seq<T>, i: nat): nat
    requires i <= |ps|
  {
    if i == 0 then 0 else (Total(g, ps, i - 1) + g(ps[i - 1])) % 0x1_0000_0000
  }

  /** g tells the number of bytes f writes. */
  ghost predicate Tells<T>(g: T -> nat, f: T -> Bytes, ps: seq<T>) {
    forall i | 0 <= i < |ps| :: g(ps[i]) == |f(ps[i])|
  }

  lemma {:induction false} TotalOfFirst<T>(g: T -> nat, f: T -> Bytes, ps: seq<T>, i: nat)
    requires i <= |ps| && Tells(g, f, ps)
    ensures Total(g, ps, i) == |ListBytes(f, ps[..i])| % 0x1_0000_0000
  {
    if i > 0 {
      TotalOfFirst(g, f, ps, i - 1);
      ListSnoc(f, ps[..i - 1], ps[i - 1]);
      assert ps[..i] == ps[..i - 1] + [ps[i - 1]];
      WrappedPlus(|ListBytes(f, ps[..i - 1])|, |f(ps[i - 1])|);
    }
  }

  lemma WrappedPlus(a: nat, b: nat)
    ensures (a % 0x1_0000_0000 + b) % 0x1_0000_0000 == (a + b) % 0x1_0000_0000
  {
    ModMinus(a, 0 - b as int);
  }

  lemma TotalIsLength<T>(g: T -> nat, f: T -> Bytes, ps: seq<T>)
    requires Tells(g, f, ps)
    ensures Total(g, ps, |ps|) == |ListBytes(f, ps)| % 0x1_0000_0000
  {
    TotalOfFirst(g, f, ps, |ps|);
    assert ps[..|ps|] == ps;
  }

  /** On success the counter went down by what was read, modulo 2^32. */
  lemma {:induction false} LoopConsumes<T>(s: Bytes, r: nat -> Read<T>, f: T -> Bytes, ok: T -> bool, pos: nat, len: nat)
    requires Finds(s, r, f, ok) && pos <= |s| && ReadLoop(r, |s|, pos, len).Ok?
    ensures
      var ps, end := ReadLoop(r, |s|, pos, len).value, ReadLoop(r, |s|, pos, len).pos;
      && All(ok, ps) && HasAt(s, pos, ListBytes(f, ps)) && end == pos + |ListBytes(f, ps)|
      && (len - |ListBytes(f, ps)|) % 0x1_0000_0000 == 0
    decreases |s| - pos
  {
    if len == 0 {
      assert s[pos..pos] == [];
    } else {
      var p, mid := r(pos).value, r(pos).pos;
      var len' := Minus32(len, mid - pos);
      LoopConsumes(s, r, f, ok, mid, len');
      var rest := ReadLoop(r, |s|, mid, len').value;
      ListCons(f, p, rest);
      AllCons(ok, p, rest);
      HasAtSplit(s, pos, f(p), ListBytes(f, rest));
      ModMinus(len - |f(p)|, |ListBytes(f, rest)|);
    }
  }

  /** With the right length on the counter, the loop reads back what was written. */
  lemma {:induction false} ListIsRead<T(!new)>(s: Bytes, r: nat -> Read<T>, f: T -> Bytes, ok: T -> bool, pos: nat, ps: seq<T>)
    requires Reads(s, r, f, ok) && All(ok, ps) && HasAt(s, pos, ListBytes(f, ps)) && |ListBytes(f, ps)| < TWO_32
    ensures ReadLoop(r, |s|, pos, |ListBytes(f, ps)|) == Ok(ps, pos + |ListBytes(f, ps)|)
    decreases |ps|
  {
    if ps != [] {
      var p, rest := ps[0], ps[1..];
      var a, b := f(p), ListBytes(f, rest);
      HasAtSplit(s, pos, a, b);
      assert ReadsAt(s, r, f, ok, pos, p);
      ListIsRead(s, r, f, ok, pos + |a|, rest);
      assert Minus32(|a + b|, |a|) == |b|;
      assert [p] + rest == ps;
    }
  }

  /** In a packet below 2^28 bytes, a declared length below 2^28 is read exactly. */
  lemma LoopIsExact<T(!new)>(s: Bytes, r: nat -> Read<T>, f: T -> Bytes, ok: T -> bool,
                             pos: nat, len: nat, ps: seq<T>, end: nat)
    requires Finds(s, r, f, ok) && Reads(s, r, f, ok) && |s| < TWO_28 && len < TWO_28 && pos <= |s|
    ensures ReadLoop(r, |s|, pos, len) == Ok(ps, end)
       <==> All(ok, ps) && HasAt(s, pos, ListBytes(f, ps)) && len == |ListBytes(f, ps)| && end == pos + len
  {
    if ReadLoop(r, |s|, pos, len) == Ok(ps, end) {
      LoopConsumes(s, r, f, ok, pos, len);
      SmallMultiple(len, |ListBytes(f, ps)|);
    }
    if All(ok, ps) && HasAt(s, pos, ListBytes(f, ps)) && len == |ListBytes(f, ps)| {
      ListIsRead(s, r, f, ok, pos, ps);
    }
  }

  // ---------------------------------------------------------------- with the length in front

  function Counted<T>(f: T -> Bytes, ps: seq<T>): Bytes {
    Varint(|ListBytes(f, ps)|) + ListBytes(f, ps)
  }

  function ReadCounted<T>(s: Bytes, r: nat -> Read<T>, pos: nat): Read<seq<T>> {
    match ReadVarint(s, pos)
    case Err(e) => Err(e)
    case Ok(len, start) => ReadLoop(r, |s|, start, len)
  }

  /**
   In a packet shorter than 2^28 bytes, reading succeeds exactly on what writing produces for a
   list of allowed items: the same list, in the same order, and exactly the declared number of
   bytes consumed, although the counter can wrap while reading.
   */
  lemma CountedIsExact<T(!new)>(s: Bytes, r: nat -> Read<T>, f: T -> Bytes, ok: T -> bool,
                                pos: nat, ps: seq<T>, end: nat)
    requires Finds(s, r, f, ok) && Reads(s, r, f, ok) && |s| < TWO_28
    ensures ReadCounted(s, r, pos) == Ok(ps, end)
       <==> All(ok, ps) && HasAt(s, pos, Counted(f, ps)) && end == pos + |Counted(f, ps)|
  {
    HasAtSplit(s, pos, Varint(|ListBytes(f, ps)|), ListBytes(f, ps));
    if ReadCounted(s, r, pos) == Ok(ps, end) { CountedFound(s, r, f, ok, pos, ps, end); }
    if All(ok, ps) && HasAt(s, pos, Counted(f, ps)) { CountedRead(s, r, f, ok, pos, ps); }
  }

  lemma CountedFound<T(!new)>(s: Bytes, r: nat -> Read<T>, f: T -> Bytes, ok: T -> bool,
                              pos: nat, ps: seq<T>, end: nat)
    requires Finds(s, r, f, ok) && Reads(s, r, f, ok) && |s| < TWO_28 && ReadCounted(s, r, pos) == Ok(ps, end)
    ensures
      var list := ListBytes(f, ps);
      var start := pos + |Varint(|list|)|;
      All(ok, ps) && HasAt(s, pos, Varint(|list|)) && HasAt(s, start, list) && end == start + |list|
  {
    var len, start := ReadVarint(s, pos).value, ReadVarint(s, pos).pos;
    VarintReaderIsExact(s, pos, len, start);
    LoopIsExact(s, r, f, ok, start, len, ps, end);
  }

  lemma CountedRead<T(!new)>(s: Bytes, r: nat -> Read<T>, f: T -> Bytes, ok: T -> bool, pos: nat, ps: seq<T>)
    requires Finds(s, r, f, ok) && Reads(s, r, f, ok) && |s| < TWO_28 && All(ok, ps)
    requires
      var list := ListBytes(f, ps);
      HasAt(s, pos, Varint(|list|)) && HasAt(s, pos + |Varint(|list|)|, list)
    ensures
      var list := ListBytes(f, ps);
      ReadCounted(s, r, pos) == Ok(ps, pos + |Varint(|list|)| + |list|)
  {
    var list := ListBytes(f, ps);
    var start := pos + |Varint(|list|)|;
    VarintReaderIsExact(s, pos, |list|, start);
    LoopIsExact(s, r, f, ok, start, |list|, ps, start + |list|);
  }
}
