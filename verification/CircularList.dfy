// The kernel's intrusive doubly linked list (include/ds/list.h): a list_head is
// two adjacent words, `next` and `prev`, stored inside the structure it links.
// A list is described by its ring: the head followed by the entries in order.

module CircularList {
  import opened Words
  import opened Memory

  const LINK_SIZE := 8

  predicate Addressable(n: int) {
    0 <= n <= WORD_SIZE - LINK_SIZE
  }

  function Next(m: Bytes): int -> int {
    n => if Addressable(n) then Load32(m, n) else -1
  }

  function Prev(m: Bytes): int -> int {
    n => if Addressable(n) then Load32(m, n + 4) else -1
  }

  predicate Apart(a: int, b: int) {
    a + LINK_SIZE <= b || b + LINK_SIZE <= a
  }

  // The nodes of a ring are addressable and do not overlap.
  ghost predicate Nodes(r: seq<int>) {
    && (forall i | 0 <= i < |r| :: Addressable(r[i]))
    && (forall i, j | 0 <= i < |r| && 0 <= j < |r| && i != j :: Apart(r[i], r[j]))
  }

  function Succ(r: seq<int>, i: int): int {
    if i + 1 == |r| then 0 else i + 1
  }

  // Node i points forward to its successor, and that one points back to it.
  ghost predicate Linked(next: int -> int, prev: int -> int, r: seq<int>, i: int)
    requires 0 <= i < |r|
  {
    next(r[i]) == r[Succ(r, i)] && prev(r[Succ(r, i)]) == r[i]
  }

  ghost predicate Cycle(next: int -> int, prev: int -> int, r: seq<int>) {
    |r| > 0 && forall i | 0 <= i < |r| :: Linked(next, prev, r, i)
  }

  ghost predicate Ring(m: Bytes, r: seq<int>) {
    Nodes(r) && Cycle(Next(m), Prev(m), r)
  }

  // ----- Links as functions, whatever memory they come from -----

  function Inserted(r: seq<int>, i: int, entry: int): seq<int>
    requires 0 <= i < |r|
  {
    r[..i + 1] + [entry] + r[i + 1..]
  }

  lemma InsertCycle(next: int -> int, prev: int -> int, next': int -> int, prev': int -> int,
                    r: seq<int>, i: int, entry: int)
    requires Cycle(next, prev, r) && 0 <= i < |r|
    requires next'(r[i]) == entry && prev'(entry) == r[i]
    requires next'(entry) == r[Succ(r, i)] && prev'(r[Succ(r, i)]) == entry
    requires forall k | 0 <= k < |r| && k != i :: next'(r[k]) == next(r[k])
    requires forall k | 0 <= k < |r| && k != Succ(r, i) :: prev'(r[k]) == prev(r[k])
    ensures Cycle(next', prev', Inserted(r, i, entry))
  {
    var q := Inserted(r, i, entry);
    forall k | 0 <= k < |q| ensures Linked(next', prev', q, k) {
      if k < i {
        assert Linked(next, prev, r, k);
      } else if k > i + 1 {
        assert Linked(next, prev, r, k - 1);
      }
    }
  }

  lemma RemoveCycle(next: int -> int, prev: int -> int, next': int -> int, prev': int -> int,
                    r: seq<int>, i: int)
    requires Cycle(next, prev, r) && 0 < i < |r|
    requires next'(r[i - 1]) == r[Succ(r, i)] && prev'(r[Succ(r, i)]) == r[i - 1]
    requires forall k | 0 <= k < |r| && k != i - 1 :: next'(r[k]) == next(r[k])
    requires forall k | 0 <= k < |r| && k != Succ(r, i) :: prev'(r[k]) == prev(r[k])
    ensures Cycle(next', prev', r[..i] + r[i + 1..])
  {
    var q := r[..i] + r[i + 1..];
    forall k | 0 <= k < |q| ensures Linked(next', prev', q, k) {
      if k < i - 1 {
        assert Linked(next, prev, r, k);
      } else if k >= i {
        assert Linked(next, prev, r, k + 1);
      }
    }
  }

  lemma SpliceCycle(next: int -> int, prev: int -> int, next': int -> int, prev': int -> int,
                    r: seq<int>, t: seq<int>)
    requires Cycle(next, prev, r) && Cycle(next, prev, t) && |t| > 1
    requires next'(r[0]) == t[1] && prev'(t[1]) == r[0]
    requires next'(t[|t| - 1]) == r[Succ(r, 0)] && prev'(r[Succ(r, 0)]) == t[|t| - 1]
    requires forall k | 0 < k < |r| :: next'(r[k]) == next(r[k])
    requires forall k | 0 <= k < |r| && k != Succ(r, 0) :: prev'(r[k]) == prev(r[k])
    requires forall k | 0 < k < |t| - 1 :: next'(t[k]) == next(t[k])
    requires forall k | 1 < k < |t| :: prev'(t[k]) == prev(t[k])
    ensures Cycle(next', prev', [r[0]] + t[1..] + r[1..])
  {
    var z := |t| - 1;
    var q := [r[0]] + t[1..] + r[1..];
    assert forall k | 0 <= k < |q| :: q[k] == if k == 0 then r[0] else if k <= z then t[k] else r[k - z];
    forall k | 0 <= k < |q| ensures Linked(next', prev', q, k) {
      if 0 < k < z {
        assert Linked(next, prev, t, k);
      } else if k > z {
        assert Linked(next, prev, r, k - z);
      }
    }
  }

  // ----- The same over a memory -----

  // A ring survives every change of memory that spares its link words.
  lemma RingFrame(m: Bytes, n: Bytes, r: seq<int>)
    requires Ring(m, r)
    requires forall i | 0 <= i < |r| :: Same(m, n, r[i], r[i] + LINK_SIZE)
    ensures Ring(n, r)
  {
    forall i | 0 <= i < |r| ensures Next(n)(r[i]) == Next(m)(r[i]) && Prev(n)(r[i]) == Prev(m)(r[i]) {
      assert Addressable(r[i]) && Same(m, n, r[i], r[i] + LINK_SIZE);
      LoadFrame(m, n, r[i]);
      LoadFrame(m, n, r[i] + 4);
    }
    forall i | 0 <= i < |r| ensures Linked(Next(n), Prev(n), r, i) {
      assert Linked(Next(m), Prev(m), r, i);
    }
  }

  // Storing one link word changes that link and no link of another node.
  lemma SetNextEffect(m: Bytes, n: u32, w: u32, x: int)
    requires Addressable(n) && Separate(x, n)
    ensures Next(Put32(m, n, w))(x) == (if x == n then w else Next(m)(x))
    ensures Prev(Put32(m, n, w))(x) == Prev(m)(x)
  {
    if Addressable(x) {
      PutSpares(m, n, w, x + 4);
      if x != n { PutSpares(m, n, w, x); }
    }
  }

  lemma SetPrevEffect(m: Bytes, n: u32, w: u32, x: int)
    requires Addressable(n) && Separate(x, n)
    ensures Prev(Put32(m, n + 4, w))(x) == (if x == n then w else Prev(m)(x))
    ensures Next(Put32(m, n + 4, w))(x) == Next(m)(x)
  {
    if Addressable(x) {
      PutSpares(m, n + 4, w, x);
      if x != n { PutSpares(m, n + 4, w, x + 4); }
    }
  }

  predicate Separate(x: int, a: int) {
    x == a || Apart(x, a)
  }

  // How linking an entry between two neighbours changes the links of node x.
  ghost predicate AddEffect(m: Bytes, n: Bytes, entry: int, prev: int, next: int, x: int) {
    && Next(n)(x) == (if x == prev then entry else if x == entry then next else Next(m)(x))
    && Prev(n)(x) == (if x == next then entry else if x == entry then prev else Prev(m)(x))
  }

  // How unlinking the nodes between two others changes the links of node x.
  ghost predicate DelEffect(m: Bytes, n: Bytes, prev: int, next: int, x: int) {
    && Next(n)(x) == (if x == prev then next else Next(m)(x))
    && Prev(n)(x) == (if x == next then prev else Prev(m)(x))
  }

  lemma AddInserts(m: Bytes, n: Bytes, r: seq<int>, i: int, entry: int)
    requires Ring(m, r) && 0 <= i < |r| && Nodes(r + [entry])
    requires forall x | Separate(x, entry) && Separate(x, r[i]) && Separate(x, r[Succ(r, i)])
               :: AddEffect(m, n, entry, r[i], r[Succ(r, i)], x)
    ensures Ring(n, Inserted(r, i, entry))
  {
    InsertedNodes(r, i, entry);
    NodesApart(r, entry);
    var j := Succ(r, i);
    forall k | 0 <= k < |r|
      ensures k != i ==> Next(n)(r[k]) == Next(m)(r[k])
      ensures k != j ==> Prev(n)(r[k]) == Prev(m)(r[k])
    {
      assert k != i ==> Apart(r[k], r[i]);
      assert k != j ==> Apart(r[k], r[j]);
      assert AddEffect(m, n, entry, r[i], r[j], r[k]);
    }
    assert AddEffect(m, n, entry, r[i], r[j], entry);
    assert Separate(r[i], r[j]) && Separate(r[j], r[i]);
    assert AddEffect(m, n, entry, r[i], r[j], r[i]) && AddEffect(m, n, entry, r[i], r[j], r[j]);
    InsertCycle(Next(m), Prev(m), Next(n), Prev(n), r, i, entry);
  }

  lemma InsertedNodes(r: seq<int>, i: int, entry: int)
    requires 0 <= i < |r| && Nodes(r + [entry])
    ensures Nodes(Inserted(r, i, entry))
  {
    PermutedNodes(r + [entry], Inserted(r, i, entry), k => if k <= i then k else if k == i + 1 then |r| else k - 1);
  }

  lemma DelRemoves(m: Bytes, n: Bytes, r: seq<int>, i: int)
    requires Ring(m, r) && 0 < i < |r|
    requires forall x | Separate(x, r[i - 1]) && Separate(x, r[Succ(r, i)]) ::
               DelEffect(m, n, r[i - 1], r[Succ(r, i)], x)
    ensures Ring(n, r[..i] + r[i + 1..])
  {
    forall k | 0 <= k < |r| ensures DelEffect(m, n, r[i - 1], r[Succ(r, i)], r[k]) {
      assert Separate(r[k], r[i - 1]) && Separate(r[k], r[Succ(r, i)]);
    }
    RemoveCycle(Next(m), Prev(m), Next(n), Prev(n), r, i);
    PermutedNodes(r, r[..i] + r[i + 1..], k => if k < i then k else k + 1);
  }

  // Nodes keep apart when they are picked, each at most once, from apart ones.
  lemma PermutedNodes(r: seq<int>, q: seq<int>, from: int -> int)
    requires Nodes(r)
    requires forall k | 0 <= k < |q| :: 0 <= from(k) < |r| && q[k] == r[from(k)]
    requires forall k, l | 0 <= k < |q| && 0 <= l < |q| && k != l :: from(k) != from(l)
    ensures Nodes(q)
  {
  }

  lemma NodesApart(r: seq<int>, entry: int)
    requires Nodes(r + [entry])
    ensures Nodes(r) && Addressable(entry)
    ensures forall k | 0 <= k < |r| :: Apart(r[k], entry) && Apart(entry, r[k])
  {
    assert (r + [entry])[|r|] == entry;
    assert forall k | 0 <= k < |r| :: (r + [entry])[k] == r[k];
  }

  // What the head's own links say, and that no entry is mistaken for the head.
  lemma HeadReads(m: Bytes, r: seq<int>)
    requires Ring(m, r)
    ensures Addressable(r[0]) && Addressable(r[|r| - 1]) && Addressable(r[Succ(r, 0)])
    ensures Next(m)(r[0]) == r[Succ(r, 0)] && Prev(m)(r[0]) == r[|r| - 1]
    ensures forall k | 0 < k < |r| :: r[k] != r[0]
  {
    assert Linked(Next(m), Prev(m), r, 0) && Linked(Next(m), Prev(m), r, |r| - 1);
    forall k | 0 < k < |r| ensures r[k] != r[0] {
      assert Apart(r[0], r[k]);
    }
  }

  // ----- The operations -----

  method ReadNext(mem: array<u8>, n: u32) returns (w: u32)
    requires mem.Length == WORD_SIZE && Addressable(n)
    ensures w == Next(mem[..])(n)
  {
    w := Read32(mem, n);
  }

  method ReadPrev(mem: array<u8>, n: u32) returns (w: u32)
    requires mem.Length == WORD_SIZE && Addressable(n)
    ensures w == Prev(mem[..])(n)
  {
    w := Read32(mem, n + 4);
  }

  method InitListHead(mem: array<u8>, n: u32)
    requires mem.Length == WORD_SIZE && Addressable(n)
    modifies mem
    ensures Ring(mem[..], [n])
    ensures Outside(old(mem[..]), mem[..], n, n, n)
  {
    Store32(mem, n, n);
    ghost var m := mem[..];
    Store32(mem, n + 4, n);
    PutSpares(m, n + 4, n, n);
    assert Linked(Next(mem[..]), Prev(mem[..]), [n as int], 0);
  }

  // No byte outside three list_head structures has changed.
  ghost predicate Outside(m: Bytes, n: Bytes, a: int, b: int, c: int) {
    forall i | 0 <= i < WORD_SIZE && !(a <= i < a + LINK_SIZE) && !(b <= i < b + LINK_SIZE) && !(c <= i < c + LINK_SIZE)
      :: n[i] == m[i]
  }

  method ListAddBetween(mem: array<u8>, entry: u32, prev: u32, next: u32)
    requires mem.Length == WORD_SIZE && Addressable(entry) && Addressable(prev) && Addressable(next)
    requires Apart(entry, prev) && Apart(entry, next)
    modifies mem
    ensures forall x | Separate(x, entry) && Separate(x, prev) && Separate(x, next)
              :: AddEffect(old(mem[..]), mem[..], entry, prev, next, x)
    ensures Outside(old(mem[..]), mem[..], entry, prev, next)
  {
    ghost var m0 := mem[..];
    Store32(mem, next + 4, entry);
    ghost var m1 := mem[..];
    Store32(mem, entry, next);
    ghost var m2 := mem[..];
    Store32(mem, entry + 4, prev);
    ghost var m3 := mem[..];
    Store32(mem, prev, entry);
    AddSteps(m0, m1, m2, m3, mem[..], entry, prev, next);
  }

  lemma AddSteps(m0: Bytes, m1: Bytes, m2: Bytes, m3: Bytes, m4: Bytes, entry: u32, prev: u32, next: u32)
    requires Addressable(entry) && Addressable(prev) && Addressable(next)
    requires Apart(entry, prev) && Apart(entry, next)
    requires m1 == Put32(m0, next + 4, entry) && m2 == Put32(m1, entry, next)
    requires m3 == Put32(m2, entry + 4, prev) && m4 == Put32(m3, prev, entry)
    ensures forall x | Separate(x, entry) && Separate(x, prev) && Separate(x, next)
              :: AddEffect(m0, m4, entry, prev, next, x)
  {
    forall x | Separate(x, entry) && Separate(x, prev) && Separate(x, next)
      ensures AddEffect(m0, m4, entry, prev, next, x)
    {
      SetPrevEffect(m0, next, entry, x);
      SetNextEffect(m1, entry, next, x);
      SetPrevEffect(m2, entry, prev, x);
      SetNextEffect(m3, prev, entry, x);
    }
  }

  // list_add(entry, head): the entry becomes the first one.
  method ListAdd(mem: array<u8>, entry: u32, head: u32, ghost s: seq<int>)
    requires mem.Length == WORD_SIZE && Ring(mem[..], [head] + s) && Nodes([head] + s + [entry])
    modifies mem
    ensures Ring(mem[..], [head] + ([entry] + s))
    ensures Outside(old(mem[..]), mem[..], entry, head, ([head] + s)[Succ([head] + s, 0)])
  {
    ghost var r := [head] + s;
    assert r[0] == head && Linked(Next(mem[..]), Prev(mem[..]), r, 0);
    NodesApart(r, entry);
    var next := ReadNext(mem, head);
    ListAddBetween(mem, entry, head, next);
    AddInserts(old(mem[..]), mem[..], r, 0, entry);
    assert Inserted(r, 0, entry) == [head] + ([entry] + s);
  }

  // list_add_tail(entry, head): the entry becomes the last one.
  method ListAddTail(mem: array<u8>, entry: u32, head: u32, ghost s: seq<int>)
    requires mem.Length == WORD_SIZE && Ring(mem[..], [head] + s) && Nodes([head] + s + [entry])
    modifies mem
    ensures Ring(mem[..], [head] + (s + [entry]))
    ensures Outside(old(mem[..]), mem[..], entry, head, ([head] + s)[|s|])
  {
    ghost var r := [head] + s;
    assert r[0] == head && Linked(Next(mem[..]), Prev(mem[..]), r, |s|);
    NodesApart(r, entry);
    var prev := ReadPrev(mem, head);
    ListAddBetween(mem, entry, prev, head);
    AddInserts(old(mem[..]), mem[..], r, |s|, entry);
    assert Inserted(r, |s|, entry) == [head] + (s + [entry]);
  }

  // __list_del
  method ListDelBetween(mem: array<u8>, prev: u32, next: u32)
    requires mem.Length == WORD_SIZE && Addressable(prev) && Addressable(next)
    modifies mem
    ensures forall x | Separate(x, prev) && Separate(x, next) :: DelEffect(old(mem[..]), mem[..], prev, next, x)
    ensures Outside(old(mem[..]), mem[..], prev, prev, next)
  {
    Store32(mem, next + 4, prev);
    ghost var m1 := mem[..];
    Store32(mem, prev, next);
    DelSteps(old(mem[..]), m1, mem[..], prev, next);
  }

  lemma DelSteps(m0: Bytes, m1: Bytes, m2: Bytes, prev: u32, next: u32)
    requires Addressable(prev) && Addressable(next)
    requires m1 == Put32(m0, next + 4, prev) && m2 == Put32(m1, prev, next)
    ensures forall x | Separate(x, prev) && Separate(x, next) :: DelEffect(m0, m2, prev, next, x)
  {
    forall x | Separate(x, prev) && Separate(x, next) ensures DelEffect(m0, m2, prev, next, x) {
      SetPrevEffect(m0, next, prev, x);
      SetNextEffect(m1, prev, next, x);
    }
  }

  // list_del(entry): the entry, wherever it is, leaves the sequence.
  method ListDel(mem: array<u8>, entry: u32, ghost head: u32, ghost s: seq<int>, ghost i: nat)
    requires mem.Length == WORD_SIZE && Ring(mem[..], [head] + s)
    requires i < |s| && s[i] == entry
    modifies mem
    ensures Ring(mem[..], [head] + (s[..i] + s[i + 1..]))
    ensures Outside(old(mem[..]), mem[..], ([head] + s)[i], ([head] + s)[i], ([head] + s)[Succ([head] + s, i + 1)])
  {
    ghost var r := [head] + s;
    ghost var m := mem[..];
    NodeReads(m, r, i, i + 1, entry);
    hide Ring, DelEffect;
    var prev := ReadPrev(mem, entry);
    var next := ReadNext(mem, entry);
    ListDelBetween(mem, prev, next);
    DelRemoves(m, mem[..], r, i + 1);
    assert r[..i + 1] + r[i + 2..] == [head] + (s[..i] + s[i + 1..]);
  }

  // What a node's links hold.
  lemma NodeReads(m: Bytes, r: seq<int>, i: nat, j: nat, entry: int)
    requires Ring(m, r) && j == i + 1 < |r| && r[j] == entry
    ensures Addressable(entry) && Addressable(r[i]) && Addressable(r[Succ(r, j)])
    ensures Load32(m, entry + 4) == r[i] && Load32(m, entry) == r[Succ(r, j)]
  {
    assert Linked(Next(m), Prev(m), r, i) && Linked(Next(m), Prev(m), r, j);
    hide Load32;
  }

  method ListEmpty(mem: array<u8>, head: u32, ghost s: seq<int>) returns (empty: bool)
    requires mem.Length == WORD_SIZE && Ring(mem[..], [head] + s)
    ensures empty <==> s == []
  {
    ghost var r := [head] + s;
    assert r[0] == head && Linked(Next(mem[..]), Prev(mem[..]), r, 0);
    var next := ReadNext(mem, head);
    empty := next == head;
  }

  // list_splice(list, head): the entries of one list move, in order, to the
  // front of the other; nothing happens when there are none.
  method ListSplice(mem: array<u8>, list: u32, head: u32, ghost t: seq<int>, ghost s: seq<int>)
    requires mem.Length == WORD_SIZE
    requires Ring(mem[..], [list] + t) && Ring(mem[..], [head] + s)
    requires Nodes([head] + s + ([list] + t))
    modifies mem
    ensures Ring(mem[..], [head] + (t + s))
    ensures t == [] ==> mem[..] == old(mem[..])
    ensures t != [] ==>
              OutsideFour(old(mem[..]), mem[..], t[0], t[|t| - 1], head, ([head] + s)[Succ([head] + s, 0)])
  {
    ghost var q, r := [list] + t, [head] + s;
    HeadReads(mem[..], q);
    HeadReads(mem[..], r);
    var first := ReadNext(mem, list);
    if first != list {
      var last := ReadPrev(mem, list);
      var at := ReadNext(mem, head);
      LinkSpliced(mem, first, last, head, at, r, q);
      assert [head] + q[1..] + r[1..] == [head] + (t + s);
    } else {
      assert [head] + (t + s) == r;
    }
  }

  // The four stores of list_splice.
  method LinkSpliced(mem: array<u8>, first: u32, last: u32, head: u32, at: u32, ghost r: seq<int>, ghost t: seq<int>)
    requires mem.Length == WORD_SIZE && Ring(mem[..], r) && Ring(mem[..], t) && |t| > 1 && Nodes(r + t)
    requires first == t[1] && last == t[|t| - 1] && head == r[0] && at == r[Succ(r, 0)]
    modifies mem
    ensures Ring(mem[..], [r[0]] + t[1..] + r[1..])
    ensures OutsideFour(old(mem[..]), mem[..], first, last, head, at)
  {
    ghost var m0 := mem[..];
    Store32(mem, first + 4, head);
    ghost var m1 := mem[..];
    Store32(mem, head, first);
    ghost var m2 := mem[..];
    Store32(mem, last, at);
    ghost var m3 := mem[..];
    Store32(mem, at + 4, last);
    SplicedNodes(r, t);
    forall k | 0 < k < |t| ensures SpliceEffect(m0, mem[..], first, last, head, at, t[k]) {
      SpliceStep(m0, m1, m2, m3, mem[..], first, last, head, at, t[k]);
    }
    forall k | 0 <= k < |r| ensures SpliceEffect(m0, mem[..], first, last, head, at, r[k]) {
      SpliceStep(m0, m1, m2, m3, mem[..], first, last, head, at, r[k]);
    }
    SpliceInserts(m0, mem[..], r, t);
    SpliceOutside(m0, m1, m2, m3, mem[..], first, last, head, at);
    hide Ring, SpliceEffect, OutsideFour;
  }

  // No byte outside four list_head structures has changed.
  ghost predicate OutsideFour(m: Bytes, n: Bytes, a: int, b: int, c: int, d: int) {
    forall i | 0 <= i < WORD_SIZE && !(a <= i < a + LINK_SIZE) && !(b <= i < b + LINK_SIZE)
               && !(c <= i < c + LINK_SIZE) && !(d <= i < d + LINK_SIZE)
      :: n[i] == m[i]
  }

  lemma SpliceOutside(m0: Bytes, m1: Bytes, m2: Bytes, m3: Bytes, m4: Bytes,
                      first: u32, last: u32, head: u32, at: u32)
    requires Addressable(first) && Addressable(last) && Addressable(head) && Addressable(at)
    requires m1 == Put32(m0, first + 4, head) && m2 == Put32(m1, head, first)
    requires m3 == Put32(m2, last, at) && m4 == Put32(m3, at + 4, last)
    ensures OutsideFour(m0, m4, first, last, head, at)
  {
    hide Put32;
  }

  ghost predicate SpliceEffect(m: Bytes, n: Bytes, first: int, last: int, head: int, at: int, x: int) {
    && Next(n)(x) == (if x == head then first else if x == last then at else Next(m)(x))
    && Prev(n)(x) == (if x == first then head else if x == at then last else Prev(m)(x))
  }

  lemma SpliceStep(m0: Bytes, m1: Bytes, m2: Bytes, m3: Bytes, m4: Bytes,
                   first: u32, last: u32, head: u32, at: u32, x: int)
    requires Addressable(first) && Addressable(last) && Addressable(head) && Addressable(at)
    requires head != last && first != at
    requires m1 == Put32(m0, first + 4, head) && m2 == Put32(m1, head, first)
    requires m3 == Put32(m2, last, at) && m4 == Put32(m3, at + 4, last)
    requires Separate(x, first) && Separate(x, last) && Separate(x, head) && Separate(x, at)
    ensures SpliceEffect(m0, m4, first, last, head, at, x)
  {
    SetPrevEffect(m0, first, head, x);
    SetNextEffect(m1, head, first, x);
    SetNextEffect(m2, last, at, x);
    SetPrevEffect(m3, at, last, x);
  }

  lemma SpliceInserts(m: Bytes, n: Bytes, r: seq<int>, t: seq<int>)
    requires Ring(m, r) && Ring(m, t) && |t| > 1 && Nodes(r + t)
    requires forall k | 0 < k < |t| :: SpliceEffect(m, n, t[1], t[|t| - 1], r[0], r[Succ(r, 0)], t[k])
    requires forall k | 0 <= k < |r| :: SpliceEffect(m, n, t[1], t[|t| - 1], r[0], r[Succ(r, 0)], r[k])
    ensures Ring(n, [r[0]] + t[1..] + r[1..])
  {
    SplicedNodes(r, t);
    var z, j := |t| - 1, Succ(r, 0);
    forall k | 0 < k < |t|
      ensures k != z ==> Next(n)(t[k]) == Next(m)(t[k])
      ensures k != 1 ==> Prev(n)(t[k]) == Prev(m)(t[k])
    {
      assert SpliceEffect(m, n, t[1], t[z], r[0], r[j], t[k]);
      assert Apart(r[0], t[k]) && Apart(r[j], t[k]);
      assert (k != z ==> Apart(t[k], t[z])) && (k != 1 ==> Apart(t[k], t[1]));
    }
    forall k | 0 <= k < |r|
      ensures k != 0 ==> Next(n)(r[k]) == Next(m)(r[k])
      ensures k != j ==> Prev(n)(r[k]) == Prev(m)(r[k])
    {
      assert SpliceEffect(m, n, t[1], t[z], r[0], r[j], r[k]);
      assert Apart(r[k], t[1]) && Apart(r[k], t[z]);
      assert (k != 0 ==> Apart(r[k], r[0])) && (k != j ==> Apart(r[k], r[j]));
    }
    assert Apart(r[0], t[z]) && Apart(r[j], t[1]);
    SpliceCycle(Next(m), Prev(m), Next(n), Prev(n), r, t);
  }

  lemma SplicedNodes(r: seq<int>, t: seq<int>)
    requires |r| > 0 && |t| > 1 && Nodes(r + t)
    ensures Nodes([r[0]] + t[1..] + r[1..])
    ensures forall k, l | 0 <= k < |r| && 0 <= l < |t| :: Apart(r[k], t[l])
  {
    PermutedNodes(r + t, [r[0]] + t[1..] + r[1..],
                  k => if k == 0 then 0 else if k < |t| then |r| + k else k - |t| + 1);
    forall k, l | 0 <= k < |r| && 0 <= l < |t| ensures Apart(r[k], t[l]) {
      assert Apart((r + t)[k], (r + t)[|r| + l]);
    }
  }

  // list_for_each and its reverse: the walk ends after visiting every entry
  // exactly once, in list order or in the opposite order.
  method ListWalk(mem: array<u8>, head: u32, forward: bool, ghost s: seq<int>) returns (visited: seq<int>)
    requires mem.Length == WORD_SIZE && Ring(mem[..], [head] + s)
    ensures |visited| == |s|
    ensures forall k | 0 <= k < |s| :: visited[k] == if forward then s[k] else s[|s| - 1 - k]
  {
    ghost var r := [head] + s;
    HeadReads(mem[..], r);
    visited := [];
    var pos := WalkStep(mem, head, forward, r, 0);
    while pos != head
      invariant |visited| <= |s|
      invariant pos == r[WalkIndex(|r|, |visited| + 1, forward)]
      invariant forall k | 0 <= k < |visited| :: visited[k] == r[WalkIndex(|r|, k + 1, forward)]
      decreases |s| - |visited|
    {
      visited := visited + [pos];
      pos := WalkStep(mem, pos, forward, r, |visited|);
    }
  }

  // The ring index reached after k steps from the head.
  function WalkIndex(n: int, k: int, forward: bool): int {
    if k == 0 || k == n then 0 else if forward then k else n - k
  }

  method WalkStep(mem: array<u8>, pos: u32, forward: bool, ghost r: seq<int>, ghost k: nat) returns (to: u32)
    requires mem.Length == WORD_SIZE && Ring(mem[..], r)
    requires k < |r| && r[WalkIndex(|r|, k, forward)] == pos
    ensures to == r[WalkIndex(|r|, k + 1, forward)]
  {
    ghost var here, there := WalkIndex(|r|, k, forward), WalkIndex(|r|, k + 1, forward);
    assert Linked(Next(mem[..]), Prev(mem[..]), r, here) && Linked(Next(mem[..]), Prev(mem[..]), r, there);
    if forward {
      to := ReadNext(mem, pos);
    } else {
      to := ReadPrev(mem, pos);
    }
  }

  // The two words of a node in a ring: the address of the next node, and behind it
  // the address of the previous one.
  lemma RingWords(m: Bytes, r: seq<int>, i: nat)
    requires Ring(m, r) && i < |r|
    ensures 0 <= r[i] <= WORD_SIZE - 8
    ensures Load32(m, r[i]) == if i + 1 == |r| then r[0] else r[i + 1]
    ensures Load32(m, r[i] + 4) == if i == 0 then r[|r| - 1] else r[i - 1]
  {
    var j := if i == 0 then |r| - 1 else i - 1;
    assert Linked(Next(m), Prev(m), r, i) && Linked(Next(m), Prev(m), r, j) && Addressable(r[i]);
    hide Load32;
  }
}
