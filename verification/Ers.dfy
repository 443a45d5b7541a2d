/** The entry reusage system (ers.c): blocks of entries carved from the top down, a list of freed
    entries threaded through the entries themselves, and caches shared by all managers of one
    entry size. Entries are numbered: entry s is slot s % 4096 of block s / 4096. */
module Ers {
  const BLOCK_ENTRIES: nat := 4096

  // sizeof(struct ers_list): the link in front of every entry.
  const LINK: nat := 8
  const UINT_LIMIT: nat := 0x1_0000_0000

  // ---------- Sizes and addresses ----------

  // The size ers_new gives an object, for entries of the given size.
  function ObjectSize(size: nat, aligned: nat): nat
    requires aligned > 0
  {
    var s := (size + LINK) % UINT_LIMIT;
    if s % aligned == 0 then s else (s + (aligned - s % aligned)) % UINT_LIMIT
  }

  lemma Rounded(s: nat, aligned: nat) returns (q: nat)
    requires aligned > 0
    ensures s % aligned != 0 ==> s + (aligned - s % aligned) == q * aligned
    ensures s % aligned == 0 ==> s == q * aligned
  {
    var p, r := DivMod(s, aligned);
    q := p + if r == 0 then 0 else 1;
    OneMore(p, aligned);
  }

  lemma DivMod(a: nat, b: nat) returns (q: nat, r: nat)
    requires b > 0
    ensures q == a / b && r == a % b < b && a == q * b + r
  {
    q, r := a / b, a % b;
  }

  lemma OneMore(p: nat, b: nat)
    ensures (p + 1) * b == p * b + b
  {
  }

  // The link and the entry fit, in the smallest multiple of the alignment, if 32 bits hold it.
  lemma ObjectSizeFits(size: nat, aligned: nat) returns (q: nat)
    requires aligned > 0 && size + LINK + aligned <= UINT_LIMIT
    ensures ObjectSize(size, aligned) == q * aligned
    ensures size + LINK <= ObjectSize(size, aligned) < size + LINK + aligned
  {
    SmallModulo(size + LINK);
    q := Rounded(size + LINK, aligned);
    var s := size + LINK;
    var r := s % aligned;
    if r != 0 && s + (aligned - r) < UINT_LIMIT { SmallModulo(s + (aligned - r)); }
  }

  // The bytes of an entry, and of its link, within its block.
  datatype Span = Span(block: nat, lo: nat, hi: nat)

  // The products are taken in 32 bits.
  function Offset(s: nat, objectSize: nat): nat { s % BLOCK_ENTRIES * objectSize % UINT_LIMIT }

  function BlockLength(objectSize: nat): nat { objectSize * BLOCK_ENTRIES % UINT_LIMIT }

  function EntrySpan(s: nat, objectSize: nat, size: nat): Span
  {
    var start := Offset(s, objectSize) + LINK;
    Span(s / BLOCK_ENTRIES, start, start + size)
  }

  function LinkSpan(s: nat, objectSize: nat): Span
  {
    var start := Offset(s, objectSize);
    Span(s / BLOCK_ENTRIES, start, start + LINK)
  }

  predicate Apart(a: Span, b: Span) { a.block != b.block || a.hi <= b.lo || b.hi <= a.lo }

  // A block of such objects is shorter than 4 GB.
  predicate Addressable(objectSize: nat) { objectSize * BLOCK_ENTRIES < UINT_LIMIT }

  lemma OffsetIs(s: nat, objectSize: nat)
    requires Addressable(objectSize)
    ensures Offset(s, objectSize) == s % BLOCK_ENTRIES * objectSize
    ensures Offset(s, objectSize) + objectSize <= BlockLength(objectSize) == objectSize * BLOCK_ENTRIES
  {
    Steps(s % BLOCK_ENTRIES, BLOCK_ENTRIES, objectSize);
  }

  // Distinct entries share no byte with each other or with any link, and lie within their block.
  lemma EntriesApart(s: nat, t: nat, objectSize: nat, size: nat)
    requires size + LINK <= objectSize && Addressable(objectSize)
    ensures s != t ==> Apart(EntrySpan(s, objectSize, size), EntrySpan(t, objectSize, size))
    ensures Apart(EntrySpan(s, objectSize, size), LinkSpan(t, objectSize))
    ensures EntrySpan(s, objectSize, size).hi <= BlockLength(objectSize)
  {
    var i, j := s % BLOCK_ENTRIES, t % BLOCK_ENTRIES;
    OffsetIs(s, objectSize);
    OffsetIs(t, objectSize);
    if i < j { Steps(i, j, objectSize); } else if j < i { Steps(j, i, objectSize); }
    assert s == s / BLOCK_ENTRIES * BLOCK_ENTRIES + i && t == t / BLOCK_ENTRIES * BLOCK_ENTRIES + j;
    hide Offset, BlockLength;
  }

  ghost predicate BlockHoldsEntries(objectSize: nat, size: nat)
  {
    forall s: nat | s < BLOCK_ENTRIES :: EntrySpan(s, objectSize, size).hi <= BlockLength(objectSize)
  }

  // A block holds all its entries exactly if it is shorter than 4 GB: beyond that, its length and
  // the offsets wrap around.
  lemma BlocksHoldTheirEntries(objectSize: nat, size: nat)
    requires size > 0 && size + LINK == objectSize < UINT_LIMIT
    ensures BlockHoldsEntries(objectSize, size) <==> Addressable(objectSize)
  {
    if Addressable(objectSize) {
      forall s: nat | s < BLOCK_ENTRIES ensures EntrySpan(s, objectSize, size).hi <= BlockLength(objectSize) {
        EntriesApart(s, s, objectSize, size);
      }
    } else {
      var s := LastStart(objectSize);
      assert EntrySpan(s, objectSize, size).hi > BlockLength(objectSize);
    }
  }

  // The slot in which the shortened block ends.
  lemma LastStart(objectSize: nat) returns (s: nat)
    requires 0 < objectSize && !Addressable(objectSize)
    ensures s < BLOCK_ENTRIES && Offset(s, objectSize) + objectSize > BlockLength(objectSize)
  {
    var len := BlockLength(objectSize);
    var r;
    s, r := DivMod(len, objectSize);
    LengthInBlock(objectSize);
    SlotBelow(s, objectSize, len);
    OffsetBelow(s, objectSize);
  }

  // A length that wraps around is below the full one.
  lemma LengthInBlock(objectSize: nat)
    requires !Addressable(objectSize)
    ensures BlockLength(objectSize) < UINT_LIMIT <= objectSize * BLOCK_ENTRIES
  {
  }

  lemma SlotBelow(s: nat, objectSize: nat, len: nat)
    requires s * objectSize <= len < objectSize * BLOCK_ENTRIES
    ensures s < BLOCK_ENTRIES
  {
    if s > BLOCK_ENTRIES { Steps(BLOCK_ENTRIES, s, objectSize); }
  }

  lemma OffsetBelow(s: nat, objectSize: nat)
    requires s < BLOCK_ENTRIES && 0 <= s * objectSize < UINT_LIMIT
    ensures Offset(s, objectSize) == s * objectSize
  {
    SlotModulo(s);
    SmallModulo(s * objectSize);
  }

  lemma SlotModulo(s: nat)
    requires s < BLOCK_ENTRIES
    ensures s % BLOCK_ENTRIES == s
  {
  }

  lemma Steps(i: nat, j: nat, step: nat)
    requires i < j
    ensures i * step + step <= j * step
  {
    assert j * step == i * step + step + (j - i - 1) * step;
    NonNegative(j - i - 1, step);
  }

  lemma NonNegative(a: nat, b: nat)
    ensures a * b >= 0
  {
  }

  // ---------- Caches ----------

  // The i-th slot of a list, or the end of the list.
  function At(chain: seq<nat>, i: nat): int { if i < |chain| then chain[i] else -1 }

  // The slots carved from n blocks: all but the lowest ones of the newest block.
  predicate Carved(n: nat, free: nat, s: int)
  {
    && 0 <= s < BLOCK_ENTRIES * n
    && !(BLOCK_ENTRIES * (n - 1) <= s < BLOCK_ENTRIES * (n - 1) + free)
  }

  ghost predicate WellFormed(blocks: seq<array<int>>)
  {
    && (forall b | 0 <= b < |blocks| :: blocks[b].Length == BLOCK_ENTRIES)
    && (forall b, c | 0 <= b < c < |blocks| :: blocks[b] != blocks[c])
  }

  // The link word of a slot.
  function Link(blocks: seq<array<int>>, s: nat): int
    requires WellFormed(blocks) && s < BLOCK_ENTRIES * |blocks|
    reads blocks
  {
    blocks[s / BLOCK_ENTRIES][s % BLOCK_ENTRIES]
  }

  // The links lead through the chain in order.
  ghost predicate Threaded(blocks: seq<array<int>>, chain: seq<nat>)
    requires WellFormed(blocks)
    reads blocks
  {
    forall i | 0 <= i < |chain| ::
      chain[i] < BLOCK_ENTRIES * |blocks| && Link(blocks, chain[i]) == At(chain, i + 1)
  }

  ghost predicate Distinct(chain: seq<nat>) { forall i, j | 0 <= i < j < |chain| :: chain[i] != chain[j] }

  lemma ThreadedTail(blocks: seq<array<int>>, chain: seq<nat>)
    requires WellFormed(blocks) && Threaded(blocks, chain) && Distinct(chain) && chain != []
    ensures Threaded(blocks, chain[1..]) && Distinct(chain[1..])
    ensures chain[0] < BLOCK_ENTRIES * |blocks| && Link(blocks, chain[0]) == At(chain[1..], 0)
  {
    var tail := chain[1..];
    forall i | 0 <= i < |tail|
      ensures tail[i] < BLOCK_ENTRIES * |blocks| && Link(blocks, tail[i]) == At(tail, i + 1)
    {
      assert tail[i] == chain[i + 1];
    }
  }

  // A slot linked to the head of the chain becomes its new head.
  lemma PushedThreaded(blocks: seq<array<int>>, chain: seq<nat>, s: nat)
    requires WellFormed(blocks) && Threaded(blocks, chain) && Distinct(chain) && forall i | 0 <= i < |chain| :: chain[i] != s
    requires s < BLOCK_ENTRIES * |blocks| && Link(blocks, s) == At(chain, 0)
    ensures Threaded(blocks, [s] + chain) && Distinct([s] + chain)
  {
    hide Link, WellFormed;
  }

  method PushLink(blocks: seq<array<int>>, ghost chain: seq<nat>, s: nat, head: int)
    requires WellFormed(blocks) && Threaded(blocks, chain) && Distinct(chain) && head == At(chain, 0)
    requires s < BLOCK_ENTRIES * |blocks| && forall i | 0 <= i < |chain| :: chain[i] != s
    modifies blocks
    ensures Threaded(blocks, [s] + chain) && Distinct([s] + chain)
  {
    hide Link;
    SetLink(blocks, s, head);
    PushedThreaded(blocks, chain, s);
  }

  method SetLink(blocks: seq<array<int>>, s: nat, next: int)
    requires WellFormed(blocks) && s < BLOCK_ENTRIES * |blocks|
    modifies blocks
    ensures Link(blocks, s) == next
    ensures forall t: nat | t < BLOCK_ENTRIES * |blocks| && t != s :: Link(blocks, t) == old(Link(blocks, t))
  {
    blocks[s / BLOCK_ENTRIES][s % BLOCK_ENTRIES] := next;
  }

  // ---------- The cache ----------

  // Every slot of every block is unused, freed or live.
  ghost predicate AllSlots(n: nat, free: nat, chain: seq<nat>, live: set<nat>)
  {
    && (forall i | 0 <= i < |chain| :: Carved(n, free, chain[i]) && chain[i] !in live)
    && (forall s: nat | s in live :: Carved(n, free, s))
    && BLOCK_ENTRIES * n == free + |chain| + |live|
  }

  lemma SlotFreed(n: nat, free: nat, chain: seq<nat>, live: set<nat>, s: nat)
    requires AllSlots(n, free, chain, live) && s in live
    ensures AllSlots(n, free, [s] + chain, live - {s}) && s < BLOCK_ENTRIES * n
    ensures forall i | 0 <= i < |chain| :: chain[i] != s
  {
    assert Carved(n, free, s);
    assert live == (live - {s}) + {s};
  }

  lemma SlotReused(n: nat, free: nat, chain: seq<nat>, live: set<nat>)
    requires AllSlots(n, free, chain, live) && Distinct(chain) && chain != []
    ensures AllSlots(n, free, chain[1..], live + {chain[0]}) && chain[0] !in live
  {
  }

  // Which slot an allocation takes: the first freed one, the next of the newest block, or the
  // highest of a new block; and the list, the unused slots and the blocks there are then.
  predicate Taken(chain: seq<nat>, free: nat, n: nat, newChain: seq<nat>, newFree: nat, m: nat, s: nat)
  {
    if chain != [] then s == chain[0] && newChain == chain[1..] && newFree == free && m == n
    else if free > 0 then newChain == [] && newFree == free - 1 && m == n && s == BLOCK_ENTRIES * (n - 1) + newFree
    else newChain == [] && newFree == BLOCK_ENTRIES - 1 && m == n + 1 && s == BLOCK_ENTRIES * n + newFree
  }

  class Cache {
    const objectSize: nat
    var referenceCount: int
    // The first freed entry, or -1.
    var reuse: int
    // Of each block, the link word of each of its slots.
    var blocks: seq<array<int>>
    var max: nat
    var free: nat
    ghost var chain: seq<nat>
    ghost var live: set<nat>
    // The managers that share the cache, their net counts, and the sum of those of the managers
    // destroyed.
    ghost var users: seq<Instance>
    ghost var counts: seq<int>
    ghost var leaked: int

    ghost predicate Valid()
      reads `blocks, `max, `free, `reuse, `chain, `live, blocks
    {
      && |blocks| <= max && free < BLOCK_ENTRIES && (blocks == [] ==> free == 0) && WellFormed(blocks)
      && reuse == At(chain, 0) && Threaded(blocks, chain) && Distinct(chain)
      && AllSlots(|blocks|, free, chain, live)
    }

    // Nothing has been allocated yet.
    ghost predicate Unused()
      reads this
    {
      live == {} && chain == [] && blocks == [] && free == 0 && leaked == 0
    }

    constructor (size: nat)
      ensures Valid() && objectSize == size && Unused() && max == 0 && users == [] && counts == [] && referenceCount == 0
    {
      objectSize := size;
      referenceCount := 0;
      reuse := -1;
      blocks := [];
      max, free := 0, 0;
      chain, live := [], {};
      users, counts, leaked := [], [], 0;
    }

    // The part of ers_obj_alloc_entry that concerns the cache.
    method Take() returns (s: nat)
      requires Valid()
      modifies `reuse, `chain, `live, `blocks, `max, `free
      ensures Valid() && old(blocks) <= blocks && forall b | |old(blocks)| <= b < |blocks| :: fresh(blocks[b])
      ensures s !in old(live) && live == old(live) + {s}
      ensures Taken(old(chain), old(free), |old(blocks)|, chain, free, |blocks|, s)
      ensures max == if old(chain) == [] && old(free) == 0 && |old(blocks)| == old(max)
                     then 4 * old(max) + 3 else old(max)
    {
      if reuse != -1 {
        s := Reuse();
      } else if free > 0 {
        free := free - 1;
        s := BLOCK_ENTRIES * (|blocks| - 1) + free;
        live := live + {s};
      } else {
        s := CarveFirst();
      }
    }

    // The head of the reuse list is unlinked.
    method Reuse() returns (s: nat)
      requires Valid() && reuse != -1
      modifies this`reuse, this`chain, this`live
      ensures Valid() && old(chain) != [] && s == old(chain)[0] && chain == old(chain)[1..]
      ensures s !in old(live) && live == old(live) + {s}
    {
      s := reuse;
      ThreadedTail(blocks, chain);
      SlotReused(|blocks|, free, chain, live);
      hide AllSlots, Threaded, Distinct;
      reuse := blocks[reuse / BLOCK_ENTRIES][reuse % BLOCK_ENTRIES];
      chain := chain[1..];
      live := live + {s};
    }

    // The highest slot of a new block.
    method CarveFirst() returns (s: nat)
      requires Valid() && reuse == -1 && free == 0
      modifies `live, `blocks, `max, `free
      ensures Valid() && chain == []
      ensures s !in old(live) && live == old(live) + {s}
      ensures free == BLOCK_ENTRIES - 1 && |blocks| == |old(blocks)| + 1 && s == BLOCK_ENTRIES * |old(blocks)| + free
      ensures old(blocks) <= blocks && forall b | |old(blocks)| <= b < |blocks| :: fresh(blocks[b])
      ensures max == if |old(blocks)| == old(max) then 4 * old(max) + 3 else old(max)
    {
      if |blocks| == max {
        max := max * 4 + 3;
      }
      var block := new int[BLOCK_ENTRIES](_ => 0);
      blocks := blocks + [block];
      free := BLOCK_ENTRIES - 1;
      s := BLOCK_ENTRIES * (|blocks| - 1) + free;
      live := live + {s};
    }

    // The part of ers_obj_free_entry that concerns the cache.
    method Give(s: nat)
      requires Valid() && s in live
      modifies `reuse, `chain, `live, blocks
      ensures Valid() && live == old(live) - {s} && chain == [s] + old(chain)
    {
      SlotFreed(|blocks|, free, chain, live, s);
      hide AllSlots;
      hide Threaded, Distinct, WellFormed, Link;
      var head := reuse;
      ghost var links := chain;
      reuse := s;
      chain := [s] + chain;
      live := live - {s};
      PushLink(blocks, links, s, head);
    }
  }

  // ---------- Managers ----------

  class Instance {
    const cache: Cache
    // Whether entries still in use are dropped silently when the manager is destroyed.
    const clear: bool
    // In 32 bits.
    var count: nat
    // What was allocated less what was freed through the manager.
    ghost var net: int

    constructor (cache: Cache, clear: bool)
      ensures this.cache == cache && this.clear == clear && count == 0 && net == 0
    {
      this.cache, this.clear := cache, clear;
      count, net := 0, 0;
    }
  }

  function Sum(s: seq<int>): int { if s == [] then 0 else Sum(s[..|s| - 1]) + s[|s| - 1] }

  lemma {:induction false} SumUpdated(s: seq<int>, i: nat, v: int)
    requires i < |s|
    ensures Sum(s[i := v]) + s[i] == Sum(s) + v
    decreases |s|
  {
    var n := |s| - 1;
    if i < n {
      SumUpdated(s[..n], i, v);
      assert s[i := v][..n] == s[..n][i := v];
    } else {
      assert s[i := v][..n] == s[..n];
    }
  }

  lemma {:induction false} SumWithout(s: seq<int>, i: nat)
    requires i < |s|
    ensures Sum(s[..i] + s[i + 1..]) + s[i] == Sum(s)
    decreases |s|
  {
    var n := |s| - 1;
    if i == n {
      assert s[..i] + s[i + 1..] == s[..n];
    } else {
      SumWithout(s[..n], i);
      assert (s[..i] + s[i + 1..])[..n - 1] == s[..n][..i] + s[..n][i + 1..];
    }
  }

  lemma SumJoined(s: seq<int>)
    ensures Sum(s + [0]) == Sum(s)
  {
    assert (s + [0])[..|s|] == s;
  }

  ghost predicate DistinctUsers(users: seq<Instance>) { forall i, j | 0 <= i < j < |users| :: users[i] != users[j] }

  // The counts the managers keep, which wrap around.
  ghost predicate Reflects(users: seq<Instance>, counts: seq<int>)
    reads users
  {
    && |counts| == |users|
    && forall i | 0 <= i < |users| :: users[i].net == counts[i] && users[i].count == counts[i] % UINT_LIMIT
  }

  // The sum of the managers' counts.
  ghost function Counted(users: seq<Instance>): int
    reads users
  {
    if users == [] then 0 else Counted(users[..|users| - 1]) + users[|users| - 1].count
  }

  lemma {:induction false} CountedIsSum(users: seq<Instance>, counts: seq<int>)
    requires |counts| == |users| && forall i | 0 <= i < |users| :: users[i].count == counts[i]
    ensures Counted(users) == Sum(counts)
    decreases |users|
  {
    if users != [] { CountedIsSum(users[..|users| - 1], counts[..|users| - 1]); }
  }

  // Nobody has freed more than was allocated through the manager, or has 2^32 entries in use.
  ghost predicate NoneOverdrawn(users: seq<Instance>)
    reads users
  {
    forall i | 0 <= i < |users| :: 0 <= users[i].net < UINT_LIMIT
  }

  ghost predicate Accounted(c: Cache)
    reads c, c.users
  {
    && c.referenceCount == |c.users| && DistinctUsers(c.users)
    && (forall i | 0 <= i < |c.users| :: c.users[i].cache == c)
    && Reflects(c.users, c.counts) && |c.live| == Sum(c.counts) + c.leaked
  }

  ghost predicate Sound(c: Cache)
    reads c, c.blocks, c.users
  {
    c.Valid() && Accounted(c)
  }

  // 4096 slots a block: unused ones, freed ones, those that the managers count as in use, and those
  // left behind by managers destroyed; unless a count wrapped, which takes more frees than
  // allocations through its manager.
  lemma SlotsConserved(c: Cache)
    requires Sound(c) && NoneOverdrawn(c.users)
    ensures BLOCK_ENTRIES * |c.blocks| == c.free + |c.chain| + Counted(c.users) + c.leaked
    ensures |c.live| == Counted(c.users) + c.leaked
    ensures forall i | 0 <= i < |c.users| :: c.users[i].count == c.users[i].net
  {
    hide WellFormed, Threaded, Distinct, Carved, Sum, Counted;
    CountsExact(c.users, c.counts);
    CountedIsSum(c.users, c.counts);
  }

  lemma CountsExact(users: seq<Instance>, counts: seq<int>)
    requires Reflects(users, counts) && NoneOverdrawn(users)
    ensures forall i | 0 <= i < |users| :: users[i].count == counts[i] == users[i].net
  {
    forall i | 0 <= i < |users| ensures users[i].count == counts[i] {
      SmallModulo(counts[i]);
    }
  }

  lemma SmallModulo(a: int)
    requires 0 <= a < UINT_LIMIT
    ensures a % UINT_LIMIT == a
  {
  }

  datatype Option<T> = None | Some(value: T)

  // Writing down one entry more, or one less, of the i-th manager.
  method Record(c: Cache, ghost i: nat, u: Instance, more: int)
    requires i < |c.users| && c.users[i] == u && DistinctUsers(c.users) && Reflects(c.users, c.counts)
    modifies u`count, u`net, c`counts
    ensures c.counts == old(c.counts)[i := old(c.counts)[i] + more] && Reflects(c.users, c.counts)
    ensures u.count == (old(u.count) + more) % UINT_LIMIT && u.net == old(u.net) + more
    ensures Sum(c.counts) == Sum(old(c.counts)) + more
  {
    WrapsOnce(c.counts[i], more);
    SumUpdated(c.counts, i, c.counts[i] + more);
    hide Sum;
    u.count := (u.count + more) % UINT_LIMIT;
    u.net := u.net + more;
    c.counts := c.counts[i := c.counts[i] + more];
  }

  lemma WrapsOnce(a: int, more: int)
    ensures (a % UINT_LIMIT + more) % UINT_LIMIT == (a + more) % UINT_LIMIT
  {
  }

  // One entry has come into use through u.
  twostate predicate Allocated(u: Instance, s: nat)
    reads u, u.cache
  {
    var c := u.cache;
    && s !in old(c.live) && c.live == old(c.live) + {s}
    && Taken(old(c.chain), old(c.free), |old(c.blocks)|, c.chain, c.free, |c.blocks|, s)
    && old(c.blocks) <= c.blocks && c.users == old(c.users) && c.leaked == old(c.leaked)
    && u.count == (old(u.count) + 1) % UINT_LIMIT && u.net == old(u.net) + 1
  }

  // One entry has been freed through u.
  twostate predicate Freed(u: Instance, s: nat)
    reads u, u.cache
  {
    var c := u.cache;
    && c.live == old(c.live) - {s} && c.chain == [s] + old(c.chain)
    && c.free == old(c.free) && c.blocks == old(c.blocks) && c.users == old(c.users) && c.leaked == old(c.leaked)
    && u.count == (old(u.count) - 1) % UINT_LIMIT && u.net == old(u.net) - 1
  }

  // ers_obj_alloc_entry.
  method AllocEntry(self: Instance?) returns (entry: Option<nat>)
    requires self != null ==> Sound(self.cache) && self in self.cache.users
    modifies self, if self == null then {} else {self.cache}
    ensures self == null ==> entry == None
    ensures self != null ==>
              && Sound(self.cache) && entry.Some? && Allocated(self, entry.value)
              && forall b | |old(self.cache.blocks)| <= b < |self.cache.blocks| :: fresh(self.cache.blocks[b])
  {
    if self == null {
      return None;
    }
    var s := AllocFrom(self, self.cache);
    entry := Some(s);
  }

  method AllocFrom(u: Instance, c: Cache) returns (s: nat)
    requires u.cache == c && Sound(c) && u in c.users
    modifies u`count, u`net, c`reuse, c`chain, c`live, c`blocks, c`max, c`free, c`counts
    ensures Sound(c) && Allocated(u, s)
    ensures old(c.blocks) <= c.blocks && forall b | |old(c.blocks)| <= b < |c.blocks| :: fresh(c.blocks[b])
  {
    hide Cache.Valid, Taken;
    ghost var i :| 0 <= i < |c.users| && c.users[i] == u;
    s := c.Take();
    Record(c, i, u, 1);
  }

  // ers_obj_free_entry; the entry may have been allocated through another manager of the cache.
  method FreeEntry(self: Instance?, entry: Option<nat>)
    requires self != null ==> Sound(self.cache) && self in self.cache.users
    requires self != null && entry.Some? ==> entry.value in self.cache.live
    modifies self, if self == null then {} else {self.cache}, if self == null then [] else self.cache.blocks
    ensures self != null ==> Sound(self.cache)
    ensures self != null && entry == None ==> unchanged(self) && unchanged(self.cache)
    ensures self != null && entry.Some? ==> Freed(self, entry.value)
  {
    if self == null {
      return;
    }
    if entry == None {
      return;
    }
    FreeTo(self, self.cache, entry.value);
  }

  method FreeTo(u: Instance, c: Cache, s: nat)
    requires u.cache == c && Sound(c) && u in c.users && s in c.live
    modifies u`count, u`net, c`reuse, c`chain, c`live, c`counts, c.blocks
    ensures Sound(c) && Freed(u, s)
  {
    hide Cache.Valid;
    ghost var i :| 0 <= i < |c.users| && c.users[i] == u;
    c.Give(s);
    Record(c, i, u, -1);
  }

  // ---------- The list of caches ----------

  // ERS_ALIGNED, unless it is configured otherwise.
  const ERS_ALIGNED: nat := 1

  ghost predicate NoSharedBlock(c: Cache, d: Cache)
    reads c, d
  {
    forall i, j | 0 <= i < |c.blocks| && 0 <= j < |d.blocks| :: c.blocks[i] != d.blocks[j]
  }

  // At most one cache for every size.
  ghost predicate OneEach(caches: seq<Cache>)
  {
    forall i, j | 0 <= i < j < |caches| :: caches[i].objectSize != caches[j].objectSize
  }

  // The list without one of its caches.
  ghost predicate Without(caches: seq<Cache>, before: seq<Cache>, c: Cache)
  {
    exists i :: 0 <= i < |before| && before[i] == c && caches == before[..i] + before[i + 1..]
  }

  class System {
    // CacheList, from its head.
    var caches: seq<Cache>

    ghost function AllBlocks(): (r: set<object>)
      reads this, caches
      ensures forall c, b | c in caches && b in c.blocks :: b in r
    {
      set c, b | c in caches && b in c.blocks :: b
    }

    ghost function AllUsers(): (r: set<object>)
      reads this, caches
      ensures forall c, u | c in caches && u in c.users :: u in r
    {
      set c, u | c in caches && u in c.users :: u
    }

    // Every cache is sound, has a size of its own and shares no memory with another.
    ghost predicate Valid()
      reads this, caches, AllBlocks(), AllUsers()
    {
      && (forall c | c in caches :: Sound(c))
      && OneEach(caches)
      && (forall c, d | c in caches && d in caches && c != d :: NoSharedBlock(c, d))
    }

    constructor ()
      ensures Valid() && caches == []
    {
      caches := [];
    }

    // ers_find_cache.
    method FindCache(size: nat) returns (c: Cache)
      requires Valid()
      modifies this
      ensures Valid() && c in caches && c.objectSize == size
      ensures (exists d :: d in old(caches) && d.objectSize == size) ==> caches == old(caches)
      ensures (forall d | d in old(caches) :: d.objectSize != size) ==>
                fresh(c) && caches == [c] + old(caches) && c.users == [] && c.Unused()
    {
      hide Sound;
      var i := 0;
      while i < |caches|
        invariant 0 <= i <= |caches| && forall k | 0 <= k < i :: caches[k].objectSize != size
      {
        if caches[i].objectSize == size {
          return caches[i];
        }
        i := i + 1;
      }
      c := new Cache(size);
      NewIsSound(c);
      caches := [c] + caches;
    }

    // ers_new.
    method New(size: nat, clear: bool) returns (u: Instance)
      requires Valid()
      modifies this, caches`referenceCount, caches`users, caches`counts
      ensures Valid() && fresh(u) && u.cache in caches && u.count == 0 && u.net == 0 && u.clear == clear
      ensures u.cache.objectSize == ObjectSize(size, ERS_ALIGNED)
      ensures u.cache in old(caches) <==> exists c :: c in old(caches) && c.objectSize == ObjectSize(size, ERS_ALIGNED)
      ensures u.cache in old(caches) ==> caches == old(caches)
      ensures u.cache !in old(caches) ==>
                fresh(u.cache) && caches == [u.cache] + old(caches) && u.cache.users == [u] && u.cache.Unused()
      ensures forall c | c in old(caches) :: c.users == old(c.users) + if c == u.cache then [u] else []
    {
      hide Cache.Valid, Sound;
      var c := FindCache(ObjectSize(size, ERS_ALIGNED));
      u := new Instance(c, clear);
      Join(c, u);
    }

    // Allocating through one manager keeps every cache sound, whoever shares its cache.
    method Alloc(u: Instance) returns (s: nat)
      requires Valid() && u.cache in caches && u in u.cache.users
      modifies u, u.cache
      ensures Valid() && Allocated(u, s)
      ensures forall b | |old(u.cache.blocks)| <= b < |u.cache.blocks| :: fresh(u.cache.blocks[b])
    {
      hide Sound, OneEach, Allocated;
      UsersElsewhere(caches, u.cache, u);
      s := AllocFrom(u, u.cache);
    }

    method Free(u: Instance, s: nat)
      requires Valid() && u.cache in caches && u in u.cache.users && s in u.cache.live
      modifies u, u.cache, u.cache.blocks
      ensures Valid() && Freed(u, s)
    {
      hide Sound, OneEach;
      UsersElsewhere(caches, u.cache, u);
      FreeTo(u, u.cache, s);
    }

    // ers_obj_destroy: the cache goes with its last manager; entries in use through others stay so.
    method Destroy(self: Instance?)
      requires Valid() && (self != null ==> self.cache in caches && self in self.cache.users)
      modifies this, if self == null then {} else {self.cache}
      ensures Valid()
      ensures self == null ==> caches == old(caches)
      ensures self != null ==>
                && Left(self)
                && (self.cache in caches <==> self.cache.users != [])
                && (self.cache.users != [] ==> caches == old(caches))
                && (self.cache.users == [] ==> Without(caches, old(caches), self.cache))
    {
      if self == null {
        return;
      }
      hide Sound, OneEach, NoSharedBlock;
      var c := self.cache;
      Depart(c, self);
      if c.referenceCount <= 0 {
        Unlink(c);
      }
    }

    // A manager leaves its cache; nothing else changes.
    method Depart(c: Cache, u: Instance)
      requires Valid() && u.cache == c && c in caches && u in c.users
      modifies c`referenceCount, c`users, c`counts, c`leaked
      ensures Valid() && Left(u) && c.referenceCount == |c.users|
    {
      hide Sound, OneEach;
      Leave(c, u);
    }

    // The part of ers_free_cache that concerns the list.
    method Unlink(c: Cache)
      requires Valid() && c in caches
      modifies this
      ensures Valid() && c !in caches && Without(caches, old(caches), c)
    {
      hide Sound, NoSharedBlock;
      var i := 0;
      while caches[i] != c
        invariant 0 <= i < |caches| && forall k | 0 <= k < i :: caches[k] != c
        decreases |caches| - i
      {
        i := i + 1;
      }
      caches := caches[..i] + caches[i + 1..];
    }
  }

  lemma NewIsSound(c: Cache)
    requires c.Valid() && c.Unused() && c.users == [] && c.counts == [] && c.referenceCount == 0
    ensures Sound(c)
  {
  }

  lemma UsersElsewhere(caches: seq<Cache>, c: Cache, u: Instance)
    requires u.cache == c && forall d | d in caches :: Sound(d)
    ensures forall d | d in caches && d != c :: u !in d.users
  {
    hide Cache.Valid;
  }

  lemma OneUserLess(users: seq<Instance>, counts: seq<int>, i: nat)
    requires DistinctUsers(users) && Reflects(users, counts) && i < |users|
    ensures var rest, less := users[..i] + users[i + 1..], counts[..i] + counts[i + 1..];
      && DistinctUsers(rest) && Reflects(rest, less) && users[i] !in rest && users[i].net == counts[i]
      && forall k | 0 <= k < |rest| :: rest[k] == users[if k < i then k else k + 1]
  {
  }

  // The manager is gone from its cache, and what it had in use is left behind; nothing else has
  // changed.
  twostate predicate Left(u: Instance)
    reads u, u.cache
  {
    var c := u.cache;
    && (exists i :: 0 <= i < |old(c.users)| && old(c.users)[i] == u
                    && c.users == old(c.users)[..i] + old(c.users)[i + 1..])
    && u !in c.users && c.leaked == old(c.leaked) + u.net
    && c.live == old(c.live) && c.chain == old(c.chain) && c.free == old(c.free) && c.blocks == old(c.blocks)
  }

  method Leave(c: Cache, u: Instance)
    requires u.cache == c && Sound(c) && u in c.users
    modifies c`referenceCount, c`users, c`counts, c`leaked
    ensures Sound(c) && Left(u) && c.referenceCount == |c.users|
  {
    hide Cache.Valid;
    ghost var i :| 0 <= i < |c.users| && c.users[i] == u;
    SumWithout(c.counts, i);
    OneUserLess(c.users, c.counts, i);
    hide DistinctUsers, Reflects;
    c.referenceCount := c.referenceCount - 1;
    c.leaked := c.leaked + c.counts[i];
    c.users := c.users[..i] + c.users[i + 1..];
    c.counts := c.counts[..i] + c.counts[i + 1..];
  }

  method Join(c: Cache, u: Instance)
    requires Sound(c) && u.cache == c && u !in c.users && u.count == 0 && u.net == 0
    modifies c`referenceCount, c`users, c`counts
    ensures Sound(c) && c.users == old(c.users) + [u]
  {
    hide Cache.Valid;
    SumJoined(c.counts);
    c.referenceCount := c.referenceCount + 1;
    c.users := c.users + [u];
    c.counts := c.counts + [0];
  }

  // ---------- No two entries share memory ----------

  // The bytes of entry s of one cache are others than those of entry t of another or the same.
  ghost predicate NoSharedByte(c: Cache, s: nat, size: nat, d: Cache, t: nat, tsize: nat)
    requires s / BLOCK_ENTRIES < |c.blocks| && t / BLOCK_ENTRIES < |d.blocks|
    reads c, d
  {
    var a, b := EntrySpan(s, c.objectSize, size), EntrySpan(t, d.objectSize, tsize);
    c.blocks[a.block] != d.blocks[b.block] || a.hi <= b.lo || b.hi <= a.lo
  }

  ghost predicate LinkUnshared(c: Cache, s: nat, size: nat, d: Cache, t: nat)
    requires s / BLOCK_ENTRIES < |c.blocks| && t / BLOCK_ENTRIES < |d.blocks|
    reads c, d
  {
    var a, b := EntrySpan(s, c.objectSize, size), LinkSpan(t, d.objectSize);
    c.blocks[a.block] != d.blocks[b.block] || a.hi <= b.lo || b.hi <= a.lo
  }

  lemma SlotInBlocks(c: Cache, s: nat)
    requires c.Valid() && (s in c.live || s in c.chain)
    ensures s / BLOCK_ENTRIES < |c.blocks|
  {
    assert Carved(|c.blocks|, c.free, s);
  }

  lemma CachesApart(sys: System, c: Cache, d: Cache)
    requires sys.Valid() && c in sys.caches && d in sys.caches
    ensures c.Valid() && d.Valid() && (c != d ==> NoSharedBlock(c, d))
  {
    hide Cache.Valid;
  }

  // Whatever the managers have done, no two entries in use, of one cache or of two, share a byte.
  lemma LiveEntriesApart(sys: System, c: Cache, s: nat, d: Cache, t: nat, size: nat, tsize: nat)
    requires sys.Valid() && c in sys.caches && d in sys.caches && s in c.live && t in d.live && (c != d || s != t)
    requires Addressable(c.objectSize) && size + LINK <= c.objectSize
    requires Addressable(d.objectSize) && tsize + LINK <= d.objectSize
    ensures s / BLOCK_ENTRIES < |c.blocks| && t / BLOCK_ENTRIES < |d.blocks| && NoSharedByte(c, s, size, d, t, tsize)
  {
    CachesApart(sys, c, d);
    SlotInBlocks(c, s);
    SlotInBlocks(d, t);
    hide System.Valid, Cache.Valid, Offset, BlockLength;
    if c == d {
      EntriesApart(s, t, c.objectSize, if size < tsize then tsize else size);
      BlocksDiffer(c, s, t);
    }
  }

  lemma BlocksDiffer(c: Cache, s: nat, t: nat)
    requires c.Valid() && s / BLOCK_ENTRIES < |c.blocks| && t / BLOCK_ENTRIES < |c.blocks|
    ensures s / BLOCK_ENTRIES != t / BLOCK_ENTRIES ==> c.blocks[s / BLOCK_ENTRIES] != c.blocks[t / BLOCK_ENTRIES]
  {
  }

  // Nor does an entry in use share a byte with a link of a list of freed entries.
  lemma LiveEntryHoldsNoLink(sys: System, c: Cache, s: nat, d: Cache, t: nat, size: nat)
    requires sys.Valid() && c in sys.caches && d in sys.caches && s in c.live && t in d.chain
    requires Addressable(c.objectSize) && size + LINK <= c.objectSize
    ensures s / BLOCK_ENTRIES < |c.blocks| && t / BLOCK_ENTRIES < |d.blocks| && LinkUnshared(c, s, size, d, t)
  {
    CachesApart(sys, c, d);
    SlotInBlocks(c, s);
    SlotInBlocks(d, t);
    hide System.Valid, Cache.Valid, Offset, BlockLength;
    if c == d {
      EntriesApart(s, t, c.objectSize, size);
      BlocksDiffer(c, s, t);
    }
  }
}
