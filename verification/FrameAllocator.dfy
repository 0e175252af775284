/** The cache of frame buffers. malloc and free are a ghost ledger: every block ever obtained is with the client,
    in one cache slot, or released, and in exactly one of the three. */
module FrameAllocator {
  import opened Arithmetic

  type Block = nat

  /** A cache slot; size 0 means empty. */
  datatype Slot = Slot(size: nat, pointer: Block)

  function Used(slots: seq<Slot>): nat {
    if slots == [] then 0 else Used(slots[..|slots| - 1]) + if slots[|slots| - 1].size > 0 then 1 else 0
  }

  lemma {:induction false} UsedOfUpdate(slots: seq<Slot>, i: nat, x: Slot)
    requires i < |slots|
    ensures Used(slots[i := x]) == Used(slots) - (if slots[i].size > 0 then 1 else 0) + (if x.size > 0 then 1 else 0)
  {
    var last := |slots| - 1;
    if i == last {
      assert slots[i := x][..last] == slots[..last];
    } else {
      assert slots[i := x][..last] == slots[..last][i := x];
      UsedOfUpdate(slots[..last], i, x);
    }
  }

  lemma {:induction false} UsedPrefix(slots: seq<Slot>, i: nat)
    requires i <= |slots|
    ensures Used(slots[..i]) <= Used(slots) <= Used(slots[..i]) + (|slots| - i)
    ensures Used(slots[..i]) == Used(slots) ==> forall j | i <= j < |slots| :: slots[j].size == 0
    ensures Used(slots[..i]) + (|slots| - i) == Used(slots) ==> forall j | i <= j < |slots| :: slots[j].size > 0
  {
    if i < |slots| {
      var front := slots[..|slots| - 1];
      UsedPrefix(front, i);
      assert front[..i] == slots[..i];
      forall j | i <= j < |slots| - 1 ensures slots[j] == front[j] {}
    } else {
      assert slots[..i] == slots;
    }
  }

  function Pow2(k: nat): (p: nat)
    ensures p > 0
  {
    if k == 0 then 1 else 2 * Pow2(k - 1)
  }

  /** The size class of a request: the next multiple of 2^inc_bits above it. */
  function Projected(size: nat, grain: nat): nat
    requires grain > 0
  {
    (size / grain + 1) * grain
  }

  /** Slot i is a cached block large enough. */
  predicate Fits(slots: seq<Slot>, i: nat, size: nat) {
    i < |slots| && slots[i].size > 0 && slots[i].size >= size
  }

  ghost predicate AnyFits(slots: seq<Slot>, n: nat, size: nat)
    requires n <= |slots|
  {
    exists i: nat | i < n :: Fits(slots, i, size)
  }

  ghost predicate Smallest(slots: seq<Slot>, n: nat, size: nat, i: nat)
    requires n <= |slots|
  {
    Fits(slots, i, size) && forall j: nat | j < n && Fits(slots, j, size) :: slots[i].size <= slots[j].size
  }

  /** Slot i is the first among the smallest. */
  ghost predicate FirstSmallest(slots: seq<Slot>, n: nat, size: nat, i: nat)
    requires n <= |slots|
  {
    Smallest(slots, n, size, i) && forall j: nat | j < i && Fits(slots, j, size) :: slots[i].size < slots[j].size
  }

  /** Slot i ends the search at once: it has exactly the projected size and everything that fits before it is larger. */
  ghost predicate Met(slots: seq<Slot>, size: nat, projected: nat, i: nat) {
    Fits(slots, i, size) && slots[i].size == projected
    && forall j: nat | j < i && Fits(slots, j, size) :: slots[j].size > projected
  }

  ghost predicate AnyMet(slots: seq<Slot>, n: nat, size: nat, projected: nat)
    requires n <= |slots|
  {
    exists i: nat | i < n :: Met(slots, size, projected, i)
  }

  /** The slot the search settles on. */
  ghost predicate Chosen(slots: seq<Slot>, size: nat, projected: nat, i: nat) {
    if AnyMet(slots, |slots|, size, projected) then Met(slots, size, projected, i)
    else FirstSmallest(slots, |slots|, size, i)
  }

  /** One more slot looked at: whether it is better than the best so far, and whether it ends the search. */
  lemma SearchStep(slots: seq<Slot>, i: nat, size: nat, projected: nat, found: bool, idx: nat)
    requires i < |slots| && !AnyMet(slots, i, size, projected) && (found <==> AnyFits(slots, i, size))
    requires found ==> idx < i && FirstSmallest(slots, i, size, idx)
    ensures AnyFits(slots, i + 1, size) <==> found || Fits(slots, i, size)
    ensures var better := Fits(slots, i, size) && (!found || slots[i].size < slots[idx].size);
            && (better ==> FirstSmallest(slots, i + 1, size, i))
            && (!better && found ==> FirstSmallest(slots, i + 1, size, idx))
            && (Met(slots, size, projected, i) <==> better && slots[i].size == projected)
    ensures AnyMet(slots, i + 1, size, projected) <==> Met(slots, size, projected, i)
  {
    assert found && !(Fits(slots, i, size) && slots[i].size < slots[idx].size) ==> !Met(slots, size, projected, i);
  }

  lemma NothingSeen(slots: seq<Slot>, size: nat, projected: nat)
    ensures !AnyFits(slots, 0, size) && !AnyMet(slots, 0, size, projected)
  {
  }

  lemma RestIsEmpty(slots: seq<Slot>, i: nat, size: nat, projected: nat, idx: nat)
    requires i <= |slots| && forall j | i <= j < |slots| :: slots[j].size == 0
    ensures AnyFits(slots, |slots|, size) <==> AnyFits(slots, i, size)
    ensures AnyMet(slots, |slots|, size, projected) <==> AnyMet(slots, i, size, projected)
    ensures FirstSmallest(slots, i, size, idx) ==> FirstSmallest(slots, |slots|, size, idx) && Fits(slots, idx, size)
  {
  }

  lemma MetIsChosen(slots: seq<Slot>, size: nat, projected: nat, i: nat)
    requires Met(slots, size, projected, i)
    ensures Chosen(slots, size, projected, i) && AnyFits(slots, |slots|, size) && Fits(slots, i, size)
  {
  }

  /** No two slots can be chosen. */
  lemma ChosenIsUnique(slots: seq<Slot>, size: nat, projected: nat, i: nat, j: nat)
    requires Chosen(slots, size, projected, i) && Chosen(slots, size, projected, j)
    ensures i == j
  {
  }

  predicate Multiple(s: nat, grain: nat)
    requires grain > 0
  {
    s % grain == 0
  }

  lemma Multiples(size: nat, grain: nat)
    requires grain > 0
    ensures Multiple(0, grain) && Multiple(Projected(size, grain), grain) && Projected(size, grain) > size
  {
    DivModUnique(0, grain, 0, 0);
    DivModUnique(Projected(size, grain), grain, size / grain + 1, 0);
    assert size == size / grain * grain + size % grain;
    assert (size / grain + 1) * grain == size / grain * grain + grain;
  }

  /** A multiple of the grain that holds a request which is not one holds its whole size class. */
  lemma ClassIsLeast(size: nat, s: nat, grain: nat)
    requires grain > 0 && Multiple(s, grain) && s >= size
    ensures s != size ==> s >= Projected(size, grain)
    ensures s == size ==> Multiple(size, grain)
  {
    DivisionParts(size, grain);
    DivisionParts(s, grain);
    ProjectedIsProduct(size, grain);
    hide Mul, Projected;
    var q, k := size / grain, s / grain;
    MulLaws(q, 1, grain);
    MulLaws(grain, 0, 0);
    if k <= q { MulGrows(grain, k, q); } else { MulGrows(grain, q + 1, k); }
  }

  lemma ProjectedIsProduct(size: nat, grain: nat)
    requires grain > 0
    ensures Projected(size, grain) == Mul(grain, size / grain + 1)
  {
  }

  // ---- The ledger ----

  ghost predicate InSlot(slots: seq<Slot>, b: Block)
  {
    exists i: nat | i < |slots| :: slots[i].size > 0 && slots[i].pointer == b
  }

  ghost predicate Distinct(slots: seq<Slot>)
  {
    forall i: nat, j: nat | i < j < |slots| && slots[i].size > 0 && slots[j].size > 0 ::
      slots[i].pointer != slots[j].pointer
  }

  /** Of the blocks 0..issued each is with the client, in one slot, or released, and in exactly one of the three. */
  ghost predicate Ledger(slots: seq<Slot>, issued: nat, client: map<Block, nat>, released: set<Block>)
  {
    && Distinct(slots)
    && (forall b: Block | InSlot(slots, b) :: b < issued && b !in client && b !in released)
    && (forall b | b in client :: b < issued && b !in released)
    && (forall b | b in released :: b < issued)
    && (forall b: Block | b < issued :: b in client || b in released || InSlot(slots, b))
  }

  /** Cached blocks, and client blocks big enough to be cached, have a size class as size. */
  ghost predicate Classes(slots: seq<Slot>, client: map<Block, nat>, min_size: nat, grain: nat)
  {
    && grain > 0
    && (forall i: nat | i < |slots| && slots[i].size > 0 ::
          slots[i].size >= min_size && Multiple(slots[i].size, grain))
    && (forall b | b in client && client[b] >= min_size :: client[b] > 0 && Multiple(client[b], grain))
  }

  /** Every block is recorded with the size malloc was asked for: malloced[b] for block b. */
  ghost predicate TrueSizes(slots: seq<Slot>, client: map<Block, nat>, malloced: seq<nat>)
  {
    && (forall i: nat | i < |slots| && slots[i].size > 0 ::
          slots[i].pointer < |malloced| && slots[i].size == malloced[slots[i].pointer])
    && (forall b | b in client :: b < |malloced| && client[b] == malloced[b])
  }

  lemma SlotsOfUpdate(slots: seq<Slot>, i: nat, x: Slot, b: Block)
    requires i < |slots|
    ensures InSlot(slots[i := x], b) <==>
            (x.size > 0 && x.pointer == b)
            || exists j: nat | j < |slots| && j != i :: slots[j].size > 0 && slots[j].pointer == b
  {
    var s := slots[i := x];
    if InSlot(s, b) {
      var j: nat :| j < |s| && s[j].size > 0 && s[j].pointer == b;
      assert j != i ==> slots[j].size > 0 && slots[j].pointer == b;
    }
    if x.size > 0 && x.pointer == b { assert s[i].size > 0 && s[i].pointer == b; }
    forall j: nat | j < |slots| && j != i && slots[j].size > 0 && slots[j].pointer == b ensures InSlot(s, b) {
      assert s[j].size > 0 && s[j].pointer == b;
    }
  }

  /** Emptying slot i takes exactly its block out of the cache. */
  lemma Emptying(slots: seq<Slot>, issued: nat, client: map<Block, nat>, released: set<Block>, i: nat)
    requires Ledger(slots, issued, client, released) && i < |slots| && slots[i].size > 0
    ensures var p := slots[i].pointer;
            && InSlot(slots, p)
            && (forall b: Block :: InSlot(slots[i := Slot(0, p)], b) <==> InSlot(slots, b) && b != p)
            && Distinct(slots[i := Slot(0, p)])
  {
    var p := slots[i].pointer;
    forall b: Block ensures InSlot(slots[i := Slot(0, p)], b) <==> InSlot(slots, b) && b != p {
      SlotsOfUpdate(slots, i, Slot(0, p), b);
    }
  }

  /** Filling an empty slot i adds exactly one block to the cache. */
  lemma Filling(slots: seq<Slot>, i: nat, x: Slot)
    requires Distinct(slots) && i < |slots| && slots[i].size == 0 && x.size > 0 && !InSlot(slots, x.pointer)
    ensures forall b: Block :: InSlot(slots[i := x], b) <==> InSlot(slots, b) || b == x.pointer
    ensures Distinct(slots[i := x])
  {
    forall b: Block ensures InSlot(slots[i := x], b) <==> InSlot(slots, b) || b == x.pointer {
      SlotsOfUpdate(slots, i, x, b);
    }
  }

  /** A hit moves a block from its slot to the client. */
  lemma TakeKeepsLedger(slots: seq<Slot>, issued: nat, client: map<Block, nat>, released: set<Block>, i: nat, n: nat)
    requires Ledger(slots, issued, client, released) && i < |slots| && slots[i].size > 0
    ensures slots[i].pointer !in client
    ensures Ledger(slots[i := Slot(0, slots[i].pointer)], issued, client[slots[i].pointer := n], released)
  {
    Emptying(slots, issued, client, released, i);
    hide InSlot, Distinct;
    var s, p := slots[i := Slot(0, slots[i].pointer)], slots[i].pointer;
    var c := client[p := n];
    forall b: Block | b < issued ensures b in c || b in released || InSlot(s, b) {
      assert b in client || b in released || InSlot(slots, b);
    }
    forall b: Block | InSlot(s, b) ensures b < issued && b !in c && b !in released {
      assert InSlot(slots, b);
    }
  }

  /** A freed block that is cached moves from the client to an empty slot. */
  lemma StoreKeepsLedger(slots: seq<Slot>, issued: nat, client: map<Block, nat>, released: set<Block>, i: nat, x: Slot)
    requires Ledger(slots, issued, client, released) && i < |slots| && slots[i].size == 0
    requires x.size > 0 && x.pointer in client
    ensures Ledger(slots[i := x], issued, client - {x.pointer}, released) && InSlot(slots[i := x], x.pointer)
  {
    hide InSlot, Distinct;
    Filling(slots, i, x);
    var s, c := slots[i := x], client - {x.pointer};
    forall b: Block | b < issued ensures b in c || b in released || InSlot(s, b) {
      assert b in client || b in released || InSlot(slots, b);
    }
    forall b: Block | InSlot(s, b) ensures b < issued && b !in c && b !in released {
      assert InSlot(slots, b) || b == x.pointer;
    }
  }

  /** A block taken out of the cache by a reset is released. */
  lemma OneSlot(slots: seq<Slot>, issued: nat, client: map<Block, nat>, released: set<Block>, i: nat)
    requires Ledger(slots, issued, client, released) && i < |slots| && slots[i].size > 0
    ensures Ledger(slots[i := Slot(0, slots[i].pointer)], issued, client, released + {slots[i].pointer})
  {
    Emptying(slots, issued, client, released, i);
    hide InSlot, Distinct;
    var s, r := slots[i := Slot(0, slots[i].pointer)], released + {slots[i].pointer};
    forall b: Block | b < issued ensures b in client || b in r || InSlot(s, b) {
      assert b in client || b in released || InSlot(slots, b);
    }
    forall b: Block | InSlot(s, b) ensures b < issued && b !in client && b !in r {
      assert InSlot(slots, b);
    }
  }

  class FrameMemoryAllocator {
    const m_min_size: nat
    const m_max_count: nat
    const m_grain: nat              // 2^m_inc_bits
    const m_array: array<Slot>
    var m_free: nat
    var m_used: nat
    var m_miss_cnt: nat
    var issued: nat                 // blocks 0..issued were obtained from malloc
    ghost var malloced: seq<nat>    // the size each of them was obtained with
    ghost var client: map<Block, nat>
    ghost var released: set<Block>

    ghost predicate Counters()
      reads this, m_array
    {
      && m_array.Length == m_max_count
      && m_free + m_used == m_max_count
      && m_used == Used(m_array[..])
      && m_miss_cnt <= 10 && (m_miss_cnt > 0 ==> m_free == 0)
    }

    ghost predicate Valid()
      reads this, m_array
    {
      && Counters()
      && Ledger(m_array[..], issued, client, released)
      && Classes(m_array[..], client, m_min_size, m_grain)
      && |malloced| == issued && TrueSizes(m_array[..], client, malloced)
    }

    constructor (min_size: nat, max_count: nat, inc_bits: nat)
      ensures Valid() && client == map[] && fresh(m_array) && m_used == 0 && issued == 0 && released == {}
      ensures m_array.Length == max_count && AllFree(m_array[..])
      ensures m_min_size == min_size && m_max_count == max_count && m_grain == Pow2(inc_bits)
    {
      m_min_size, m_max_count, m_grain := min_size, max_count, Pow2(inc_bits);
      m_free, m_used, m_miss_cnt := max_count, 0, 0;
      m_array := new Slot[max_count](_ => Slot(0, 0));
      issued, malloced, client, released := 0, [], map[], {};
      new;
      AllEmpty(m_array[..]);
    }

    /** malloc: a block of this size that nobody has. */
    method Malloc(size: nat) returns (result: Block)
      requires |malloced| == issued
      modifies this`issued, this`malloced
      ensures result == old(issued) && issued == old(issued) + 1 && malloced == old(malloced) + [size]
    {
      result := issued;
      issued := issued + 1;
      malloced := malloced + [size];
    }

    /** The search loop of Alloc, with its two early exits: all used slots seen, or the projected size met. */
    method FindBlock(size: nat, projected: nat) returns (found: bool, idx: nat)
      requires Counters()
      ensures found <==> AnyFits(m_array[..], m_array.Length, size)
      ensures found ==> Fits(m_array[..], idx, size) && Chosen(m_array[..], size, projected, idx)
    {
      hide Used, AnyFits, FirstSmallest, AnyMet, Met;
      found, idx := false, 0;
      var allocated_size := 0;
      var used := m_used;
      var i := 0;
      UsedOfNone(m_array[..0]);
      NothingSeen(m_array[..], size, projected);
      while i < m_max_count && used > 0
        invariant i <= m_max_count && used == m_used - Used(m_array[..i])
        invariant found <==> AnyFits(m_array[..], i, size)
        invariant if found then idx < i && FirstSmallest(m_array[..], i, size, idx) else allocated_size == 0
        invariant found ==> allocated_size == m_array[idx].size > 0
        invariant !AnyMet(m_array[..], i, size, projected)
      {
        UsedStep(m_array[..], i);
        SearchStep(m_array[..], i, size, projected, found, idx);
        if m_array[i].size > 0 {
          used := used - 1;
          if m_array[i].size >= size {
            if allocated_size == 0 || m_array[i].size < allocated_size {
              allocated_size := m_array[i].size;
              found, idx := true, i;
              if allocated_size == projected {
                MetIsChosen(m_array[..], size, projected, i);
                return;
              }
            }
          }
        }
        i := i + 1;
      }
      UsedPrefix(m_array[..], i);
      RestIsEmpty(m_array[..], i, size, projected, idx);
    }

    /** Frees every cached block. */
    method Reset()
      requires m_array.Length == m_max_count && Ledger(m_array[..], issued, client, released)
      requires Classes(m_array[..], client, m_min_size, m_grain)
      requires |malloced| == issued && TrueSizes(m_array[..], client, malloced)
      modifies this`m_free, this`m_used, this`m_miss_cnt, this`released, m_array
      ensures Valid() && m_used == 0 && m_miss_cnt == 0 && AllFree(m_array[..])
      ensures forall b: Block :: b in released <==> b in old(released) || InSlot(old(m_array[..]), b)
    {
      hide Used, Ledger, Multiple, InSlot;
      for i := 0 to m_max_count
        invariant forall j: nat | j < i :: m_array[j].size == 0
        invariant Ledger(m_array[..], issued, client, released)
        invariant Classes(m_array[..], client, m_min_size, m_grain) && TrueSizes(m_array[..], client, malloced)
        invariant forall b: Block ::
                  b in released || InSlot(m_array[..], b) <==> b in old(released) || InSlot(old(m_array[..]), b)
      {
        if m_array[i].size > 0 {
          ghost var slots := m_array[..];
          OneSlot(slots, issued, client, released, i);
          ReleasedFrom(slots, i, released);
          m_array[i] := m_array[i].(size := 0);
          released := released + {m_array[i].pointer};
          assert m_array[..] == slots[i := Slot(0, slots[i].pointer)];
        }
      }
      m_free, m_used, m_miss_cnt := m_max_count, 0, 0;
      AllEmpty(m_array[..]);
      NoneInSlots(m_array[..]);
    }

    /** Takes the block out of slot idx and hands it to the client. */
    method TakeCached(idx: nat) returns (result: Block)
      requires Valid() && idx < m_array.Length && m_array[idx].size > 0
      modifies this`m_free, this`m_used, this`m_miss_cnt, this`client, m_array
      ensures Valid() && m_miss_cnt == 0 && m_used == old(m_used) - 1
      ensures result == old(m_array[idx].pointer) && result !in old(client)
      ensures client == old(client)[result := old(m_array[idx].size)]
      ensures m_array[..] == old(m_array[..])[idx := Slot(0, result)]
    {
      hide Used, Ledger, Multiple, InSlot;
      ghost var slots := m_array[..];
      result := m_array[idx].pointer;
      UsedOfUpdate(slots, idx, Slot(0, result));
      TakeKeepsLedger(slots, issued, client, released, idx, m_array[idx].size);
      client := client[result := m_array[idx].size];
      m_used := m_used - 1;
      m_free := m_free + 1;
      m_array[idx] := m_array[idx].(size := 0);
      m_miss_cnt := 0;
      assert m_array[..] == slots[idx := Slot(0, result)];
    }

    /** A block from malloc, handed to the client. */
    method TakeFresh(allocated_size: nat) returns (result: Block)
      requires Valid() && (allocated_size >= m_min_size ==> allocated_size > 0 && Multiple(allocated_size, m_grain))
      modifies this`issued, this`malloced, this`client
      ensures Valid() && result == old(issued) && result !in old(client)
      ensures client == old(client)[result := allocated_size] && malloced == old(malloced) + [allocated_size]
    {
      hide Used, Multiple, InSlot;
      result := Malloc(allocated_size);
      client := client[result := allocated_size];
    }

    /** A block that malloc gave at least the requested size: the cached one the search settles on, or a new block of
        the projected size when no cached block fits. The eleventh such miss in a row on a full cache empties the
        cache. */
    method Alloc(size: nat) returns (result: Block, allocated_size: nat)
      requires Valid()
      modifies this`m_free, this`m_used, this`m_miss_cnt, this`client, this`released,
               this`issued, this`malloced, m_array
      ensures Valid() && old(malloced) <= malloced && result < |malloced|
      ensures malloced[result] == allocated_size >= size
      ensures result !in old(client) && client == old(client)[result := allocated_size]
      ensures Allocated(size, old(m_array[..]), m_array[..], old(issued), result, allocated_size)
      ensures Emptied(size, old(m_array[..]), m_array[..], old(m_free), old(m_miss_cnt), old(released), released)
      ensures m_miss_cnt == if size < m_min_size then old(m_miss_cnt)
                            else if AnyFits(old(m_array[..]), m_array.Length, size) then 0
                            else if old(m_free) > 0 then old(m_miss_cnt)
                            else if old(m_miss_cnt) < 10 then old(m_miss_cnt) + 1 else 0
    {
      hide Used, Multiple, Projected, Smallest, Ledger, Classes, InSlot, AnyFits, Fits, Chosen;
      GrainPositive(m_array[..], client, m_min_size, m_grain);
      if size >= m_min_size {
        var projected_allocated_size := (size / m_grain + 1) * m_grain;
        Multiples(size, m_grain);
        ProjectedIs(size, m_grain);
        var found, idx := FindBlock(size, projected_allocated_size);
        if found {
          FitsMeans(m_array[..], idx, size);
          ghost var slots := m_array[..];
          allocated_size := m_array[idx].size;
          result := TakeCached(idx);
          assert slots[idx] == Slot(allocated_size, result);
        } else {
          if m_free == 0 { m_miss_cnt := m_miss_cnt + 1; }
          if m_miss_cnt > 10 { Reset(); }
          allocated_size := projected_allocated_size;
          result := TakeFresh(allocated_size);
        }
      } else {
        allocated_size := size;
        result := TakeFresh(size);
      }
    }

    /** What a request of this size may return, given the slots before and after. */
    ghost predicate Allocated(size: nat, slots: seq<Slot>, slots': seq<Slot>, next: Block, result: Block, given: nat)
    {
      m_grain > 0 &&
      if size < m_min_size then result == next && given == size && slots' == slots
      else if AnyFits(slots, |slots|, size) then
        exists i: nat :: Fits(slots, i, size) && slots[i] == Slot(given, result)
                         && slots' == slots[i := Slot(0, result)]
                         && Chosen(slots, size, Projected(size, m_grain), i)
      else result == next && given == Projected(size, m_grain)
    }

    /** When blocks are released by an allocation, and which; the slots change only then and for a hit. */
    ghost predicate Emptied(size: nat, slots: seq<Slot>, slots': seq<Slot>, free: nat, misses: nat,
                            before: set<Block>, after: set<Block>)
    {
      if size >= m_min_size && !AnyFits(slots, |slots|, size) && free == 0 && misses == 10
      then (forall b: Block :: b in after <==> b in before || InSlot(slots, b)) && AllFree(slots')
      else after == before && (size < m_min_size || !AnyFits(slots, |slots|, size) ==> slots' == slots)
    }

    /** The client gives a block back with the size it was told; it is cached in the first empty slot if there is room
        and released if not. */
    method Free(pointer: Block, allocated_size: nat)
      requires Valid() && pointer in client && client[pointer] == allocated_size
      modifies this`m_free, this`m_used, this`client, this`released, m_array
      ensures Valid() && client == old(client) - {pointer}
      ensures if allocated_size >= m_min_size && old(m_free) > 0
              then released == old(released) && m_used == old(m_used) + 1
                   && Stored(old(m_array[..]), m_array[..], Slot(allocated_size, pointer))
              else m_array[..] == old(m_array[..]) && released == old(released) + {pointer}
    {
      hide Used, Multiple, InSlot, Ledger;
      if allocated_size >= m_min_size && m_free > 0 {
        var i := 0;
        FreeSlotExists(m_array[..]);
        while i < m_max_count && m_array[i].size != 0
          invariant i <= m_max_count && forall j: nat | j < i :: m_array[j].size > 0
        {
          i := i + 1;
        }
        ghost var slots, x := m_array[..], Slot(allocated_size, pointer);
        UsedOfUpdate(slots, i, x);
        StoreKeepsLedger(slots, issued, client, released, i, x);
        client := client - {pointer};
        m_free := m_free - 1;
        m_used := m_used + 1;
        m_array[i] := Slot(allocated_size, pointer);
        assert m_array[..] == slots[i := x];
        assert FirstEmpty(slots, i);
      } else {
        ReleaseKeepsLedger(m_array[..], issued, client, released, pointer);
        client := client - {pointer};
        released := released + {pointer};
      }
    }
  }

  predicate FirstEmpty(slots: seq<Slot>, i: nat) {
    i < |slots| && slots[i].size == 0 && forall j: nat | j < i :: slots[j].size > 0
  }

  /** The first empty slot holds x now, and nothing else changed. */
  ghost predicate Stored(slots: seq<Slot>, slots': seq<Slot>, x: Slot) {
    exists i: nat :: FirstEmpty(slots, i) && slots' == slots[i := x]
  }

  ghost predicate AllFree(slots: seq<Slot>) {
    forall i: nat | i < |slots| :: slots[i].size == 0
  }

  lemma NoneInSlots(slots: seq<Slot>)
    requires AllFree(slots)
    ensures forall b: Block :: !InSlot(slots, b)
  {
  }

  lemma ReleaseKeepsLedger(slots: seq<Slot>, issued: nat, client: map<Block, nat>, released: set<Block>, b: Block)
    requires Ledger(slots, issued, client, released) && b in client
    ensures Ledger(slots, issued, client - {b}, released + {b})
  {
    hide InSlot;
  }

  lemma ReleasedFrom(slots: seq<Slot>, i: nat, released: set<Block>)
    requires i < |slots| && slots[i].size > 0
    ensures var p := slots[i].pointer;
            forall b: Block ::
              b in released || InSlot(slots, b) <==> b in released + {p} || InSlot(slots[i := Slot(0, p)], b)
  {
    var p := slots[i].pointer;
    forall b: Block
      ensures InSlot(slots, b) || b in released <==> b in released + {p} || InSlot(slots[i := Slot(0, p)], b) {
      SlotsOfUpdate(slots, i, Slot(0, p), b);
    }
  }

  lemma GrainPositive(slots: seq<Slot>, client: map<Block, nat>, min_size: nat, grain: nat)
    requires Classes(slots, client, min_size, grain)
    ensures grain > 0
  {
  }

  lemma FitsMeans(slots: seq<Slot>, i: nat, size: nat)
    requires Fits(slots, i, size)
    ensures i < |slots| && slots[i].size > 0 && slots[i].size >= size
  {
  }

  predicate Exact(slots: seq<Slot>, j: nat, size: nat) {
    Fits(slots, j, size) && slots[j].size == size
  }

  /** Some slot has exactly the requested size, and a slot of the projected size comes before all of those. */
  ghost predicate Shadowed(slots: seq<Slot>, size: nat, projected: nat) {
    && (exists j: nat :: Exact(slots, j, size))
    && exists i: nat :: Fits(slots, i, size) && slots[i].size == projected
         && forall j: nat | Exact(slots, j, size) :: i < j
  }

  /** The first slot of the projected size is met unless something smaller comes first. */
  lemma {:induction false} ShadowIsMet(slots: seq<Slot>, size: nat, projected: nat, i: nat)
    requires Fits(slots, i, size) && slots[i].size == projected > size
    requires forall j: nat | j < i && Fits(slots, j, size) :: slots[j].size >= projected
    ensures AnyMet(slots, |slots|, size, projected)
    decreases i
  {
    if j: nat :| j < i && Fits(slots, j, size) && slots[j].size == projected {
      ShadowIsMet(slots, size, projected, j);
    } else {
      assert Met(slots, size, projected, i);
    }
  }

  /** The search returns the smallest fitting block unless the best fit, a block of exactly the requested size, stands
      behind a block of the projected size; so always, when the request is not a size class itself. */
  lemma BestFitUnlessShadowed(slots: seq<Slot>, client: map<Block, nat>, min_size: nat, grain: nat, size: nat, i: nat)
    requires Classes(slots, client, min_size, grain) && Chosen(slots, size, Projected(size, grain), i)
    ensures Smallest(slots, |slots|, size, i) <==> !Shadowed(slots, size, Projected(size, grain))
    ensures !Multiple(size, grain) ==> Smallest(slots, |slots|, size, i)
  {
    var projected := Projected(size, grain);
    Multiples(size, grain);
    forall j: nat | Fits(slots, j, size)
      ensures slots[j].size >= projected || (Exact(slots, j, size) && Multiple(size, grain)) {
      ClassIsLeast(size, slots[j].size, grain);
    }
    hide Multiple, Projected, Classes;
    if Shadowed(slots, size, projected) {
      var p: nat :| Fits(slots, p, size) && slots[p].size == projected
          && forall j: nat | Exact(slots, j, size) :: p < j;
      ShadowIsMet(slots, size, projected, p);
    }
  }

  /** A best fit that is missed: with blocks of two grains and one grain cached, a request for one grain gets two. */
  lemma BestFitMissed(grain: nat, a: Block, b: Block)
    requires grain > 0
    ensures var slots := [Slot(2 * grain, a), Slot(grain, b)];
            && Chosen(slots, grain, Projected(grain, grain), 0)
            && Smallest(slots, 2, grain, 1) && !Smallest(slots, 2, grain, 0)
  {
    DivModUnique(grain, grain, 1, 0);
    var slots := [Slot(2 * grain, a), Slot(grain, b)];
    assert Met(slots, grain, 2 * grain, 0);
  }

  lemma NothingFits(slots: seq<Slot>, size: nat)
    requires AllFree(slots)
    ensures !AnyFits(slots, |slots|, size)
  {
  }

  lemma ProjectedOf(grain: nat, size: nat)
    requires size < grain
    ensures Projected(size, grain) == grain && Projected(grain, grain) == 2 * grain
  {
    DivModUnique(size, grain, 0, size);
    DivModUnique(grain, grain, 1, 0);
  }

  /** The miss happens: a client takes and gives back a block of each size, and then asks for one size step. */
  method MissBestFit(min_size: nat, inc_bits: nat) returns (cached: seq<Slot>, given: nat)
    requires min_size < Pow2(inc_bits)
    ensures var grain := Pow2(inc_bits);
            |cached| == 2 && Smallest(cached, 2, grain, 1) && cached[1].size == grain && given == 2 * grain
  {
    hide Used, Ledger, Classes, InSlot, Multiple, Projected, AnyFits, Chosen, Pow2, TrueSizes, Smallest;
    var grain := Pow2(inc_bits);
    var m := new FrameMemoryAllocator(min_size, 2, inc_bits);
    ProjectedOf(grain, min_size);
    NothingFits(m.m_array[..], grain);
    var a, large := m.Alloc(grain);
    NothingFits(m.m_array[..], min_size);
    var b, small := m.Alloc(min_size);
    AllEmpty(m.m_array[..]);
    ghost var before := m.m_array[..];
    m.Free(a, large);
    StoredFirst(before, m.m_array[..], Slot(2 * grain, a));
    before := m.m_array[..];
    m.Free(b, small);
    StoredSecond(before, m.m_array[..], Slot(grain, b));
    cached := m.m_array[..];
    BestFitMissed(grain, a, b);
    SomeFits(cached, grain, 0);
    var c, size := m.Alloc(grain);
    OnlyFirst(cached, grain);
    given := size;
  }

  /** Requests that nothing in a full cache fits are counted and release nothing, up to ten of them. */
  method MissInARow(m: FrameMemoryAllocator, sizes: seq<nat>)
    requires m.Valid() && m.m_free == 0 && m.m_miss_cnt + |sizes| <= 10
    requires forall size | size in sizes ::
               size >= m.m_min_size && !AnyFits(m.m_array[..], m.m_array.Length, size)
    modifies m, m.m_array
    ensures m.Valid() && m.m_free == 0 && m.m_miss_cnt == old(m.m_miss_cnt) + |sizes|
    ensures m.m_array[..] == old(m.m_array[..]) && m.released == old(m.released)
  {
    hide Used, Ledger, Classes, InSlot, Multiple, Projected, AnyFits, Chosen, TrueSizes;
    for k := 0 to |sizes|
      invariant m.Valid() && m.m_free == 0 && m.m_miss_cnt == old(m.m_miss_cnt) + k
      invariant m.m_array[..] == old(m.m_array[..]) && m.released == old(m.released)
    {
      assert sizes[k] in sizes;
      var b, given := m.Alloc(sizes[k]);
    }
  }

  /** The eleventh such miss releases exactly the cached blocks; the ten before it released nothing. */
  method EleventhMiss(m: FrameMemoryAllocator, sizes: seq<nat>)
    requires m.Valid() && m.m_free == 0 && m.m_miss_cnt == 0 && |sizes| == 11
    requires forall size | size in sizes ::
               size >= m.m_min_size && !AnyFits(m.m_array[..], m.m_array.Length, size)
    modifies m, m.m_array
    ensures m.Valid() && m.m_miss_cnt == 0 && AllFree(m.m_array[..])
    ensures forall b: Block :: b in m.released <==> b in old(m.released) || InSlot(old(m.m_array[..]), b)
  {
    hide Used, Ledger, Classes, InSlot, Multiple, Projected, AnyFits, Chosen, TrueSizes, AllFree;
    assert sizes[10] in sizes;
    assert forall size | size in sizes[..10] :: size in sizes;
    MissInARow(m, sizes[..10]);
    var b, given := m.Alloc(sizes[10]);
  }

  lemma StoredFirst(slots: seq<Slot>, slots': seq<Slot>, x: Slot)
    requires |slots| == 2 && AllFree(slots) && Stored(slots, slots', x)
    ensures slots' == [x, slots[1]]
  {
    var i: nat :| FirstEmpty(slots, i) && slots' == slots[i := x];
    assert slots[0].size == 0;
    assert i == 0;
  }

  lemma StoredSecond(slots: seq<Slot>, slots': seq<Slot>, x: Slot)
    requires |slots| == 2 && slots[0].size > 0 && slots[1].size == 0 && Stored(slots, slots', x)
    ensures slots' == [slots[0], x]
  {
    var i: nat :| FirstEmpty(slots, i) && slots' == slots[i := x];
    assert i == 1;
  }

  lemma SomeFits(slots: seq<Slot>, size: nat, i: nat)
    requires size > 0 && Chosen(slots, size, Projected(size, size), i)
    ensures AnyFits(slots, |slots|, size)
  {
  }

  lemma OnlyFirst(slots: seq<Slot>, grain: nat)
    requires grain > 0 && Chosen(slots, grain, Projected(grain, grain), 0)
    ensures forall i: nat :: Chosen(slots, grain, Projected(grain, grain), i) ==> i == 0
  {
    forall i: nat | Chosen(slots, grain, Projected(grain, grain), i) ensures i == 0 {
      ChosenIsUnique(slots, grain, Projected(grain, grain), i, 0);
    }
  }

  lemma ProjectedIs(size: nat, grain: nat)
    requires grain > 0
    ensures Projected(size, grain) == (size / grain + 1) * grain
  {
  }

  /** Some slot is empty while fewer are used than there are. */
  lemma FreeSlotExists(slots: seq<Slot>)
    requires Used(slots) < |slots|
    ensures exists i: nat | i < |slots| :: slots[i].size == 0
  {
    if forall i | 0 <= i < |slots| :: slots[i].size > 0 { AllFull(slots); }
  }

  lemma {:induction false} AllFull(slots: seq<Slot>)
    requires forall i | 0 <= i < |slots| :: slots[i].size > 0
    ensures Used(slots) == |slots|
  {
    if slots != [] { AllFull(slots[..|slots| - 1]); }
  }

  lemma UsedStep(slots: seq<Slot>, i: nat)
    requires i < |slots|
    ensures Used(slots[..i + 1]) == Used(slots[..i]) + if slots[i].size > 0 then 1 else 0
  {
    assert slots[..i + 1][..i] == slots[..i];
  }

  lemma UsedOfNone(slots: seq<Slot>)
    requires slots == []
    ensures Used(slots) == 0
  {
  }

  lemma {:induction false} AllEmpty(slots: seq<Slot>)
    requires forall i | 0 <= i < |slots| :: slots[i].size == 0
    ensures Used(slots) == 0
  {
    if slots != [] { AllEmpty(slots[..|slots| - 1]); }
  }
}
