/** The heap of newlib: _sbrk (Core/Src/sysmem.c) on a machine with 32-bit addresses. */
module Sbrk {
  const NULL: int := 0

  function Word(x: int): int
  {
    x % 0x1_0000_0000
  }

  /** The addresses of _end and max_heap. */
  datatype Memory = Memory(end: int, limit: int)

  /** What the linker guarantees: a heap that is not at NULL and starts below the stack. */
  predicate Linked(m: Memory)
  {
    NULL < m.end <= m.limit < 0x1_0000_0000
  }

  datatype Region = Region(start: int, size: int)

  /** __sbrk_heap_end and the regions given out so far, in order. */
  datatype State = State(heapEnd: int, regions: seq<Region>)

  /** A ptrdiff_t. */
  predicate IsIncrement(incr: int)
  {
    -0x8000_0000 <= incr < 0x8000_0000
  }

  function Current(m: Memory, s: State): int
  {
    if s.heapEnd == NULL then m.end else s.heapEnd
  }

  predicate Refused(m: Memory, s: State, incr: int)
  {
    Word(Current(m, s) + incr) > m.limit
  }

  function Call(m: Memory, s: State, incr: int): State
  {
    var current := Current(m, s);
    if Refused(m, s, incr) then s.(heapEnd := current)
    else State(Word(current + incr), s.regions + [Region(current, incr)])
  }

  function Run(m: Memory, incrs: seq<int>): State
  {
    if incrs == [] then State(NULL, []) else Call(m, Run(m, incrs[..|incrs| - 1]), incrs[|incrs| - 1])
  }

  // ---------------------------------------------------------- tiling

  /** The regions follow each other from `from` to `to` without gaps. */
  predicate Tile(regions: seq<Region>, from: int, to: int)
  {
    if regions == [] then from == to
    else
      var last := regions[|regions| - 1];
      last.size >= 0 && last.start + last.size == to && Tile(regions[..|regions| - 1], from, last.start)
  }

  predicate Holds(r: Region, address: int)
  {
    r.start <= address < r.start + r.size
  }

  lemma {:induction false} TileBounds(regions: seq<Region>, from: int, to: int)
    requires Tile(regions, from, to)
    ensures from <= to
    ensures forall i :: 0 <= i < |regions| ==> from <= regions[i].start <= regions[i].start + regions[i].size <= to
  {
    if regions != [] {
      var m := |regions| - 1;
      TileBounds(regions[..m], from, regions[m].start);
      forall i | 0 <= i < m ensures from <= regions[i].start <= regions[i].start + regions[i].size <= to {
        assert regions[..m][i] == regions[i];
      }
    }
  }

  /** Each address between the bounds lies in exactly one region, and no other address in any. */
  lemma {:induction false} TileOnce(regions: seq<Region>, from: int, to: int, address: int)
    requires Tile(regions, from, to)
    ensures (exists i :: 0 <= i < |regions| && Holds(regions[i], address)) <==> from <= address < to
    ensures forall i, j :: 0 <= i < j < |regions| ==> !(Holds(regions[i], address) && Holds(regions[j], address))
  {
    TileBounds(regions, from, to);
    if regions != [] {
      var m := |regions| - 1;
      TileOnce(regions[..m], from, regions[m].start, address);
      TileBounds(regions[..m], from, regions[m].start);
      assert forall i :: 0 <= i < m ==> regions[..m][i] == regions[i];
      if regions[m].start <= address < to { assert Holds(regions[m], address); }
    }
  }

  /** The regions tile the heap, and the heap ends below the stack. */
  predicate Safe(m: Memory, s: State)
  {
    Tile(s.regions, m.end, Current(m, s)) && Current(m, s) <= m.limit
  }

  predicate Growing(incrs: seq<int>)
  {
    forall i :: 0 <= i < |incrs| ==> IsIncrement(incrs[i]) && incrs[i] >= 0
  }

  lemma {:induction false} CallKeepsSafe(m: Memory, s: State, incr: int)
    requires Linked(m) && m.limit <= 0x8000_0000 && Safe(m, s) && IsIncrement(incr) && incr >= 0
    ensures Safe(m, Call(m, s, incr))
    ensures Refused(m, s, incr) <==> Current(m, s) + incr > m.limit
    ensures Refused(m, s, incr) ==> Current(m, Call(m, s, incr)) == Current(m, s) && Call(m, s, incr).regions == s.regions
    ensures !Refused(m, s, incr) ==>
              && Current(m, Call(m, s, incr)) == Current(m, s) + incr
              && Call(m, s, incr).regions == s.regions + [Region(Current(m, s), incr)]
  {
    TileBounds(s.regions, m.end, Current(m, s));
    var next := Call(m, s, incr);
    if !Refused(m, s, incr) { assert next.regions[..|next.regions| - 1] == s.regions; }
  }

  lemma {:induction false} RunIsSafe(m: Memory, incrs: seq<int>)
    requires Linked(m) && m.limit <= 0x8000_0000 && Growing(incrs)
    ensures Safe(m, Run(m, incrs))
  {
    if incrs != [] {
      var k := |incrs| - 1;
      RunIsSafe(m, incrs[..k]);
      CallKeepsSafe(m, Run(m, incrs[..k]), incrs[k]);
    }
  }

  /** With a stack in the upper half of the memory, a large increment wraps past the check. */
  function Overrun(m: Memory): seq<int>
    requires Linked(m)
  {
    if m.end > 0x8000_0000 then [0x7FFF_FFFF] else [0x8000_0000 - m.end, 1, 0x7FFF_FFFF]
  }

  lemma {:induction false} OverrunIsUnsafe(m: Memory)
    requires Linked(m) && m.limit > 0x8000_0000
    ensures Growing(Overrun(m)) && !Safe(m, Run(m, Overrun(m)))
  {
    var incrs := Overrun(m);
    var before := Run(m, incrs[..|incrs| - 1]);
    if m.end <= 0x8000_0000 {
      assert incrs[..2][..1][..0] == [] && incrs[..2][..1] == [0x8000_0000 - m.end] && incrs[..2] == [0x8000_0000 - m.end, 1];
      assert Run(m, incrs[..2][..1]).heapEnd == 0x8000_0000;
      assert before.heapEnd == 0x8000_0001;
    }
    var after := Run(m, incrs);
    assert after == Call(m, before, 0x7FFF_FFFF);
    assert after.regions[|after.regions| - 1] == Region(Current(m, before), 0x7FFF_FFFF);
  }

  /** All runs of increments tile the heap, below the stack, if and only if the stack limit is in the lower half of the memory. */
  lemma {:induction false} SafeIff(m: Memory)
    requires Linked(m)
    ensures (forall incrs :: Growing(incrs) ==> Safe(m, Run(m, incrs))) <==> m.limit <= 0x8000_0000
  {
    if m.limit <= 0x8000_0000 {
      forall incrs | Growing(incrs) ensures Safe(m, Run(m, incrs)) { RunIsSafe(m, incrs); }
    } else {
      OverrunIsUnsafe(m);
    }
  }

  /** The addresses of STM32H743VITX_FLASH.ld meet the condition: RAM_D1 ends at 0x24080000 and keeps 4 KiB of stack. */
  lemma {:induction false} BoardIsSafe(end: int, incrs: seq<int>)
    requires 0x2400_0000 <= end <= 0x2408_0000 - 0x1000 && Growing(incrs)
    ensures Safe(BoardMemory(end), Run(BoardMemory(end), incrs))
  {
    RunIsSafe(BoardMemory(end), incrs);
  }

  function BoardMemory(end: int): Memory
  {
    Memory(end, Word(0x2408_0000 - 0x1000))
  }

  /** A call with any increment, also a negative one, keeps the heap in its bounds unless it gives back more than there is. */
  lemma {:induction false} StaysInBoundsIff(m: Memory, s: State, incr: int)
    requires Linked(m) && m.limit <= 0x8000_0000 && m.end <= Current(m, s) <= m.limit && IsIncrement(incr)
    ensures m.end <= Word(Call(m, s, incr).heapEnd) <= m.limit <==> !(0 <= Current(m, s) + incr < m.end)
  {
  }

  // ----------------------------------------------------------- _sbrk

  class Heap {
    const memory: Memory
    var heapEnd: int
    var errno: bool  // ENOMEM
    ghost var regions: seq<Region>

    /** From the addresses of the linker symbols _end, _estack and _Min_Stack_Size. */
    constructor (end: int, estack: int, minStackSize: int)
      ensures memory == Memory(end, Word(estack - minStackSize)) && heapEnd == NULL && regions == [] && !errno
    {
      memory := Memory(end, Word(estack - minStackSize));
      heapEnd, regions, errno := NULL, [], false;
    }

    method Sbrk(incr: int) returns (r: int)
      modifies this
      ensures State(heapEnd, regions) == Call(memory, old(State(heapEnd, regions)), incr)
      ensures var end := if old(heapEnd) == NULL then memory.end else old(heapEnd);
              if (end + incr) % 0x1_0000_0000 > memory.limit then
                r == -1 && errno && heapEnd == end && regions == old(regions)
              else
                && r == end && errno == old(errno) && heapEnd == (end + incr) % 0x1_0000_0000
                && regions == old(regions) + [Region(end, incr)]
    {
      if heapEnd == NULL {
        heapEnd := memory.end;
      }
      if Word(heapEnd + incr) > memory.limit {
        errno := true;
        return -1;
      }
      r := heapEnd;
      heapEnd := Word(heapEnd + incr);
      regions := regions + [Region(r, incr)];
    }
  }
}
