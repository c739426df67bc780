/** `AlignedAllocator<T>`: an STL allocator that over-allocates with
    `malloc`, rounds the address up to a 64-byte boundary and keeps the
    pointer `malloc` returned in the eight bytes just below the block it
    hands out, where `deallocate` finds it again.

    Addresses and sizes are `size_t` values, modelled as integers below
    2^64 with the wrap-around of unsigned arithmetic written out.  Memory is
    a map from the address of an 8-byte word to the word stored there;
    `malloc` is not called but its answer is a parameter. */
module AlignedAlloc {
  import opened Wrappers

  const Modulus: int := 0x1_0000_0000_0000_0000
  type SizeT = x: int | 0 <= x < Modulus

  /** `ALIGN`, and `sizeof(U64)`, the size of the header word. */
  const Align: int := 64
  const WordSize: int := 8

  /** Unsigned `size_t` arithmetic wraps modulo 2^64. */
  function Wrap(x: int): SizeT {
    x % Modulus
  }

  /** The allocator is stateless; `elemSize` is `sizeof(T)`, at least 1 for
      every C++ type. */
  datatype Allocator = Allocator(elemSize: SizeT)
  type ValidAllocator = a: Allocator | a.elemSize >= 1 witness Allocator(1)

  /** Words of memory by address. */
  type Memory = map<SizeT, SizeT>

  datatype AllocError = BadAlloc

  /** The size requested from `malloc`: `n*sizeof(T) + sizeof(U64) + ALIGN`,
      in wrapping `size_t` arithmetic. */
  function NeededSize(a: Allocator, n: SizeT): SizeT {
    Wrap(Wrap(Wrap(n * a.elemSize) + WordSize) + Align)
  }

  /** `x & ~(ALIGN - 1)` on a `size_t`: clearing the low six bits. */
  function AlignDown(x: SizeT): (r: SizeT)
    ensures r % Align == 0 && r <= x < r + Align
  {
    x - x % Align
  }

  /** Clearing the low six bits of a 64-bit word subtracts its remainder
      modulo 64: the mask of the source and `AlignDown` agree. */
  lemma MaskIsAlignDown(x: bv64)
    ensures x & !63 == x - x % 64
  {
  }

  /** The address `allocate` returns for the block `mem`:
      `((mem + 8) + 63) & ~63`, wrapping. */
  function AlignedAddress(mem: SizeT): SizeT {
    AlignDown(Wrap(Wrap(mem + WordSize) + Align - 1))
  }

  /** `max_size()`: `(SIZE_MAX - ALIGN - sizeof(U64)) / sizeof(T)`. */
  function MaxSize(a: ValidAllocator): SizeT {
    (Modulus - 1 - Align - WordSize) / a.elemSize
  }

  /** Up to `max_size()` elements the size computation of `allocate` does
      not wrap, and beyond it it does: `max_size()` is exactly the largest
      safe count. */
  lemma MaxSizeNoOverflow(a: ValidAllocator, n: SizeT)
    ensures n <= MaxSize(a) <==> n * a.elemSize + WordSize + Align <= Modulus - 1
    ensures n <= MaxSize(a) ==> NeededSize(a, n) == n * a.elemSize + WordSize + Align
  {
    var s := a.elemSize;
    var q := (Modulus - 1 - Align - WordSize) / s;
    assert q * s <= Modulus - 1 - Align - WordSize < (q + 1) * s;
    if n <= q {
      MulMonotone(n, q, s);
    } else {
      MulMonotone(q + 1, n, s);
    }
  }

  lemma MulMonotone(x: int, y: int, s: int)
    requires 0 <= x <= y && 0 <= s
    ensures x * s <= y * s
  {
  }

  /** The successful result of `allocate`: the pointer handed out and the
      memory with the header word written. */
  datatype Allocation = Allocation(ptr: SizeT, memory: Memory)

  /** `allocate(n)`.  `mem` is what `malloc(NeededSize(n))` returned: 0 for
      a null pointer, which raises `bad_alloc`; otherwise the start of a
      block of `NeededSize(n)` bytes, which `malloc` guarantees to lie in
      the address space.  The header at `ret - 8` is set to `mem`. */
  function Allocate(a: Allocator, n: SizeT, mem: SizeT, memory: Memory): (r: Result<Allocation, AllocError>)
    requires mem != 0 ==> mem + NeededSize(a, n) <= Modulus
    ensures r.Failure? <==> mem == 0
    ensures r.Success? ==> r.value.ptr % Align == 0
    ensures r.Success? && r.value.ptr >= WordSize ==>
      var header := r.value.ptr - WordSize;
      header in r.value.memory && r.value.memory[header] == mem &&
      r.value.memory.Keys == memory.Keys + {header} &&
      (forall addr | addr in memory && addr != header :: r.value.memory[addr] == memory[addr])
  {
    if mem == 0 then Failure(BadAlloc)
    else
      var ret := AlignedAddress(mem);
      Success(Allocation(ret, if ret >= WordSize then memory[ret - WordSize := mem] else memory))
  }

  /** For a count within `max_size()`, the header slot and the payload of
      `n` elements both lie inside the block `malloc` returned:
      `mem <= ret - 8` and `ret + n*sizeof(T) <= mem + needed`. */
  lemma AllocationInsideBlock(a: ValidAllocator, n: SizeT, mem: SizeT, memory: Memory)
    requires mem != 0 && mem + NeededSize(a, n) <= Modulus
    requires n <= MaxSize(a)
    ensures var r := Allocate(a, n, mem, memory);
      r.Success? && mem <= r.value.ptr - WordSize &&
      r.value.ptr + n * a.elemSize <= mem + NeededSize(a, n)
  {
    MaxSizeNoOverflow(a, n);
    AlignedAddressBounds(mem, n * a.elemSize);
  }

  /** When the block of `payload + 72` bytes at `mem` does not wrap, the
      aligned address leaves room for the header above `mem` and for the
      payload below the end of the block. */
  lemma AlignedAddressBounds(mem: SizeT, payload: nat)
    requires mem + payload + WordSize + Align <= Modulus
    ensures mem + WordSize <= AlignedAddress(mem)
    ensures AlignedAddress(mem) + payload <= mem + payload + WordSize + Align
  {
    var x := mem + WordSize + Align - 1;
    assert Wrap(Wrap(mem + WordSize) + Align - 1) == x;
  }

  /** `deallocate(p, n)`: the pointer passed to `free` is the word stored
      just below `p`; `n` is not used.  `None` when no header word is
      there, which the source does not check. */
  function Deallocate(a: Allocator, p: SizeT, n: SizeT, memory: Memory): Option<SizeT> {
    if p >= WordSize && p - WordSize in memory then Some(memory[p - WordSize]) else None
  }

  /** Round trip: deallocating what `allocate` returned frees exactly the
      pointer `malloc` returned, whatever count is passed to `deallocate`
      and whichever allocator (all compare equal) does it. */
  lemma DeallocateFreesMalloced(a: ValidAllocator, b: Allocator, n: SizeT, m: SizeT, mem: SizeT, memory: Memory)
    requires mem != 0 && mem + NeededSize(a, n) <= Modulus
    requires n <= MaxSize(a)
    ensures var r := Allocate(a, n, mem, memory);
      r.Success? && Deallocate(b, r.value.ptr, m, r.value.memory) == Some(mem)
  {
    AllocationInsideBlock(a, n, mem, memory);
  }

  /** `operator!=`: any two aligned allocators compare as not unequal, since
      memory from one can be released by the other. */
  function NotEqual(a: Allocator, b: Allocator): (r: bool)
    ensures !r
  {
    false
  }
}
