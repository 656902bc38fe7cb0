/**
 Copying between wired kernel buffers page by page through physical addresses.
 Source and destination pages are walked independently, so a chunk ends at whichever
 page boundary comes first, and the walk stops at the first page that does not translate.
 */
module PageCopy {
  import opened Bytes

  const PAGE_SIZE := 4096
  const TWO_TO_THE_64 := 0x1_0000_0000_0000_0000
  const TWO_TO_THE_32 := 0x1_0000_0000

  type Address = a: nat | a < TWO_TO_THE_64

  /** The kernel's page map, from virtual page number to physical frame number; partial. */
  type PageMap = map<nat, nat>

  /** Every mapped frame exists in physical memory. */
  ghost predicate Backed(pmap: PageMap, size: nat) {
    forall page | page in pmap :: (pmap[page] + 1) * PAGE_SIZE <= size
  }

  /** pmap_find_phys: the frame number, zero when the page is not mapped. */
  function FindPhys(pmap: PageMap, addr: Address): nat {
    if addr / PAGE_SIZE in pmap then pmap[addr / PAGE_SIZE] else 0
  }

  /** FltVirtToPhys: zero stands for "no translation", so a page mapped to frame zero has none either. */
  function VirtToPhys(pmap: PageMap, addr: Address): nat {
    var pa := FindPhys(pmap, addr) * PAGE_SIZE;
    if pa != 0 then pa + addr % PAGE_SIZE else pa
  }

  /** A translation keeps the offset in the page and swaps the page number for the frame number. */
  lemma {:induction false} TranslationParts(pmap: PageMap, addr: Address)
    ensures VirtToPhys(pmap, addr) == 0 <==> FindPhys(pmap, addr) == 0
    ensures VirtToPhys(pmap, addr) != 0 ==>
              && VirtToPhys(pmap, addr) % PAGE_SIZE == addr % PAGE_SIZE
              && addr / PAGE_SIZE in pmap && VirtToPhys(pmap, addr) / PAGE_SIZE == pmap[addr / PAGE_SIZE]
  {
  }

  /** The address of byte `i` of a buffer; addresses are 64 bits wide and wrap. */
  function At(base: Address, i: nat): Address { (base + i) % TWO_TO_THE_64 }

  function Phys(pmap: PageMap, base: Address, i: nat): nat { VirtToPhys(pmap, At(base, i)) }

  predicate Translates(pmap: PageMap, src: Address, dst: Address, i: nat) {
    Phys(pmap, dst, i) != 0 && Phys(pmap, src, i) != 0
  }

  /** How far a copy gets: to `len`, or to the first byte whose source or destination page does not translate. */
  function Reach(pmap: PageMap, src: Address, dst: Address, len: nat, from: nat): (n: nat)
    requires from <= len
    ensures from <= n <= len
    ensures forall i | from <= i < n :: Translates(pmap, src, dst, i)
    ensures n < len ==> !Translates(pmap, src, dst, n)
    decreases len - from
  {
    if from == len || !Translates(pmap, src, dst, from) then from
    else Reach(pmap, src, dst, len, from + 1)
  }

  lemma {:induction false} ReachFrom(pmap: PageMap, src: Address, dst: Address, len: nat, from: nat, upto: nat)
    requires from <= upto <= len && forall i | from <= i < upto :: Translates(pmap, src, dst, i)
    ensures Reach(pmap, src, dst, len, from) == Reach(pmap, src, dst, len, upto)
    decreases upto - from
  {
    if from < upto {
      assert Translates(pmap, src, dst, from);
      ReachFrom(pmap, src, dst, len, from + 1, upto);
    }
  }

  lemma {:induction false} AdvanceInPage(base: Address, i: nat, k: nat)
    requires At(base, i) % PAGE_SIZE + k < PAGE_SIZE
    ensures At(base, i + k) == At(base, i) + k
    ensures At(base, i + k) / PAGE_SIZE == At(base, i) / PAGE_SIZE
    ensures At(base, i + k) % PAGE_SIZE == At(base, i) % PAGE_SIZE + k
  {
    var a := At(base, i);
    assert a + k < TWO_TO_THE_64;
    assert base + i == (base + i) / TWO_TO_THE_64 * TWO_TO_THE_64 + a;
  }

  /** Inside one page, addresses and their translations advance together. */
  lemma {:induction false} WithinPage(pmap: PageMap, base: Address, i: nat, k: nat)
    requires At(base, i) % PAGE_SIZE + k < PAGE_SIZE && Phys(pmap, base, i) != 0
    ensures At(base, i + k) == At(base, i) + k
    ensures Phys(pmap, base, i + k) == Phys(pmap, base, i) + k
  {
    AdvanceInPage(base, i, k);
    TranslationParts(pmap, At(base, i));
    TranslationParts(pmap, At(base, i + k));
  }

  /** bcopy_phys, which takes a range that lies within one page on each side. */
  method BcopyPhys(memory: array<Byte>, src: nat, dst: nat, bytes: nat)
    requires src + bytes <= memory.Length && dst + bytes <= memory.Length
    requires src % PAGE_SIZE + bytes <= PAGE_SIZE && dst % PAGE_SIZE + bytes <= PAGE_SIZE
    modifies memory
    ensures forall a | dst <= a < dst + bytes :: memory[a] == old(memory[src + (a - dst)])
    ensures forall a | 0 <= a < memory.Length && !(dst <= a < dst + bytes) :: memory[a] == old(memory[a])
  {
    var window := memory[src..src + bytes];
    forall a | dst <= a < dst + bytes {
      memory[a] := window[a - dst];
    }
  }

  /** The physical addresses of the first `n` bytes of a buffer. */
  function PhysRange(pmap: PageMap, base: Address, n: nat): (r: seq<nat>)
    ensures |r| == n
  {
    seq(n, i requires 0 <= i < n => Phys(pmap, base, i))
  }

  /** No byte to be copied is written before it is read, and no two bytes land in one place. */
  ghost predicate Separate(from: seq<nat>, into: seq<nat>) {
    && (forall i, j | 0 <= i < |from| && 0 <= j < |into| :: from[i] != into[j])
    && (forall i, j | 0 <= i < j < |into| :: into[i] != into[j])
  }

  ghost predicate Outside(into: seq<nat>, n: nat, a: nat)
    requires n <= |into|
  {
    forall i | 0 <= i < n :: into[i] != a
  }

  /** Only the first `n` destination bytes of `memory` differ from what was there. */
  ghost predicate Untouched(memory: seq<Byte>, was: seq<Byte>, into: seq<nat>, n: nat)
    requires |memory| == |was| && n <= |into|
  {
    forall a {:trigger memory[a]} | 0 <= a < |was| && Outside(into, n, a) :: memory[a] == was[a]
  }

  /** The first `n` bytes have arrived. */
  ghost predicate Landed(memory: seq<Byte>, was: seq<Byte>, from: seq<nat>, into: seq<nat>, n: nat)
    requires |memory| == |was| && n <= |into| == |from|
  {
    forall i | 0 <= i < n :: from[i] < |was| && into[i] < |was| && memory[into[i]] == was[from[i]]
  }

  /** Addresses of `run` from index `done` are consecutive from `start`. */
  ghost predicate Consecutive(run: seq<nat>, start: nat, done: nat, cnt: nat) {
    done + cnt <= |run| && forall i | done <= i < done + cnt :: run[i] == start + (i - done)
  }

  lemma {:induction false} HitByChunk(run: seq<nat>, start: nat, done: nat, cnt: nat, a: nat)
    requires Consecutive(run, start, done, cnt)
    ensures start <= a < start + cnt ==> exists i :: done <= i < done + cnt && run[i] == a
  {
    if start <= a < start + cnt {
      assert run[done + (a - start)] == a;
    }
  }

  lemma {:induction false} ChunkLands(before: seq<Byte>, memory: seq<Byte>, was: seq<Byte>, from: seq<nat>,
                                      into: seq<nat>,
                   s: nat, d: nat, done: nat, cnt: nat)
    requires |before| == |memory| == |was| && |from| == |into|
    requires Consecutive(from, s, done, cnt) && Consecutive(into, d, done, cnt)
    requires s + cnt <= |was| && d + cnt <= |was|
    requires forall a | d <= a < d + cnt :: memory[a] == before[s + (a - d)]
    requires forall a | 0 <= a < |was| && !(d <= a < d + cnt) :: memory[a] == before[a]
    requires Untouched(before, was, into, done)
    ensures Untouched(memory, was, into, done + cnt)
    ensures Separate(from, into) && Landed(before, was, from, into, done) ==>
              Landed(memory, was, from, into, done + cnt)
  {
    forall a | 0 <= a < |was| && Outside(into, done + cnt, a)
      ensures memory[a] == was[a]
    {
      HitByChunk(into, d, done, cnt, a);
      assert Outside(into, done, a);
      assert before[a] == was[a];
    }
    if Separate(from, into) && Landed(before, was, from, into, done) {
      forall i | 0 <= i < done + cnt
        ensures from[i] < |was| && into[i] < |was| && memory[into[i]] == was[from[i]]
      {
        if i < done {
          HitByChunk(into, d, done, cnt, into[i]);
        } else {
          assert Outside(into, done, from[i]);
          assert before[from[i]] == was[from[i]];
        }
      }
    }
  }

  /** One call of bcopy_phys, seen from the whole copy. */
  method CopyChunk(memory: array<Byte>, physSrc: nat, physDst: nat, cnt: nat,
                   ghost was: seq<Byte>, ghost from: seq<nat>, ghost into: seq<nat>, ghost done: nat)
    requires |was| == memory.Length && |from| == |into|
    requires Consecutive(from, physSrc, done, cnt) && Consecutive(into, physDst, done, cnt)
    requires physSrc + cnt <= memory.Length && physDst + cnt <= memory.Length
    requires physSrc % PAGE_SIZE + cnt <= PAGE_SIZE && physDst % PAGE_SIZE + cnt <= PAGE_SIZE
    requires Untouched(memory[..], was, into, done)
    requires Separate(from, into) ==> Landed(memory[..], was, from, into, done)
    modifies memory
    ensures Untouched(memory[..], was, into, done + cnt)
    ensures Separate(from, into) ==> Landed(memory[..], was, from, into, done + cnt)
  {
    ghost var before := memory[..];
    BcopyPhys(memory, physSrc, physDst, cnt);
    ChunkLands(before, memory[..], was, from, into, physSrc, physDst, done, cnt);
  }

  /** As many bytes as possible without crossing a page on either side. */
  method ChunkSize(physSrc: nat, physDst: nat, resid: nat) returns (cnt: nat)
    requires resid > 0
    ensures 0 < cnt <= resid && physSrc % PAGE_SIZE + cnt <= PAGE_SIZE && physDst % PAGE_SIZE + cnt <= PAGE_SIZE
    ensures cnt < resid ==> physSrc % PAGE_SIZE + cnt == PAGE_SIZE || physDst % PAGE_SIZE + cnt == PAGE_SIZE
  {
    var cntSrc, cntDst := PAGE_SIZE - physSrc % PAGE_SIZE, PAGE_SIZE - physDst % PAGE_SIZE;
    if cntSrc > cntDst {
      cnt := cntDst;
    } else {
      cnt := cntSrc;
    }
    if cnt > resid {
      cnt := resid;
    }
  }

  /**
   FltWriteWiredSrcToWiredDst.  The count it returns is cut to 32 bits, the width of its return type.
   */
  method WriteWiredSrcToWiredDst(memory: array<Byte>, pmap: PageMap, src: Address, dst: Address, len: nat)
    returns (n: nat)
    requires Backed(pmap, memory.Length) && len < TWO_TO_THE_64
    modifies memory
    ensures n == Reach(pmap, src, dst, len, 0) % TWO_TO_THE_32
    ensures var reach := Reach(pmap, src, dst, len, 0);
            var from, into := PhysRange(pmap, src, reach), PhysRange(pmap, dst, reach);
            && Untouched(memory[..], old(memory[..]), into, reach)
            && (Separate(from, into) ==> Landed(memory[..], old(memory[..]), from, into, reach))
  {
    ghost var was := memory[..];
    ghost var reach := Reach(pmap, src, dst, len, 0);
    ghost var from, into := PhysRange(pmap, src, reach), PhysRange(pmap, dst, reach);
    var curVirtSrc, curVirtDst := src, dst;
    var resid := len;
    ghost var done := 0;
    while resid != 0
      invariant resid == len - done && done <= reach
      invariant reach == Reach(pmap, src, dst, len, done)
      invariant curVirtSrc == At(src, done) && curVirtDst == At(dst, done)
      invariant Untouched(memory[..], was, into, done)
      invariant Separate(from, into) ==> Landed(memory[..], was, from, into, done)
      decreases resid
    {
      var curPhysDst := VirtToPhys(pmap, curVirtDst);
      if curPhysDst == 0 {
        break;
      }
      var curPhysSrc := VirtToPhys(pmap, curVirtSrc);
      if curPhysSrc == 0 {
        break;
      }
      var cnt := ChunkSize(curPhysSrc, curPhysDst, resid);
      ChunkInPages(pmap, src, dst, len, done, cnt, memory.Length, reach, from, into);
      CopyChunk(memory, curPhysSrc, curPhysDst, cnt, was, from, into, done);
      curVirtSrc := (curVirtSrc + cnt) % TWO_TO_THE_64;
      curVirtDst := (curVirtDst + cnt) % TWO_TO_THE_64;
      resid := resid - cnt;
      done := done + cnt;
    }
    n := (len - resid) % TWO_TO_THE_32;
  }

  lemma {:induction false} FrameHolds(pmap: PageMap, base: Address, i: nat, size: nat)
    requires Backed(pmap, size) && Phys(pmap, base, i) != 0
    ensures Phys(pmap, base, i) - Phys(pmap, base, i) % PAGE_SIZE + PAGE_SIZE <= size
  {
    TranslationParts(pmap, At(base, i));
  }

  lemma {:induction false} RunInPage(pmap: PageMap, base: Address, done: nat, cnt: nat, size: nat)
    requires Backed(pmap, size) && Phys(pmap, base, done) != 0
    requires Phys(pmap, base, done) % PAGE_SIZE + cnt <= PAGE_SIZE
    ensures forall i | done <= i < done + cnt :: Phys(pmap, base, i) == Phys(pmap, base, done) + (i - done)
    ensures Phys(pmap, base, done) + cnt <= size
  {
    forall i | done <= i < done + cnt
      ensures Phys(pmap, base, i) == Phys(pmap, base, done) + (i - done)
    {
      TranslationParts(pmap, At(base, done));
      WithinPage(pmap, base, done, i - done);
    }
    FrameHolds(pmap, base, done, size);
  }

  lemma {:induction false} AdvanceAddress(base: Address, i: nat, k: nat)
    ensures (At(base, i) + k) % TWO_TO_THE_64 == At(base, i + k)
  {
  }

  /** A chunk that stays within one page on both sides is physically contiguous on both and all of it translates. */
  lemma {:induction false} ChunkInPages(pmap: PageMap, src: Address, dst: Address, len: nat, done: nat, cnt: nat,
                                        size: nat,
                     reach: nat, from: seq<nat>, into: seq<nat>)
    requires Backed(pmap, size) && 0 < cnt && done + cnt <= len && Translates(pmap, src, dst, done)
    requires Phys(pmap, src, done) % PAGE_SIZE + cnt <= PAGE_SIZE
    requires Phys(pmap, dst, done) % PAGE_SIZE + cnt <= PAGE_SIZE
    requires reach == Reach(pmap, src, dst, len, done)
    requires from == PhysRange(pmap, src, reach) && into == PhysRange(pmap, dst, reach)
    ensures done + cnt <= reach == Reach(pmap, src, dst, len, done + cnt)
    ensures Consecutive(from, Phys(pmap, src, done), done, cnt) && Consecutive(into, Phys(pmap, dst, done), done, cnt)
    ensures Phys(pmap, src, done) + cnt <= size && Phys(pmap, dst, done) + cnt <= size
    ensures (At(src, done) + cnt) % TWO_TO_THE_64 == At(src, done + cnt)
    ensures (At(dst, done) + cnt) % TWO_TO_THE_64 == At(dst, done + cnt)
  {
    RunInPage(pmap, src, done, cnt, size);
    RunInPage(pmap, dst, done, cnt, size);
    ReachFrom(pmap, src, dst, len, done, done + cnt);
    AdvanceAddress(src, done, cnt);
    AdvanceAddress(dst, done, cnt);
  }

  /** Every page touched by the copy translates to a non-zero address on both sides. */
  ghost predicate AllTranslate(pmap: PageMap, src: Address, dst: Address, len: nat) {
    forall i | 0 <= i < len :: Translates(pmap, src, dst, i)
  }

  lemma {:induction false} SmallRemainder(reach: nat, len: nat)
    requires reach <= len
    ensures reach % TWO_TO_THE_32 == len <==> len < TWO_TO_THE_32 && reach == len
  {
  }

  /**
   The returned count equals `len` exactly when everything translates and `len` fits the 32-bit return type;
   a longer copy is reported short even when all of it was done.
   */
  lemma {:induction false} ReturnedLengthMeansDone(pmap: PageMap, src: Address, dst: Address, len: nat)
    ensures Reach(pmap, src, dst, len, 0) % TWO_TO_THE_32 == len
            <==> len < TWO_TO_THE_32 && AllTranslate(pmap, src, dst, len)
  {
    var reach := Reach(pmap, src, dst, len, 0);
    assert reach == len <==> AllTranslate(pmap, src, dst, len) by {
      if AllTranslate(pmap, src, dst, len) {
        ReachFrom(pmap, src, dst, len, 0, len);
      }
    }
    SmallRemainder(reach, len);
  }

  function FrameAfter(page: nat): nat { page + 1 }

  /** A map of the first 8 GB, each page one frame up. */
  function EightGigabytes(): PageMap { map page: nat | page < 0x20_0000 :: FrameAfter(page) }

  /** An input on which the return value is not the number of bytes copied: 4 GB from address 0 to address 4 GB. */
  lemma {:induction false} LongCopyReportsZero()
    ensures Reach(EightGigabytes(), 0, TWO_TO_THE_32, TWO_TO_THE_32, 0) == TWO_TO_THE_32
    ensures Reach(EightGigabytes(), 0, TWO_TO_THE_32, TWO_TO_THE_32, 0) % TWO_TO_THE_32 == 0
  {
    var pmap := EightGigabytes();
    forall i | 0 <= i < TWO_TO_THE_32
      ensures Translates(pmap, 0, TWO_TO_THE_32, i)
    {
      assert At(0, i) == i && At(TWO_TO_THE_32, i) == TWO_TO_THE_32 + i;
    }
    ReachFrom(pmap, 0, TWO_TO_THE_32, TWO_TO_THE_32, 0, TWO_TO_THE_32);
  }

  /** An 8-byte slot write, the only use the hooks make of the copy: complete when both ends translate throughout. */
  lemma {:induction false} SlotWriteCompletes(pmap: PageMap, src: Address, dst: Address)
    requires AllTranslate(pmap, src, dst, 8)
    ensures Reach(pmap, src, dst, 8, 0) % TWO_TO_THE_32 == 8
  {
    ReturnedLengthMeansDone(pmap, src, dst, 8);
  }
}
