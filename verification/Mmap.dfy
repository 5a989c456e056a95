/**
 `memory_mmap` of `nonMemory.c`, which maps a vmalloc area page by page, and of `memory.c`,
 which maps one physically contiguous range; and the aligned area that `memory.c` maps.
 The page size and the number of pages are parameters.
 */
module Mmap {
  import opened Common

  const EIO := 5

  /** A page table: which frame each mapped page address shows. */
  type Table = map<nat, nat>

  /** The address of page i behind `start`. */
  function PageAt(start: nat, i: nat, page: nat): nat {
    start + i * page
  }

  /** Pages 0..k-1 of the area, one frame each. */
  function Installed(t: Table, start: nat, frames: seq<nat>, k: nat, page: nat): Table
    requires k <= |frames|
  {
    if k == 0 then t
    else Installed(t, start, frames, k - 1, page)[PageAt(start, k - 1, page) := frames[k - 1]]
  }

  /** `remap_pfn_range` over n pages of consecutive frames. */
  function Remapped(t: Table, addr: nat, pfn: nat, n: nat, page: nat): Table {
    if n == 0 then t else Remapped(t, addr, pfn, n - 1, page)[PageAt(addr, n - 1, page) := pfn + (n - 1)]
  }

  /** The physical byte that a user address shows. */
  function Physical(t: Table, addr: nat, page: nat): Option<nat>
    requires page > 0
  {
    var base := addr / page * page;
    if base in t then Some(t[base] * page + addr % page) else None
  }

  /** The physical byte behind offset o of the area. */
  function AreaByte(frames: seq<nat>, o: nat, page: nat): nat
    requires page > 0 && o / page < |frames|
  {
    frames[o / page] * page + o % page
  }

  class Vma {
    const start: nat
    const end: nat
    var table: Table

    ghost predicate Valid(page: nat) {
      page > 0 && start <= end && start % page == 0 && end % page == 0
    }

    constructor (start: nat, end: nat)
      ensures this.start == start && this.end == end && table == map[]
    {
      this.start, this.end, table := start, end, map[];
    }

    /** `remap_pfn_range` of one page; an error maps nothing. */
    method RemapPage(addr: nat, pfn: nat, error: int) returns (ret: int)
      modifies this`table
      ensures ret == error
      ensures table == if error == 0 then old(table)[addr := pfn] else old(table)
    {
      ret := error;
      if error == 0 {
        table := table[addr := pfn];
      }
    }

    /**
     `memory_mmap` of `nonMemory.c`.  frames[i] is what `vmalloc_to_pfn` finds for page i,
     errors[i] what `remap_pfn_range` answers for it.
     */
    method MmapPages(frames: seq<nat>, errors: seq<int>, page: nat) returns (ret: int, ghost mapped: nat)
      requires Valid(page) && |frames| == |errors|
      modifies this`table
      ensures end - start > |frames| * page ==> ret == -1 && mapped == 0
      ensures end - start <= |frames| * page ==>
                && mapped * page <= end - start && mapped <= |frames|
                && (forall i :: 0 <= i < mapped ==> errors[i] == 0)
                && (ret == 0 ==> mapped * page == end - start)
                && (ret != 0 ==> mapped < |frames| && ret == errors[mapped])
      ensures mapped <= |frames| && table == Installed(old(table), start, frames, mapped, page)
    {
      var size := end - start;
      mapped := 0;
      if size > |frames| * page {
        return -1, 0;
      }
      PageMultiple(start, end, page);
      var offset := 0;
      var i := 0;
      while offset < size
        invariant offset == i * page <= size && mapped == i <= |frames|
        invariant forall j :: 0 <= j < i ==> errors[j] == 0
        invariant table == Installed(old(table), start, frames, i, page)
        decreases size - offset
      {
        OnePageLeft(i, size, |frames|, page);
        var pfn := frames[i];
        ret := RemapPage(start + offset, pfn, errors[i]);
        if ret != 0 {
          return ret, i;
        }
        offset := offset + page;
        i := i + 1;
        mapped := i;
      }
      ret := 0;
    }

    /**
     `remap_pfn_range` of n pages with consecutive frames; an error may leave any number
     `done` of them mapped, in order from the first.
     */
    method RemapRange(addr: nat, pfn: nat, n: nat, page: nat, error: int, done: nat)
      returns (ret: int, ghost mapped: nat)
      requires page > 0 && (error != 0 ==> done <= n)
      modifies this`table
      ensures ret == error && mapped == if error == 0 then n else done
      ensures forall i :: 0 <= i < mapped ==>
                PageAt(addr, i, page) in table && table[PageAt(addr, i, page)] == pfn + i
      ensures forall a :: a in old(table) ==> a in table
      ensures forall a :: a in table && (forall i :: 0 <= i < mapped ==> a != PageAt(addr, i, page)) ==>
                a in old(table) && table[a] == old(table)[a]
      ensures table == Remapped(old(table), addr, pfn, mapped, page)
    {
      hide PageAt;
      var count := if error == 0 then n else done;
      mapped := 0;
      var i := 0;
      while i < count
        invariant mapped == i <= count
        invariant table == Remapped(old(table), addr, pfn, i, page)
      {
        table := table[PageAt(addr, i, page) := pfn + i];
        i := i + 1;
        mapped := i;
      }
      RemappedExactly(old(table), addr, pfn, count, page);
      ret := error;
    }

    /**
     `memory_mmap` of `memory.c`: one range, starting at the frame of the aligned area.
     `error` and `done` are what `remap_pfn_range` answers and how far it got.
     */
    method MmapRange(phys: nat, npages: nat, page: nat, error: int, done: nat) returns (ret: int, ghost mapped: nat)
      requires Valid(page) && (error != 0 ==> done * page <= end - start)
      modifies this`table
      ensures end - start > npages * page ==> ret == -5 && mapped == 0
      ensures end - start <= npages * page ==> ret == error && mapped <= npages
      ensures end - start <= npages * page && error == 0 ==> mapped * page == end - start
      ensures forall i :: 0 <= i < mapped ==>
                PageAt(start, i, page) in table && table[PageAt(start, i, page)] == phys / page + i
      ensures forall a :: a in old(table) ==> a in table
      ensures forall a :: a in table && (forall i :: 0 <= i < mapped ==> a != PageAt(start, i, page)) ==>
                a in old(table) && table[a] == old(table)[a]
      ensures table == Remapped(old(table), start, phys / page, mapped, page)
    {
      var size := end - start;
      if size > npages * page {
        return -EIO, 0;
      }
      PageMultiple(start, end, page);
      AtMost(size / page, npages, page);
      if error != 0 {
        AtMost(done, size / page, page);
      }
      ret, mapped := RemapRange(start, phys / page, size / page, page, error, done);
    }
  }

  lemma AtMost(a: nat, b: nat, page: nat)
    requires page > 0 && a * page <= b * page
    ensures a <= b
  {
    if b < a {
      MulStep(b, a, page);
    }
  }

  // ---------- arithmetic of pages ----------

  lemma {:induction false} MulStep(a: int, b: int, page: nat)
    requires a < b
    ensures a * page + page <= b * page
    decreases b - a
  {
    assert (a + 1) * page == a * page + page;
    if a + 1 < b {
      MulStep(a + 1, b, page);
    }
  }

  lemma LessByPages(a: int, b: int, page: nat)
    requires a * page < b * page
    ensures a < b
  {
    if b < a {
      MulStep(b, a, page);
    }
  }

  lemma MulDiv(q: int, r: nat, page: nat)
    requires r < page
    ensures (q * page + r) / page == q && (q * page + r) % page == r
  {
    var x := q * page + r;
    var d := x / page;
    assert x == d * page + x % page;
    if d < q {
      MulStep(d, q, page);
    } else if q < d {
      MulStep(q, d, page);
    }
  }

  lemma PageMultiple(start: nat, end: nat, page: nat)
    requires page > 0 && start <= end && start % page == 0 && end % page == 0
    ensures (end - start) % page == 0 && end - start == (end - start) / page * page
  {
    var a, b := start / page, end / page;
    assert start == a * page && end == b * page;
    assert end - start == (b - a) * page;
    MulDiv(b - a, 0, page);
  }

  lemma OnePageLeft(i: nat, size: nat, n: nat, page: nat)
    requires page > 0 && i * page < size <= n * page && size == size / page * page
    ensures i < n && (i + 1) * page <= size && (i + 1) * page == i * page + page
  {
    var k := size / page;
    LessByPages(i, n, page);
    LessByPages(i, k, page);
    MulStep(i, k, page);
  }

  lemma PagesApart(start: nat, i: nat, j: nat, page: nat)
    requires page > 0 && i != j
    ensures PageAt(start, i, page) != PageAt(start, j, page)
  {
    if i < j {
      MulStep(i, j, page);
    } else {
      MulStep(j, i, page);
    }
  }

  /** Where byte o behind a page-aligned start lies. */
  lemma Located(start: nat, o: nat, page: nat)
    requires page > 0 && start % page == 0
    ensures (start + o) / page * page == PageAt(start, o / page, page) && (start + o) % page == o % page
  {
    var i, r, s := o / page, o % page, start / page;
    assert o == i * page + r && start == s * page;
    assert start + o == (s + i) * page + r;
    MulDiv(s + i, r, page);
  }

  lemma PageOf(o: nat, k: nat, page: nat)
    requires page > 0
    ensures o < k * page <==> o / page < k
  {
    var i := o / page;
    assert i * page <= o < i * page + page;
    if i < k {
      MulStep(i, k, page);
    } else if k < i {
      MulStep(k, i, page);
    }
  }

  // ---------- what is mapped ----------

  /** Exactly pages 0..k-1 are new, each showing its own frame; nothing else changed. */
  lemma {:induction false} InstalledExactly(t: Table, start: nat, frames: seq<nat>, k: nat, page: nat)
    requires k <= |frames| && page > 0
    ensures var t' := Installed(t, start, frames, k, page);
            && (forall i :: 0 <= i < k ==> PageAt(start, i, page) in t' && t'[PageAt(start, i, page)] == frames[i])
            && (forall a :: a in t' ==> a in t || exists i :: 0 <= i < k && a == PageAt(start, i, page))
            && (forall a :: a in t ==> a in t')
            && (forall a :: a in t && (forall i :: 0 <= i < k ==> a != PageAt(start, i, page)) ==> t'[a] == t[a])
  {
    if k > 0 {
      InstalledExactly(t, start, frames, k - 1, page);
      forall i | 0 <= i < k - 1 ensures PageAt(start, i, page) != PageAt(start, k - 1, page) {
        PagesApart(start, i, k - 1, page);
      }
    }
  }

  /** The same for a range: exactly pages 0..n-1 are new, with consecutive frames. */
  lemma {:induction false} RemappedExactly(t: Table, addr: nat, pfn: nat, n: nat, page: nat)
    requires page > 0
    ensures var t' := Remapped(t, addr, pfn, n, page);
            && (forall i :: 0 <= i < n ==> PageAt(addr, i, page) in t' && t'[PageAt(addr, i, page)] == pfn + i)
            && (forall a :: a in t ==> a in t')
            && (forall a :: a in t' && (forall i :: 0 <= i < n ==> a != PageAt(addr, i, page)) ==>
                  a in t && t'[a] == t[a])
  {
    hide PageAt;
    if n > 0 {
      RemappedExactly(t, addr, pfn, n - 1, page);
      forall i | 0 <= i < n - 1 ensures PageAt(addr, i, page) != PageAt(addr, n - 1, page) {
        PagesApart(addr, i, n - 1, page);
      }
    }
  }

  /** User byte o shows area byte o, for every o that the loop mapped. */
  lemma ByteForByte(t: Table, start: nat, frames: seq<nat>, k: nat, page: nat, o: nat)
    requires page > 0 && start % page == 0 && k <= |frames| && o < k * page
    ensures o / page < k
    ensures Physical(Installed(t, start, frames, k, page), start + o, page) == Some(AreaByte(frames, o, page))
  {
    hide Installed, PageAt;
    PageOf(o, k, page);
    Located(start, o, page);
    InstalledExactly(t, start, frames, k, page);
  }

  /** An error at page k leaves the bytes of the later pages as they were. */
  lemma NothingBeyond(t: Table, start: nat, frames: seq<nat>, k: nat, page: nat, o: nat)
    requires page > 0 && start % page == 0 && k <= |frames| && o >= k * page
    ensures Physical(Installed(t, start, frames, k, page), start + o, page) == Physical(t, start + o, page)
  {
    hide Installed, PageAt;
    PageOf(o, k, page);
    Located(start, o, page);
    InstalledExactly(t, start, frames, k, page);
    forall j | 0 <= j < k ensures PageAt(start, o / page, page) != PageAt(start, j, page) {
      PagesApart(start, o / page, j, page);
    }
  }

  /** With consecutive frames the page loop builds the table of the single-range call. */
  lemma {:induction false} ConsecutiveIsRange(t: Table, start: nat, frames: seq<nat>, pfn: nat, k: nat, page: nat)
    requires k <= |frames| && forall i :: 0 <= i < k ==> frames[i] == pfn + i
    ensures Installed(t, start, frames, k, page) == Remapped(t, start, pfn, k, page)
  {
    if k > 0 {
      ConsecutiveIsRange(t, start, frames, pfn, k - 1, page);
    }
  }

  /** Only then: if the two tables agree on fresh pages, the frames are consecutive. */
  lemma RangeNeedsConsecutive(t: Table, start: nat, frames: seq<nat>, pfn: nat, k: nat, page: nat, i: nat)
    requires page > 0 && i < k <= |frames|
    requires Installed(t, start, frames, k, page) == Remapped(t, start, pfn, k, page)
    ensures frames[i] == pfn + i
  {
    InstalledExactly(t, start, frames, k, page);
    var run := Frames(pfn, k);
    ConsecutiveIsRange(t, start, run, pfn, k, page);
    InstalledExactly(t, start, run, k, page);
  }

  /** After a single-range mapping of an aligned area, user byte o shows the physical byte o of the area. */
  lemma RangeByteForByte(t: Table, start: nat, area: nat, n: nat, page: nat, o: nat)
    requires page > 0 && start % page == 0 && area % page == 0 && o < n * page
    ensures Physical(Remapped(t, start, area / page, n, page), start + o, page) == Some(area + o)
  {
    hide Physical, Remapped, Installed, PageAt;
    var run := Frames(area / page, n);
    ConsecutiveIsRange(t, start, run, area / page, n, page);
    ByteForByte(t, start, run, n, page, o);
    AreaByteOfRange(area, n, page, o);
  }

  /** n consecutive frames. */
  function Frames(pfn: nat, n: nat): (r: seq<nat>)
    ensures |r| == n && forall i :: 0 <= i < n ==> r[i] == pfn + i
  {
    seq(n, i => pfn + i)
  }

  lemma AreaByteOfRange(area: nat, n: nat, page: nat, o: nat)
    requires page > 0 && area % page == 0 && o / page < n
    ensures AreaByte(Frames(area / page, n), o, page) == area + o
  {
    var a, i, r := area / page, o / page, o % page;
    assert area == a * page && o == i * page + r;
    assert (a + i) * page == a * page + i * page;
  }

  // ---------- the aligned area of memory.c ----------

  /** `PAGE_ALIGN`: the next page boundary. */
  function PageAlign(a: nat, page: nat): nat
    requires page > 0
  {
    (a + page - 1) / page * page
  }

  /** The aligned area is the first boundary at or after the allocation and always fits in npages + 1 pages. */
  lemma AreaFits(ptr: nat, npages: nat, page: nat)
    requires page > 0
    ensures var area := PageAlign(ptr, page);
            && ptr <= area < ptr + page && area % page == 0
            && area + npages * page <= ptr + (npages + 1) * page
  {
    var x := ptr + page - 1;
    assert x == x / page * page + x % page;
    MulDiv(x / page, 0, page);
    assert (npages + 1) * page == npages * page + page;
  }

  /** The extra page is needed unless the allocator happened to return a boundary. */
  lemma ExtraPageNeeded(ptr: nat, npages: nat, page: nat)
    requires page > 0
    ensures PageAlign(ptr, page) + npages * page <= ptr + npages * page <==> ptr % page == 0
  {
    AreaFits(ptr, npages, page);
    if ptr % page == 0 {
      assert ptr + page - 1 == ptr / page * page + (page - 1);
      MulDiv(ptr / page, page - 1, page);
    }
  }

  const MAGIC: seq<byte> := [0xaa, 0xbb, 0xcc, 0xdd]

  function Stamped(s: seq<byte>, base: nat): (r: seq<byte>)
    requires base + 4 <= |s|
    ensures |r| == |s|
  {
    s[..base] + MAGIC + s[base + 4..]
  }

  /** The allocation after the first i pages of the area have been marked. */
  function MarkedTo(s: seq<byte>, area: nat, i: nat, page: nat): (r: seq<byte>)
    requires page >= 4 && PageAt(area, i, page) <= |s|
    ensures |r| == |s|
  {
    if i == 0 then s
    else
      MulStep(i - 1, i, page);
      Stamped(MarkedTo(s, area, i - 1, page), PageAt(area, i - 1, page))
  }

  /** Each marked page starts with the four magic bytes. */
  lemma {:induction false} MarksAreSet(s: seq<byte>, area: nat, n: nat, page: nat, i: nat, j: nat)
    requires page >= 4 && PageAt(area, n, page) <= |s| && i < n && j < 4
    ensures PageAt(area, i, page) + j < |s|
    ensures MarkedTo(s, area, n, page)[PageAt(area, i, page) + j] ==
              (if j == 0 then 0xaa else if j == 1 then 0xbb else if j == 2 then 0xcc else 0xdd)
  {
    MulStep(n - 1, n, page);
    if i < n - 1 {
      MulStep(i, n - 1, page);
      MarksAreSet(s, area, n - 1, page, i, j);
    }
  }

  /** No other byte of the allocation is written. */
  lemma {:induction false} NothingElseMarked(s: seq<byte>, area: nat, n: nat, page: nat, a: nat)
    requires page >= 4 && PageAt(area, n, page) <= |s| && a < |s|
    requires forall i :: 0 <= i < n ==> !(PageAt(area, i, page) <= a < PageAt(area, i, page) + 4)
    ensures MarkedTo(s, area, n, page)[a] == s[a]
  {
    if n > 0 {
      MulStep(n - 1, n, page);
      NothingElseMarked(s, area, n - 1, page, a);
    }
  }

  method StampPage(mem: array<byte>, base: nat)
    requires base + 4 <= mem.Length
    modifies mem
    ensures mem[..] == Stamped(old(mem[..]), base)
  {
    mem[base + 0] := 0xaa;
    mem[base + 1] := 0xbb;
    mem[base + 2] := 0xcc;
    mem[base + 3] := 0xdd;
  }

  method MarkArea(mem: array<byte>, area: nat, npages: nat, page: nat)
    requires page >= 4 && PageAt(area, npages, page) <= mem.Length
    modifies mem
    ensures mem[..] == MarkedTo(old(mem[..]), area, npages, page)
  {
    hide PageAt, MarkedTo;
    MarkStart(mem[..], area, npages, page);
    var i := 0;
    while i < npages
      invariant 0 <= i <= npages && PageAt(area, i, page) <= PageAt(area, npages, page)
      invariant mem[..] == MarkedTo(old(mem[..]), area, i, page)
    {
      MarkNext(old(mem[..]), area, i, npages, page);
      StampPage(mem, PageAt(area, i, page));
      i := i + 1;
    }
  }

  /** The marking loop of `mydriver_init`; mem is the allocation at address ptr. */
  method MarkPages(mem: array<byte>, ptr: nat, npages: nat, page: nat)
    requires page >= 4 && mem.Length == (npages + 1) * page
    modifies mem
    ensures PageAt(PageAlign(ptr, page) - ptr, npages, page) <= mem.Length
    ensures mem[..] == MarkedTo(old(mem[..]), PageAlign(ptr, page) - ptr, npages, page)
  {
    AreaFits(ptr, npages, page);
    MarkArea(mem, PageAlign(ptr, page) - ptr, npages, page);
  }

  lemma MarkStart(s: seq<byte>, area: nat, n: nat, page: nat)
    requires page >= 4 && PageAt(area, n, page) <= |s|
    ensures PageAt(area, 0, page) <= PageAt(area, n, page) <= |s| && MarkedTo(s, area, 0, page) == s
  {
  }

  lemma MarkNext(s: seq<byte>, area: nat, i: nat, n: nat, page: nat)
    requires page >= 4 && i < n && PageAt(area, n, page) <= |s|
    ensures PageAt(area, i, page) + page <= PageAt(area, i + 1, page) <= PageAt(area, n, page)
    ensures PageAt(area, i, page) + 4 <= |s|
    ensures MarkedTo(s, area, i + 1, page) == Stamped(MarkedTo(s, area, i, page), PageAt(area, i, page))
  {
    MulStep(i, i + 1, page);
    if i + 1 < n {
      MulStep(i + 1, n, page);
    }
  }
}
