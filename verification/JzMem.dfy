/** The allocator of physically contiguous camera memory: it never frees, aligns, and moves an
    allocation that would cross a 4 MB boundary. */
module JzMem {
  import opened Wrap

  const MB4 := 0x40_0000
  const MB16 := 0x100_0000
  const WORD := 0x1_0000_0000

  /** The device record; `usedsize` is where the next allocation may start. */
  datatype Device = Device(vaddr: nat, paddr: nat, totalsize: nat, usedsize: nat) {

    /** A mapping of at most 16 MB from a page on, whose end is still an address. */
    ghost predicate Mapped() {
      && 0 < vaddr && vaddr % 0x1000 == 0 && vaddr + totalsize < WORD && paddr + totalsize < WORD
      && totalsize <= MB16
      && usedsize <= 2 * MB16
    }
  }

  /** A region handed out, and the alignment used for it. */
  datatype Region = Region(start: nat, size: nat, align: nat) {
    function End(): nat { start + size }
  }

  /** The alignment used for the one asked for. */
  function Normalised(align: int): (a: nat)
    ensures a in {1, 2, 4, 8, 16, 32, 64, 128, 256, 512, 1024} && (a > align ==> a == 1) && (a < 1024 ==> align < 2 * a)
  {
    if align >= 1024 then 1024
    else if align >= 512 then 512
    else if align >= 256 then 256
    else if align >= 128 then 128
    else if align >= 64 then 64
    else if align >= 32 then 32
    else if align >= 16 then 16
    else if align >= 8 then 8
    else if align >= 4 then 4
    else if align >= 2 then 2
    else 1
  }

  /** `x + a - 1` with the bits below the power of two `a` cleared. */
  function RoundUp(x: nat, a: nat): nat
    requires a > 0
  {
    x + a - 1 - (x + a - 1) % a
  }

  /** The 4 MB block an address lies in, and where that block starts. */
  function Block(x: nat): nat { x / MB4 }

  function BlockStart(x: nat): nat { x - x % MB4 }

  /** The bits under the mask 0x1C00000 of an offset counted from the last 16 MB boundary. */
  function Masked(x: nat): nat { x / MB4 % 8 * MB4 }

  /** The program's test whether `size` bytes at `used` cross a boundary. */
  predicate Crosses(d: Device, used: nat, size: nat) {
    Masked(d.vaddr % MB16 + used) != Masked(d.vaddr % MB16 + used + size)
  }

  datatype Outcome = Outcome(device: Device, address: nat)

  const NULL: nat := 0

  /** The masked test sees exactly whether the bytes and the one behind them lie in one block, although
      it looks at three bits only. */
  lemma CrossingSeen(d: Device, used: nat, size: nat)
    requires d.Mapped() && used + size <= d.totalsize
    ensures Crosses(d, used, size) <==> Block(d.vaddr + used) != Block(d.vaddr + used + size)
    ensures Crosses(d, used, size) ==> BlockStart(d.vaddr + used + size) > d.vaddr + used
  {
    var low, base := d.vaddr % MB16, d.vaddr / MB16;
    assert d.vaddr == MB16 * base + low;
    BlockOf(base, low + used);
    BlockOf(base, low + used + size);
    Starts(d.vaddr + used);
    Starts(d.vaddr + used + size);
  }

  lemma BlockOf(base: nat, x: nat)
    requires x < 2 * MB16
    ensures Masked(x) == Block(x) * MB4 && Block(MB16 * base + x) == 4 * base + Block(x)
  {
    assert x / MB4 < 8;
    assert MB16 * base + x == MB4 * (4 * base + x / MB4) + x % MB4;
  }

  lemma Starts(x: nat)
    ensures BlockStart(x) == Block(x) * MB4 <= x < BlockStart(x) + MB4
  {}

  lemma Rounded(x: nat, a: nat)
    requires a in {1, 2, 4, 8, 16, 32, 64, 128, 256, 512, 1024}
    ensures x <= RoundUp(x, a) < x + a && RoundUp(x, a) % a == 0
    ensures x <= 2 * MB16 ==> RoundUp(x, a) <= 2 * MB16
  {
    var y := x + a - 1;
    assert y == a * (y / a) + y % a;
    ModUnique(RoundUp(x, a), a, y / a, 0);
    if x <= 2 * MB16 {
      Aligned(2 * MB16, 0x8000, a);
      RoundWithin(x, a);
    }
  }

  /** Rounding does not pass a multiple. */
  lemma RoundWithin(x: nat, a: nat)
    requires a > 0 && x <= 2 * MB16 && 2 * MB16 % a == 0
    ensures RoundUp(x, a) <= 2 * MB16
  {
    var y := x + a - 1;
    var q, m := y / a, 2 * MB16 / a;
    assert 2 * MB16 == a * m && y == a * q + y % a;
    Within(a, q, m, y);
  }

  lemma Within(a: nat, q: nat, m: nat, y: nat)
    requires a > 0 && a * q <= y < a * m + a
    ensures a * q <= a * m
  {
    if q > m {
      MulGrows(a, q - m);
      Distribute(a, q, m);
    } else {
      Distribute(a, m, q);
      NotNegative(a, m - q);
    }
  }

  lemma NotNegative(a: nat, k: nat)
    ensures a * k >= 0
  {}

  /** A multiple of 1024 has every alignment. */
  lemma Aligned(x: nat, q: nat, a: nat)
    requires x == 1024 * q && a in {1, 2, 4, 8, 16, 32, 64, 128, 256, 512, 1024}
    ensures x % a == 0
  {
    var k := 1024 / a;
    assert 1024 == a * k;
    assert a * k * q == a * (k * q);
    ModUnique(x, a, k * q, 0);
  }

  function Allocated(d: Device, align: int, size: nat): (o: Outcome)
    requires d.Mapped()
    ensures o.device.Mapped()
  {
    var used := RoundUp(d.usedsize, Normalised(align));
    Rounded(d.usedsize, Normalised(align));
    if d.totalsize - used < size then Outcome(d.(usedsize := used), NULL)
    else
      CrossingSeen(d, used, size);
      Starts(d.vaddr + used + size);
      if Crosses(d, used, size) then
        var address := BlockStart(d.vaddr + used + size);
        Outcome(d.(usedsize := size + (address - d.vaddr)), address)
      else Outcome(d.(usedsize := used + size), d.vaddr + used)
  }

  /** The outcome told by blocks. */
  lemma AllocatedIs(d: Device, align: int, size: nat, used: nat, end: nat)
    requires d.Mapped() && used == RoundUp(d.usedsize, Normalised(align)) && end == d.vaddr + used + size
    ensures Allocated(d, align, size) ==
      if used + size > d.totalsize then Outcome(d.(usedsize := used), NULL)
      else if Block(d.vaddr + used) == Block(end) then Outcome(d.(usedsize := used + size), d.vaddr + used)
      else Outcome(d.(usedsize := size + (BlockStart(end) - d.vaddr)), BlockStart(end))
    ensures used + size <= d.totalsize && Block(d.vaddr + used) != Block(end) ==> d.vaddr + used < BlockStart(end)
  {
    hide RoundUp, Normalised, Block, BlockStart, Crosses;
    if used + size <= d.totalsize {
      CrossingSeen(d, used, size);
    }
  }

  lemma PageAligned(d: Device, a: nat)
    requires d.Mapped() && a in {1, 2, 4, 8, 16, 32, 64, 128, 256, 512, 1024}
    ensures d.vaddr % a == 0 && d.vaddr > 0
  {
    Aligned(d.vaddr, 4 * (d.vaddr / 0x1000), a);
  }

  lemma BlockAligned(x: nat, a: nat)
    requires a in {1, 2, 4, 8, 16, 32, 64, 128, 256, 512, 1024}
    ensures BlockStart(x) % a == 0
  {
    Starts(x);
    Aligned(BlockStart(x), 0x1000 * Block(x), a);
  }

  /** One allocation: behind everything before, aligned, and, if it is not larger than 4 MB, within one
      4 MB block. */
  lemma Placed(d: Device, align: int, size: nat)
    requires d.Mapped() && size > 0
    ensures var o := Allocated(d, align, size);
      && o.device == d.(usedsize := o.device.usedsize)
      && (o.address == NULL ==> o.device.usedsize >= d.usedsize)
      && (o.address != NULL ==>
          && d.vaddr + d.usedsize <= o.address
          && o.device.usedsize == o.address + size - d.vaddr
          && o.address % Normalised(align) == 0
          && (size <= MB4 ==> Block(o.address) == Block(o.address + size - 1)))
  {
    PlacedAligned(d, align, size);
    var used := RoundUp(d.usedsize, Normalised(align));
    var end := d.vaddr + used + size;
    Rounded(d.usedsize, Normalised(align));
    hide RoundUp, Normalised, Block, BlockStart, Allocated;
    AllocatedIs(d, align, size, used, end);
    InBlock(end, size);
    Between(d.vaddr + used, end - 1, end);
  }

  lemma PlacedAligned(d: Device, align: int, size: nat)
    requires d.Mapped()
    ensures Allocated(d, align, size).address % Normalised(align) == 0
  {
    var a := Normalised(align);
    var used := RoundUp(d.usedsize, a);
    var end := d.vaddr + used + size;
    Rounded(d.usedsize, a);
    ModUnique(0, a, 0, 0);
    hide RoundUp, Normalised, Block, BlockStart, Allocated;
    AllocatedIs(d, align, size, used, end);
    PageAligned(d, a);
    AlignedSum(d.vaddr, used, a);
    BlockAligned(end, a);
  }

  /** What starts at the last boundary up to `end` and is no larger than a block ends in it. */
  lemma InBlock(end: nat, size: nat)
    requires size > 0
    ensures size <= MB4 ==> Block(BlockStart(end)) == Block(BlockStart(end) + size - 1)
  {}

  lemma AlignedSum(x: nat, y: nat, a: nat)
    requires a > 0 && x % a == 0 && y % a == 0
    ensures (x + y) % a == 0
  {
    ModAddMod(x, y, a);
  }

  lemma Between(x: nat, y: nat, z: nat)
    requires x <= y <= z
    ensures Block(x) == Block(z) ==> Block(x) == Block(y)
  {}

  /** A request is granted exactly if it fits behind what was allocated before, rounded up; and the device
      ends up rounded if it is not. */
  lemma Granted(d: Device, align: int, size: nat)
    requires d.Mapped()
    ensures var o, a := Allocated(d, align, size), Normalised(align);
      && (o.address != NULL <==> RoundUp(d.usedsize, a) + size <= d.totalsize)
      && (o.address == NULL ==>
          o.device.usedsize % a == 0 && d.usedsize <= o.device.usedsize < d.usedsize + a)
  {
    var a := Normalised(align);
    var used := RoundUp(d.usedsize, a);
    Rounded(d.usedsize, a);
    hide RoundUp, Normalised, Block, BlockStart, Allocated;
    AllocatedIs(d, align, size, used, d.vaddr + used + size);
    PageAligned(d, a);
  }

  /** No space is wasted: the region starts less than the alignment behind the earlier ones, or, if it would
      cross a boundary there, at the last boundary up to its end. */
  lemma NoWaste(d: Device, align: int, size: nat)
    requires d.Mapped() && Allocated(d, align, size).address != NULL
    ensures var address, next := Allocated(d, align, size).address, d.vaddr + d.usedsize;
      var end := d.vaddr + RoundUp(d.usedsize, Normalised(align)) + size;
      && next + size <= end < next + size + Normalised(align)
      && if Block(end - size) == Block(end) then next <= address < next + Normalised(align)
         else address % MB4 == 0 && address <= end < address + MB4
  {
    var a := Normalised(align);
    var used := RoundUp(d.usedsize, a);
    var end := d.vaddr + used + size;
    Rounded(d.usedsize, a);
    hide RoundUp, Normalised, Block, BlockStart, Allocated;
    AllocatedIs(d, align, size, used, end);
    Starts(end);
    BlockAligned4(end);
  }

  lemma BlockAligned4(x: nat)
    ensures BlockStart(x) % MB4 == 0
  {}

  // ----- Any number of allocations -----

  datatype Request = Request(align: int, size: nat)

  /** The device after the requests, and the regions handed out. */
  datatype Served = Served(device: Device, regions: seq<Region>)

  function Serve(d: Device, requests: seq<Request>): (s: Served)
    requires d.Mapped()
    ensures s.device.Mapped()
  {
    if requests == [] then Served(d, [])
    else
      var before := Serve(d, requests[..|requests| - 1]);
      var last := requests[|requests| - 1];
      var o := Allocated(before.device, last.align, last.size);
      var region := Region(o.address, last.size, Normalised(last.align));
      Served(o.device, before.regions + if o.address == NULL then [] else [region])
  }

  /** The regions lie behind each other, up to where the next one may start, each aligned, and none but
      those larger than 4 MB straddles a boundary. */
  ghost predicate Laid(d: Device, regions: seq<Region>) {
    && (forall i, j :: 0 <= i < j < |regions| ==> regions[i].End() <= regions[j].start)
    && (forall i :: 0 <= i < |regions| ==> 0 < regions[i].size && regions[i].End() <= d.vaddr + d.usedsize)
    && (forall i :: 0 <= i < |regions| ==> regions[i].align > 0 && regions[i].start % regions[i].align == 0)
    && (forall i :: 0 <= i < |regions| && regions[i].size <= MB4 ==>
          Block(regions[i].start) == Block(regions[i].End() - 1))
  }

  lemma {:induction false} AllocationsApart(d: Device, requests: seq<Request>)
    requires d.Mapped() && forall i :: 0 <= i < |requests| ==> requests[i].size > 0
    ensures Laid(Serve(d, requests).device, Serve(d, requests).regions)
  {
    if requests != [] {
      var n := |requests| - 1;
      var before := Serve(d, requests[..n]);
      AllocationsApart(d, requests[..n]);
      var align, size := requests[n].align, requests[n].size;
      var o := Allocated(before.device, align, size);
      Placed(before.device, align, size);
      ServeNext(d, requests);
      hide Allocated, Normalised, Block, Laid, Serve;
      if o.address != NULL {
        LaidNext(before.device, o.device, before.regions, Region(o.address, size, Normalised(align)));
      } else {
        LaidStill(before.device, o.device, before.regions);
      }
    }
  }

  lemma ServeNext(d: Device, requests: seq<Request>)
    requires d.Mapped() && requests != []
    ensures var n := |requests| - 1;
      var before := Serve(d, requests[..n]);
      var o := Allocated(before.device, requests[n].align, requests[n].size);
      Serve(d, requests) == Served(o.device, if o.address == NULL then before.regions
        else before.regions + [Region(o.address, requests[n].size, Normalised(requests[n].align))])
  {
    hide Allocated, Normalised;
  }

  lemma LaidStill(d: Device, d': Device, regions: seq<Region>)
    requires Laid(d, regions) && d'.vaddr == d.vaddr && d'.usedsize >= d.usedsize
    ensures Laid(d', regions)
  {
    hide Block;
  }

  lemma LaidNext(d: Device, d': Device, regions: seq<Region>, region: Region)
    requires Laid(d, regions) && region.size > 0 && region.align > 0 && region.start % region.align == 0
    requires d.vaddr + d.usedsize <= region.start && region.End() == d'.vaddr + d'.usedsize && d'.vaddr == d.vaddr
    requires region.size <= MB4 ==> Block(region.start) == Block(region.End() - 1)
    ensures Laid(d', regions + [region])
  {
    hide Block;
  }

  // ----- What the moved allocation may lose -----

  /** The region of an allocation that was not moved lies in the device; one that was moved does exactly
      if the device reaches as far behind the boundary as the region is large. */
  lemma Contained(d: Device, align: int, size: nat)
    requires d.Mapped() && size > 0 && Allocated(d, align, size).address != NULL
    ensures var end := d.vaddr + RoundUp(d.usedsize, Normalised(align)) + size;
      Allocated(d, align, size).address + size <= d.vaddr + d.totalsize
      <==> Block(end - size) == Block(end) || size <= d.vaddr + d.totalsize - BlockStart(end)
  {
    var used := RoundUp(d.usedsize, Normalised(align));
    CrossingSeen(d, used, size);
    Starts(d.vaddr + used + size);
  }

  /** So an allocation that takes the last bytes of a device ending at a boundary gets an address behind it. */
  lemma LastBytes(d: Device, align: int, size: nat)
    requires d.Mapped() && size > 0 && (d.vaddr + d.totalsize) % MB4 == 0
    requires RoundUp(d.usedsize, Normalised(align)) + size == d.totalsize
    ensures Allocated(d, align, size).address == d.vaddr + d.totalsize
  {
    var used := RoundUp(d.usedsize, Normalised(align));
    CrossingSeen(d, used, size);
    Starts(d.vaddr + used);
  }

  // ----- The allocator and the address translation -----

  class Allocator {
    var device: Device

    constructor (vaddr: nat, paddr: nat, totalsize: nat)
      requires Device(vaddr, paddr, totalsize, 0).Mapped()
      ensures device == Device(vaddr, paddr, totalsize, 0)
    {
      device := Device(vaddr, paddr, totalsize, 0);
    }

    method Alloc(align: int, size: nat) returns (address: nat)
      requires device.Mapped()
      modifies this
      ensures Outcome(device, address) == Allocated(old(device), align, size)
    {
      var a := Normalised(align);
      Rounded(device.usedsize, a);
      hide Normalised, Crosses, Block, BlockStart, RoundUp;
      var used := RoundUp(device.usedsize, a);
      device := device.(usedsize := used);
      var allocSize := device.totalsize - used;
      if allocSize >= size {
        CrossingSeen(device, used, size);
        Starts(device.vaddr + used + size);
        if Crosses(device, used, size) {
          address := BlockStart(device.vaddr + used + size);
          device := device.(usedsize := size + (address - device.vaddr));
        } else {
          device := device.(usedsize := used + size);
          address := device.vaddr + used;
        }
        return address;
      }
      return NULL;
    }
  }

  const FAILED: nat := 0xFFFF_FFFF

  function PhysicalAddress(d: Device, vaddr: nat): nat {
    if d.vaddr <= vaddr < d.vaddr + d.totalsize then d.paddr + (vaddr - d.vaddr)
    else
      var high := vaddr / 0x1000_0000 % 0x10;
      if high % 4 != 0 || high >= 8 then vaddr % 0x2000_0000 else FAILED
  }

  function VirtualAddress(d: Device, paddr: nat): nat {
    if d.paddr <= paddr < d.paddr + d.totalsize then d.vaddr + (paddr - d.paddr) else NULL
  }

  /** Inside the device the translations are inverse, and a region is contiguous in both views. */
  lemma Translation(d: Device, vaddr: nat, k: nat)
    requires d.Mapped() && d.vaddr <= vaddr && vaddr + k < d.vaddr + d.totalsize
    ensures PhysicalAddress(d, vaddr + k) == PhysicalAddress(d, vaddr) + k
    ensures VirtualAddress(d, PhysicalAddress(d, vaddr)) == vaddr
  {}

  /** Outside the device an address has a physical one unless it lies in the first or fifth of sixteen parts
      of the address space: the low 29 bits, as for the two windows on physical memory. */
  lemma Windows(d: Device, vaddr: nat)
    requires vaddr < WORD && !(d.vaddr <= vaddr < d.vaddr + d.totalsize)
    ensures PhysicalAddress(d, vaddr) == FAILED <==> vaddr < 0x1000_0000 || 0x4000_0000 <= vaddr < 0x5000_0000
    ensures PhysicalAddress(d, vaddr) != FAILED ==>
      PhysicalAddress(d, vaddr) < 0x2000_0000 && (vaddr - PhysicalAddress(d, vaddr)) % 0x2000_0000 == 0
    ensures 0x8000_0000 <= vaddr < 0xA000_0000 ==> PhysicalAddress(d, vaddr) == vaddr - 0x8000_0000
    ensures 0xA000_0000 <= vaddr < 0xC000_0000 ==> PhysicalAddress(d, vaddr) == vaddr - 0xA000_0000
  {}

  /** A physical address has a virtual one exactly if it is one of the device's. */
  lemma Backwards(d: Device, paddr: nat)
    requires d.Mapped()
    ensures VirtualAddress(d, paddr) == NULL <==> !(d.paddr <= paddr < d.paddr + d.totalsize)
    ensures VirtualAddress(d, paddr) != NULL ==> PhysicalAddress(d, VirtualAddress(d, paddr)) == paddr
  {}
}
