/**
 From power-up to the first instruction of every CPU: mem_init's static mappings and
 env_init (kern/pmap.c, kern/env.c) leave a machine that the theorems of Smp.dfy start
 from.
 */
module PowerOn {
  import opened Layout
  import opened Trapframes
  import opened PageState
  import opened PageInv
  import opened Boot
  import opened AddressSpace
  import opened PhysMem
  import opened Envs
  import opened Syscalls
  import opened Sched
  import opened KernelEntry
  import opened KernelObject
  import Smp

  /** One boot_map_region call: page number, number of pages, first frame, permissions. */
  datatype Region = Region(n: nat, count: nat, frame: nat, perm: Perm)

  /** The machine before any CPU has taken the lock. */
  function StartingMachine(k: Kernel, ncpu: nat): (s: Smp.Machine) {
    Smp.Machine(k, seq(ncpu, _ => Smp.Cpu(Smp.TestLocked(Smp.ToWork), None, false, 0, 0)), false, None, true)
  }

  lemma StartsOk(m: Mem, ncpu: nat)
    requires Inv(m, NO_PAGE) && NoDirs(m) && NoLoose(m)
    ensures Smp.Init(StartingMachine(BootKernel(m), ncpu))
  {
    BootKernelOk(m);
  }

  /**
   page_init, any static mappings, env_init. `ok` is false when a static mapping found no
   page for its table.
   */
  method Start(contents: seq<seq<Word>>, kernelEnd: nat, kernDir: nat, regions: seq<Region>, ghost ncpu: nat)
    returns (tables: Tables, ok: bool)
    requires BootContents(contents, kernelEnd, kernDir)
    requires forall x :: 0 <= x < |regions| ==> StaticRange(regions[x].n, regions[x].count)
    ensures tables.Valid()
    ensures Smp.Init(StartingMachine(tables.k, ncpu))
  {
    var mem;
    mem, ok := StartMemory(contents, kernelEnd, kernDir, regions);
    tables := new Tables(mem);
    StartsOk(mem.m, ncpu);
  }

  /** mem_init: page_init and the static mappings. */
  method StartMemory(contents: seq<seq<Word>>, kernelEnd: nat, kernDir: nat, regions: seq<Region>)
    returns (mem: PhysicalMemory, ok: bool)
    requires BootContents(contents, kernelEnd, kernDir)
    requires forall x :: 0 <= x < |regions| ==> StaticRange(regions[x].n, regions[x].count)
    ensures mem.Valid() && BootedTo(BootMem(contents, kernelEnd, kernDir), mem.m)
  {
    mem := new PhysicalMemory(contents, kernelEnd, kernDir);
    ghost var m0 := mem.m;
    BootStarts(contents, kernelEnd, kernDir, m0);
    ok := MapRegions(mem, regions);
  }

  lemma BootStarts(contents: seq<seq<Word>>, kernelEnd: nat, kernDir: nat, m0: Mem)
    requires BootContents(contents, kernelEnd, kernDir) && m0 == BootMem(contents, kernelEnd, kernDir)
    ensures BootedTo(m0, m0)
  {
    BootMemOk(contents, kernelEnd, kernDir);
  }

  /** The boot_map_region calls of mem_init. */
  method MapRegions(mem: PhysicalMemory, regions: seq<Region>) returns (ok: bool)
    requires mem.Valid() && BootedTo(mem.m, mem.m)
    requires forall x :: 0 <= x < |regions| ==> StaticRange(regions[x].n, regions[x].count)
    modifies mem`freeHead, mem`m, mem.link, mem.refs, mem.pages
    ensures mem.Valid() && BootedTo(old(mem.m), mem.m)
  {
    ok := true;
    var x := 0;
    while x < |regions| && ok
      invariant x <= |regions| && mem.Valid() && BootedTo(old(mem.m), mem.m)
    {
      ghost var before := mem.m;
      ok := mem.BootMapRegion(regions[x].n, regions[x].count, regions[x].frame, regions[x].perm);
      UsedKeptTrans(old(mem.m), before, mem.m);
      x := x + 1;
    }
  }

  /** Any booted machine has pages and slots to spare. */
  lemma BootedHasRoom(contents: seq<seq<Word>>, kernelEnd: nat, kdir: nat)
    requires BootContents(contents, kernelEnd, kdir)
    ensures KInv(BootKernel(BootMem(contents, kernelEnd, kdir)))
    ensures |BootMem(contents, kernelEnd, kdir).free| >= 5
    ensures |BootKernel(BootMem(contents, kernelEnd, kdir)).envFree| >= 2
  {
    BootMemOk(contents, kernelEnd, kdir);
    BootKernelOk(BootMem(contents, kernelEnd, kdir));
    FreeBelowElements(|contents|, kernelEnd);
    FiveElements(FreeBelow(|contents|, kernelEnd));
  }

  lemma FiveElements(free: seq<nat>)
    requires forall f: nat :: 1 <= f <= 5 ==> f in free
    ensures |free| >= 5
  {
    assert 1 in free && 2 in free && 3 in free && 4 in free && 5 in free;
  }
}
