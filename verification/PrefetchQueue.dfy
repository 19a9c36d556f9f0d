/** The instruction prefetch queue of the uncached processors: a ledger of bytes
    fetched, consumed and thrown away, and exact stall cycles. */
module PrefetchQueue {
  import opened Words

  const CAPACITY: int := 16
  const NO_MODRM: int := -1

  datatype Traffic = Traffic(loads: nat, loadsL: nat, saves: nat, savesL: nat)

  /** Cycles of each kind of memory access, of one queue fetch, and its width. */
  datatype Bus = Bus(read: nat, readL: nat, write: nat, writeL: nat, fetch: int, width: int)

  function MemCycles(bus: Bus, t: Traffic): nat {
    t.loads * bus.read + t.loadsL * bus.readL + t.saves * bus.write + t.savesL * bus.writeL
  }

  function Both(t: Traffic, u: Traffic): Traffic {
    Traffic(t.loads + u.loads, t.loadsL + u.loadsL, t.saves + u.saves, t.savesL + u.savesL)
  }

  /** Each kind of access has its own rate, and the accesses of an instruction add up. */
  lemma MemCyclesRates(bus: Bus, t: Traffic, u: Traffic)
    ensures MemCycles(bus, Traffic(1, 0, 0, 0)) == bus.read && MemCycles(bus, Traffic(0, 1, 0, 0)) == bus.readL
    ensures MemCycles(bus, Traffic(0, 0, 1, 0)) == bus.write && MemCycles(bus, Traffic(0, 0, 0, 1)) == bus.writeL
    ensures MemCycles(bus, Both(t, u)) == MemCycles(bus, t) + MemCycles(bus, u)
  {
    Distribute(t.loads, u.loads, bus.read);
    Distribute(t.loadsL, u.loadsL, bus.readL);
    Distribute(t.saves, u.saves, bus.write);
    Distribute(t.savesL, u.savesL, bus.writeL);
  }

  lemma Distribute(a: int, b: int, c: int)
    ensures (a + b) * c == a * c + b * c
  {
  }

  /** Bytes that the addressing form takes besides the ones counted by the caller.
      modrm carries the SIB byte above it. */
  function EaBytes(modrm: int, ea32: bool): nat {
    if modrm == NO_MODRM then 0
    else
      var mod, rm := modrm / 64 % 4, modrm % 8;
      if ea32 then
        if rm == 4 then (if modrm / 0x100 % 8 == 5 then 5 else if mod == 1 then 2 else if mod == 2 then 5 else 0)
        else if mod == 0 && rm == 5 then 4
        else if mod == 1 then 1 else if mod == 2 then 4 else 0
      else if mod == 0 && rm == 6 then 2
      else if mod != 3 then mod else 0
  }

  /** Bytes that the addressing form really takes after the ModR/M byte: the SIB byte,
      where there is one, and the displacement. */
  function OperandBytes(modrm: int, ea32: bool): nat {
    if modrm == NO_MODRM then 0
    else
      var mod, rm := modrm / 64 % 4, modrm % 8;
      if mod == 3 then 0
      else if !ea32 then if mod == 0 then (if rm == 6 then 2 else 0) else mod
      else
        var sib := if rm == 4 then 1 else 0;
        var base := if rm == 4 then modrm / 0x100 % 8 else rm;
        sib + if mod == 1 then 1 else if mod == 2 || base == 5 then 4 else 0
  }

  /** The queue takes the right number of bytes exactly when there is no SIB byte in
      play, the displacement is a dword, or mod is zero just when the base field is 5. */
  lemma EaBytesExactly(modrm: int, ea32: bool)
    ensures EaBytes(modrm, ea32) == OperandBytes(modrm, ea32)
       <==> modrm == NO_MODRM || !ea32 || modrm % 8 != 4 || modrm / 64 % 4 == 2
            || ((modrm / 64 % 4 == 0) == (modrm / 0x100 % 8 == 5))
  {
  }

  /** A SIB byte without displacement is not taken at all; one with base 5 and a byte of
      displacement is taken for five; a register operand can be charged like a SIB byte. */
  lemma EaBytesMiscounts()
    ensures EaBytes(0x04, true) == 0 && OperandBytes(0x04, true) == 1
    ensures EaBytes(0x544, true) == 5 && OperandBytes(0x544, true) == 2
    ensures EaBytes(0x5c4, true) == 5 && OperandBytes(0x5c4, true) == 0
  {
  }

  /** s fetches of width bytes cover the deficit, and s - 1 do not. */
  predicate JustEnough(s: nat, deficit: int, width: int) {
    s * width >= deficit && (s > 0 ==> (s - 1) * width < deficit)
  }

  /** As many refills of cost fetch as the spare cycles pay for. */
  predicate AllSpent(r: nat, spare: int, fetch: int) {
    r * fetch <= Max(spare, 0) < (r + 1) * fetch
  }

  /** The stalls are the deficit over the width, rounded up. */
  lemma JustEnoughExactly(s: nat, deficit: int, width: int)
    requires width > 0
    ensures JustEnough(s, deficit, width) <==> s == if deficit <= 0 then 0 else (deficit + width - 1) / width
  {
    if deficit > 0 {
      var t := (deficit + width - 1) / width;
      var r := (deficit + width - 1) % width;
      assert deficit + width - 1 == t * width + r;
      assert (t - 1) * width == t * width - width;
      JustEnoughUnique(s, t, deficit, width);
    } else if s > 0 {
      Scaled(0, s - 1, width);
    }
  }

  lemma JustEnoughUnique(s: nat, t: nat, deficit: int, width: int)
    requires width > 0 && JustEnough(t, deficit, width)
    ensures JustEnough(s, deficit, width) <==> s == t
  {
    if s < t {
      Scaled(s, t - 1, width);
    } else if t < s {
      Scaled(t, s - 1, width);
    }
  }

  lemma Scaled(a: nat, b: nat, w: nat)
    requires a <= b
    ensures a * w <= b * w
  {
  }

  class Queue {
    const bus: Bus
    var bytes: int
    var prefixes: nat
    var cycles: int
    ghost var fetched: nat
    ghost var consumed: nat
    ghost var discarded: nat

    constructor (bus: Bus)
      requires bus.width > 0 && bus.fetch > 0
      ensures Valid() && this.bus == bus && bytes == 0 && prefixes == 0 && cycles == 0
    {
      this.bus := bus;
      bytes, prefixes, cycles, fetched, consumed, discarded := 0, 0, 0, 0, 0, 0;
    }

    /** The queue is in range and holds what was fetched and neither used nor lost. */
    ghost predicate Valid()
      reads this
    {
      && bus.width > 0 && bus.fetch > 0
      && 0 <= bytes <= 16
      && bytes == fetched - consumed - discarded
    }

    method Prefix()
      requires Valid()
      modifies this`prefixes
      ensures Valid() && prefixes == old(prefixes) + 1
    {
      prefixes := prefixes + 1;
    }

    method Flush()
      requires Valid()
      modifies this`bytes, this`discarded
      ensures Valid() && bytes == 0 && discarded == old(discarded) + old(bytes)
    {
      discarded := discarded + bytes;
      bytes := 0;
    }

    method ConsumeEa(modrm: int, ea32: bool)
      modifies this`bytes
      ensures bytes == old(bytes) - EaBytes(modrm, ea32)
    {
      if modrm != NO_MODRM {
        if ea32 {
          if modrm % 8 == 4 {
            if modrm / 0x100 % 8 == 5 {
              bytes := bytes - 5;
            } else if modrm / 64 % 4 == 1 {
              bytes := bytes - 2;
            } else if modrm / 64 % 4 == 2 {
              bytes := bytes - 5;
            }
          } else {
            if modrm / 64 % 4 == 0 && modrm % 8 == 5 {
              bytes := bytes - 4;
            } else if modrm / 64 % 4 == 1 {
              bytes := bytes - 1;
            } else if modrm / 64 % 4 == 2 {
              bytes := bytes - 4;
            }
          }
        } else {
          if modrm / 64 % 4 == 0 && modrm % 8 == 6 {
            bytes := bytes - 2;
          } else if modrm / 64 % 4 != 3 {
            bytes := bytes - modrm / 64 % 4;
          }
        }
      }
    }

    /** Fetches until no byte is owed. */
    method FillUp() returns (ghost stalls: nat)
      requires bus.width > 0
      modifies this`bytes, this`cycles
      ensures JustEnough(stalls, -old(bytes), bus.width)
      ensures bytes == old(bytes) + stalls * bus.width
      ensures cycles == old(cycles) - stalls * bus.fetch
    {
      stalls := 0;
      while bytes < 0
        invariant bytes == old(bytes) + stalls * bus.width
        invariant cycles == old(cycles) - stalls * bus.fetch
        invariant stalls > 0 ==> old(bytes) + (stalls - 1) * bus.width < 0
        decreases -bytes
      {
        assert (stalls + 1) * bus.width == stalls * bus.width + bus.width;
        assert (stalls + 1) * bus.fetch == stalls * bus.fetch + bus.fetch;
        bytes := bytes + bus.width;
        cycles := cycles - bus.fetch;
        stalls := stalls + 1;
      }
    }

    /** Refills with the cycles the instruction leaves over. */
    method Refill(spare: int) returns (ghost refills: nat)
      requires bus.fetch > 0 && spare >= 0
      modifies this`bytes
      ensures AllSpent(refills, spare, bus.fetch)
      ensures bytes == old(bytes) + refills * bus.width
    {
      var left := spare;
      refills := 0;
      while left >= bus.fetch
        invariant left >= 0 && left == spare - refills * bus.fetch
        invariant bytes == old(bytes) + refills * bus.width
        decreases left
      {
        assert (refills + 1) * bus.width == refills * bus.width + bus.width;
        assert (refills + 1) * bus.fetch == refills * bus.fetch + bus.fetch;
        bytes := bytes + bus.width;
        left := left - bus.fetch;
        refills := refills + 1;
      }
      assert (refills + 1) * bus.fetch == refills * bus.fetch + bus.fetch;
    }

    /** Each call charges one fetch for each width of the deficit begun, refills with
        the spare cycles, and throws away what does not fit. */
    method Run(instrCycles: int, count: nat, modrm: int, t: Traffic, ea32: bool)
        returns (ghost stalls: nat, ghost refills: nat)
      requires Valid()
      modifies this
      ensures Valid() && prefixes == 0
      ensures var used := old(prefixes) + count + EaBytes(modrm, ea32);
              var spare := Max(instrCycles, MemCycles(bus, t)) - MemCycles(bus, t);
              && JustEnough(stalls, used - old(bytes), bus.width)
              && AllSpent(refills, spare, bus.fetch)
              && cycles == old(cycles) - stalls * bus.fetch
              && consumed == old(consumed) + used
              && fetched == old(fetched) + (stalls + refills) * bus.width
              && bytes == if old(bytes) - used + (stalls + refills) * bus.width > 16 then 16
                          else old(bytes) - used + (stalls + refills) * bus.width
    {
      var memCycles := MemCycles(bus, t);
      var instr := instrCycles;
      if instr < memCycles {
        instr := memCycles;
      }
      bytes := bytes - prefixes;
      bytes := bytes - count;
      ConsumeEa(modrm, ea32);
      consumed := consumed + prefixes + count + EaBytes(modrm, ea32);
      stalls := FillUp();
      instr := instr - memCycles;
      refills := Refill(instr);
      assert stalls * bus.width >= 0 && refills * bus.width >= 0;
      assert (stalls + refills) * bus.width == stalls * bus.width + refills * bus.width;
      fetched := fetched + (stalls + refills) * bus.width;
      prefixes := 0;
      if bytes > CAPACITY {
        discarded := discarded + (bytes - CAPACITY);
        bytes := CAPACITY;
      }
    }
  }
}
