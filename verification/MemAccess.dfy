/** Data accesses through the lookup tables and through the pointers that address
    decoding leaves behind, against byte-wise access to translated memory. */
module MemAccess {
  import opened Words
  import opened CodeFetch

  const UNUSABLE: Word32 := 0xffffffff

  // -------- byte-wise meaning --------

  function Put(ram: Ram, p: int, v: Byte): Ram {
    (q: int) => if q == p then v else ram(q)
  }

  function Frame(tr: PageMap, a: int): Option<int> {
    tr(Wrap32(a) / PAGE)
  }

  /** The n bytes at a, or nothing when one of them is not mapped. */
  function ReadBytes(tr: PageMap, ram: Ram, a: int, n: nat): Option<seq<Byte>> {
    if n == 0 then Some([])
    else match (ReadBytes(tr, ram, a, n - 1), Frame(tr, a + n - 1)) {
      case (Some(front), Some(f)) => Some(front + [ram(f * PAGE + Wrap32(a + n - 1) % PAGE)])
      case (_, _) => None
    }
  }

  datatype Outcome = Outcome(ram: Ram, fault: bool)

  /** Bytes go out one by one, up to the first that is not mapped. */
  function WriteBytes(tr: PageMap, ram: Ram, a: int, vs: seq<Byte>): Outcome
    decreases vs
  {
    if vs == [] then Outcome(ram, false)
    else match Frame(tr, a) {
      case None => Outcome(ram, true)
      case Some(f) => WriteBytes(tr, Put(ram, f * PAGE + Wrap32(a) % PAGE, vs[0]), a + 1, vs[1..])
    }
  }

  // -------- what byte-wise access does --------

  /** Where byte k of an access at a is in RAM. */
  function Place(tr: PageMap, a: int, k: int): Option<int> {
    var at := (a + k) % TWO32;
    match tr(at / 4096)
    case Some(f) => Some(4096 * f + at % 4096)
    case None => None
  }

  /** A read yields its bytes in order of address, or nothing when one is not mapped. */
  lemma {:induction false} ReadExactly(tr: PageMap, ram: Ram, a: int, n: nat)
    ensures ReadBytes(tr, ram, a, n).Some? <==> forall k | 0 <= k < n :: Place(tr, a, k).Some?
    ensures ReadBytes(tr, ram, a, n).Some? ==>
              var vs := ReadBytes(tr, ram, a, n).value;
              |vs| == n && forall k | 0 <= k < n :: Place(tr, a, k).Some? && vs[k] == ram(Place(tr, a, k).value)
  {
    if n > 0 {
      ReadExactly(tr, ram, a, n - 1);
      assert Place(tr, a, n - 1).Some? <==> Frame(tr, a + n - 1).Some?;
    }
  }

  /** The bytes of an access that are mapped are in different places. */
  predicate Apart(tr: PageMap, a: int, n: nat) {
    forall j, k | 0 <= j < k < n :: Place(tr, a, j) == None || Place(tr, a, j) != Place(tr, a, k)
  }

  predicate AllPlaced(tr: PageMap, a: int, n: nat) {
    forall k | 0 <= k < n :: Place(tr, a, k).Some?
  }

  lemma PlaceNext(tr: PageMap, a: int, k: int)
    ensures Place(tr, a + 1, k) == Place(tr, a, k + 1)
  {
  }

  /** A write faults exactly when a byte is not mapped. */
  lemma {:induction false} WriteFaults(tr: PageMap, ram: Ram, a: int, vs: seq<Byte>)
    ensures WriteBytes(tr, ram, a, vs).fault <==> !AllPlaced(tr, a, |vs|)
    decreases vs
  {
    if vs != [] {
      assert Place(tr, a, 0).Some? <==> Frame(tr, a).Some?;
      if Frame(tr, a).Some? {
        WriteFaults(tr, Put(ram, Frame(tr, a).value * PAGE + Wrap32(a) % PAGE, vs[0]), a + 1, vs[1..]);
        NextPlaced(tr, a, |vs|);
      }
    }
  }

  lemma NextPlaced(tr: PageMap, a: int, n: nat)
    requires n > 0 && Place(tr, a, 0).Some?
    ensures AllPlaced(tr, a, n) <==> AllPlaced(tr, a + 1, n - 1)
  {
    var b := a + 1;
    if AllPlaced(tr, b, n - 1) {
      forall k | 0 <= k < n
        ensures Place(tr, a, k).Some?
      {
        if k > 0 {
          assert Place(tr, b, k - 1).Some?;
          PlaceNext(tr, a, k - 1);
        }
      }
    }
    if AllPlaced(tr, a, n) {
      forall k | 0 <= k < n - 1
        ensures Place(tr, b, k).Some?
      {
        assert Place(tr, a, k + 1).Some?;
        PlaceNext(tr, a, k);
      }
    }
  }

  /** A write touches no RAM but the places of its bytes. */
  lemma {:induction false} WriteTouchesOnly(tr: PageMap, ram: Ram, a: int, vs: seq<Byte>, p: int)
    requires forall k | 0 <= k < |vs| :: Place(tr, a, k) != Some(p)
    ensures WriteBytes(tr, ram, a, vs).ram(p) == ram(p)
    decreases vs
  {
    if vs != [] && Frame(tr, a).Some? {
      assert Place(tr, a, 0) != Some(p);
      var b := a + 1;
      forall k | 0 <= k < |vs| - 1
        ensures Place(tr, b, k) != Some(p)
      {
        PlaceNext(tr, a, k);
      }
      WriteTouchesOnly(tr, Put(ram, Frame(tr, a).value * PAGE + Wrap32(a) % PAGE, vs[0]), a + 1, vs[1..], p);
    }
  }

  /** A write without fault leaves each byte in its place, if no two places are the same. */
  lemma {:induction false} WriteExactly(tr: PageMap, ram: Ram, a: int, vs: seq<Byte>, k: nat)
    requires AllPlaced(tr, a, |vs|) && Apart(tr, a, |vs|) && k < |vs|
    ensures WriteBytes(tr, ram, a, vs).ram(Place(tr, a, k).value) == vs[k]
    decreases vs
  {
    assert Place(tr, a, 0).Some? && Place(tr, a, k).Some?;
    var here := Put(ram, Frame(tr, a).value * PAGE + Wrap32(a) % PAGE, vs[0]);
    ApartNext(tr, a, |vs|);
    NextPlaced(tr, a, |vs|);
    if k > 0 {
      PlaceNext(tr, a, k - 1);
      WriteExactly(tr, here, a + 1, vs[1..], k - 1);
    } else {
      var b := a + 1;
      forall j | 0 <= j < |vs| - 1
        ensures Place(tr, b, j) != Place(tr, a, 0)
      {
        PlaceNext(tr, a, j);
        assert Place(tr, a, 0) != Place(tr, a, j + 1);
      }
      WriteTouchesOnly(tr, here, a + 1, vs[1..], Place(tr, a, 0).value);
    }
  }

  lemma ApartNext(tr: PageMap, a: int, n: nat)
    requires n > 0 && Apart(tr, a, n)
    ensures Apart(tr, a + 1, n - 1)
  {
    var b := a + 1;
    forall j, k | 0 <= j < k < n - 1
      ensures Place(tr, b, j) == None || Place(tr, b, j) != Place(tr, b, k)
    {
      PlaceNext(tr, a, j);
      PlaceNext(tr, a, k);
      assert Place(tr, a, j + 1) == None || Place(tr, a, j + 1) != Place(tr, a, k + 1);
    }
  }

  // -------- direct access to RAM --------

  function ReadAt(ram: Ram, p: int, n: nat): seq<Byte> {
    seq(n, k requires 0 <= k < n => ram(p + k))
  }

  function WriteAt(ram: Ram, p: int, vs: seq<Byte>): Ram
    decreases vs
  {
    if vs == [] then ram else WriteAt(Put(ram, p, vs[0]), p + 1, vs[1..])
  }

  /** A lookup table holds part of the mapping. */
  ghost predicate Subset(table: PageMap, tr: PageMap) {
    forall page {:trigger table(page)} :: table(page).Some? ==> tr(page) == table(page)
  }

  lemma InsidePage(a: Addr, k: nat)
    requires a % PAGE + k < PAGE
    ensures Wrap32(a + k) / PAGE == a / PAGE && Wrap32(a + k) % PAGE == a % PAGE + k
  {
    assert Wrap32(a + k) == a + k;
  }

  lemma {:induction false} DirectRead(tr: PageMap, ram: Ram, a: Addr, n: nat, f: int)
    requires a % PAGE + n <= PAGE && tr(a / PAGE) == Some(f)
    ensures ReadBytes(tr, ram, a, n) == Some(ReadAt(ram, f * PAGE + a % PAGE, n))
  {
    if n > 0 {
      DirectRead(tr, ram, a, n - 1, f);
      InsidePage(a, n - 1);
      assert ReadAt(ram, f * PAGE + a % PAGE, n)
          == ReadAt(ram, f * PAGE + a % PAGE, n - 1) + [ram(f * PAGE + a % PAGE + (n - 1))];
    } else {
      assert ReadAt(ram, f * PAGE + a % PAGE, n) == [];
    }
  }

  lemma {:induction false} DirectWrite(tr: PageMap, ram: Ram, a: Addr, done: nat, vs: seq<Byte>, f: int)
    requires a % PAGE + done + |vs| <= PAGE && tr(a / PAGE) == Some(f)
    ensures WriteBytes(tr, ram, a + done, vs) == Outcome(WriteAt(ram, f * PAGE + a % PAGE + done, vs), false)
    decreases vs
  {
    if vs != [] {
      InsidePage(a, done);
      DirectWrite(tr, Put(ram, f * PAGE + a % PAGE + done, vs[0]), a, done + 1, vs[1..], f);
    }
  }

  /** p is where the page's frame puts a. */
  predicate PointsAt(tr: PageMap, a: Addr, p: int) {
    match tr(a / PAGE)
    case Some(f) => p == f * PAGE + a % PAGE
    case None => false
  }

  lemma PointerReads(tr: PageMap, ram: Ram, a: Addr, n: nat, p: int)
    requires a % PAGE + n <= PAGE && PointsAt(tr, a, p)
    ensures ReadBytes(tr, ram, a, n) == Some(ReadAt(ram, p, n))
  {
    DirectRead(tr, ram, a, n, tr(a / PAGE).value);
  }

  lemma PointerWrites(tr: PageMap, ram: Ram, a: Addr, vs: seq<Byte>, p: int)
    requires a % PAGE + |vs| <= PAGE && PointsAt(tr, a, p)
    ensures WriteBytes(tr, ram, a, vs) == Outcome(WriteAt(ram, p, vs), false)
  {
    DirectWrite(tr, ram, a, 0, vs, tr(a / PAGE).value);
  }

  predicate Size(n: nat) {
    n == 1 || n == 2 || n == 4 || n == 8
  }

  /** An aligned access stays in its page. */
  lemma AlignedInPage(a: Addr, n: nat)
    requires Size(n) && a % n == 0
    ensures a % PAGE + n <= PAGE
  {
    assert n == 1 || n == 2 || n == 4 || n == 8;
  }

  // -------- event sequences --------

  /** The lookup tables gain and lose entries; an address is decoded, and later loaded
      from and stored to through what decoding left behind; other accesses go by macro. */
  datatype Event =
    | Tables(rtab: PageMap, wtab: PageMap)
    | DecodeAt(base: Word32, off: Word32)
    | LoadEa(n: nat)
    | SaveEa(data: seq<Byte>)
    | Load(base: Word32, off: Word32, n: nat)
    | Save(base: Word32, off: Word32, data: seq<Byte>)

  ghost predicate Allowed(e: Event, rd: PageMap, wr: PageMap) {
    match e
    case Tables(rtab, wtab) => Subset(rtab, rd) && Subset(wtab, wr)
    case DecodeAt(_, _) => true
    case LoadEa(n) => Size(n) && n <= 4
    case SaveEa(data) => Size(|data|) && |data| <= 4
    case Load(_, _, n) => Size(n)
    case Save(_, _, data) => Size(|data|)
  }

  /** RAM, the effective address last decoded, and what every access so far yielded. */
  datatype Plain = Plain(ram: Ram, ea: Addr, results: seq<Option<seq<Byte>>>)

  function PlainLoad(rd: PageMap, s: Plain, a: Addr, n: nat): Plain {
    s.(results := s.results + [ReadBytes(rd, s.ram, a, n)])
  }

  function PlainSave(wr: PageMap, s: Plain, a: Addr, data: seq<Byte>): Plain {
    var out := WriteBytes(wr, s.ram, a, data);
    s.(ram := out.ram, results := s.results + [if out.fault then None else Some([])])
  }

  /** Byte-wise: a load yields its bytes or a fault, a store nothing or a fault. */
  function PlainStep(rd: PageMap, wr: PageMap, s: Plain, e: Event): Plain {
    match e
    case Tables(_, _) => s
    case DecodeAt(base, off) => s.(ea := Wrap32(base + off))
    case LoadEa(n) => PlainLoad(rd, s, s.ea, n)
    case SaveEa(data) => PlainSave(wr, s, s.ea, data)
    case Load(base, off, n) => PlainLoad(rd, s, Wrap32(base + off), n)
    case Save(base, off, data) => PlainSave(wr, s, Wrap32(base + off), data)
  }

  function PlainRun(rd: PageMap, wr: PageMap, s: Plain, es: seq<Event>): Plain {
    if es == [] then s
    else PlainStep(rd, wr, PlainRun(rd, wr, s, es[..|es| - 1]), es[|es| - 1])
  }

  /** A step looks at no earlier result. */
  lemma StepAppends(rd: PageMap, wr: PageMap, s: Plain, e: Event)
    ensures PlainStep(rd, wr, s, e)
         == var t := PlainStep(rd, wr, s.(results := []), e); t.(results := s.results + t.results)
  {
  }

  class Bus {
    const rd: PageMap
    const wr: PageMap
    var ram: Ram
    var readLookup: PageMap
    var writeLookup: PageMap
    var easeg: Word32
    var eaaddr: Word32
    var ealR: Option<int>
    var ealW: Option<int>

    constructor (rd: PageMap, wr: PageMap, memory: Ram)
      ensures Valid() && PointersOk() && this.rd == rd && this.wr == wr && ram == memory
    {
      this.rd, this.wr, ram := rd, wr, memory;
      readLookup, writeLookup := _ => None, _ => None;
      easeg, eaaddr, ealR, ealW := 0, 0, None, None;
    }

    ghost predicate Valid()
      reads this`readLookup, this`writeLookup
    {
      Subset(readLookup, rd) && Subset(writeLookup, wr)
    }

    function Linear(): Addr
      reads this`easeg, this`eaaddr
    {
      Wrap32(easeg + eaaddr)
    }

    /** A decoded pointer, when there is one, points at the RAM of the address, with
        room for a dword in the page. */
    ghost predicate PointersOk()
      reads this`easeg, this`eaaddr, this`ealR, this`ealW
    {
      && (ealR.Some? || ealW.Some? ==> Linear() % PAGE + 4 <= PAGE)
      && (ealR.Some? ==> PointsAt(rd, Linear(), ealR.value))
      && (ealW.Some? ==> PointsAt(wr, Linear(), ealW.value))
    }

    /** The tables gain and lose entries as pages are touched and flushed. */
    method Refill(rtab: PageMap, wtab: PageMap)
      requires Subset(rtab, rd) && Subset(wtab, wr)
      modifies this`readLookup, this`writeLookup
      ensures Valid() && readLookup == rtab && writeLookup == wtab
    {
      readLookup, writeLookup := rtab, wtab;
    }

    method ReadMem(base: Word32, off: Word32, n: nat) returns (v: Option<seq<Byte>>)
      requires Valid() && Size(n)
      ensures v == ReadBytes(rd, ram, Wrap32(base + off), n)
    {
      var a := Wrap32(base + off);
      var f := readLookup(a / PAGE);
      if f == None || base == UNUSABLE || a % n != 0 {
        return ReadBytes(rd, ram, a, n);
      }
      AlignedInPage(a, n);
      DirectRead(rd, ram, a, n, f.value);
      return Some(ReadAt(ram, f.value * PAGE + a % PAGE, n));
    }

    method WriteSlow(a: Addr, data: seq<Byte>) returns (fault: bool)
      modifies this`ram
      ensures Outcome(ram, fault) == WriteBytes(wr, old(ram), a, data)
    {
      var out := WriteBytes(wr, ram, a, data);
      ram := out.ram;
      return out.fault;
    }

    method WriteMem(base: Word32, off: Word32, data: seq<Byte>) returns (fault: bool)
      requires Valid() && Size(|data|)
      modifies this`ram
      ensures Outcome(ram, fault) == WriteBytes(wr, old(ram), Wrap32(base + off), data)
    {
      var a := Wrap32(base + off);
      var f := writeLookup(a / PAGE);
      if f == None || base == UNUSABLE || a % |data| != 0 {
        fault := WriteSlow(a, data);
        return;
      }
      AlignedInPage(a, |data|);
      DirectWrite(wr, ram, a, 0, data, f.value);
      ram := WriteAt(ram, f.value * PAGE + a % PAGE, data);
      return false;
    }

    /** What address decoding does once the address is known. */
    method Decode(base: Word32, off: Word32)
      requires Valid()
      modifies this`easeg, this`eaaddr, this`ealR, this`ealW
      ensures easeg == base && eaaddr == off && PointersOk()
    {
      ealR, ealW := None, None;
      easeg, eaaddr := base, off;
      if easeg != UNUSABLE && Wrap32(easeg + eaaddr) % PAGE <= 0xffc {
        var addr := Wrap32(easeg + eaaddr);
        ealR := PointerFor(readLookup, addr, rd);
        ealW := PointerFor(writeLookup, addr, wr);
      }
    }

    static method PointerFor(table: PageMap, addr: Addr, ghost tr: PageMap) returns (p: Option<int>)
      requires Subset(table, tr)
      ensures p.Some? ==> PointsAt(tr, addr, p.value)
    {
      match table(addr / PAGE)
      case Some(f) => p := Some(f * PAGE + addr % PAGE);
      case None => p := None;
    }

    method GetEa(n: nat) returns (v: Option<seq<Byte>>)
      requires Valid() && PointersOk() && Size(n) && n <= 4
      ensures v == ReadBytes(rd, ram, Linear(), n)
    {
      if ealR.Some? {
        PointerReads(rd, ram, Linear(), n, ealR.value);
        return Some(ReadAt(ram, ealR.value, n));
      }
      v := ReadMem(easeg, eaaddr, n);
    }

    method SetEa(data: seq<Byte>) returns (fault: bool)
      requires Valid() && PointersOk() && Size(|data|) && |data| <= 4
      modifies this`ram
      ensures Outcome(ram, fault) == WriteBytes(wr, old(ram), Linear(), data)
    {
      if ealW.Some? {
        PointerWrites(wr, ram, Linear(), data, ealW.value);
        ram := WriteAt(ram, ealW.value, data);
        return false;
      }
      fault := WriteSlow(Wrap32(easeg + eaaddr), data);
    }

    ghost function View(results: seq<Option<seq<Byte>>>): Plain
      reads this
    {
      Plain(ram, Linear(), results)
    }

    method PerformLoad(e: Event) returns (v: Option<seq<Byte>>)
      requires Valid() && PointersOk() && Allowed(e, rd, wr) && (e.LoadEa? || e.Load?)
      ensures v == ReadBytes(rd, ram, if e.LoadEa? then Linear() else Wrap32(e.base + e.off), e.n)
    {
      if e.LoadEa? {
        v := GetEa(e.n);
      } else {
        v := ReadMem(e.base, e.off, e.n);
      }
    }

    method PerformSave(e: Event) returns (v: Option<seq<Byte>>)
      requires Valid() && PointersOk() && Allowed(e, rd, wr) && (e.SaveEa? || e.Save?)
      modifies this`ram
      ensures PlainStep(rd, wr, old(View([])), e) == View([v])
    {
      var fault;
      if e.SaveEa? {
        fault := SetEa(e.data);
      } else {
        fault := WriteMem(e.base, e.off, e.data);
      }
      v := if fault then None else Some([]);
    }

    /** What the event yields, if it is an access. */
    method Perform(e: Event) returns (out: seq<Option<seq<Byte>>>)
      requires Valid() && PointersOk() && Allowed(e, rd, wr)
      modifies this
      ensures Valid() && PointersOk()
      ensures PlainStep(rd, wr, old(View([])), e) == View(out)
    {
      if e.Tables? {
        Refill(e.rtab, e.wtab);
        return [];
      } else if e.DecodeAt? {
        Decode(e.base, e.off);
        return [];
      } else if e.LoadEa? || e.Load? {
        var v := PerformLoad(e);
        return [v];
      }
      var v := PerformSave(e);
      return [v];
    }

    /** Every sequence of events gives the results and the memory of byte-wise access,
        whatever the tables hold at each moment, however long a decoded pointer is
        kept, and however pages alias. */
    method Run(es: seq<Event>) returns (results: seq<Option<seq<Byte>>>)
      requires Valid() && PointersOk() && forall e | e in es :: Allowed(e, rd, wr)
      modifies this
      ensures Valid() && PointersOk()
      ensures View(results) == PlainRun(rd, wr, old(View([])), es)
    {
      results := [];
      for k := 0 to |es|
        invariant Valid() && PointersOk()
        invariant View(results) == PlainRun(rd, wr, old(View([])), es[..k])
      {
        assert es[..k + 1][..k] == es[..k] && es[k] in es;
        StepAppends(rd, wr, View(results), es[k]);
        var out := Perform(es[k]);
        results := results + out;
      }
      assert es[..|es|] == es;
    }
  }
}
