/** Code fetches through the one-page cache, against plain translated memory. */
module CodeFetch {
  import opened Words

  const PAGE: int := 0x1000
  const NO_PAGE: Word32 := 0xffffffff

  type PageMap = int -> Option<int>
  type Ram = int -> Byte

  /** A fetched dword as its bytes, least significant first. A fetched word has its
      upper two bytes zero. */
  datatype Dword = Dword(b0: Byte, b1: Byte, b2: Byte, b3: Byte)

  /** Plain translated memory: no value where the page is not mapped. */
  predicate Mapped(tr: PageMap, a: int) {
    tr(Wrap32(a) / PAGE).Some?
  }

  function ByteIn(tr: PageMap, ram: Ram, a: int): Byte {
    match tr(Wrap32(a) / PAGE)
    case Some(frame) => ram(frame * PAGE + Wrap32(a) % PAGE)
    case None => 0
  }

  /** A linear address is translated by its page number; the low twelve bits stay. */
  lemma ByteTranslated(tr: PageMap, ram: Ram, a: Addr)
    ensures Mapped(tr, a) <==> tr(a / 4096).Some?
    ensures Mapped(tr, a) ==> ByteIn(tr, ram, a) == ram(4096 * tr(a / 4096).value + a % 4096)
  {
  }

  /** The first n bytes at a, the others zero. */
  function Bytes(tr: PageMap, ram: Ram, a: int, n: nat): Dword {
    Dword(if 0 < n then ByteIn(tr, ram, a) else 0, if 1 < n then ByteIn(tr, ram, a + 1) else 0,
          if 2 < n then ByteIn(tr, ram, a + 2) else 0, if 3 < n then ByteIn(tr, ram, a + 3) else 0)
  }

  /** The first n of the four bytes at a are mapped. */
  predicate AllMapped(tr: PageMap, a: int, n: nat) {
    && (0 < n ==> Mapped(tr, a)) && (1 < n ==> Mapped(tr, a + 1))
    && (2 < n ==> Mapped(tr, a + 2)) && (3 < n ==> Mapped(tr, a + 3))
  }

  /** Within its page, a byte is where the page's frame puts it. */
  lemma InPage(tr: PageMap, ram: Ram, a: Addr, k: nat)
    requires a % PAGE + k < PAGE
    ensures Mapped(tr, a + k) == Mapped(tr, a)
    ensures Mapped(tr, a) ==> ByteIn(tr, ram, a + k) == ram(tr(a / PAGE).value * PAGE + (a % PAGE + k))
  {
    assert Wrap32(a + k) == a + k && (a + k) / PAGE == a / PAGE && (a + k) % PAGE == a % PAGE + k;
  }

  lemma InPageTwo(tr: PageMap, ram: Ram, a: Addr)
    requires a % PAGE < 0xfff
    ensures AllMapped(tr, a, 2) == Mapped(tr, a)
    ensures Mapped(tr, a) ==>
              var at := tr(a / PAGE).value * PAGE + a % PAGE;
              Bytes(tr, ram, a, 2) == Dword(ram(at), ram(at + 1), 0, 0)
  {
    InPage(tr, ram, a, 0);
    InPage(tr, ram, a, 1);
  }

  lemma InPageFour(tr: PageMap, ram: Ram, a: Addr)
    requires a % PAGE < 0xffd
    ensures AllMapped(tr, a, 4) == Mapped(tr, a)
    ensures Mapped(tr, a) ==>
              var at := tr(a / PAGE).value * PAGE + a % PAGE;
              Bytes(tr, ram, a, 4) == Dword(ram(at), ram(at + 1), ram(at + 2), ram(at + 3))
  {
    InPage(tr, ram, a, 0);
    InPage(tr, ram, a, 1);
    InPage(tr, ram, a, 2);
    InPage(tr, ram, a, 3);
  }

  lemma ByteWrapped(tr: PageMap, ram: Ram, a: int, k: int)
    ensures Mapped(tr, Wrap32(a) + k) == Mapped(tr, a + k)
    ensures ByteIn(tr, ram, Wrap32(a) + k) == ByteIn(tr, ram, a + k)
  {
    WrapStep(a, k);
  }

  lemma WordWrapped(tr: PageMap, ram: Ram, a: int)
    ensures Mapped(tr, Wrap32(a)) == Mapped(tr, a) && Mapped(tr, Wrap32(a) + 1) == Mapped(tr, a + 1)
    ensures Bytes(tr, ram, Wrap32(a), 2) == Bytes(tr, ram, a, 2)
  {
    ByteWrapped(tr, ram, a, 0);
    ByteWrapped(tr, ram, a, 1);
  }

  class Fetcher {
    var tr: PageMap
    var ram: Ram
    var pccache: Word32
    var frame: int
    var abrt: bool

    constructor (pages: PageMap, memory: Ram)
      ensures Valid() && tr == pages && ram == memory && !abrt
    {
      tr, ram, pccache, frame, abrt := pages, memory, NO_PAGE, 0, false;
    }

    /** The cache is empty or holds the translation of its page. */
    ghost predicate Valid()
      reads this
    {
      pccache != NO_PAGE ==> tr(pccache) == Some(frame)
    }

    /** A new mapping comes with a flush. */
    method Remap(pages: PageMap)
      modifies this`tr, this`pccache
      ensures Valid() && tr == pages
    {
      tr := pages;
      pccache := NO_PAGE;
    }

    method GetPcCache(a: Addr) returns (f: int)
      modifies this`abrt
      ensures abrt == (old(abrt) || !Mapped(tr, a))
      ensures !abrt ==> tr(a / PAGE) == Some(f)
    {
      match tr(a / PAGE)
      case Some(g) => f := g;
      case None =>
        abrt := true;
        f := 0;
    }

    /** Makes the page of a the cached one; false after an abort. */
    method Lookup(a: Addr) returns (ok: bool)
      requires Valid()
      modifies this`pccache, this`frame, this`abrt
      ensures Valid()
      ensures abrt == (old(abrt) || !Mapped(tr, a))
      ensures !ok ==> abrt && pccache == old(pccache)
      ensures ok ==> pccache == a / PAGE
    {
      if a / PAGE != pccache {
        var t := GetPcCache(a);
        if abrt {
          return false;
        }
        pccache := a / PAGE;
        frame := t;
      }
      return true;
    }

    method FastReadB(a: Addr) returns (v: Byte)
      requires Valid()
      modifies this`pccache, this`frame, this`abrt
      ensures Valid()
      ensures abrt == (old(abrt) || !Mapped(tr, a))
      ensures !abrt ==> v == ByteIn(tr, ram, a) && pccache == a / PAGE
    {
      var ok := Lookup(a);
      if !ok {
        return 0;
      }
      v := ram(frame * PAGE + a % PAGE);
    }

    method FastReadW(a: Addr) returns (v: Dword)
      requires Valid()
      modifies this`pccache, this`frame, this`abrt
      ensures Valid()
      ensures abrt == (old(abrt) || !Mapped(tr, a) || !Mapped(tr, a + 1))
      ensures !abrt ==> v == Bytes(tr, ram, a, 2)
    {
      if a % PAGE > 0xffe {
        var lo := FastReadB(a);
        ByteWrapped(tr, ram, a + 1, 0);
        var hi := FastReadB(Wrap32(a + 1));
        return Dword(lo, hi, 0, 0);
      }
      InPageTwo(tr, ram, a);
      var ok := Lookup(a);
      if !ok {
        return Dword(0, 0, 0, 0);
      }
      var at := frame * PAGE + a % PAGE;
      v := Dword(ram(at), ram(at + 1), 0, 0);
    }

    /** Four bytes that end before the page does. */
    method FastReadInPage(a: Addr) returns (v: Dword)
      requires Valid() && a % PAGE < 0xffd
      modifies this`pccache, this`frame, this`abrt
      ensures Valid()
      ensures Mapped(tr, a) == AllMapped(tr, a, 4)
      ensures abrt == (old(abrt) || !AllMapped(tr, a, 4))
      ensures !abrt ==> v == Bytes(tr, ram, a, 4) && pccache == a / PAGE
    {
      InPageFour(tr, ram, a);
      var ok := Lookup(a);
      if !ok {
        return Dword(0, 0, 0, 0);
      }
      var at := frame * PAGE + a % PAGE;
      v := Dword(ram(at), ram(at + 1), ram(at + 2), ram(at + 3));
    }

    method FastReadL(a: Addr) returns (v: Dword)
      requires Valid()
      modifies this`pccache, this`frame, this`abrt
      ensures Valid()
      ensures abrt == (old(abrt) || !AllMapped(tr, a, 4))
      ensures !abrt ==> v == Bytes(tr, ram, a, 4)
    {
      if a % PAGE < 0xffd {
        v := FastReadInPage(a);
        return;
      }
      var lo := FastReadW(a);
      var hi := FastReadUpperW(a);
      v := Dword(lo.b0, lo.b1, hi.b0, hi.b1);
    }

    /** The first two bytes of an instruction; the second only when it is in the
        first one's page or the opcode is longer than a byte. */
    method FastReadWFetch(a: Addr, length: Byte -> nat) returns (v: Dword)
      requires Valid()
      modifies this`pccache, this`frame, this`abrt
      ensures Valid()
      ensures !Mapped(tr, a) ==> abrt
      ensures Mapped(tr, a) ==> abrt == (old(abrt) || !AllMapped(tr, a, FetchedW(tr, ram, a, length)))
      ensures !abrt ==> v == Bytes(tr, ram, a, FetchedW(tr, ram, a, length))
      ensures !abrt && a % PAGE + FetchedW(tr, ram, a, length) <= PAGE ==> pccache == a / PAGE
    {
      if a % PAGE > 0xffe {
        var lo := FastReadB(a);
        if length(lo) > 1 {
          ByteWrapped(tr, ram, a + 1, 0);
          var hi := FastReadB(Wrap32(a + 1));
          return Dword(lo, hi, 0, 0);
        }
        return Dword(lo, 0, 0, 0);
      }
      InPageTwo(tr, ram, a);
      var ok := Lookup(a);
      if !ok {
        return Dword(0, 0, 0, 0);
      }
      var at := frame * PAGE + a % PAGE;
      v := Dword(ram(at), ram(at + 1), 0, 0);
    }

    method FastReadLFetch(a: Addr, length: Byte -> nat) returns (v: Dword)
      requires Valid()
      modifies this`pccache, this`frame, this`abrt
      ensures Valid()
      ensures !Mapped(tr, a) ==> abrt
      ensures Mapped(tr, a) ==> abrt == (old(abrt) || !AllMapped(tr, a, Fetched(tr, ram, a, length)))
      ensures !abrt ==> v == Bytes(tr, ram, a, Fetched(tr, ram, a, length))
      ensures !abrt && FitsInPage(tr, ram, a, length) ==> pccache == a / PAGE
    {
      if a % PAGE < 0xffd {
        v := FastReadInPage(a);
        return;
      }
      v := FetchAtPageEnd(a, length);
    }

    method FetchAtPageEnd(a: Addr, length: Byte -> nat) returns (v: Dword)
      requires Valid() && a % PAGE >= 0xffd
      modifies this`pccache, this`frame, this`abrt
      ensures Valid()
      ensures !Mapped(tr, a) ==> abrt
      ensures Mapped(tr, a) ==> abrt == (old(abrt) || !AllMapped(tr, a, Fetched(tr, ram, a, length)))
      ensures !abrt ==> v == Bytes(tr, ram, a, Fetched(tr, ram, a, length))
      ensures !abrt && FitsInPage(tr, ram, a, length) ==> pccache == a / PAGE
    {
      FetchedAtPageEnd(tr, ram, a, length);
      var lo := FastReadWFetch(a, length);
      v := lo;
      if length(lo.b0) > 2 {
        var hi := FastReadUpperW(a);
        v := Dword(lo.b0, lo.b1, hi.b0, hi.b1);
      }
    }

    /** The word two above a, which may lie past the 4G wrap. */
    method FastReadUpperW(a: Addr) returns (v: Dword)
      requires Valid()
      modifies this`pccache, this`frame, this`abrt
      ensures Valid()
      ensures abrt == (old(abrt) || !Mapped(tr, a + 2) || !Mapped(tr, a + 3))
      ensures !abrt ==> v.b0 == ByteIn(tr, ram, a + 2) && v.b1 == ByteIn(tr, ram, a + 3)
    {
      WordWrapped(tr, ram, a + 2);
      v := FastReadW(Wrap32(a + 2));
    }
  }

  lemma FetchedAtPageEnd(tr: PageMap, ram: Ram, a: Addr, length: Byte -> nat)
    requires a % PAGE >= 0xffd
    ensures Fetched(tr, ram, a, length)
         == if length(ByteIn(tr, ram, a)) > 2 then 4 else FetchedW(tr, ram, a, length)
    ensures length(ByteIn(tr, ram, a)) > 2 ==> FetchedW(tr, ram, a, length) == 2
    ensures FitsInPage(tr, ram, a, length) ==> a % PAGE + FetchedW(tr, ram, a, length) <= PAGE
  {
  }

  function FetchedW(tr: PageMap, ram: Ram, a: Addr, length: Byte -> nat): nat {
    if a % PAGE == 0xfff && length(ByteIn(tr, ram, a)) <= 1 then 1 else 2
  }

  /** How many bytes a fetch at a takes when the first is mapped; length is the
      opcode length table. */
  function Fetched(tr: PageMap, ram: Ram, a: Addr, length: Byte -> nat): nat {
    var n := length(ByteIn(tr, ram, a));
    if a % PAGE < 0xffd || n > 2 then 4
    else if a % PAGE == 0xfff && n <= 1 then 1
    else 2
  }

  /** An opcode of table length 1 or 2 that ends in the page it starts in. */
  predicate FitsInPage(tr: PageMap, ram: Ram, a: Addr, length: Byte -> nat) {
    var n := length(ByteIn(tr, ram, a));
    1 <= n <= 2 && a % PAGE + n <= PAGE
  }

  /** Dwords that agree in their first n bytes. */
  predicate AgreeOn(v: Dword, w: Dword, n: nat) {
    && (0 < n ==> v.b0 == w.b0) && (1 < n ==> v.b1 == w.b1) && (2 < n ==> v.b2 == w.b2) && (3 < n ==> v.b3 == w.b3)
  }

  /** What the fetch takes agrees with the full dword on the opcode's table length,
      on all four bytes when that is 3, and an opcode that fits in its page needs
      nothing of the next: once its first byte is mapped, the fetch cannot abort. */
  lemma PrefetchExact(tr: PageMap, ram: Ram, a: Addr, length: Byte -> nat)
    requires 1 <= length(ByteIn(tr, ram, a)) <= 3
    ensures var n := length(ByteIn(tr, ram, a));
            var got := Bytes(tr, ram, a, Fetched(tr, ram, a, length));
            && AgreeOn(got, Bytes(tr, ram, a, 4), n)
            && (n == 3 ==> got == Bytes(tr, ram, a, 4))
    ensures FitsInPage(tr, ram, a, length) && Mapped(tr, a) ==>
              AllMapped(tr, a, Fetched(tr, ram, a, length))
  {
    if a % PAGE < 0xffd {
      InPageFour(tr, ram, a);
    } else if a % PAGE < 0xfff {
      InPage(tr, ram, a, 1);
    }
  }
}
