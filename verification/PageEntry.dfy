/** kernel/paging.hpp: page-table entries and four-level linear addresses. */
module PageEntry {

  /** PageMapEntry. The bit-field view of one 64-bit word: flags are bits 3 to 11,
      addr bits 12 to 51, high bits 52 to 63. */
  datatype RawEntry = Entry(present: bool, writable: bool, user: bool, flags: nat, addr: nat, high: nat) {
    predicate Fits() {
      flags < 0x200 && addr < 0x100_0000_0000 && high < 0x1000
    }
  }

  type Entry = e: RawEntry | e.Fits() witness Entry(false, false, false, 0, 0, 0)

  const EMPTY: Entry := Entry(false, false, false, 0, 0, 0)

  function Bit(b: bool): nat {
    if b then 1 else 0
  }

  /** The data member of the union. */
  function Data(e: Entry): (w: nat)
    ensures w < 0x1_0000_0000_0000_0000
  {
    Bit(e.present) + 2 * (Bit(e.writable) + 2 * (Bit(e.user) + 2 * (e.flags + 0x200 * (e.addr + 0x100_0000_0000 * e.high))))
  }

  function FromData(w: nat): Entry
    requires w < 0x1_0000_0000_0000_0000
  {
    var w1 := w / 2;
    var w2 := w1 / 2;
    var w3 := w2 / 2;
    var w4 := w3 / 0x200;
    Entry(w % 2 == 1, w1 % 2 == 1, w2 % 2 == 1, w3 % 0x200, w4 % 0x100_0000_0000, w4 / 0x100_0000_0000)
  }

  /** The two views of the union are in bijection. */
  lemma EntryOfData(e: Entry)
    ensures FromData(Data(e)) == e
  {
    var w4 := e.addr + 0x100_0000_0000 * e.high;
    var w3 := e.flags + 0x200 * w4;
    var w2 := Bit(e.user) + 2 * w3;
    var w1 := Bit(e.writable) + 2 * w2;
    var w := Data(e);
    assert w == Bit(e.present) + 2 * w1;
    assert w / 2 == w1 && w1 / 2 == w2 && w2 / 2 == w3;
    assert w3 / 0x200 == w4;
  }

  lemma DataOfEntry(w: nat)
    requires w < 0x1_0000_0000_0000_0000
    ensures Data(FromData(w)) == w
  {
  }

  /** Pointer() as a frame number: the address is always frame-aligned. */
  function SetPointer(e: Entry, frame: nat): Entry
    requires frame < 0x100_0000_0000
  {
    e.(addr := frame)
  }

  /** An entry as SetPageContent leaves it: new pointer, writable. */
  function Repoint(e: Entry, frame: nat): Entry
    requires frame < 0x100_0000_0000
  {
    SetPointer(e, frame).(writable := true)
  }

  /** One frame of physical memory: 512 words. */
  type Table = t: seq<Entry> | |t| == 512 witness seq(512, _ => EMPTY)

  function Blank(): Table {
    seq(512, _ => EMPTY)
  }

  /** LinearAddress4Level. The bit-field view of a 64-bit linear address. */
  datatype RawAddress = Address(offset: nat, page: nat, dir: nat, pdp: nat, pml4: nat, high: nat) {
    predicate Fits() {
      offset < 4096 && page < 512 && dir < 512 && pdp < 512 && pml4 < 512 && high < 0x1_0000
    }
  }

  type Address = a: RawAddress | a.Fits() witness Address(0, 0, 0, 0, 0, 0)

  function Value(a: Address): (v: nat)
    ensures v < 0x1_0000_0000_0000_0000
  {
    a.offset + 4096 * (PageNumber(a) + 0x10_0000_0000 * a.high)
  }

  function FromValue(v: nat): Address
    requires v < 0x1_0000_0000_0000_0000
  {
    var v1 := v / 4096;
    var v2 := v1 / 512;
    var v3 := v2 / 512;
    var v4 := v3 / 512;
    Address(v % 4096, v1 % 512, v2 % 512, v3 % 512, v4 % 512, v4 / 512)
  }

  /** Digits in base 512, from the highest. */
  function Spelled(page: nat, dir: nat, pdp: nat, pml4: nat, high: nat): nat {
    page + 512 * (dir + 512 * (pdp + 512 * (pml4 + 512 * high)))
  }

  lemma LastDigit(digit: nat, rest: nat)
    requires digit < 512
    ensures (digit + 512 * rest) % 512 == digit && (digit + 512 * rest) / 512 == rest
  {
  }

  lemma Digits(a: Address)
    ensures var v := Spelled(a.page, a.dir, a.pdp, a.pml4, a.high);
            v % 512 == a.page && v / 512 % 512 == a.dir && v / 512 / 512 % 512 == a.pdp
            && v / 512 / 512 / 512 % 512 == a.pml4 && v / 512 / 512 / 512 / 512 == a.high
  {
    var v4 := a.pml4 + 512 * a.high;
    var v3 := a.pdp + 512 * v4;
    var v2 := a.dir + 512 * v3;
    LastDigit(a.page, v2);
    LastDigit(a.dir, v3);
    LastDigit(a.pdp, v4);
    LastDigit(a.pml4, a.high);
  }

  lemma ValueSpelled(a: Address)
    ensures Value(a) == a.offset + 4096 * Spelled(a.page, a.dir, a.pdp, a.pml4, a.high)
    ensures Value(a) % 4096 == a.offset && Value(a) / 4096 == Spelled(a.page, a.dir, a.pdp, a.pml4, a.high)
  {
    var w := Spelled(a.page, a.dir, a.pdp, a.pml4, a.high);
    assert w == PageNumber(a) + 0x10_0000_0000 * a.high;
    LowDigits(a.offset, w);
  }

  lemma LowDigits(offset: nat, rest: nat)
    requires offset < 4096
    ensures (offset + 4096 * rest) % 4096 == offset && (offset + 4096 * rest) / 4096 == rest
  {
  }

  lemma AddressViews(a: Address, v: nat)
    requires v < 0x1_0000_0000_0000_0000
    ensures FromValue(Value(a)) == a
    ensures Value(FromValue(v)) == v
  {
    hide Value, Spelled, PageNumber;
    ValueSpelled(a);
    Digits(a);
    ValueSpelled(FromValue(v));
    Respelled(v / 4096);
  }

  lemma Respelled(w: nat)
    ensures Spelled(w % 512, w / 512 % 512, w / 512 / 512 % 512, w / 512 / 512 / 512 % 512, w / 512 / 512 / 512 / 512) == w
  {
    var w2 := w / 512;
    var w3 := w2 / 512;
    var w4 := w3 / 512;
    assert w4 == w4 % 512 + 512 * (w4 / 512);
    assert w3 == w3 % 512 + 512 * w4;
    assert w2 == w2 % 512 + 512 * w3;
  }

  function Part(a: Address, level: nat): nat {
    match level
    case 0 => a.offset
    case 1 => a.page
    case 2 => a.dir
    case 3 => a.pdp
    case 4 => a.pml4
    case _ => 0
  }

  function SetPart(a: Address, level: nat, value: nat): Address {
    match level
    case 0 => a.(offset := value % 4096)
    case 1 => a.(page := value % 512)
    case 2 => a.(dir := value % 512)
    case 3 => a.(pdp := value % 512)
    case 4 => a.(pml4 := value % 512)
    case _ => a
  }

  /** The number of the 4 KiB page an address lies in. */
  function PageNumber(a: Address): (n: nat)
    ensures n < 0x10_0000_0000
  {
    a.page + 512 * (a.dir + 512 * (a.pdp + 512 * a.pml4))
  }
}
