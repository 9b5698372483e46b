// The guest's address space: a sparse table of pages, read byte by byte or a page at a
// time.
module GuestMemory {
  import opened Bytes

  const PAGE: int := 4096

  // Address arithmetic wraps at 64 bits.
  function Plus(addr: nat, n: nat): (r: nat)
    requires addr < U64 && n <= U64
    ensures r < U64 && (r == addr + n || r == addr + n - U64)
  {
    if addr + n >= U64 then addr + n - U64 else addr + n
  }

  type Page = p: seq<byte> | |p| == 4096 witness seq(4096, i => 0)

  // A reserved page has no memory behind it yet and reads as zero.
  datatype Slot = Reserved | Backed(data: Page)

  datatype Memory = Memory(pages: map<nat, Slot>)
  {
    predicate Mapped(addr: nat) {
      addr / PAGE in pages
    }

    // The bytes of a mapped page.
    function PageAt(index: nat): Page
      requires index in pages
    {
      match pages[index]
      case Reserved => seq(4096, i => 0)
      case Backed(data) => data
    }

    function ByteAt(addr: nat): byte
      requires Mapped(addr)
    {
      PageAt(addr / PAGE)[addr % PAGE]
    }

    // n bytes from addr on, wrapping at the top of the address space, one at a time;
    // nothing if any of them is not mapped.
    function Bytes(addr: nat, n: nat): (r: Option<seq<byte>>)
      requires addr < U64
      ensures r.Some? ==> |r.value| == n
      decreases n
    {
      if n == 0 then Some([])
      else if !Mapped(addr) then None
      else
        match Bytes(Plus(addr, 1), n - 1)
        case None => None
        case Some(rest) => Some([ByteAt(addr)] + rest)
    }
  }

  // Moving within a page.
  lemma SamePage(addr: nat, n: nat)
    requires addr < U64 && addr % PAGE + n < PAGE
    ensures Plus(addr, n) / PAGE == addr / PAGE && Plus(addr, n) % PAGE == addr % PAGE + n
  {
  }

  // A stretch that stays on one page is a slice of it.
  lemma {:induction false} OnePage(m: Memory, addr: nat, n: nat)
    requires addr < U64 && addr % PAGE + n <= PAGE && n > 0
    ensures m.Bytes(addr, n) ==
      if m.Mapped(addr) then Some(m.PageAt(addr / PAGE)[addr % PAGE..addr % PAGE + n]) else None
    decreases n
  {
    var next := Plus(addr, 1);
    if n > 1 {
      SamePage(addr, 1);
      OnePage(m, next, n - 1);
    } else {
      assert m.Bytes(next, 0) == Some([]);
    }
    if m.Mapped(addr) {
      var page, off := m.PageAt(addr / PAGE), addr % PAGE;
      assert page[off..off + n] == [page[off]] + page[off + 1..off + n];
    }
  }

  // Reading in two parts.
  ghost function Joined(a: Option<seq<byte>>, b: Option<seq<byte>>): Option<seq<byte>> {
    if a.None? || b.None? then None else Some(a.value + b.value)
  }

  lemma {:induction false} BytesSplit(m: Memory, addr: nat, a: nat, b: nat)
    requires addr < U64 && a <= U64
    ensures m.Bytes(addr, a + b) == Joined(m.Bytes(addr, a), m.Bytes(Plus(addr, a), b))
    decreases a
  {
    if a == 0 {
      var second := m.Bytes(addr, b);
      assert second.Some? ==> [] + second.value == second.value;
    } else {
      var next := Plus(addr, 1);
      BytesSplit(m, next, a - 1, b);
      assert Plus(next, a - 1) == Plus(addr, a);
      var first, second := m.Bytes(next, a - 1), m.Bytes(Plus(addr, a), b);
      if m.Mapped(addr) && first.Some? && second.Some? {
        Regrouped([m.ByteAt(addr)], first.value, second.value);
      }
    }
  }

  // A shorter read is a part of a longer one.
  lemma PrefixRead(m: Memory, addr: nat, n: nat, more: nat, part: seq<byte>, all: seq<byte>)
    requires addr < U64 && n <= U64 && m.Bytes(addr, n) == Some(part) && m.Bytes(addr, n + more) == Some(all)
    ensures part <= all
  {
    BytesSplit(m, addr, n, more);
  }

  // A read that fails early fails.
  lemma FailsEarly(m: Memory, addr: nat, a: nat, n: nat)
    requires addr < U64 && a <= n <= U64 && m.Bytes(addr, a).None?
    ensures m.Bytes(addr, n).None?
  {
    BytesSplit(m, addr, a, n - a);
  }

  // What is left of the page that holds addr.
  function PageLeft(addr: nat): (n: nat)
    ensures 0 < n <= PAGE && addr % PAGE + n == PAGE
  {
    PAGE - addr % PAGE
  }

  // Memory::read: a page's worth at a time.
  method Read(m: Memory, addr: nat, len: nat) returns (r: Option<seq<byte>>)
    requires addr < U64 && len <= U64
    ensures r == m.Bytes(addr, len)
  {
    var out: seq<byte> := [];
    var at, done := addr, 0;
    while done < len
      invariant done <= len && at < U64 && at == Plus(addr, done)
      invariant m.Bytes(addr, done) == Some(out)
    {
      var n := PageLeft(at);
      if n > len - done {
        n := len - done;
      }
      OnePage(m, at, n);
      BytesSplit(m, addr, done, n);
      if !m.Mapped(at) {
        FailsEarly(m, addr, done + n, len);
        return None;
      }
      var off := at % PAGE;
      out := out + m.PageAt(at / PAGE)[off..off + n];
      at := Plus(at, n);
      done := done + n;
    }
    r := Some(out);
  }

  // Memory::read_int: one copy when the value stays on a page.
  method ReadInt(m: Memory, addr: nat, width: nat) returns (r: Option<nat>)
    requires addr < U64 && 0 < width <= 8
    ensures r == match m.Bytes(addr, width) case None => None case Some(bs) => Some(Value(bs))
  {
    if addr % PAGE + width <= PAGE {
      OnePage(m, addr, width);
      if !m.Mapped(addr) {
        return None;
      }
      return Some(Value(m.PageAt(addr / PAGE)[addr % PAGE..addr % PAGE + width]));
    }
    var bs := Read(m, addr, width);
    r := if bs.None? then None else Some(Value(bs.value));
  }
}
