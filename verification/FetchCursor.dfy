// The instruction stream: a cursor into the current code page that must never show
// anything but the bytes at rip.
module FetchCursor {
  import opened Bytes
  import opened GuestMemory

  // How the decoder takes its next bytes.
  datatype Fetch = Byte | Peeked | Wide(width: nat)
  {
    predicate Proper() {
      Wide? ==> width == 2 || width == 4 || width == 8
    }

    function Width(): (w: nat)
      requires Proper()
      ensures 0 < w <= 8
    {
      if Wide? then width else 1
    }
  }

  // The values that reading little-endian at rip, byte by byte, would give; the
  // first unmapped byte ends the list.
  function Stream(m: Memory, rip: nat, fetches: seq<Fetch>): (seq<nat>, nat)
    requires rip < U64 && forall i :: 0 <= i < |fetches| ==> fetches[i].Proper()
    decreases |fetches|
  {
    if fetches == [] then ([], rip) else
    match m.Bytes(rip, fetches[0].Width())
    case None => ([], rip)
    case Some(bs) =>
      var (values, end) := Stream(m, Plus(rip, fetches[0].Width()), fetches[1..]);
      ([Value(bs)] + values, end)
  }

  ghost function Then(values: seq<nat>, more: (seq<nat>, nat)): (seq<nat>, nat) {
    (values + more.0, more.1)
  }

  lemma ThenNothing(values: seq<nat>, more: (seq<nat>, nat))
    ensures values == [] ==> Then(values, more) == more
    ensures more.0 == [] ==> Then(values, more) == (values, more.1)
  {
    assert [] + more.0 == more.0;
    assert values + [] == values;
  }

  lemma ThenOne(values: seq<nat>, v: nat, more: (seq<nat>, nat))
    ensures Then(values, ([v] + more.0, more.1)) == Then(values + [v], more)
  {
    assert values + ([v] + more.0) == values + [v] + more.0;
  }

  lemma OneByte(b: byte)
    ensures Value([b]) == b
  {
    assert Value([]) == 0;
  }

  class Cpu {
    const mem: Memory
    var rip: nat
    // The page the cursor is in, and where in it: ip_ and ip_end_.
    var page: seq<byte>
    var ip: nat
    var ipEnd: nat

    // A cursor with bytes left addresses rip and ends where its page does.
    ghost predicate Valid()
      reads this
    {
      && rip < U64 && ip <= ipEnd <= |page|
      && (ip < ipEnd ==> mem.Mapped(rip) && page == mem.PageAt(rip / PAGE) && ip == rip % PAGE && ipEnd == PAGE)
    }

    constructor (m: Memory, start: nat)
      requires start < U64
      ensures Valid() && mem == m && rip == start && ip == ipEnd
    {
      mem, rip, page, ip, ipEnd := m, start, [], 0, 0;
    }

    method CodeDrop()
      modifies this`page, this`ip, this`ipEnd
      requires Valid()
      ensures Valid() && ip == ipEnd
    {
      page, ip, ipEnd := [], 0, 0;
    }

    // Memory::code_window: the rest of rip's page, if it is mapped.
    method CodeWindow() returns (ok: bool)
      requires Valid()
      modifies this`page, this`ip, this`ipEnd
      ensures Valid() && (ok <==> mem.Mapped(rip))
      ensures ok ==> ip < ipEnd
      ensures !ok ==> page == old(page) && ip == old(ip) && ipEnd == old(ipEnd)
    {
      if !mem.Mapped(rip) {
        return false;
      }
      page, ip, ipEnd := mem.PageAt(rip / PAGE), rip % PAGE, PAGE;
      return true;
    }

    // The next byte, without consuming it.
    method Peek8() returns (r: Option<nat>)
      requires Valid()
      modifies this`page, this`ip, this`ipEnd
      ensures Valid()
      ensures r == match mem.Bytes(rip, 1) case None => None case Some(bs) => Some(bs[0])
      ensures r.Some? ==> r.value < 256 && ip < ipEnd && page[ip] == r.value
    {
      OnePage(mem, rip, 1);
      if ip < ipEnd {
        return Some(page[ip]);
      }
      var ok := CodeWindow();
      r := if ok then Some(page[ip]) else None;
    }

    // Moves the cursor and rip on together.
    method Advance(n: nat)
      requires Valid() && ip < ipEnd && n <= ipEnd - ip
      modifies this`rip, this`ip
      ensures Valid() && rip == Plus(old(rip), n)
    {
      if ip + n < ipEnd {
        SamePage(rip, n);
      }
      rip := Plus(rip, n);
      ip := ip + n;
    }

    // Consumes a byte that Peek8 resolved.
    method Skip8()
      requires Valid() && ip < ipEnd
      modifies this
      ensures Valid() && rip == Plus(old(rip), 1)
    {
      Advance(1);
    }

    method Fetch8() returns (r: Option<nat>)
      requires Valid()
      modifies this
      ensures Valid()
      ensures r == match mem.Bytes(old(rip), 1) case None => None case Some(bs) => Some(Value(bs))
      ensures rip == if r.Some? then Plus(old(rip), 1) else old(rip)
    {
      OnePage(mem, rip, 1);
      if !(ip < ipEnd) {
        var ok := CodeWindow();
        if !ok {
          return None;
        }
      }
      r := Some(page[ip]);
      OneByte(page[ip]);
      Advance(1);
    }

    // Two, four or eight bytes; the cursor serves them only when all are on its page.
    method FetchWide(width: nat) returns (r: Option<nat>)
      requires Valid() && 2 <= width <= 8
      modifies this
      ensures Valid()
      ensures r == match mem.Bytes(old(rip), width) case None => None case Some(bs) => Some(Value(bs))
      ensures rip == if r.Some? then Plus(old(rip), width) else old(rip)
    {
      if ipEnd - ip >= width {
        OnePage(mem, rip, width);
        r := Some(Value(page[ip..ip + width]));
        Advance(width);
        return;
      }
      r := ReadInt(mem, rip, width);
      if r.Some? {
        CodeDrop();
        rip := Plus(rip, width);
      }
    }

    // One fetch, of whichever kind.
    method Take(fetch: Fetch) returns (v: Option<nat>)
      requires Valid() && fetch.Proper()
      modifies this
      ensures Valid()
      ensures v == match mem.Bytes(old(rip), fetch.Width()) case None => None case Some(bs) => Some(Value(bs))
      ensures rip == if v.Some? then Plus(old(rip), fetch.Width()) else old(rip)
    {
      match fetch {
        case Byte => v := Fetch8();
        case Peeked =>
          v := Peek8();
          if v.Some? {
            OneByte(mem.Bytes(rip, 1).value[0]);
            Skip8();
          }
        case Wide(width) => v := FetchWide(width);
      }
    }

    // Any mix of fetches shows the bytes at rip, across any number of pages.
    method Run(fetches: seq<Fetch>) returns (values: seq<nat>)
      requires Valid() && forall i :: 0 <= i < |fetches| ==> fetches[i].Proper()
      modifies this
      ensures Valid() && (values, rip) == Stream(mem, old(rip), fetches)
    {
      values := [];
      var i := 0;
      ThenNothing(values, Stream(mem, rip, fetches));
      assert fetches[0..] == fetches;
      while i < |fetches|
        invariant 0 <= i <= |fetches| && Valid()
        invariant Stream(mem, old(rip), fetches) == Then(values, Stream(mem, rip, fetches[i..]))
      {
        assert fetches[i..][0] == fetches[i] && fetches[i..][1..] == fetches[i + 1..];
        var v := Take(fetches[i]);
        if v.None? {
          ThenNothing(values, ([], rip));
          return;
        }
        ThenOne(values, v.value, Stream(mem, rip, fetches[i + 1..]));
        values := values + [v.value];
        i := i + 1;
      }
      ThenNothing(values, Stream(mem, rip, []));
      assert fetches[i..] == [];
    }
  }
}
