/** Bounded reads of child memory. The memory is hostile and the reader may answer any read in
    pieces of any size; the results nevertheless are those of a plain byte-by-byte scan. */
module Memory {
  import opened Wrappers

  type Byte = bv8

  const PAGE: nat := 4096
  const ABSOLUTE_READ_CAP: nat := 65535

  /** Addresses are 64-bit and wrap. */
  const ADDRESSES: nat := 0x1_0000_0000_0000_0000

  datatype ReadError = Io | NoNulWithinCap(cap: nat) | Short(wanted: nat, got: nat)

  /** The address `n` bytes after `addr`. */
  function At(addr: nat, n: nat): nat {
    (addr + n) % ADDRESSES
  }

  /** These are the bytes at `pos` and after. */
  ghost predicate Delivered(readable: nat -> Option<Byte>, pos: nat, bytes: seq<Byte>) {
    forall k :: 0 <= k < |bytes| ==> readable(pos + k) == Some(bytes[k])
  }

  /** The reader behind `read_at`: which bytes exist is fixed, how many of them one call delivers
      is up to it (`pieces`, by call), and so is whether an unreadable position shows as an error
      or as zero bytes (`refuses`). */
  class ChildMemory {
    const readable: nat -> Option<Byte>
    const pieces: nat -> nat
    const refuses: nat -> bool
    var calls: nat
    ghost var log: seq<(nat, nat)>

    constructor (readable: nat -> Option<Byte>, pieces: nat -> nat, refuses: nat -> bool)
      ensures this.readable == readable && this.pieces == pieces && this.refuses == refuses
      ensures log == []
    {
      this.readable, this.pieces, this.refuses := readable, pieces, refuses;
      calls, log := 0, [];
    }

    /** Reads some bytes at `pos` into `buf[from..]`, no more than fit and none past the end of
        the address space. */
    method ReadAt(pos: nat, buf: array<Byte>, from: nat) returns (r: Result<nat, ReadError>)
      requires from < buf.Length && pos < ADDRESSES
      modifies this, buf
      ensures log == old(log) + [(pos, buf.Length - from)]
      ensures r.Err? || r == Ok(0) <==> readable(pos).None?
      ensures r.Ok? ==> r.value <= buf.Length - from && pos + r.value <= ADDRESSES
      ensures r.Ok? ==> Delivered(readable, pos, buf[from..from + r.value])
      ensures buf[..from] == old(buf[..from])
    {
      log := log + [(pos, buf.Length - from)];
      var limit, refused := pieces(calls), refuses(calls);
      calls := calls + 1;
      if readable(pos).None? {
        return if refused then Err(Io) else Ok(0);
      }
      var room := if buf.Length - from < ADDRESSES - pos then buf.Length - from else ADDRESSES - pos;
      var piece := Piece(readable, pos, room, limit);
      forall k | 0 <= k < |piece| {
        buf[from + k] := piece[k];
      }
      assert buf[from..from + |piece|] == piece;
      r := Ok(|piece|);
    }
  }

  /** A run of readable bytes that fits: at least one, and past that as many as the reader likes. */
  function Piece(readable: nat -> Option<Byte>, pos: nat, room: nat, limit: nat): (bytes: seq<Byte>)
    requires room > 0 && readable(pos).Some?
    decreases room
    ensures 1 <= |bytes| <= room && Delivered(readable, pos, bytes)
  {
    var first := [readable(pos).value];
    if room == 1 || limit <= 1 || readable(pos + 1).None? then first
    else
      var rest := Piece(readable, pos + 1, room - 1, limit - 1);
      assert forall k {:trigger (first + rest)[k]} :: 1 <= k < |first + rest| ==>
        readable(pos + 1 + (k - 1)) == Some(rest[k - 1]);
      first + rest
  }

  // ----- the reference scan -----

  /** The bytes from `addr + n` up to the first nul, looking at no more than `cap` bytes in all. */
  function Scan(mem: nat -> Option<Byte>, addr: nat, n: nat, cap: nat): Result<seq<Byte>, ReadError>
    requires n <= cap
    decreases cap - n
  {
    if n == cap then Err(NoNulWithinCap(cap))
    else match mem(At(addr, n))
      case None => Err(Io)
      case Some(b) =>
        if b == 0 then Ok([])
        else match Scan(mem, addr, n + 1, cap)
          case Err(e) => Err(e)
          case Ok(rest) => Ok([b] + rest)
  }

  /** `got` are the bytes from `addr + n` on. */
  ghost predicate Present(mem: nat -> Option<Byte>, addr: nat, n: nat, got: seq<Byte>) {
    forall k :: 0 <= k < |got| ==> mem(At(addr, n + k)) == Some(got[k])
  }

  /** And none of them is nul. */
  ghost predicate Plain(mem: nat -> Option<Byte>, addr: nat, n: nat, got: seq<Byte>) {
    forall k :: 0 <= k < |got| ==> mem(At(addr, n + k)) == Some(got[k]) && got[k] != 0
  }

  function Prefixed(got: seq<Byte>, r: Result<seq<Byte>, ReadError>): Result<seq<Byte>, ReadError> {
    match r case Ok(rest) => Ok(got + rest) case Err(e) => Err(e)
  }

  /** The scan passes over plain bytes. */
  lemma {:induction false} ScanSkips(mem: nat -> Option<Byte>, addr: nat, n: nat, cap: nat, got: seq<Byte>)
    requires n + |got| <= cap && Plain(mem, addr, n, got)
    ensures Scan(mem, addr, n, cap) == Prefixed(got, Scan(mem, addr, n + |got|, cap))
    decreases |got|
  {
    if got == [] {
      match Scan(mem, addr, n, cap) case Ok(rest) => assert got + rest == rest; case Err(_) =>
    } else {
      assert mem(At(addr, n + 0)) == Some(got[0]);
      forall k | 0 <= k < |got[1..]|
        ensures mem(At(addr, n + 1 + k)) == Some(got[1..][k]) && got[1..][k] != 0
      {
        assert mem(At(addr, n + (k + 1))) == Some(got[k + 1]);
      }
      ScanSkips(mem, addr, n + 1, cap, got[1..]);
      match Scan(mem, addr, n + |got|, cap)
        case Ok(rest) => assert got + rest == [got[0]] + (got[1..] + rest); case Err(_) =>
    }
  }

  /** The scan succeeds exactly with the bytes before the first nul, all readable and within the
      cap, and reports a missing nul exactly when the whole cap is readable and nul-free. */
  lemma ScanMeaning(mem: nat -> Option<Byte>, addr: nat, cap: nat, s: seq<Byte>)
    ensures Scan(mem, addr, 0, cap) == Ok(s) <==>
            |s| < cap && Plain(mem, addr, 0, s) && mem(At(addr, |s|)) == Some(0)
    ensures Scan(mem, addr, 0, cap) == Err(NoNulWithinCap(cap)) <==>
            forall k :: 0 <= k < cap ==> mem(At(addr, k)).Some? && mem(At(addr, k)).value != 0
  {
    ScanFound(mem, addr, 0, cap);
    if |s| < cap && Plain(mem, addr, 0, s) && mem(At(addr, |s|)) == Some(0) {
      ScanSkips(mem, addr, 0, cap, s);
      assert s + [] == s;
    }
  }

  lemma {:induction false} ScanFound(mem: nat -> Option<Byte>, addr: nat, n: nat, cap: nat)
    requires n <= cap
    ensures match Scan(mem, addr, n, cap)
            case Ok(s) => n + |s| < cap && Plain(mem, addr, n, s) && mem(At(addr, n + |s|)) == Some(0)
            case Err(Io) => exists k :: n <= k < cap && mem(At(addr, k)).None?
            case Err(NoNulWithinCap(c)) =>
              c == cap && forall k :: n <= k < cap ==> mem(At(addr, k)).Some? && mem(At(addr, k)).value != 0
            case Err(Short(_, _)) => false
    decreases cap - n
  {
    if n < cap {
      match mem(At(addr, n))
      case None => assert mem(At(addr, n)).None?;
      case Some(b) =>
        if b != 0 {
          ScanFound(mem, addr, n + 1, cap);
          match Scan(mem, addr, n + 1, cap)
          case Ok(rest) =>
            var s := [b] + rest;
            forall k | 0 <= k < |s| ensures mem(At(addr, n + k)) == Some(s[k]) && s[k] != 0 {
              if k > 0 { assert mem(At(addr, n + 1 + (k - 1))) == Some(rest[k - 1]); }
            }
          case Err(_) =>
        }
    }
  }

  // ----- the loops -----

  /** The position of the first nul. */
  method FindNul(bytes: seq<Byte>) returns (nul: Option<nat>)
    ensures IsFirstNul(bytes, nul)
  {
    for i := 0 to |bytes|
      invariant forall k :: 0 <= k < i ==> bytes[k] != 0
    {
      if bytes[i] == 0 {
        return Some(i);
      }
    }
    nul := None;
  }

  ghost predicate IsFirstNul(bytes: seq<Byte>, nul: Option<nat>) {
    && (nul.Some? ==> nul.value < |bytes| && bytes[nul.value] == 0)
    && forall k :: 0 <= k < (if nul.Some? then nul.value else |bytes|) ==> bytes[k] != 0
  }

  /** A read asks for nothing outside the `cap` bytes at `addr`. */
  ghost predicate InWindow(read: (nat, nat), addr: nat, cap: nat) {
    exists n :: 0 <= n && read.0 == At(addr, n) && n + read.1 <= cap
  }

  /** And stays on one page. */
  ghost predicate Bounded(read: (nat, nat), addr: nat, cap: nat) {
    read.0 % PAGE + read.1 <= PAGE && InWindow(read, addr, cap)
  }

  /** Inside one page addresses do not wrap. */
  lemma SamePage(addr: nat, n: nat, k: nat, want: nat)
    requires k < want <= PAGE - At(addr, n) % PAGE
    ensures At(addr, n) + k == At(addr, n + k)
    ensures At(addr, n + k) % PAGE + (want - k) <= PAGE
  {
    var pos := At(addr, n);
    assert pos % PAGE + k < PAGE;
    assert ADDRESSES == 0x10_0000_0000_0000 * PAGE;
    assert pos == PAGE * (pos / PAGE) + pos % PAGE;
    assert pos / PAGE <= 0x10_0000_0000_0000 - 1;
    assert addr + n == ADDRESSES * ((addr + n) / ADDRESSES) + pos;
    assert (addr + n + k) % ADDRESSES == pos + k;
    assert (pos + k) % PAGE == pos % PAGE + k;
  }

  lemma PlainAppend(mem: nat -> Option<Byte>, addr: nat, a: seq<Byte>, b: seq<Byte>)
    requires Plain(mem, addr, 0, a) && Plain(mem, addr, |a|, b)
    ensures Plain(mem, addr, 0, a + b)
  {
    forall k | 0 <= k < |a + b| ensures mem(At(addr, 0 + k)) == Some((a + b)[k]) && (a + b)[k] != 0 {
      if k < |a| {
        assert mem(At(addr, 0 + k)) == Some(a[k]);
      } else {
        assert mem(At(addr, |a| + (k - |a|))) == Some(b[k - |a|]);
      }
    }
  }

  /** What one more buffer tells about the whole scan. */
  lemma NextBuffer(mem: nat -> Option<Byte>, addr: nat, cap: nat, out: seq<Byte>, arrived: seq<Byte>, nul: Option<nat>)
    requires |out| + |arrived| <= cap && Plain(mem, addr, 0, out)
    requires Present(mem, addr, |out|, arrived) && IsFirstNul(arrived, nul)
    ensures nul.Some? ==> Scan(mem, addr, 0, cap) == Ok(out + arrived[..nul.value])
    ensures nul.None? ==> Plain(mem, addr, 0, out + arrived)
    ensures nul.None? && |out| + |arrived| < cap && mem(At(addr, |out| + |arrived|)).None? ==>
              Scan(mem, addr, 0, cap) == Err(Io)
  {
    var plain := if nul.Some? then arrived[..nul.value] else arrived;
    PlainAppend(mem, addr, out, plain);
    ScanSkips(mem, addr, 0, cap, out + plain);
    assert out + plain + [] == out + plain;
  }

  lemma WholeCapPlain(mem: nat -> Option<Byte>, addr: nat, cap: nat, out: seq<Byte>)
    requires |out| == cap && Plain(mem, addr, 0, out)
    ensures Scan(mem, addr, 0, cap) == Err(NoNulWithinCap(cap))
  {
    ScanSkips(mem, addr, 0, cap, out);
  }

  /** `after` adds only bounded reads to `before`. */
  ghost predicate OnlyBounded(before: seq<(nat, nat)>, after: seq<(nat, nat)>, addr: nat, cap: nat) {
    before <= after && forall i :: |before| <= i < |after| ==> Bounded(after[i], addr, cap)
  }

  /** The inner loop: fill one page's worth, or stop where memory does. */
  method FillBuffer(mem: ChildMemory, addr: nat, n: nat, buf: array<Byte>, ghost cap: nat)
    returns (got: nat, failed: bool)
    requires 0 < buf.Length <= PAGE - At(addr, n) % PAGE && n + buf.Length <= cap
    modifies mem, buf
    ensures got <= buf.Length && Present(mem.readable, addr, n, buf[..got])
    ensures failed ==> got < buf.Length
    ensures got < buf.Length ==> mem.readable(At(addr, n + got)).None?
    ensures OnlyBounded(old(mem.log), mem.log, addr, cap)
  {
    var pos := At(addr, n);
    got, failed := 0, false;
    while got < buf.Length
      invariant 0 <= got <= buf.Length
      invariant forall k :: 0 <= k < got ==> mem.readable(At(addr, n + k)) == Some(buf[k])
      invariant OnlyBounded(old(mem.log), mem.log, addr, cap)
    {
      SamePage(addr, n, got, buf.Length);
      assert pos + got < ADDRESSES;
      ghost var before, was := mem.log, buf[..got];
      var piece := mem.ReadAt(pos + got, buf, got);
      assert Bounded((pos + got, buf.Length - got), addr, cap) by {
        assert pos + got == At(addr, n + got);
      }
      assert mem.log == before + [(pos + got, buf.Length - got)];
      if piece.Err? {
        failed := true;
        return;
      }
      if piece.value == 0 {
        return;
      }
      forall k | 0 <= k < got + piece.value
        ensures mem.readable(At(addr, n + k)) == Some(buf[k])
      {
        if k < got {
          assert buf[..got][k] == was[k];
        } else {
          SamePage(addr, n, k, buf.Length);
          assert buf[got..got + piece.value][k - got] == buf[k];
          assert pos + got + (k - got) == At(addr, n + k);
        }
      }
      got := got + piece.value;
    }
  }

  /** How many bytes a caller that asks for `n` can get. */
  function Limited(n: nat): (limit: nat)
    ensures limit == if n <= 65535 then n else 65535
  {
    if n < ABSOLUTE_READ_CAP then n else ABSOLUTE_READ_CAP
  }

  /** A failed read does not deny a value whose nul was already seen: what arrived is scanned
      before the failure surfaces. */
  method ReadCstrCapped(mem: ChildMemory, addr: nat, cap: nat) returns (r: Result<seq<Byte>, ReadError>)
    modifies mem
    ensures r == Scan(mem.readable, addr, 0, Limited(cap))
    ensures OnlyBounded(old(mem.log), mem.log, addr, Limited(cap))
  {
    var limit := Limited(cap);
    var out: seq<Byte> := [];
    while |out| < limit
      invariant |out| <= limit
      invariant Plain(mem.readable, addr, 0, out)
      invariant OnlyBounded(old(mem.log), mem.log, addr, limit)
      decreases limit - |out|
    {
      var pos := At(addr, |out|);
      var toPage := PAGE - pos % PAGE;
      var want := if toPage < limit - |out| then toPage else limit - |out|;
      var buf := new Byte[want];
      var got, failed := FillBuffer(mem, addr, |out|, buf, limit);
      var arrived := buf[..got];
      var nul := FindNul(arrived);
      NextBuffer(mem.readable, addr, limit, out, arrived, nul);
      if nul.Some? {
        return Ok(out + arrived[..nul.value]);
      }
      if failed || got < want {
        return Err(Io);
      }
      out := out + arrived;
    }
    WholeCapPlain(mem.readable, addr, limit, out);
    r := Err(NoNulWithinCap(limit));
  }

  ghost predicate AllReadable(mem: nat -> Option<Byte>, addr: nat, n: nat) {
    forall k :: 0 <= k < n ==> mem(At(addr, k)).Some?
  }

  lemma PresentExtends(mem: nat -> Option<Byte>, addr: nat, was: seq<Byte>, more: seq<Byte>)
    requires Present(mem, addr, 0, was)
    requires At(addr, |was|) + |more| <= ADDRESSES && Delivered(mem, At(addr, |was|), more)
    ensures Present(mem, addr, 0, was + more)
  {
    forall k | 0 <= k < |was + more|
      ensures mem(At(addr, 0 + k)) == Some((was + more)[k])
    {
      if k < |was| {
        assert mem(At(addr, 0 + k)) == Some(was[k]);
      } else {
        assert At(addr, |was|) + (k - |was|) == At(addr, k);
        assert mem(At(addr, |was|) + (k - |was|)) == Some(more[k - |was|]);
      }
    }
  }

  lemma PresentIsReadable(mem: nat -> Option<Byte>, addr: nat, got: seq<Byte>)
    requires Present(mem, addr, 0, got)
    ensures AllReadable(mem, addr, |got|)
  {
    forall k | 0 <= k < |got| ensures mem(At(addr, k)).Some? {
      assert mem(At(addr, 0 + k)) == Some(got[k]);
    }
  }

  /** `got` is the number of bytes before the first unreadable one. */
  ghost predicate StopsAt(mem: nat -> Option<Byte>, addr: nat, got: nat) {
    AllReadable(mem, addr, got) && mem(At(addr, got)).None?
  }

  ghost predicate OnlyInWindow(before: seq<(nat, nat)>, after: seq<(nat, nat)>, addr: nat, cap: nat) {
    before <= after && forall i :: |before| <= i < |after| ==> InWindow(after[i], addr, cap)
  }

  /** Fixed-size values: all of the bytes, or an error, never fewer; a short read says how many bytes
      there were before the first unreadable one. */
  method ReadExactCapped(mem: ChildMemory, addr: nat, len: nat) returns (r: Result<seq<Byte>, ReadError>)
    modifies mem
    ensures r.Ok? <==> AllReadable(mem.readable, addr, Limited(len))
    ensures r.Ok? ==> |r.value| == Limited(len) && Present(mem.readable, addr, 0, r.value)
    ensures r.Err? ==> exists got :: 0 <= got < Limited(len) && StopsAt(mem.readable, addr, got)
                                     && (r.error == Io || r.error == Short(Limited(len), got))
    ensures OnlyInWindow(old(mem.log), mem.log, addr, Limited(len))
  {
    var limit := Limited(len);
    var buf := new Byte[limit];
    var got := 0;
    while got < limit
      invariant 0 <= got <= limit
      invariant Present(mem.readable, addr, 0, buf[..got])
      invariant OnlyInWindow(old(mem.log), mem.log, addr, limit)
    {
      ghost var was := buf[..got];
      PresentIsReadable(mem.readable, addr, was);
      assert InWindow((At(addr, got), limit - got), addr, limit);
      var piece := mem.ReadAt(At(addr, got), buf, got);
      if piece.Err? || piece.value == 0 {
        assert StopsAt(mem.readable, addr, got);
        return Err(if piece.Err? then Io else Short(limit, got));
      }
      ghost var more := buf[got..got + piece.value];
      assert buf[..got + piece.value] == was + more;
      PresentExtends(mem.readable, addr, was, more);
      got := got + piece.value;
    }
    assert buf[..got] == buf[..];
    PresentIsReadable(mem.readable, addr, buf[..]);
    r := Ok(buf[..]);
  }
}
