/**
 The Modbus TCP demo server: the four data regions, the eight function codes
 of sections 6.1 to 6.6, 6.11 and 6.12 of the MODBUS Application Protocol
 Specification V1.1b3, and the response frame.

 Shifts and masks of the source are written out as arithmetic on bytes.
 */
module Modbus {
  import Buffers

  type Byte = Buffers.Byte
  type Word = x: int | 0 <= x < 0x1_0000

  const REGION: nat := 65536
  const ILLEGAL_FUNCTION: Byte := 1
  const ILLEGAL_DATA_ADDRESS: Byte := 2
  const ILLEGAL_DATA_VALUE: Byte := 3
  const HEADER: nat := 7
  const MAX_ADU: nat := 260

  /******* Bits and words *******/

  function Pow2(k: nat): (p: nat)
    ensures p > 0
  {
    if k == 0 then 1 else 2 * Pow2(k - 1)
  }

  // (b >> k) & 1 == 1
  predicate Bit(b: Byte, k: nat) {
    (b / Pow2(k)) % 2 == 1
  }

  // The bits as a number, the first one lowest.
  function Number(bits: seq<bool>): nat {
    if bits == [] then 0
    else Number(bits[..|bits| - 1]) + if bits[|bits| - 1] then Pow2(|bits| - 1) else 0
  }

  lemma {:induction false} NumberBound(bits: seq<bool>)
    ensures Number(bits) < Pow2(|bits|)
  {
    if bits != [] { NumberBound(bits[..|bits| - 1]); }
  }

  lemma ByteBound(bits: seq<bool>)
    requires |bits| <= 8
    ensures Number(bits) < 256
  {
    NumberBound(bits);
    Powers();
  }

  lemma Powers()
    ensures Pow2(0) == 1 && Pow2(1) == 2 && Pow2(2) == 4 && Pow2(3) == 8 && Pow2(4) == 16
    ensures Pow2(5) == 32 && Pow2(6) == 64 && Pow2(7) == 128 && Pow2(8) == 256
  {
    assert Pow2(2) == 2 * Pow2(1) && Pow2(4) == 2 * Pow2(3) && Pow2(6) == 2 * Pow2(5) && Pow2(8) == 2 * Pow2(7);
    assert Pow2(3) == 2 * Pow2(2) && Pow2(5) == 2 * Pow2(4) && Pow2(7) == 2 * Pow2(6);
  }

  function ByteCount(n: nat): nat {
    (n + 7) / 8
  }

  // The bits that go into byte j.
  function Slice(bits: seq<bool>, j: nat): (s: seq<bool>)
    ensures |s| <= 8
  {
    if 8 * j >= |bits| then [] else if 8 * j + 8 <= |bits| then bits[8 * j..8 * j + 8] else bits[8 * j..]
  }

  function PackedByte(bits: seq<bool>, j: nat): Byte {
    ByteBound(Slice(bits, j));
    Number(Slice(bits, j))
  }

  // Eight bits to a byte, the last byte filled up with zeros.
  function Packed(bits: seq<bool>): seq<Byte> {
    seq(ByteCount(|bits|), j requires 0 <= j < ByteCount(|bits|) => PackedByte(bits, j))
  }

  function Uint16(s: seq<Byte>): Word
    requires |s| >= 2
  {
    var hi: int := s[0];
    hi * 256 + s[1]
  }

  function PutUint16(v: Word): seq<Byte> {
    [v / 256, v % 256]
  }

  function WordBytes(words: seq<Word>): (s: seq<Byte>)
    ensures |s| == 2 * |words|
  {
    if words == [] then [] else WordBytes(words[..|words| - 1]) + PutUint16(words[|words| - 1])
  }

  /******* The store *******/

  datatype Store = Store(coils: seq<bool>, discrete: seq<bool>, holding: seq<Word>, input: seq<Word>)
  {
    predicate Ok() {
      |coils| == REGION && |discrete| == REGION && |holding| == REGION && |input| == REGION
    }
  }

  datatype Reply = Reply(fc: Byte, data: seq<Byte>, exception: bool)

  datatype Handled = Handled(reply: Reply, store: Store)

  // fc | 0x80
  function ErrorCode(fc: Byte): Byte {
    if fc < 128 then fc + 128 else fc
  }

  function Exception(fc: Byte, code: Byte): Reply {
    Reply(ErrorCode(fc), [code], true)
  }

  function ReadBits(fc: Byte, data: seq<Byte>, region: seq<bool>): Reply
    requires |region| == REGION
  {
    if |data| != 4 then Exception(fc, ILLEGAL_DATA_VALUE)
    else
      var (addr, qty) := (Uint16(data[0..2]), Uint16(data[2..4]));
      if qty < 1 || qty > 2000 || addr + qty > REGION then Exception(fc, ILLEGAL_DATA_ADDRESS)
      else Reply(fc, [ByteCount(qty)] + Packed(region[addr..addr + qty]), false)
  }

  function ReadRegs(fc: Byte, data: seq<Byte>, region: seq<Word>): Reply
    requires |region| == REGION
  {
    if |data| != 4 then Exception(fc, ILLEGAL_DATA_VALUE)
    else
      var (addr, qty) := (Uint16(data[0..2]), Uint16(data[2..4]));
      if qty < 1 || qty > 125 || addr + qty > REGION then Exception(fc, ILLEGAL_DATA_ADDRESS)
      else Reply(fc, [qty * 2] + WordBytes(region[addr..addr + qty]), false)
  }

  function Overwritten<T>(region: seq<T>, addr: nat, values: seq<T>): seq<T>
    requires addr + |values| <= |region|
  {
    region[..addr] + values + region[addr + |values|..]
  }

  // The bits of a write-multiple-coils request.
  function SentBits(bytes: seq<Byte>, qty: nat): (bits: seq<bool>)
    requires |bytes| == ByteCount(qty)
    ensures |bits| == qty
  {
    seq(qty, i requires 0 <= i < qty => Bit(bytes[i / 8], i % 8))
  }

  function SentWords(bytes: seq<Byte>): (words: seq<Word>)
    requires |bytes| % 2 == 0
    ensures |words| == |bytes| / 2
  {
    seq(|bytes| / 2, i requires 0 <= i < |bytes| / 2 => Uint16(bytes[2 * i..]))
  }

  // A two-byte address is always inside the region.
  function WriteSingleCoil(s: Store, data: seq<Byte>): Handled
    requires s.Ok()
  {
    if |data| != 4 then Handled(Exception(5, ILLEGAL_DATA_VALUE), s)
    else
      var (addr, val) := (Uint16(data[0..2]), Uint16(data[2..4]));
      if val != 0 && val != 0xFF00 then Handled(Exception(5, ILLEGAL_DATA_VALUE), s)
      else Handled(Reply(5, data, false), s.(coils := s.coils[addr := val == 0xFF00]))
  }

  function WriteSingleRegister(s: Store, data: seq<Byte>): Handled
    requires s.Ok()
  {
    if |data| != 4 then Handled(Exception(6, ILLEGAL_DATA_VALUE), s)
    else Handled(Reply(6, data, false), s.(holding := s.holding[Uint16(data[0..2]) := Uint16(data[2..4])]))
  }

  function WriteMultipleCoils(s: Store, data: seq<Byte>): Handled
    requires s.Ok()
  {
    if |data| < 6 then Handled(Exception(15, ILLEGAL_DATA_VALUE), s)
    else
      var (addr, qty) := (Uint16(data[0..2]), Uint16(data[2..4]));
      if qty < 1 || qty > 1968 || data[4] != ByteCount(qty) || |data| != 5 + data[4] then Handled(Exception(15, ILLEGAL_DATA_VALUE), s)
      else if addr + qty > REGION then Handled(Exception(15, ILLEGAL_DATA_ADDRESS), s)
      else Handled(Reply(15, PutUint16(addr) + PutUint16(qty), false), s.(coils := Overwritten(s.coils, addr, SentBits(data[5..], qty))))
  }

  function WriteMultipleRegisters(s: Store, data: seq<Byte>): Handled
    requires s.Ok()
  {
    if |data| < 6 then Handled(Exception(16, ILLEGAL_DATA_VALUE), s)
    else
      var (addr, qty) := (Uint16(data[0..2]), Uint16(data[2..4]));
      if qty < 1 || qty > 123 || data[4] != qty * 2 || |data| != 5 + data[4] then Handled(Exception(16, ILLEGAL_DATA_VALUE), s)
      else if addr + qty > REGION then Handled(Exception(16, ILLEGAL_DATA_ADDRESS), s)
      else Handled(Reply(16, PutUint16(addr) + PutUint16(qty), false), s.(holding := Overwritten(s.holding, addr, SentWords(data[5..]))))
  }

  function Handle(s: Store, fc: Byte, data: seq<Byte>): (h: Handled)
    requires s.Ok()
  {
    if fc == 1 then Handled(ReadBits(fc, data, s.coils), s)
    else if fc == 2 then Handled(ReadBits(fc, data, s.discrete), s)
    else if fc == 3 then Handled(ReadRegs(fc, data, s.holding), s)
    else if fc == 4 then Handled(ReadRegs(fc, data, s.input), s)
    else if fc == 5 then WriteSingleCoil(s, data)
    else if fc == 6 then WriteSingleRegister(s, data)
    else if fc == 15 then WriteMultipleCoils(s, data)
    else if fc == 16 then WriteMultipleRegisters(s, data)
    else Handled(Exception(fc, ILLEGAL_FUNCTION), s)
  }

  /******* The response frame *******/

  function Frame(tx: Word, unit: Byte, reply: Reply): seq<Byte>
    requires 2 + |reply.data| < 0x1_0000
  {
    PutUint16(tx) + PutUint16(0) + PutUint16(2 + |reply.data|) + [unit, reply.fc] + reply.data
  }

  class DataStore {
    const coils: array<bool>
    const discrete: array<bool>
    const holding: array<Word>
    const input: array<Word>

    ghost predicate Valid()
      reads this
    {
      coils.Length == REGION && discrete.Length == REGION && holding.Length == REGION && input.Length == REGION &&
      coils != discrete && holding != input
    }

    ghost function State(): Store
      reads this, coils, discrete, holding, input
    {
      Store(coils[..], discrete[..], holding[..], input[..])
    }

    constructor ()
      ensures Valid() && fresh(coils) && fresh(discrete) && fresh(holding) && fresh(input)
    {
      coils := new bool[REGION](_ => false);
      discrete := new bool[REGION](_ => false);
      holding := new Word[REGION](_ => 0);
      input := new Word[REGION](_ => 0);
    }

    // The bytes start at zero; bit i of the range is or-ed into its place.
    static method PackBits(region: array<bool>, addr: nat, qty: nat) returns (resp: seq<Byte>)
      requires addr + qty <= region.Length
      ensures resp == Packed(region[addr..addr + qty])
    {
      ghost var bits := region[addr..addr + qty];
      resp := seq(ByteCount(qty), _ => 0);
      NoBits(resp, bits[..0]);
      hide *;
      for i := 0 to qty
        invariant |resp| == ByteCount(qty) && Filled(bits[..i], resp)
      {
        OneMoreBit(bits, i, resp);
        if region[addr + i] {
          resp := resp[i / 8 := OrBit(resp[i / 8], i % 8)];
        }
      }
      assert bits[..qty] == bits;
      AllFilled(bits, resp);
    }

    static method BitsReply(fc: Byte, data: seq<Byte>, region: array<bool>) returns (r: Reply)
      requires region.Length == REGION
      ensures r == ReadBits(fc, data, region[..])
    {
      if |data| != 4 {
        return Exception(fc, ILLEGAL_DATA_VALUE);
      }
      var addr, qty := Uint16(data[0..2]), Uint16(data[2..4]);
      if qty < 1 || qty > 2000 || addr + qty > REGION {
        return Exception(fc, ILLEGAL_DATA_ADDRESS);
      }
      var resp := PackBits(region, addr, qty);
      assert region[..][addr..addr + qty] == region[addr..addr + qty];
      hide Packed;
      return Reply(fc, [ByteCount(qty)] + resp, false);
    }

    static method RegsReply(fc: Byte, data: seq<Byte>, region: array<Word>) returns (r: Reply)
      requires region.Length == REGION
      ensures r == ReadRegs(fc, data, region[..])
    {
      if |data| != 4 {
        return Exception(fc, ILLEGAL_DATA_VALUE);
      }
      var addr, qty := Uint16(data[0..2]), Uint16(data[2..4]);
      if qty < 1 || qty > 125 || addr + qty > REGION {
        return Exception(fc, ILLEGAL_DATA_ADDRESS);
      }
      var resp: seq<Byte> := [];
      for i := 0 to qty
        invariant resp == WordBytes(region[addr..addr + i])
      {
        ghost var words := region[addr..addr + i + 1];
        assert words[..|words| - 1] == region[addr..addr + i];
        resp := resp + PutUint16(region[addr + i]);
      }
      assert region[..][addr..addr + qty] == region[addr..addr + qty];
      return Reply(fc, [qty * 2] + resp, false);
    }

    method SetCoils(addr: nat, bytes: seq<Byte>, qty: nat)
      requires Valid() && addr + qty <= REGION && |bytes| == ByteCount(qty)
      modifies coils
      ensures coils[..] == Overwritten(old(coils[..]), addr, SentBits(bytes, qty))
    {
      ghost var (was, bits) := (coils[..], SentBits(bytes, qty));
      for i := 0 to qty
        invariant forall j :: addr <= j < addr + i ==> coils[j] == bits[j - addr]
        invariant forall j :: 0 <= j < REGION && (j < addr || addr + i <= j) ==> coils[j] == was[j]
      {
        coils[addr + i] := Bit(bytes[i / 8], i % 8);
      }
      OverwrittenAt(was, addr, bits, coils[..]);
    }

    method SetRegisters(addr: nat, bytes: seq<Byte>)
      requires Valid() && |bytes| % 2 == 0 && addr + |bytes| / 2 <= REGION
      modifies holding
      ensures holding[..] == Overwritten(old(holding[..]), addr, SentWords(bytes))
    {
      ghost var (was, words) := (holding[..], SentWords(bytes));
      for i := 0 to |bytes| / 2
        invariant forall j :: addr <= j < addr + i ==> holding[j] == words[j - addr]
        invariant forall j :: 0 <= j < REGION && (j < addr || addr + i <= j) ==> holding[j] == was[j]
      {
        holding[addr + i] := Uint16(bytes[2 * i..]);
      }
      OverwrittenAt(was, addr, words, holding[..]);
    }

    method WriteCoils(data: seq<Byte>) returns (r: Reply)
      requires Valid()
      modifies coils
      ensures State().Ok() && old(State()).Ok() && Handled(r, State()) == WriteMultipleCoils(old(State()), data)
    {
      if |data| < 6 {
        return Exception(15, ILLEGAL_DATA_VALUE);
      }
      var addr, qty := Uint16(data[0..2]), Uint16(data[2..4]);
      if qty < 1 || qty > 1968 || data[4] != ByteCount(qty) || |data| != 5 + data[4] {
        return Exception(15, ILLEGAL_DATA_VALUE);
      }
      if addr + qty > REGION {
        return Exception(15, ILLEGAL_DATA_ADDRESS);
      }
      SetCoils(addr, data[5..], qty);
      return Reply(15, PutUint16(addr) + PutUint16(qty), false);
    }

    method WriteRegisters(data: seq<Byte>) returns (r: Reply)
      requires Valid()
      modifies holding
      ensures State().Ok() && old(State()).Ok() && Handled(r, State()) == WriteMultipleRegisters(old(State()), data)
    {
      if |data| < 6 {
        return Exception(16, ILLEGAL_DATA_VALUE);
      }
      var addr, qty := Uint16(data[0..2]), Uint16(data[2..4]);
      if qty < 1 || qty > 123 || data[4] != qty * 2 || |data| != 5 + data[4] {
        return Exception(16, ILLEGAL_DATA_VALUE);
      }
      if addr + qty > REGION {
        return Exception(16, ILLEGAL_DATA_ADDRESS);
      }
      SetRegisters(addr, data[5..]);
      return Reply(16, PutUint16(addr) + PutUint16(qty), false);
    }

    method HandleRequest(fc: Byte, data: seq<Byte>) returns (r: Reply)
      requires Valid()
      modifies coils, holding
      ensures State().Ok() && old(State()).Ok() && Handled(r, State()) == Handle(old(State()), fc, data)
    {
      if fc == 1 {
        r := BitsReply(fc, data, coils);
      } else if fc == 2 {
        r := BitsReply(fc, data, discrete);
      } else if fc == 3 {
        r := RegsReply(fc, data, holding);
      } else if fc == 4 {
        r := RegsReply(fc, data, input);
      } else if fc == 5 {
        if |data| != 4 {
          return Exception(5, ILLEGAL_DATA_VALUE);
        }
        var addr, val := Uint16(data[0..2]), Uint16(data[2..4]);
        if val != 0 && val != 0xFF00 {
          return Exception(5, ILLEGAL_DATA_VALUE);
        }
        coils[addr] := val == 0xFF00;
        r := Reply(5, data, false);
      } else if fc == 6 {
        if |data| != 4 {
          return Exception(6, ILLEGAL_DATA_VALUE);
        }
        holding[Uint16(data[0..2])] := Uint16(data[2..4]);
        r := Reply(6, data, false);
      } else if fc == 15 {
        r := WriteCoils(data);
      } else if fc == 16 {
        r := WriteRegisters(data);
      } else {
        r := Exception(fc, ILLEGAL_FUNCTION);
      }
    }
  }

  lemma OverwrittenAt<T>(was: seq<T>, addr: nat, values: seq<T>, now: seq<T>)
    requires addr + |values| <= |was| == |now|
    requires forall j :: addr <= j < addr + |values| ==> now[j] == values[j - addr]
    requires forall j :: 0 <= j < |was| && (j < addr || addr + |values| <= j) ==> now[j] == was[j]
    ensures now == Overwritten(was, addr, values)
  {
  }

  // b | 1 << k
  function OrBit(b: Byte, k: nat): Byte
    requires k < 8
  {
    Powers();
    BitClear(b, k);
    if Bit(b, k) then b else b + Pow2(k)
  }

  lemma BitClear(b: Byte, k: nat)
    requires k < 8
    ensures !Bit(b, k) ==> b + Pow2(k) < 256
  {
    Powers();
    hide Pow2;
    match k
    case 0 => assert b / 1 == b;
    case 1 =>
    case 2 =>
    case 3 =>
    case 4 =>
    case 5 =>
    case 6 =>
    case _ =>
  }

  // The reply bytes hold the bits seen so far, and zeros.
  ghost predicate Filled(bits: seq<bool>, resp: seq<Byte>) {
    forall j :: 0 <= j < |resp| ==> resp[j] == PackedByte(bits, j)
  }

  lemma NoBits(resp: seq<Byte>, none: seq<bool>)
    requires none == [] && forall j :: 0 <= j < |resp| ==> resp[j] == 0
    ensures Filled(none, resp)
  {
  }

  lemma AllFilled(bits: seq<bool>, resp: seq<Byte>)
    requires Filled(bits, resp) && |resp| == ByteCount(|bits|)
    ensures resp == Packed(bits)
  {
  }

  lemma SliceKept(bits: seq<bool>, i: nat, j: nat)
    requires i < |bits| && j != i / 8
    ensures Slice(bits[..i + 1], j) == Slice(bits[..i], j)
  {
  }

  lemma SliceGrows(bits: seq<bool>, i: nat)
    requires i < |bits|
    ensures Slice(bits[..i + 1], i / 8) == Slice(bits[..i], i / 8) + [bits[i]] && |Slice(bits[..i], i / 8)| == i % 8
  {
  }

  lemma NumberGrows(s: seq<bool>, b: bool)
    requires |s| < 8
    ensures Number(s) < 256 && Number(s + [b]) == if b then OrBit(Number(s), |s|) else Number(s)
  {
    assert (s + [b])[..|s|] == s;
    ClearAbove(s);
  }

  // Bit i lands in byte i / 8 and disturbs no other.
  lemma OneMoreBit(bits: seq<bool>, i: nat, resp: seq<Byte>)
    requires i < |bits| && |resp| == ByteCount(|bits|) && Filled(bits[..i], resp)
    ensures i / 8 < |resp| && i % 8 < 8
    ensures Filled(bits[..i + 1], if bits[i] then resp[i / 8 := OrBit(resp[i / 8], i % 8)] else resp)
  {
    assert i / 8 < |resp|;
    hide Slice, Number, OrBit;
    SliceGrows(bits, i);
    NumberGrows(Slice(bits[..i], i / 8), bits[i]);
    var now := if bits[i] then resp[i / 8 := OrBit(resp[i / 8], i % 8)] else resp;
    forall j | 0 <= j < |resp| ensures now[j] == PackedByte(bits[..i + 1], j) {
      assert resp[j] == PackedByte(bits[..i], j);
      if j != i / 8 { SliceKept(bits, i, j); }
    }
  }

  lemma ClearAbove(s: seq<bool>)
    requires |s| < 8
    ensures Number(s) < 256 && !Bit(Number(s), |s|)
  {
    NumberBound(s);
    Powers();
  }

  /******* Laws *******/

  // An exception changes nothing and answers with the code's high bit set and
  // one byte; any other reply answers with the code itself.
  lemma ExceptionsChangeNothing(s: Store, fc: Byte, data: seq<Byte>)
    requires s.Ok()
    ensures
      var h := Handle(s, fc, data);
      h.store.Ok() && h.store.discrete == s.discrete && h.store.input == s.input &&
      (h.reply.exception ==> h.store == s && h.reply.fc == ErrorCode(fc) && |h.reply.data| == 1) &&
      (!h.reply.exception ==> h.reply.fc == fc)
  {
    hide Packed, WordBytes, SentBits, SentWords;
  }

  function ReadLimit(fc: Byte): nat {
    if fc <= 2 then 2000 else 125
  }

  // What sections 6.1 to 6.4 of the standard answer to a read request of the
  // right length: exception 3 for the quantity, then 2 for the range.
  function StandardReadCode(fc: Byte, addr: Word, qty: Word): Byte {
    if qty < 1 || qty > ReadLimit(fc) then ILLEGAL_DATA_VALUE
    else if addr + qty > REGION then ILLEGAL_DATA_ADDRESS
    else 0
  }

  // The server refuses the same reads as the standard, but with exception 2
  // throughout: on a refused read the two codes agree exactly when the
  // quantity is within limits.  Exception 3 is left for a wrong length.
  lemma ReadsRefusedWith(s: Store, fc: Byte, data: seq<Byte>)
    requires s.Ok() && 1 <= fc <= 4
    ensures Handle(s, fc, data).reply == Exception(fc, ILLEGAL_DATA_VALUE) <==> |data| != 4
    ensures |data| == 4 ==>
      var (addr, qty) := (Uint16(data[0..2]), Uint16(data[2..4]));
      var (reply, standard) := (Handle(s, fc, data).reply, StandardReadCode(fc, addr, qty));
      (reply == Exception(fc, ILLEGAL_DATA_ADDRESS) <==> qty < 1 || qty > ReadLimit(fc) || addr + qty > REGION) &&
      (reply.exception <==> standard != 0) &&
      (reply.exception ==> (reply.data == [standard] <==> 1 <= qty <= ReadLimit(fc)))
  {
    hide Packed, WordBytes;
  }

  lemma {:induction false} SameBits(a: seq<bool>, b: seq<bool>)
    requires |a| == |b| && Number(a) == Number(b)
    ensures a == b
  {
    if a != [] {
      var (x, y) := (a[..|a| - 1], b[..|b| - 1]);
      NumberBound(x);
      NumberBound(y);
      SameBits(x, y);
      assert a == x + [a[|a| - 1]] && b == y + [b[|b| - 1]];
    }
  }

  lemma {:induction false} PowersGrow(w: nat, k: nat)
    requires w <= k
    ensures Pow2(w) <= Pow2(k)
  {
    if w < k { PowersGrow(w, k - 1); }
  }

  // Bit k of the number is the k-th bit, and there are no others.
  lemma NumberBits(bits: seq<bool>, k: nat)
    requires |bits| <= 8
    ensures Number(bits) < 256 && (Bit(Number(bits), k) <==> k < |bits| && bits[k])
  {
    ByteBound(bits);
    if k < |bits| { BitsWithin(bits, k); } else { BitsBeyond(bits, k); }
  }

  lemma BitsWithin(bits: seq<bool>, k: nat)
    requires k < |bits| <= 8 && Number(bits) < 256
    ensures Bit(Number(bits), k) == bits[k]
  {
    hide Bit, Number, Pow2;
    var b: Byte := Number(bits);
    var seen := seq(|bits|, i requires 0 <= i < |bits| => Bit(b, i));
    NumberBound(bits);
    LowBits(b, |bits|, seen);
    Buffers.RemainderIs(b, Pow2(|bits|), 0, b);
    SameBits(seen, bits);
    assert seen[k] == Bit(b, k);
  }

  lemma BitsBeyond(bits: seq<bool>, k: nat)
    requires |bits| <= k && Number(bits) < 256
    ensures !Bit(Number(bits), k)
  {
    hide Number, Pow2;
    NumberBound(bits);
    PowersGrow(|bits|, k);
    assert Number(bits) / Pow2(k) == 0;
  }

  // Where bit i of a packed range is, and that the padding is clear.
  lemma PackedBit(bits: seq<bool>, i: nat)
    requires i / 8 < |Packed(bits)|
    ensures Bit(Packed(bits)[i / 8], i % 8) <==> i < |bits| && bits[i]
  {
    var s := Slice(bits, i / 8);
    NumberBits(s, i % 8);
    assert i == 8 * (i / 8) + i % 8;
    hide Bit, Number;
    if i < |bits| { assert s[i % 8] == bits[i]; }
  }

  lemma {:induction false} WordAt(words: seq<Word>, i: nat)
    requires i < |words|
    ensures Uint16(WordBytes(words)[2 * i..]) == words[i]
  {
    var (init, w) := (words[..|words| - 1], words[|words| - 1]);
    var (all, front) := (WordBytes(words), WordBytes(init));
    if i < |init| {
      WordAt(init, i);
      assert all[2 * i] == front[2 * i] && all[2 * i + 1] == front[2 * i + 1];
    } else {
      assert all[2 * i] == w / 256 && all[2 * i + 1] == w % 256;
    }
  }

  // A read that is not refused answers with the addressed range of its own
  // region: coils, discrete inputs, holding or input registers.
  lemma ReadsAnswer(s: Store, fc: Byte, data: seq<Byte>, i: nat)
    requires s.Ok() && 1 <= fc <= 4 && !Handle(s, fc, data).reply.exception
    ensures |data| == 4
    ensures
      var (reply, addr, qty) := (Handle(s, fc, data).reply.data, Uint16(data[0..2]), Uint16(data[2..4]));
      var n := if fc <= 2 then ByteCount(qty) else 2 * qty;
      |reply| == n + 1 && reply[0] == n &&
      (fc <= 2 && i < 8 * n ==>
        (Bit(reply[1 + i / 8], i % 8) <==> i < qty && if fc == 1 then s.coils[addr + i] else s.discrete[addr + i])) &&
      (fc >= 3 && i < qty ==> Uint16(reply[1 + 2 * i..]) == if fc == 3 then s.holding[addr + i] else s.input[addr + i])
  {
    hide Packed, WordBytes, Bit, Uint16, ByteCount;
    var (addr, qty) := (Uint16(data[0..2]), Uint16(data[2..4]));
    if fc <= 2 {
      BitsAnswer(if fc == 1 then s.coils else s.discrete, addr, qty, i);
    } else {
      WordsAnswer(if fc == 3 then s.holding else s.input, addr, qty, i);
    }
  }

  lemma BitsAnswer(region: seq<bool>, addr: nat, qty: nat, i: nat)
    requires addr + qty <= |region| && qty <= 2000
    ensures
      var (reply, n) := ([ByteCount(qty)] + Packed(region[addr..addr + qty]), ByteCount(qty));
      |reply| == n + 1 && reply[0] == n && (i < 8 * n ==> (Bit(reply[1 + i / 8], i % 8) <==> i < qty && region[addr + i]))
  {
    var bits := region[addr..addr + qty];
    if i < 8 * ByteCount(qty) {
      PackedBit(bits, i);
      hide Packed, Bit;
      assert ([ByteCount(qty)] + Packed(bits))[1 + i / 8] == Packed(bits)[i / 8];
    }
  }

  lemma WordsAnswer(region: seq<Word>, addr: nat, qty: nat, i: nat)
    requires addr + qty <= |region| && qty <= 125
    ensures
      var reply := [qty * 2] + WordBytes(region[addr..addr + qty]);
      |reply| == 2 * qty + 1 && reply[0] == 2 * qty && (i < qty ==> Uint16(reply[1 + 2 * i..]) == region[addr + i])
  {
    var words := region[addr..addr + qty];
    if i < qty {
      WordAt(words, i);
      assert ([qty * 2] + WordBytes(words))[1 + 2 * i..] == WordBytes(words)[2 * i..];
    }
  }

  // A write of several is taken exactly when its lengths agree and its range
  // fits, and is answered with its address and quantity; a range that does not
  // fit is exception 2, anything else 3.  Unknown codes are exception 1.
  lemma WritesRefusedWith(s: Store, fc: Byte, data: seq<Byte>)
    requires s.Ok() && (fc == 15 || fc == 16)
    ensures
      var reply := Handle(s, fc, data).reply;
      if |data| < 6 then reply == Exception(fc, ILLEGAL_DATA_VALUE)
      else
        var (addr, qty) := (Uint16(data[0..2]), Uint16(data[2..4]));
        var (most, n) := if fc == 15 then (1968, (qty + 7) / 8) else (123, 2 * qty);
        if !(1 <= qty <= most && data[4] == n && |data| == 5 + n) then reply == Exception(fc, ILLEGAL_DATA_VALUE)
        else if addr + qty > REGION then reply == Exception(fc, ILLEGAL_DATA_ADDRESS)
        else reply == Reply(fc, data[..4], false)
  {
    if |data| >= 6 {
      var (addr, qty) := (Uint16(data[0..2]), Uint16(data[2..4]));
      assert data[..4] == data[0..2] + data[2..4] && PutUint16(addr) == data[0..2] && PutUint16(qty) == data[2..4];
    }
    hide SentBits, SentWords, Overwritten;
  }

  lemma UnknownCodes(s: Store, fc: Byte, data: seq<Byte>)
    requires s.Ok() && fc !in {1, 2, 3, 4, 5, 6, 15, 16}
    ensures Handle(s, fc, data) == Handled(Exception(fc, ILLEGAL_FUNCTION), s)
  {
  }

  // A write changes exactly the addressed range: the coils for codes 5 and
  // 15, the holding registers for 6 and 16, nothing for the others.
  lemma WritesStayInRange(s: Store, fc: Byte, data: seq<Byte>)
    requires s.Ok()
    ensures |data| < 4 ==> Handle(s, fc, data).store == s
    ensures |data| >= 4 ==>
      var (s', addr) := (Handle(s, fc, data).store, Uint16(data[0..2]));
      var n := if fc == 5 || fc == 6 then 1 else Uint16(data[2..4]);
      s'.Ok() &&
      (fc != 5 && fc != 15 ==> s'.coils == s.coils) && (fc != 6 && fc != 16 ==> s'.holding == s.holding) &&
      (forall a :: 0 <= a < REGION && (a < addr || addr + n <= a) ==> s'.coils[a] == s.coils[a] && s'.holding[a] == s.holding[a])
  {
    hide Packed, WordBytes, SentBits, Uint16;
    ExceptionsChangeNothing(s, fc, data);
    if fc == 16 && !Handle(s, fc, data).reply.exception { assert |SentWords(data[5..])| == Uint16(data[2..4]); }
  }

  // The low w bits of b.
  lemma {:induction false} LowBits(b: Byte, w: nat, bits: seq<bool>)
    requires w <= 8 && |bits| == w && forall k :: 0 <= k < w ==> bits[k] == Bit(b, k)
    ensures Number(bits) == b % Pow2(w)
  {
    if w > 0 {
      LowBits(b, w - 1, bits[..w - 1]);
      OneDigit(b, Pow2(w - 1));
      assert bits[w - 1] == Bit(b, w - 1);
    }
  }

  lemma OneDigit(b: nat, p: nat)
    requires p > 0
    ensures b % (2 * p) == b % p + ((b / p) % 2) * p
  {
    var (q, r) := (b / p, b % p);
    var (h, d) := (q / 2, q % 2);
    assert b == q * p + r && q == 2 * h + d;
    assert q * p == h * (2 * p) + d * p by { assert (2 * h + d) * p == 2 * h * p + d * p; }
    assert d * p + r < 2 * p by { if d == 1 { assert d * p == p; } else { assert d * p == 0; } }
    Buffers.RemainderIs(b, 2 * p, h, d * p + r);
  }

  // How many of qty bits are in byte j.
  function BitsIn(qty: nat, j: nat): nat {
    if 8 * j >= qty then 0 else if 8 * j + 8 <= qty then 8 else qty - 8 * j
  }

  lemma RemainderNoLarger(b: nat, p: nat)
    requires p > 0
    ensures b % p <= b
  {
    if b < p { Buffers.RemainderIs(b, p, 0, b); }
  }

  function LowPart(b: Byte, w: nat): Byte {
    RemainderNoLarger(b, Pow2(w));
    b % Pow2(w)
  }

  // The bytes with the bits beyond qty cleared.
  function PaddingCleared(bytes: seq<Byte>, qty: nat): seq<Byte> {
    seq(|bytes|, j requires 0 <= j < |bytes| => LowPart(bytes[j], BitsIn(qty, j)))
  }

  lemma SentSlice(bytes: seq<Byte>, qty: nat, j: nat)
    requires |bytes| == ByteCount(qty) && j < |bytes|
    ensures |Slice(SentBits(bytes, qty), j)| == BitsIn(qty, j)
    ensures forall k :: 0 <= k < BitsIn(qty, j) ==> Slice(SentBits(bytes, qty), j)[k] == Bit(bytes[j], k)
  {
    hide Bit;
    var s := Slice(SentBits(bytes, qty), j);
    forall k | 0 <= k < BitsIn(qty, j) ensures s[k] == Bit(bytes[j], k) {
      assert (8 * j + k) / 8 == j && (8 * j + k) % 8 == k;
      assert s[k] == SentBits(bytes, qty)[8 * j + k];
    }
  }

  // Packing what was unpacked gives the bytes back, padding cleared.
  lemma PackSent(bytes: seq<Byte>, qty: nat)
    requires |bytes| == ByteCount(qty)
    ensures Packed(SentBits(bytes, qty)) == PaddingCleared(bytes, qty)
  {
    var bits := SentBits(bytes, qty);
    forall j | 0 <= j < |bytes| ensures PackedByte(bits, j) == LowPart(bytes[j], BitsIn(qty, j)) {
      SentSlice(bytes, qty, j);
      hide SentBits, Slice, Number, Bit;
      LowBits(bytes[j], BitsIn(qty, j), Slice(bits, j));
    }
    hide SentBits, PackedByte, BitsIn, LowPart;
  }

  // With a multiple of eight bits there is no padding.
  lemma NoPadding(bytes: seq<Byte>, qty: nat)
    requires |bytes| == ByteCount(qty) && qty % 8 == 0
    ensures PaddingCleared(bytes, qty) == bytes
  {
    Powers();
    forall j | 0 <= j < |bytes| ensures LowPart(bytes[j], BitsIn(qty, j)) == bytes[j] { assert BitsIn(qty, j) == 8; }
  }

  lemma {:induction false} WordsOfBytes(bytes: seq<Byte>)
    requires |bytes| % 2 == 0
    ensures WordBytes(SentWords(bytes)) == bytes
    decreases |bytes|
  {
    var words := SentWords(bytes);
    if words != [] {
      var n := |bytes| - 2;
      var (init, w) := (bytes[..n], words[|words| - 1]);
      WordsOfBytes(init);
      assert words[..|words| - 1] == SentWords(init);
      assert w == Uint16(bytes[n..]) && PutUint16(w) == [bytes[n], bytes[n + 1]];
      assert bytes == init + [bytes[n], bytes[n + 1]];
    } else {
      assert bytes == [];
    }
  }

  lemma OverwrittenRange<T>(region: seq<T>, addr: nat, values: seq<T>)
    requires addr + |values| <= |region|
    ensures |Overwritten(region, addr, values)| == |region|
    ensures Overwritten(region, addr, values)[addr..addr + |values|] == values
  {
  }

  // Write-multiple-coils, then read-coils of the same range: the bytes come
  // back with their padding bits cleared.
  lemma CoilsReadBack(s: Store, data: seq<Byte>)
    requires s.Ok() && !Handle(s, 15, data).reply.exception
    ensures |data| >= 6 && Handle(s, 15, data).store.Ok()
    ensures
      Handle(Handle(s, 15, data).store, 1, data[..4]).reply ==
      Reply(1, [data[4]] + PaddingCleared(data[5..], Uint16(data[2..4])), false)
  {
    var (addr, qty) := (Uint16(data[0..2]), Uint16(data[2..4]));
    var bits := SentBits(data[5..], qty);
    assert data[..4][0..2] == data[0..2] && data[..4][2..4] == data[2..4];
    OverwrittenRange(s.coils, addr, bits);
    PackSent(data[5..], qty);
    hide SentBits, Packed, PaddingCleared, Overwritten;
  }

  // The same for registers, exactly.
  lemma RegistersReadBack(s: Store, data: seq<Byte>)
    requires s.Ok() && !Handle(s, 16, data).reply.exception
    ensures |data| >= 6 && Handle(s, 16, data).store.Ok()
    ensures Handle(Handle(s, 16, data).store, 3, data[..4]).reply == Reply(3, data[4..], false)
  {
    var (addr, qty) := (Uint16(data[0..2]), Uint16(data[2..4]));
    var words := SentWords(data[5..]);
    assert data[..4][0..2] == data[0..2] && data[..4][2..4] == data[2..4];
    assert |words| == qty && data[4..] == [data[4]] + data[5..];
    OverwrittenRange(s.holding, addr, words);
    WordsOfBytes(data[5..]);
    hide SentWords, WordBytes, Overwritten;
  }

  // A single register is written by every request of the right length and
  // reads back as one word.
  lemma RegisterReadsBack(s: Store, data: seq<Byte>)
    requires s.Ok()
    ensures !Handle(s, 6, data).reply.exception <==> |data| == 4
    ensures |data| == 4 ==>
      Handle(s, 6, data).reply == Reply(6, data, false) && Handle(s, 6, data).store.Ok() &&
      Handle(Handle(s, 6, data).store, 3, data[..2] + [0, 1]).reply == Reply(3, [2] + data[2..], false)
  {
    if |data| == 4 {
      var (addr, ask) := (Uint16(data[0..2]), data[..2] + [0, 1]);
      assert ask[0..2] == data[0..2] && Uint16(ask[2..4]) == 1;
      var words := Handle(s, 6, data).store.holding[addr..addr + 1];
      assert words == [Uint16(data[2..4])] && words[..0] == [];
      assert WordBytes(words) == WordBytes(words[..0]) + PutUint16(words[0]) == data[2..];
    }
  }

  // A single coil takes 0xFF00 and 0x0000 and nothing else, and reads back
  // as one bit.
  lemma CoilReadsBack(s: Store, data: seq<Byte>)
    requires s.Ok()
    ensures !Handle(s, 5, data).reply.exception <==> |data| == 4 && (data[2] == 0 || data[2] == 255) && data[3] == 0
    ensures !Handle(s, 5, data).reply.exception ==>
      Handle(s, 5, data).reply == Reply(5, data, false) && Handle(s, 5, data).store.Ok() &&
      Handle(Handle(s, 5, data).store, 1, data[..2] + [0, 1]).reply == Reply(1, [1, if data[2] == 255 then 1 else 0], false)
  {
    if !Handle(s, 5, data).reply.exception {
      var (addr, ask) := (Uint16(data[0..2]), data[..2] + [0, 1]);
      assert ask[0..2] == data[0..2] && Uint16(ask[2..4]) == 1;
      var bits := Handle(s, 5, data).store.coils[addr..addr + 1];
      assert bits == [data[2] == 255] && bits[..0] == [];
      assert Slice(bits, 0) == bits;
      assert Number(bits) == Number(bits[..0]) + if bits[0] then Pow2(0) else 0;
      assert Packed(bits) == [if data[2] == 255 then 1 else 0];
    }
  }

  // Every reply fits its frame: at most 260 bytes, and the length field
  // counts what follows it.
  lemma ReplySize(s: Store, fc: Byte, data: seq<Byte>)
    requires s.Ok()
    ensures |Handle(s, fc, data).reply.data| + HEADER + 1 <= MAX_ADU
  {
  }

  lemma FrameFits(s: Store, fc: Byte, data: seq<Byte>, tx: Word, unit: Byte)
    requires s.Ok()
    ensures 2 + |Handle(s, fc, data).reply.data| < 0x1_0000
    ensures
      var frame := Frame(tx, unit, Handle(s, fc, data).reply);
      HEADER + 1 <= |frame| <= MAX_ADU && Uint16(frame[4..6]) == |frame| - 6 &&
      Uint16(frame[0..2]) == tx && Uint16(frame[2..4]) == 0 && frame[6] == unit &&
      frame[7] == Handle(s, fc, data).reply.fc && frame[8..] == Handle(s, fc, data).reply.data
  {
    ReplySize(s, fc, data);
    hide Handle;
    var frame := Frame(tx, unit, Handle(s, fc, data).reply);
    assert frame[0..2] == PutUint16(tx) && frame[2..4] == PutUint16(0);
    assert frame[4..6] == PutUint16(2 + |Handle(s, fc, data).reply.data|);
  }

  // Words travel highest byte first.
  lemma WordsAreBigEndian(s: seq<Byte>, v: Word)
    requires |s| == 2
    ensures Uint16(s) == Buffers.BigEndian(s) && Buffers.BigEndian(PutUint16(v)) == v
  {
    TwoBytes(s);
    TwoBytes(PutUint16(v));
  }

  lemma TwoBytes(s: seq<Byte>)
    requires |s| == 2
    ensures var (hi: int, lo: int) := (s[0], s[1]); Buffers.BigEndian(s) == 256 * hi + lo
  {
    var one := s[..1];
    assert one[..0] == [] && one[0] == s[0];
    assert Buffers.BigEndian(one) == 256 * Buffers.BigEndian(one[..0]) + one[0];
  }
}
