/**
 The buffer of the function node: integers of one to six bytes in both byte
 orders, and the byte swaps, in place on a byte array.

 The source's uint64 and int64 are ints here, with their conversions, the
 shift-and-or of the loops and the sign extension written out as arithmetic.
 */
module Buffers {
  import opened JsonValues

  type Byte = x: int | 0 <= x < 256

  const TWO64: nat := 0x1_0000_0000_0000_0000

  // 256 to the n-th power.
  function Pow256(n: nat): (p: nat)
    ensures p > 0
  {
    if n == 0 then 1 else 256 * Pow256(n - 1)
  }

  /******* What bytes denote *******/

  function BigEndian(s: seq<Byte>): nat {
    if s == [] then 0 else 256 * BigEndian(s[..|s| - 1]) + s[|s| - 1]
  }

  function LittleEndian(s: seq<Byte>): nat {
    if s == [] then 0 else s[0] + 256 * LittleEndian(s[1..])
  }

  // The two's complement reading of an n-byte value.
  function Signed(v: nat, n: nat): int {
    if 2 * v >= Pow256(n) then v - Pow256(n) else v
  }

  // uint64(v)
  function Unsigned64(v: int): nat {
    v % TWO64
  }

  function Reversed<T>(s: seq<T>): seq<T> {
    seq(|s|, i requires 0 <= i < |s| => s[|s| - 1 - i])
  }

  // The n low bytes of v, lowest first.
  function Bytes(v: nat, n: nat): (s: seq<Byte>)
    ensures |s| == n
  {
    if n == 0 then [] else [v % 256] + Bytes(v / 256, n - 1)
  }

  /******* Swaps *******/

  predicate Width(k: int) {
    k == 2 || k == 4 || k == 8
  }

  // The mirror image of place j within its group of k.
  function Mirror(j: int, k: int): int
    requires Width(k)
  {
    j - j % k + (k - 1 - j % k)
  }

  lemma GroupStart(j: nat, k: int)
    requires Width(k)
    ensures j - j % k >= 0 && (j - j % k) % k == 0 && j - j % k <= j < j - j % k + k
  {
    match k
    case 2 =>
    case 4 =>
    case _ =>
  }

  lemma MirrorOf(i: nat, j: nat, k: int)
    requires Width(k) && i % k == 0 && i <= j < i + k
    ensures Mirror(j, k) == 2 * i + k - 1 - j
  {
    match k
    case 2 =>
    case 4 =>
    case _ =>
  }

  lemma MirrorTwice(j: nat, k: int)
    requires Width(k)
    ensures Mirror(j, k) >= 0 && Mirror(Mirror(j, k), k) == j
  {
    GroupStart(j, k);
    hide Mirror;
    var i := j - j % k;
    MirrorOf(i, j, k);
    MirrorOf(i, 2 * i + k - 1 - j, k);
  }

  // s with every group of k bytes reversed.
  function Swapped(s: seq<Byte>, k: int): seq<Byte>
    requires Width(k) && |s| % k == 0
  {
    seq(|s|, j requires 0 <= j < |s| => MirrorInside(|s|, j, k); s[Mirror(j, k)])
  }

  lemma MirrorInside(n: nat, j: nat, k: int)
    requires Width(k) && n % k == 0 && j < n
    ensures 0 <= Mirror(j, k) < n
  {
    match k
    case 2 =>
    case 4 =>
    case _ =>
  }

  function Exchanged(s: seq<Byte>, a: nat, b: nat): (t: seq<Byte>)
    requires a < b < |s|
    ensures |t| == |s|
  {
    s[a := s[b]][b := s[a]]
  }

  // One group reversed, by exchanges from its ends inwards.
  function GroupSwapped(s: seq<Byte>, i: nat, k: int): (t: seq<Byte>)
    requires Width(k) && i + k <= |s|
    ensures |t| == |s|
  {
    match k
    case 2 => Exchanged(s, i, i + 1)
    case 4 => Exchanged(Exchanged(s, i, i + 3), i + 1, i + 2)
    case _ => Exchanged(Exchanged(Exchanged(Exchanged(s, i, i + 7), i + 1, i + 6), i + 2, i + 5), i + 3, i + 4)
  }

  predicate InRange(size: nat, offset: int, n: int) {
    1 <= n <= 6 && 0 <= offset && offset + n <= size
  }

  function Spliced(s: seq<Byte>, offset: nat, bytes: seq<Byte>): seq<Byte>
    requires offset + |bytes| <= |s|
  {
    s[..offset] + bytes + s[offset + |bytes|..]
  }

  class Buffer {
    const data: array<Byte>

    constructor (data: array<Byte>)
      ensures this.data == data
    {
      this.data := data;
    }

    method ReadUIntBE(offset: int, n: int) returns (r: Option<nat>)
      ensures r == if InRange(data.Length, offset, n) then Some(BigEndian(data[offset..offset + n])) else None
    {
      if n < 1 || n > 6 {
        return None;
      }
      if offset < 0 || offset + n > data.Length {
        return None;
      }
      var val: nat := 0;
      for i := 0 to n
        invariant val == BigEndian(data[offset..offset + i])
      {
        var s := data[offset..offset + i + 1];
        assert s[..|s| - 1] == data[offset..offset + i];
        val := val * 256 + data[offset + i];
      }
      return Some(val);
    }

    method ReadUIntLE(offset: int, n: int) returns (r: Option<nat>)
      ensures r == if InRange(data.Length, offset, n) then Some(LittleEndian(data[offset..offset + n])) else None
    {
      if n < 1 || n > 6 {
        return None;
      }
      if offset < 0 || offset + n > data.Length {
        return None;
      }
      var val: nat := 0;
      var i := n - 1;
      while i >= 0
        invariant -1 <= i < n
        invariant val == LittleEndian(data[offset + i + 1..offset + n])
        decreases i
      {
        var s := data[offset + i..offset + n];
        assert s[1..] == data[offset + i + 1..offset + n];
        val := val * 256 + data[offset + i];
        i := i - 1;
      }
      return Some(val);
    }

    method WriteUIntBE(value: nat, offset: int, n: int) returns (ok: bool)
      modifies data
      ensures ok == InRange(data.Length, offset, n)
      ensures data[..] == if ok then Spliced(old(data[..]), offset, Reversed(Bytes(value, n))) else old(data[..])
    {
      if n < 1 || n > 6 {
        return false;
      }
      if offset < 0 || offset + n > data.Length {
        return false;
      }
      ghost var (was, bytes) := (data[..], Bytes(value, n));
      var v := value;
      var i := n - 1;
      while i >= 0
        invariant -1 <= i < n
        invariant bytes[n - 1 - i..] == Bytes(v, i + 1)
        invariant forall j :: offset + i < j < offset + n ==> data[j] == Reversed(bytes)[j - offset]
        invariant forall j :: 0 <= j < data.Length && (j < offset || offset + n <= j) ==> data[j] == was[j]
        decreases i
      {
        assert bytes[n - 1 - i] == Bytes(v, i + 1)[0];
        assert bytes[n - 1 - i..][1..] == bytes[n - i..];
        data[offset + i] := v % 256;
        v := v / 256;
        i := i - 1;
      }
      ok := true;
      SplicedAt(was, offset, Reversed(bytes), data[..]);
    }

    method WriteUIntLE(value: nat, offset: int, n: int) returns (ok: bool)
      modifies data
      ensures ok == InRange(data.Length, offset, n)
      ensures data[..] == if ok then Spliced(old(data[..]), offset, Bytes(value, n)) else old(data[..])
    {
      if n < 1 || n > 6 {
        return false;
      }
      if offset < 0 || offset + n > data.Length {
        return false;
      }
      ghost var (was, bytes) := (data[..], Bytes(value, n));
      var v := value;
      for i := 0 to n
        invariant bytes[i..] == Bytes(v, n - i)
        invariant forall j :: offset <= j < offset + i ==> data[j] == bytes[j - offset]
        invariant forall j :: 0 <= j < data.Length && (j < offset || offset + n <= j) ==> data[j] == was[j]
      {
        assert bytes[i] == Bytes(v, n - i)[0];
        assert bytes[i..][1..] == bytes[i + 1..];
        data[offset + i] := v % 256;
        v := v / 256;
      }
      ok := true;
      SplicedAt(was, offset, bytes, data[..]);
    }

    // Sign-extends to 64 bits and reads the result as an int64.
    static function SignExtended(v: nat, n: nat): int
      requires 1 <= n <= 6
    {
      var high := Pow256(n) / 2;
      var w := if (v / high) % 2 == 1 then v + (TWO64 - Pow256(n)) else v;
      if w >= TWO64 / 2 then w - TWO64 else w
    }

    method ReadIntBE(offset: int, n: int) returns (r: Option<int>)
      ensures r == if InRange(data.Length, offset, n) then Some(Signed(BigEndian(data[offset..offset + n]), n)) else None
    {
      var v := ReadUIntBE(offset, n);
      if v.None? {
        return None;
      }
      BigEndianBound(data[offset..offset + n]);
      SignExtends(v.value, n);
      return Some(SignExtended(v.value, n));
    }

    method ReadIntLE(offset: int, n: int) returns (r: Option<int>)
      ensures r == if InRange(data.Length, offset, n) then Some(Signed(LittleEndian(data[offset..offset + n]), n)) else None
    {
      var v := ReadUIntLE(offset, n);
      if v.None? {
        return None;
      }
      LittleIsReversedBig(data[offset..offset + n]);
      BigEndianBound(Reversed(data[offset..offset + n]));
      SignExtends(v.value, n);
      return Some(SignExtended(v.value, n));
    }

    method WriteIntBE(value: int, offset: int, n: int) returns (ok: bool)
      modifies data
      ensures ok == InRange(data.Length, offset, n)
      ensures data[..] == if ok then Spliced(old(data[..]), offset, Reversed(Bytes(Unsigned64(value), n))) else old(data[..])
    {
      ok := WriteUIntBE(Unsigned64(value), offset, n);
    }

    method WriteIntLE(value: int, offset: int, n: int) returns (ok: bool)
      modifies data
      ensures ok == InRange(data.Length, offset, n)
      ensures data[..] == if ok then Spliced(old(data[..]), offset, Bytes(Unsigned64(value), n)) else old(data[..])
    {
      ok := WriteUIntLE(Unsigned64(value), offset, n);
    }

    method Exchange(a: nat, b: nat)
      requires a < b < data.Length
      modifies data
      ensures data[..] == Exchanged(old(data[..]), a, b)
    {
      data[a], data[b] := data[b], data[a];
    }

    method Swap16() returns (ok: bool)
      modifies data
      ensures ok == (data.Length % 2 == 0)
      ensures data[..] == if ok then Swapped(old(data[..]), 2) else old(data[..])
    {
      if data.Length % 2 != 0 {
        return false;
      }
      ghost var was := data[..];
      MirroredNone(was, 2);
      ghost var (groups, g) := (data.Length / 2, 0);
      assert data.Length == 2 * groups;
      hide *;
      var i := 0;
      while i < data.Length
        invariant 0 <= g <= groups && i == 2 * g && data.Length == 2 * groups
        invariant MirroredTo(was, data[..], i, 2)
      {
        ghost var before := data[..];
        GroupBounds(before, i, 2, g);
        Exchange(i, i + 1);
        GroupDone(was, before, data[..], i, 2);
        i := i + 2;
        g := g + 1;
      }
      MirroredAll(was, data[..], 2);
      ok := true;
    }

    method Swap32() returns (ok: bool)
      modifies data
      ensures ok == (data.Length % 4 == 0)
      ensures data[..] == if ok then Swapped(old(data[..]), 4) else old(data[..])
    {
      if data.Length % 4 != 0 {
        return false;
      }
      ghost var was := data[..];
      MirroredNone(was, 4);
      ghost var (groups, g) := (data.Length / 4, 0);
      assert data.Length == 4 * groups;
      hide *;
      var i := 0;
      while i < data.Length
        invariant 0 <= g <= groups && i == 4 * g && data.Length == 4 * groups
        invariant MirroredTo(was, data[..], i, 4)
      {
        ghost var before := data[..];
        GroupBounds(before, i, 4, g);
        Exchange(i, i + 3);
        Exchange(i + 1, i + 2);
        GroupDone(was, before, data[..], i, 4);
        i := i + 4;
        g := g + 1;
      }
      MirroredAll(was, data[..], 4);
      ok := true;
    }

    method Swap64() returns (ok: bool)
      modifies data
      ensures ok == (data.Length % 8 == 0)
      ensures data[..] == if ok then Swapped(old(data[..]), 8) else old(data[..])
    {
      if data.Length % 8 != 0 {
        return false;
      }
      ghost var was := data[..];
      MirroredNone(was, 8);
      ghost var (groups, g) := (data.Length / 8, 0);
      assert data.Length == 8 * groups;
      hide *;
      var i := 0;
      while i < data.Length
        invariant 0 <= g <= groups && i == 8 * g && data.Length == 8 * groups
        invariant MirroredTo(was, data[..], i, 8)
      {
        ghost var before := data[..];
        GroupBounds(before, i, 8, g);
        Exchange(i, i + 7);
        Exchange(i + 1, i + 6);
        Exchange(i + 2, i + 5);
        Exchange(i + 3, i + 4);
        GroupDone(was, before, data[..], i, 8);
        i := i + 8;
        g := g + 1;
      }
      MirroredAll(was, data[..], 8);
      ok := true;
    }
  }

  lemma SplicedAt(s: seq<Byte>, offset: nat, bytes: seq<Byte>, t: seq<Byte>)
    requires offset + |bytes| <= |s| == |t|
    requires forall j :: offset <= j < offset + |bytes| ==> t[j] == bytes[j - offset]
    requires forall j :: 0 <= j < |s| && (j < offset || offset + |bytes| <= j) ==> t[j] == s[j]
    ensures t == Spliced(s, offset, bytes)
  {
  }

  // The groups before i are reversed, the rest is as it was.
  ghost predicate MirroredTo(was: seq<Byte>, now: seq<Byte>, i: int, k: int)
    requires Width(k)
  {
    |now| == |was| && |was| % k == 0 && 0 <= i <= |was| &&
    (forall j :: i <= j < |was| ==> now[j] == was[j]) &&
    (forall j :: 0 <= j < i ==> 0 <= Mirror(j, k) < |was| && now[j] == was[Mirror(j, k)])
  }

  lemma GroupAt(s: seq<Byte>, i: nat, k: int, j: nat)
    requires Width(k) && i + k <= |s| && j < |s|
    ensures GroupSwapped(s, i, k)[j] == if i <= j < i + k then s[2 * i + k - 1 - j] else s[j]
  {
  }

  lemma Multiple(g: nat, k: int)
    requires Width(k)
    ensures (k * g) % k == 0
  {
    match k
    case 2 =>
    case 4 =>
    case _ =>
  }

  lemma GroupBounds(s: seq<Byte>, i: nat, k: int, g: nat)
    requires Width(k) && i == k * g && i + k <= |s|
    ensures i % k == 0
    ensures
      GroupSwapped(s, i, k) ==
      match k
      case 2 => Exchanged(s, i, i + 1)
      case 4 => Exchanged(Exchanged(s, i, i + 3), i + 1, i + 2)
      case _ => Exchanged(Exchanged(Exchanged(Exchanged(s, i, i + 7), i + 1, i + 6), i + 2, i + 5), i + 3, i + 4)
  {
    hide Exchanged;
    Multiple(g, k);
  }

  lemma GroupDone(was: seq<Byte>, before: seq<Byte>, now: seq<Byte>, i: nat, k: int)
    requires Width(k) && MirroredTo(was, before, i, k) && i % k == 0 && i + k <= |was| && now == GroupSwapped(before, i, k)
    ensures MirroredTo(was, now, i + k, k)
  {
    hide GroupSwapped, Mirror;
    forall j | 0 <= j < i + k ensures 0 <= Mirror(j, k) < |was| && now[j] == was[Mirror(j, k)] {
      GroupAt(before, i, k, j);
      if j >= i { MirrorOf(i, j, k); } else { assert before[j] == was[Mirror(j, k)]; }
    }
    forall j | i + k <= j < |was| ensures now[j] == was[j] { GroupAt(before, i, k, j); }
  }

  lemma MirroredNone(was: seq<Byte>, k: int)
    requires Width(k) && |was| % k == 0
    ensures MirroredTo(was, was, 0, k)
  {
  }

  lemma MirroredAll(was: seq<Byte>, now: seq<Byte>, k: int)
    requires Width(k) && MirroredTo(was, now, |was|, k)
    ensures |was| % k == 0 && now == Swapped(was, k)
  {
  }

  /******* Codec laws *******/

  lemma {:induction false} BigEndianBound(s: seq<Byte>)
    ensures BigEndian(s) < Pow256(|s|)
  {
    if s != [] { BigEndianBound(s[..|s| - 1]); }
  }

  lemma {:induction false} LittleIsReversedBig(s: seq<Byte>)
    ensures LittleEndian(s) == BigEndian(Reversed(s))
  {
    if s != [] {
      LittleIsReversedBig(s[1..]);
      assert Reversed(s)[..|s| - 1] == Reversed(s[1..]);
    }
  }

  lemma ReversedTwice<T>(s: seq<T>)
    ensures Reversed(Reversed(s)) == s
  {
  }

  lemma SignExtends(v: nat, n: nat)
    requires 1 <= n <= 6 && v < Pow256(n)
    ensures Buffer.SignExtended(v, n) == Signed(v, n)
  {
    assert Pow256(n) % 2 == 0 && 2 <= Pow256(n) <= TWO64 / 2 by { PowersOf256(); }
    hide Pow256;
    TopBit(v, Pow256(n));
  }

  lemma TopBit(v: nat, p: nat)
    requires p % 2 == 0 && p > 0 && v < p
    ensures (v / (p / 2)) % 2 == if 2 * v >= p then 1 else 0
  {
    HalfRange(v, p / 2);
  }

  lemma HalfRange(v: nat, high: nat)
    requires high > 0 && v < 2 * high
    ensures v / high == if v >= high then 1 else 0
  {
  }

  lemma PowersOf256()
    ensures Pow256(0) == 1 && Pow256(1) == 0x100 && Pow256(2) == 0x1_0000 && Pow256(3) == 0x100_0000
    ensures Pow256(4) == 0x1_0000_0000 && Pow256(5) == 0x100_0000_0000 && Pow256(6) == 0x1_0000_0000_0000
  {
    assert Pow256(2) == 256 * Pow256(1) && Pow256(4) == 256 * Pow256(3) && Pow256(6) == 256 * Pow256(5);
    assert Pow256(3) == 256 * Pow256(2) && Pow256(5) == 256 * Pow256(4);
  }

  /******* Round trips *******/

  lemma {:induction false} BytesDenote(v: nat, n: nat)
    ensures LittleEndian(Bytes(v, n)) == v % Pow256(n)
  {
    if n > 0 {
      var bytes := Bytes(v, n);
      BytesDenote(v / 256, n - 1);
      assert bytes[1..] == Bytes(v / 256, n - 1);
      DigitsOf(v, Pow256(n - 1));
    }
  }

  lemma DigitsOf(v: nat, p: nat)
    requires p > 0
    ensures v % (256 * p) == v % 256 + 256 * ((v / 256) % p)
  {
    var (q, r) := (v / 256 / p, (v / 256) % p);
    assert v == 256 * (v / 256) + v % 256 && v / 256 == q * p + r;
    assert v == q * (256 * p) + (v % 256 + 256 * r);
    assert 0 <= v % 256 + 256 * r < 256 * p;
    RemainderIs(v, 256 * p, q, v % 256 + 256 * r);
  }

  lemma RemainderIs(v: int, m: nat, q: int, r: nat)
    requires m > 0 && v == q * m + r && r < m
    ensures v % m == r
  {
    var d := v / m - q;
    assert v % m == r - d * m by { assert (v / m) * m == d * m + q * m; }
    assert d > 0 ==> d * m >= m;
    assert d < 0 ==> d * m + m <= 0;
  }

  // uint64(v), cut to n bytes, is v modulo 256 to the n.
  lemma LowBytes(v: int, n: nat)
    requires n <= 6
    ensures Unsigned64(v) % Pow256(n) == v % Pow256(n)
  {
    PowersMultiply(n, 8 - n);
    assert Pow256(8) == TWO64 by { PowersOf256(); assert Pow256(8) == 256 * Pow256(7) && Pow256(7) == 256 * Pow256(6); }
    hide Pow256;
    RemainderOfRemainder(v, Pow256(n), Pow256(8 - n));
  }

  lemma RemainderOfRemainder(v: int, p: nat, k: nat)
    requires p > 0 && k > 0
    ensures p * k > 0 && (v % (p * k)) % p == v % p
  {
    assert p * k > 0;
    var (q, u) := (v / (p * k), v % (p * k));
    Shuffle(q, p, k);
    assert v == q * (p * k) + u && u == (u / p) * p + u % p;
    assert (q * k) * p + (u / p) * p == (q * k + u / p) * p;
    RemainderIs(v, p, q * k + u / p, u % p);
  }

  lemma Shuffle(q: int, p: nat, k: nat)
    ensures q * (p * k) == (q * k) * p
  {
  }

  lemma {:induction false} PowersMultiply(a: nat, b: nat)
    ensures Pow256(a) * Pow256(b) == Pow256(a + b)
  {
    if a > 0 { PowersMultiply(a - 1, b); }
  }

  predicate FitsSigned(v: int, n: nat) {
    0 <= 2 * v + Pow256(n) && 2 * v < Pow256(n)
  }

  lemma SignedOf(v: int, n: nat)
    requires 1 <= n
    ensures Signed(v % Pow256(n), n) == v <==> FitsSigned(v, n)
  {
    var p := Pow256(n);
    if FitsSigned(v, n) {
      if v >= 0 { RemainderIs(v, p, 0, v); } else { RemainderIs(v, p, -1, v + p); }
      assert p == 256 * Pow256(n - 1);
    }
  }

  // Writing a signed integer and reading it back, in either byte order,
  // gives it back exactly when it fits the width; no other byte changes.
  lemma WriteThenRead(s: seq<Byte>, offset: nat, v: int, n: nat)
    requires InRange(|s|, offset, n)
    ensures
      var (be, le) := (Spliced(s, offset, Reversed(Bytes(Unsigned64(v), n))), Spliced(s, offset, Bytes(Unsigned64(v), n)));
      |be| == |le| == |s| &&
      (Signed(BigEndian(be[offset..offset + n]), n) == v <==> FitsSigned(v, n)) &&
      (Signed(LittleEndian(le[offset..offset + n]), n) == v <==> FitsSigned(v, n)) &&
      forall j :: 0 <= j < |s| && (j < offset || offset + n <= j) ==> be[j] == s[j] && le[j] == s[j]
  {
    var bytes := Bytes(Unsigned64(v), n);
    var (be, le) := (Spliced(s, offset, Reversed(bytes)), Spliced(s, offset, bytes));
    assert be[offset..offset + n] == Reversed(bytes) && le[offset..offset + n] == bytes;
    hide Bytes, BigEndian, LittleEndian, Pow256, Reversed, Signed, FitsSigned;
    LittleIsReversedBig(bytes);
    BytesDenote(Unsigned64(v), n);
    LowBytes(v, n);
    SignedOf(v, n);
  }

  // The unsigned forms keep the value modulo the width.
  lemma UnsignedWriteThenRead(s: seq<Byte>, offset: nat, v: nat, n: nat)
    requires InRange(|s|, offset, n)
    ensures
      var (be, le) := (Spliced(s, offset, Reversed(Bytes(v, n))), Spliced(s, offset, Bytes(v, n)));
      BigEndian(be[offset..offset + n]) == LittleEndian(le[offset..offset + n]) == v % Pow256(n)
  {
    var bytes := Bytes(v, n);
    var (be, le) := (Spliced(s, offset, Reversed(bytes)), Spliced(s, offset, bytes));
    assert be[offset..offset + n] == Reversed(bytes) && le[offset..offset + n] == bytes;
    hide Bytes, BigEndian, LittleEndian, Pow256, Reversed;
    LittleIsReversedBig(bytes);
    BytesDenote(v, n);
  }

  /******* Swaps and byte order *******/

  lemma SwapTwice(s: seq<Byte>, k: int)
    requires Width(k) && |s| % k == 0
    ensures |Swapped(s, k)| == |s| && Swapped(Swapped(s, k), k) == s
  {
    var t := Swapped(s, k);
    forall j | 0 <= j < |s| ensures Swapped(t, k)[j] == s[j] {
      MirrorInside(|s|, j, k);
      MirrorTwice(j, k);
      hide Mirror;
    }
  }

  lemma SwapReversesGroups(s: seq<Byte>, k: int, i: nat)
    requires Width(k) && |s| % k == 0 && i % k == 0 && i + k <= |s|
    ensures Swapped(s, k)[i..i + k] == Reversed(s[i..i + k])
  {
    var (group, mirrored) := (Swapped(s, k)[i..i + k], Reversed(s[i..i + k]));
    forall c | 0 <= c < k ensures group[c] == mirrored[c] {
      MirrorOf(i, i + c, k);
      hide Mirror;
      assert group[c] == Swapped(s, k)[i + c] == s[Mirror(i + c, k)];
    }
  }

  // A swap turns an aligned big-endian read into the little-endian read of
  // the original bytes, and the other way round.
  lemma SwapExchangesByteOrders(s: seq<Byte>, k: int, i: nat)
    requires Width(k) && |s| % k == 0 && i % k == 0 && i + k <= |s|
    ensures BigEndian(Swapped(s, k)[i..i + k]) == LittleEndian(s[i..i + k])
    ensures LittleEndian(Swapped(s, k)[i..i + k]) == BigEndian(s[i..i + k])
  {
    SwapReversesGroups(s, k, i);
    LittleIsReversedBig(s[i..i + k]);
    LittleIsReversedBig(Reversed(s[i..i + k]));
    ReversedTwice(s[i..i + k]);
  }

  /******* Which byte counts most *******/

  // In big-endian order the first byte weighs most, in little-endian order the
  // last.
  lemma PlaceValues(b: Byte, s: seq<Byte>)
    ensures BigEndian([b] + s) == b * Pow256(|s|) + BigEndian(s)
    ensures LittleEndian(s + [b]) == LittleEndian(s) + b * Pow256(|s|)
  {
    FirstByte(b, s);
    LastByte(s, b);
  }

  lemma {:induction false} FirstByte(b: Byte, s: seq<Byte>)
    ensures BigEndian([b] + s) == b * Pow256(|s|) + BigEndian(s)
  {
    if s == [] {
      assert [b] + s == [b] && [b][..0] == [];
    } else {
      var (init, last) := (s[..|s| - 1], s[|s| - 1]);
      FirstByte(b, init);
      var all := [b] + s;
      assert all[..|all| - 1] == [b] + init && all[|all| - 1] == last;
      assert BigEndian(all) == 256 * BigEndian([b] + init) + last && BigEndian(s) == 256 * BigEndian(init) + last;
      assert Pow256(|s|) == 256 * Pow256(|init|);
      hide BigEndian, Pow256;
      OnePlaceUp(b, Pow256(|init|), BigEndian(init));
    }
  }

  lemma {:induction false} LastByte(s: seq<Byte>, b: Byte)
    ensures LittleEndian(s + [b]) == LittleEndian(s) + b * Pow256(|s|)
  {
    if s == [] {
      assert s + [b] == [b] && [b][1..] == [];
    } else {
      var (first, rest) := (s[0], s[1..]);
      LastByte(rest, b);
      var all := s + [b];
      assert all[1..] == rest + [b] && all[0] == first;
      assert LittleEndian(all) == first + 256 * LittleEndian(rest + [b]) && LittleEndian(s) == first + 256 * LittleEndian(rest);
      assert Pow256(|s|) == 256 * Pow256(|rest|);
      hide LittleEndian, Pow256;
      OnePlaceUp(b, Pow256(|rest|), LittleEndian(rest));
    }
  }

  lemma OnePlaceUp(b: int, p: int, v: int)
    ensures 256 * (b * p + v) == b * (256 * p) + 256 * v
  {
  }
}
