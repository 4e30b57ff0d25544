/** Bytes, big-endian integers and flag words, as the wire formats use them. */
module ByteOrder {
  type Byte = b: int | 0 <= b < 0x100
  type Bytes = seq<Byte>

  type U16 = n: int | 0 <= n < 0x1_0000
  type U32 = n: int | 0 <= n < 0x1_0000_0000
  type U64 = n: int | 0 <= n < 0x1_0000_0000_0000_0000
  type I64 = n: int | -0x8000_0000_0000_0000 <= n < 0x8000_0000_0000_0000

  // ----- big-endian fields (encoding/binary.BigEndian) -----

  function Put16(n: U16): (r: Bytes)
    ensures |r| == 2
  {
    [n / 0x100, n % 0x100]
  }

  function Get16(b: Bytes): U16
    requires |b| == 2
  {
    b[0] as int * 0x100 + b[1] as int
  }

  function Put32(n: U32): (r: Bytes)
    ensures |r| == 4
  {
    Put16(n / 0x1_0000) + Put16(n % 0x1_0000)
  }

  function Get32(b: Bytes): U32
    requires |b| == 4
  {
    Get16(b[..2]) as int * 0x1_0000 + Get16(b[2..]) as int
  }

  function Put64(n: U64): (r: Bytes)
    ensures |r| == 8
  {
    Put32(n / 0x1_0000_0000) + Put32(n % 0x1_0000_0000)
  }

  function Get64(b: Bytes): U64
    requires |b| == 8
  {
    Get32(b[..4]) as int * 0x1_0000_0000 + Get32(b[4..]) as int
  }

  /** The conversions int64(n) and uint64(t): two's complement. */
  function ToSigned(n: U64): I64 {
    if n < 0x8000_0000_0000_0000 then n else n - 0x1_0000_0000_0000_0000
  }

  function ToUnsigned(t: I64): U64 {
    if t < 0 then t + 0x1_0000_0000_0000_0000 else t
  }

  lemma GetPut16(n: U16)
    ensures Get16(Put16(n)) == n
  {
  }

  lemma GetPut32(n: U32)
    ensures Get32(Put32(n)) == n
  {
    assert Put32(n)[..2] == Put16(n / 0x1_0000) && Put32(n)[2..] == Put16(n % 0x1_0000);
  }

  lemma GetPut64(n: U64)
    ensures Get64(Put64(n)) == n
  {
    GetPut32(n / 0x1_0000_0000);
    GetPut32(n % 0x1_0000_0000);
    assert Put64(n)[..4] == Put32(n / 0x1_0000_0000) && Put64(n)[4..] == Put32(n % 0x1_0000_0000);
  }

  lemma PutGet16(b: Bytes)
    requires |b| == 2
    ensures Put16(Get16(b)) == b
  {
  }

  lemma PutGet32(b: Bytes)
    requires |b| == 4
    ensures Put32(Get32(b)) == b
  {
    PutGet16(b[..2]);
    PutGet16(b[2..]);
    assert b == b[..2] + b[2..];
  }

  lemma PutGet64(b: Bytes)
    requires |b| == 8
    ensures Put64(Get64(b)) == b
  {
    PutGet32(b[..4]);
    PutGet32(b[4..]);
    DivMod(Get64(b), 0x1_0000_0000, Get32(b[..4]), Get32(b[4..]));
    assert b == b[..4] + b[4..];
  }

  /** The number that bytes stand for, the most significant first. */
  function Value(b: Bytes): nat {
    if b == [] then 0 else Value(b[..|b| - 1]) * 0x100 + b[|b| - 1] as int
  }

  lemma ValueOfTwo(b: Bytes)
    requires |b| == 2
    ensures Value(b) == Get16(b)
  {
    assert b[..1][..0] == [];
    assert Value(b[..1]) == b[0];
  }

  /** The fields are big-endian. */
  lemma BigEndian(b: Bytes)
    ensures |b| == 2 ==> Get16(b) == Value(b)
    ensures |b| == 4 ==> Get32(b) == Value(b)
    ensures |b| == 8 ==> Get64(b) == Value(b)
  {
    if |b| == 2 {
      ValueOfTwo(b);
    } else if |b| == 4 {
      ValueOfFour(b);
    } else if |b| == 8 {
      ValueOfFour(b[..4]);
      ValueOfFour(b[4..]);
      assert b[..4] + b[4..] == b;
      ValueAppend(b[..4], b[4..]);
      assert Power(4) == 0x1_0000_0000 by {
        assert Power(2) == 0x1_0000;
      }
    }
  }

  lemma ValueOfFour(b: Bytes)
    requires |b| == 4
    ensures Value(b) == Get32(b)
  {
    ValueOfTwo(b[..2]);
    ValueOfTwo(b[2..]);
    assert b[..2] + b[2..] == b;
    ValueAppend(b[..2], b[2..]);
    assert Power(2) == 0x1_0000;
  }

  function Power(n: nat): nat {
    if n == 0 then 1 else 0x100 * Power(n - 1)
  }

  lemma {:induction false} ValueAppend(a: Bytes, b: Bytes)
    ensures Value(a + b) == Value(a) * Power(|b|) + Value(b)
  {
    if b == [] {
      assert a + b == a;
    } else {
      var n := |b| - 1;
      assert (a + b)[..|a + b| - 1] == a + b[..n];
      ValueAppend(a, b[..n]);
      assert Value(a) * (0x100 * Power(n)) == Value(a) * Power(n) * 0x100;
    }
  }

  /** The first big-endian half and the last byte of a 32-bit field. */
  lemma Put32Parts(n: U32)
    ensures Get16(Put32(n)[..2]) == n / 0x1_0000
    ensures Put32(n)[3] == n % 0x100
  {
    GetPut16(n / 0x1_0000);
    assert Put32(n)[..2] == Put16(n / 0x1_0000);
  }

  lemma Regroup(a: Bytes, b: Bytes, c: Bytes)
    ensures a + b + c == a + (b + c)
  {
  }

  // ----- flag words -----

  /** The single-bit frame flags 0x01, 0x02, 0x04 and 0x40. */
  datatype Flag = Fragmented | LastFrame | Compressed | Compact
  {
    function Bit(): int {
      match this
      case Fragmented => 0x01
      case LastFrame => 0x02
      case Compressed => 0x04
      case Compact => 0x40
    }

    /** flags & Bit() != 0 */
    predicate In(flags: int) {
      match this
      case Fragmented => flags % 0x02 >= 0x01
      case LastFrame => flags % 0x04 >= 0x02
      case Compressed => flags % 0x08 >= 0x04
      case Compact => flags % 0x80 >= 0x40
    }

    /** flags | Bit() */
    function On(flags: U32): U32 {
      if In(flags) then flags else flags + Bit()
    }
  }

  /** Quotient and remainder are unique. */
  lemma DivMod(n: int, d: int, q: int, r: int)
    requires 0 <= r < d
    requires n == d * q + r
    ensures n / d == q && n % d == r
  {
    var m := n / d - q;
    assert d * m == r - n % d;
    assert m >= 1 ==> d * m >= d;
    assert m <= -1 ==> d * m <= -d;
  }

  lemma TimesLess(x: int, y: int, d: nat)
    requires x < y
    ensures x * d + d <= y * d
  {
    assert (y - x - 1) * d >= 0;
  }

  /** Reducing twice is reducing once. */
  lemma Residue(n: nat, k: nat, small: nat)
    requires k > 0 && small > 0
    ensures n % (k * small) % small == n % small
  {
    var q, r := n / (k * small), n % (k * small);
    assert n == small * (k * q + r / small) + r % small;
    DivMod(n, small, k * q + r / small, r % small);
  }

  /** flags & 0xFF keeps every flag, since all of them lie in the low byte. */
  lemma LowByteKeepsFlags(flag: Flag, flags: U32)
    ensures flag.In(flags % 0x100) == flag.In(flags)
  {
    match flag
    case Fragmented => Residue(flags, 0x80, 0x02);
    case LastFrame => Residue(flags, 0x40, 0x04);
    case Compressed => Residue(flags, 0x20, 0x08);
    case Compact => Residue(flags, 0x02, 0x80);
  }

  /** The three low flags are decided by the low three bits. */
  lemma LowBits(flags: U32)
    ensures Fragmented.In(flags) == Fragmented.In(flags % 0x08)
    ensures LastFrame.In(flags) == LastFrame.In(flags % 0x08)
    ensures Compressed.In(flags) == Compressed.In(flags % 0x08)
  {
    Residue(flags, 0x04, 0x02);
    Residue(flags, 0x02, 0x04);
  }

  /** Setting one flag sets that flag and no other. */
  lemma SetFlag(flag: Flag, other: Flag, flags: U32)
    ensures other.In(flag.On(flags)) <==> other == flag || other.In(flags)
  {
    if !flag.In(flags) {
      if flag.Compact? {
        SetCompact(flags);
      } else {
        SetLow(flag, flags);
      }
    }
  }

  lemma SetCompact(flags: U32)
    requires !Compact.In(flags)
    ensures Compact.In(Compact.On(flags))
    ensures Compact.On(flags) % 0x08 == flags % 0x08
    ensures forall other: Flag :: !other.Compact? ==> other.In(Compact.On(flags)) == other.In(flags)
  {
    var on := Compact.On(flags);
    DivMod(on, 0x80, flags / 0x80, flags % 0x80 + 0x40);
    DivMod(on, 0x08, flags / 0x08 + 0x08, flags % 0x08);
    LowBits(on);
    LowBits(flags);
  }

  lemma SetLow(flag: Flag, flags: U32)
    requires !flag.Compact? && !flag.In(flags)
    ensures forall other: Flag :: other.In(flag.On(flags)) <==> other == flag || other.In(flags)
  {
    var on, s := flag.On(flags), flags % 0x08;
    LowBits(flags);
    SetLowBits(flag, s);
    DivMod(on, 0x08, flags / 0x08, s + flag.Bit());
    LowBits(on);
    CompactUnmoved(flags, flag.Bit());
  }

  lemma CompactUnmoved(flags: U32, bit: nat)
    requires flags % 0x08 + bit < 0x08
    ensures Compact.In(flags + bit) == Compact.In(flags)
  {
    var q, r := flags / 0x80, flags % 0x80;
    Residue(flags, 0x10, 0x08);
    assert r % 0x08 == flags % 0x08;
    assert r < 0x40 ==> r + bit < 0x40;
    DivMod(flags + bit, 0x80, q, r + bit);
  }

  lemma SetLowBits(flag: Flag, s: nat)
    requires !flag.Compact? && s < 0x08 && !flag.In(s)
    ensures s + flag.Bit() < 0x08
    ensures forall other: Flag :: !other.Compact? ==> (other.In(s + flag.Bit()) <==> other == flag || other.In(s))
  {
    assert s == 0 || s == 1 || s == 2 || s == 3 || s == 4 || s == 5 || s == 6 || s == 7;
  }
}
