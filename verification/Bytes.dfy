/** Fixed-width encodings of bytes: big-endian 64-bit numbers and lower-case hex. A byte string is a
    sequence of characters, one per byte. */
module Bytes {
  import opened Width

  // binary.BigEndian.PutUint64: the low n bytes of x, most significant first.
  function BigEndian(x: nat, n: nat): (s: string)
    ensures |s| == n
  {
    if n == 0 then "" else BigEndian(x / 256, n - 1) + [(x % 256) as char]
  }

  function Pow256(n: nat): nat {
    if n == 0 then 1 else 256 * Pow256(n - 1)
  }

  // Reads a big-endian number.
  function FromBigEndian(s: string): nat {
    if s == "" then 0 else FromBigEndian(s[..|s| - 1]) * 256 + s[|s| - 1] as int
  }

  lemma {:induction false} BigEndianValue(x: nat, n: nat)
    requires x < Pow256(n)
    ensures FromBigEndian(BigEndian(x, n)) == x
  {
    if n > 0 {
      BigEndianValue(x / 256, n - 1);
      assert BigEndian(x, n)[..n - 1] == BigEndian(x / 256, n - 1);
    }
  }

  lemma Pow256Of8()
    ensures Pow256(8) == TWO64
  {
    assert Pow256(1) == 256 && Pow256(2) == 65536 && Pow256(4) == 65536 * 65536;
  }

  function Put64(x: nat): (s: string)
    ensures |s| == 8
  {
    BigEndian(x, 8)
  }

  lemma Put64Value(x: nat)
    requires x < TWO64
    ensures FromBigEndian(Put64(x)) == x
  {
    Pow256Of8();
    BigEndianValue(x, 8);
  }

  // Eight bytes, the most significant first.
  lemma {:induction false} Put64Is(x: nat)
    requires x < TWO64
    ensures AreBytes(Put64(x))
    ensures var s := Put64(x);
            x == s[0] as int * 0x100_0000_0000_0000 + s[1] as int * 0x1_0000_0000_0000 + s[2] as int * 0x100_0000_0000
                 + s[3] as int * 0x1_0000_0000 + s[4] as int * 0x100_0000 + s[5] as int * 0x1_0000
                 + s[6] as int * 0x100 + s[7] as int
  {
    Put64Value(x);
    BigEndianBytes(x, 8);
    EightBytes(Put64(x));
  }

  lemma {:induction false} BigEndianBytes(x: nat, n: nat)
    ensures AreBytes(BigEndian(x, n))
  {
    if n > 0 {
      BigEndianBytes(x / 256, n - 1);
    }
  }

  lemma {:induction false} EightBytes(s: string)
    requires |s| == 8
    ensures FromBigEndian(s)
            == s[0] as int * 0x100_0000_0000_0000 + s[1] as int * 0x1_0000_0000_0000 + s[2] as int * 0x100_0000_0000
               + s[3] as int * 0x1_0000_0000 + s[4] as int * 0x100_0000 + s[5] as int * 0x1_0000
               + s[6] as int * 0x100 + s[7] as int
  {
    FourBytes(s, 0);
    FourBytes(s, 4);
    assert FromBigEndian(s[..0]) == 0 && s[..8] == s;
  }

  lemma {:induction false} FourBytes(s: string, n: nat)
    requires n + 4 <= |s|
    ensures FromBigEndian(s[..n + 4])
            == FromBigEndian(s[..n]) * 0x1_0000_0000 + s[n] as int * 0x100_0000 + s[n + 1] as int * 0x1_0000
               + s[n + 2] as int * 0x100 + s[n + 3] as int
  {
    ByteMore(s, n);
    ByteMore(s, n + 1);
    ByteMore(s, n + 2);
    ByteMore(s, n + 3);
  }

  lemma {:induction false} ByteMore(s: string, n: nat)
    requires n < |s|
    ensures FromBigEndian(s[..n + 1]) == FromBigEndian(s[..n]) * 256 + s[n] as int
  {
    assert s[..n + 1][..n] == s[..n];
  }

  function HexChar(n: nat): (c: char)
    requires n < 16
  {
    if n < 10 then ('0' as int + n) as char else ('a' as int + n - 10) as char
  }

  function HexValue(c: char): int {
    if c <= '9' then c as int - '0' as int else c as int - 'a' as int + 10
  }

  // hex.EncodeToString
  function Hex(s: string): (h: string)
    ensures |h| == 2 * |s|
  {
    if s == "" then ""
    else
      var b := s[|s| - 1] as int;
      Hex(s[..|s| - 1]) + [HexChar(b / 16 % 16), HexChar(b % 16)]
  }

  // The codes of the bytes behind a hex text.
  function UnHex(h: string): seq<int> {
    if |h| < 2 then []
    else UnHex(h[..|h| - 2]) + [16 * HexValue(h[|h| - 2]) + HexValue(h[|h| - 1])]
  }

  // Every character stands for one byte.
  predicate AreBytes(s: string) {
    forall i | 0 <= i < |s| :: (s[i] as int) < 256
  }

  lemma HexCharValue(n: nat)
    requires n < 16
    ensures HexValue(HexChar(n)) == n
  {
  }

  lemma HexByte(b: nat)
    requires b < 256
    ensures 16 * HexValue(HexChar(b / 16 % 16)) + HexValue(HexChar(b % 16)) == b
  {
    HexCharValue(b / 16 % 16);
    HexCharValue(b % 16);
  }

  lemma {:induction false} LastByte(front: string, c: char)
    requires (c as int) < 256
    ensures UnHex(Hex(front + [c])) == UnHex(Hex(front)) + [c as int]
  {
    var s := front + [c];
    assert s[..|front|] == front;
    var h, b := Hex(s), c as int;
    assert h == Hex(front) + [HexChar(b / 16 % 16), HexChar(b % 16)];
    assert h[..|h| - 2] == Hex(front);
    HexByte(b);
  }

  lemma OneMore(codes: seq<int>, front: string, c: char)
    requires |codes| == |front| && forall i | 0 <= i < |front| :: codes[i] == front[i] as int
    ensures var s := front + [c]; forall i | 0 <= i < |s| :: (codes + [c as int])[i] == s[i] as int
  {
  }

  lemma {:induction false} UnHexHex(s: string)
    requires AreBytes(s)
    ensures |UnHex(Hex(s))| == |s|
    ensures forall i | 0 <= i < |s| :: UnHex(Hex(s))[i] == s[i] as int
  {
    if s != "" {
      var front, c := s[..|s| - 1], s[|s| - 1];
      assert s == front + [c];
      UnHexHex(front);
      LastByte(front, c);
      OneMore(UnHex(Hex(front)), front, c);
    }
  }

  // Two lower-case digits for each byte.
  lemma {:induction false} HexIs(s: string, i: nat)
    requires AreBytes(s) && i < |s|
    ensures Hex(s)[2 * i] == "0123456789abcdef"[s[i] as int / 16]
    ensures Hex(s)[2 * i + 1] == "0123456789abcdef"[s[i] as int % 16]
  {
    if i < |s| - 1 {
      HexIs(s[..|s| - 1], i);
    } else {
      HexDigit(s[i] as int / 16);
      HexDigit(s[i] as int % 16);
    }
  }

  lemma HexDigit(n: nat)
    requires n < 16
    ensures HexChar(n) == "0123456789abcdef"[n]
  {
  }

  lemma {:induction false} HexInjective(s: string, t: string)
    requires AreBytes(s) && AreBytes(t)
    requires Hex(s) == Hex(t)
    ensures s == t
  {
    UnHexHex(s);
    UnHexHex(t);
    assert forall i | 0 <= i < |s| :: s[i] as int == t[i] as int;
  }
}
