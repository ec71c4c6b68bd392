/**
 * The line checksum of the protocol: CRC-16/XMODEM as listed in the CRC RevEng
 * catalogue (width 16, polynomial 0x1021, initial value 0x0000, no reflection of
 * input or output, no final XOR), computed bit by bit over the UTF-8 bytes of a
 * string and written as 4 upper-case hexadecimal digits (notdoord.py, crc_str and
 * the crc16 extension it calls).
 */
module Crc16 {

  const Poly: bv16 := 0x1021

  /** The UTF-8 encoding of one character, which str.encode() produces. */
  function Utf8Char(c: char): (b: seq<bv8>)
    ensures 1 <= |b| <= 4
    ensures c as int < 0x80 ==> b == [c as int as bv8]
  {
    var n := c as int;
    if n < 0x80 then [n as bv8]
    else if n < 0x800 then [(0xC0 + n / 0x40) as bv8, (0x80 + n % 0x40) as bv8]
    else if n < 0x1_0000 then
      [(0xE0 + n / 0x1000) as bv8, (0x80 + n / 0x40 % 0x40) as bv8, (0x80 + n % 0x40) as bv8]
    else
      [(0xF0 + n / 0x4_0000) as bv8, (0x80 + n / 0x1000 % 0x40) as bv8,
       (0x80 + n / 0x40 % 0x40) as bv8, (0x80 + n % 0x40) as bv8]
  }

  function Utf8(s: string): (b: seq<bv8>)
    ensures |s| <= |b| <= 4 * |s|
  {
    if s == [] then [] else Utf8Char(s[0]) + Utf8(s[1..])
  }

  /** Encoding is a homomorphism: the bytes of a + b are the bytes of a, then those of b. */
  lemma {:induction false} Utf8Concat(a: string, b: string)
    ensures Utf8(a + b) == Utf8(a) + Utf8(b)
  {
    if a == [] {
      assert a + b == b;
    } else {
      assert (a + b)[0] == a[0] && (a + b)[1..] == a[1..] + b;
      Utf8Concat(a[1..], b);
      calc {
        Utf8(a + b);
        Utf8Char(a[0]) + Utf8(a[1..] + b);
        Utf8Char(a[0]) + (Utf8(a[1..]) + Utf8(b));
        (Utf8Char(a[0]) + Utf8(a[1..])) + Utf8(b);
      }
    }
  }

  /**
   * One shift of the register, feeding the polynomial back when the top bit falls
   * out: 0 - (c >> 15) is all ones exactly when the top bit is set.
   */
  function CrcBit(c: bv16): bv16
  {
    (c << 1) ^ ((0 - (c >> 15)) & Poly)
  }

  /** One byte into the register, most significant bit first: eight shifts. */
  function CrcByte(c: bv16, b: bv8): bv16
  {
    var x := c ^ ((b as bv16) << 8);
    CrcBit(CrcBit(CrcBit(CrcBit(CrcBit(CrcBit(CrcBit(CrcBit(x))))))))
  }

  /** The register after feeding data, starting from c: crc16xmodem(data, c). */
  function Crc(c: bv16, data: seq<bv8>): bv16
    decreases |data|
  {
    if data == [] then c else Crc(CrcByte(c, data[0]), data[1..])
  }

  /** Feeding a then b continues the same register: the CRC is a left fold over the bytes. */
  lemma {:induction false} CrcConcat(c: bv16, a: seq<bv8>, b: seq<bv8>)
    ensures Crc(c, a + b) == Crc(Crc(c, a), b)
    decreases a
  {
    if a == [] {
      assert a + b == b;
    } else {
      assert (a + b)[0] == a[0] && (a + b)[1..] == a[1..] + b;
      CrcConcat(CrcByte(c, a[0]), a[1..], b);
    }
  }

  /** The big-endian bytes of a register value. */
  function BigEndian(c: bv16): seq<bv8>
  {
    [(c >> 8) as bv8, (c & 0xFF) as bv8]
  }

  /**
   * Feeding a register its own value leaves zero (the catalogue's residue 0x0000):
   * the high byte cancels the register's top half, and the low byte then reaches
   * the top with no feedback and cancels in turn.
   */
  lemma CrcSelf(c: bv16)
    ensures Crc(c, BigEndian(c)) == 0
  {
    var hi, lo := (c >> 8) as bv8, (c & 0xFF) as bv8;
    assert BigEndian(c) == [hi, lo];
    CrcTwo(c, hi, lo);
    HighByteCancels(c);
    LowByteCancels(lo);
  }

  /** Two bytes are two steps of the register. */
  lemma CrcTwo(c: bv16, x: bv8, y: bv8)
    ensures Crc(c, [x, y]) == CrcByte(CrcByte(c, x), y)
  {
    assert [x, y][1..] == [y] && [y][1..] == [];
    assert Crc(c, [x, y]) == Crc(CrcByte(c, x), [y]);
  }

  lemma HighByteCancels(c: bv16)
    ensures CrcByte(c, (c >> 8) as bv8) == ((c & 0xFF) as bv8 as bv16) << 8
  {
  }

  lemma LowByteCancels(lo: bv8)
    ensures CrcByte((lo as bv16) << 8, lo) == 0
  {
  }

  /** Data followed by its own CRC, high byte first, checks to zero. */
  lemma CrcResidue(data: seq<bv8>)
    ensures Crc(0, data + BigEndian(Crc(0, data))) == 0
  {
    CrcConcat(0, data, BigEndian(Crc(0, data)));
    CrcSelf(Crc(0, data));
  }

  /** An upper-case hexadecimal digit. */
  predicate IsHexDigit(c: char)
  {
    '0' <= c <= '9' || 'A' <= c <= 'F'
  }

  /** The digit that "%X" writes for a 4-bit value. */
  function HexDigit(x: bv4): (c: char)
    ensures IsHexDigit(c)
  {
    match x
    case 0 => '0'
    case 1 => '1'
    case 2 => '2'
    case 3 => '3'
    case 4 => '4'
    case 5 => '5'
    case 6 => '6'
    case 7 => '7'
    case 8 => '8'
    case 9 => '9'
    case 10 => 'A'
    case 11 => 'B'
    case 12 => 'C'
    case 13 => 'D'
    case 14 => 'E'
    case 15 => 'F'
  }

  lemma HexDigitInjective(x: bv4, y: bv4)
    requires HexDigit(x) == HexDigit(y)
    ensures x == y
  {
  }

  /** The four bits of v starting at bit shift. */
  function Nibble(v: bv16, shift: nat): bv4
    requires shift <= 12
  {
    ((v >> shift) & 0xF) as bv4
  }

  /** "%04X": four upper-case hexadecimal digits, zero-padded, most significant first. */
  function Hex4(v: bv16): (s: string)
    ensures |s| == 4
    ensures forall k :: 0 <= k < 4 ==> IsHexDigit(s[k])
  {
    [HexDigit(Nibble(v, 12)), HexDigit(Nibble(v, 8)), HexDigit(Nibble(v, 4)), HexDigit(Nibble(v, 0))]
  }

  /** A register value is determined by its four nibbles. */
  lemma NibblesDetermine(v: bv16, w: bv16)
    requires Nibble(v, 12) == Nibble(w, 12) && Nibble(v, 8) == Nibble(w, 8)
    requires Nibble(v, 4) == Nibble(w, 4) && Nibble(v, 0) == Nibble(w, 0)
    ensures v == w
  {
  }

  /** Distinct register values have distinct trailers. */
  lemma Hex4Injective(v: bv16, w: bv16)
    requires Hex4(v) == Hex4(w)
    ensures v == w
  {
    assert Hex4(v)[0] == Hex4(w)[0] && Hex4(v)[1] == Hex4(w)[1] && Hex4(v)[2] == Hex4(w)[2] && Hex4(v)[3] == Hex4(w)[3];
    HexDigitInjective(Nibble(v, 12), Nibble(w, 12));
    HexDigitInjective(Nibble(v, 8), Nibble(w, 8));
    HexDigitInjective(Nibble(v, 4), Nibble(w, 4));
    HexDigitInjective(Nibble(v, 0), Nibble(w, 0));
    NibblesDetermine(v, w);
  }

  /** The 4-bit value a hexadecimal digit stands for. */
  function DigitValue(c: char): bv4
  {
    match c
    case '0' => 0x0 case '1' => 0x1 case '2' => 0x2 case '3' => 0x3
    case '4' => 0x4 case '5' => 0x5 case '6' => 0x6 case '7' => 0x7
    case '8' => 0x8 case '9' => 0x9 case 'A' => 0xA case 'B' => 0xB
    case 'C' => 0xC case 'D' => 0xD case 'E' => 0xE case 'F' => 0xF
    case _ => 0x0
  }

  /** Each digit reads back as the nibble it was written for. */
  lemma DigitValueHexDigit(x: bv4)
    ensures DigitValue(HexDigit(x)) == x
  {
  }

  /** The four nibbles, most significant first, recombine to the value. */
  lemma NibblesRecombine(v: bv16)
    ensures (Nibble(v, 12) as bv16 << 12) | (Nibble(v, 8) as bv16 << 8) | (Nibble(v, 4) as bv16 << 4) | Nibble(v, 0) as bv16 == v
  {
  }

  /** Read back in base 16, most significant digit first, "%04X" gives the value itself. */
  lemma Hex4Value(v: bv16)
    ensures var h := Hex4(v);
      (DigitValue(h[0]) as bv16 << 12) | (DigitValue(h[1]) as bv16 << 8) | (DigitValue(h[2]) as bv16 << 4) | DigitValue(h[3]) as bv16 == v
  {
    DigitValueHexDigit(Nibble(v, 12));
    DigitValueHexDigit(Nibble(v, 8));
    DigitValueHexDigit(Nibble(v, 4));
    DigitValueHexDigit(Nibble(v, 0));
    NibblesRecombine(v);
  }

  /** crc_str: the checksum trailer of a string. */
  function CrcStr(s: string): (h: string)
    ensures |h| == 4
  {
    Hex4(Crc(0, Utf8(s)))
  }

  /** The bytes of "123456789", the catalogue's check input. */
  const CheckInput: seq<bv8> := [0x31, 0x32, 0x33, 0x34, 0x35, 0x36, 0x37, 0x38, 0x39]

  /** The register after each byte of the check input. */
  lemma CheckSteps()
    ensures CrcByte(0x0000, 0x31) == 0x2672 && CrcByte(0x2672, 0x32) == 0x20B5
    ensures CrcByte(0x20B5, 0x33) == 0x9752 && CrcByte(0x9752, 0x34) == 0xD789
    ensures CrcByte(0xD789, 0x35) == 0x546C && CrcByte(0x546C, 0x36) == 0x20E4
    ensures CrcByte(0x20E4, 0x37) == 0x86D6 && CrcByte(0x86D6, 0x38) == 0x9015
    ensures CrcByte(0x9015, 0x39) == 0x31C3
  {
  }

  /** The catalogue's check value for CRC-16/XMODEM: "123456789" gives 0x31C3. */
  lemma CheckValue()
    ensures Crc(0, CheckInput) == 0x31C3
    ensures Hex4(Crc(0, CheckInput)) == "31C3"
  {
    CheckSteps();
    CheckTrailer();
    var d := CheckInput;
    assert Crc(0, d) == Crc(0x2672, d[1..]) == Crc(0x20B5, d[2..]) == Crc(0x9752, d[3..]);
    assert Crc(0x9752, d[3..]) == Crc(0xD789, d[4..]) == Crc(0x546C, d[5..]) == Crc(0x20E4, d[6..]);
    assert Crc(0x20E4, d[6..]) == Crc(0x86D6, d[7..]) == Crc(0x9015, d[8..]) == Crc(0x31C3, d[9..]);
  }

  /** The digits of the check value. */
  lemma CheckTrailer()
    ensures Hex4(0x31C3) == "31C3"
  {
    assert Nibble(0x31C3, 12) == 3 && Nibble(0x31C3, 8) == 1 && Nibble(0x31C3, 4) == 0xC && Nibble(0x31C3, 0) == 3;
  }

  /** An ASCII character leads the encoding as its own code, one byte. */
  lemma Utf8Ascii(s: string)
    requires s != [] && s[0] as int < 0x80
    ensures Utf8(s) == [s[0] as int as bv8] + Utf8(s[1..])
  {
  }

  /** The catalogue's check string, whose bytes are the check input. */
  const CheckString: string := "123456789"

  /** Each check character is ASCII, with the code of the matching check byte. */
  lemma CheckChar(k: nat)
    requires k < 9
    ensures CheckString[k] as int == CheckInput[k] as int < 0x80
  {
  }

  lemma CharByte(c: char, b: bv8)
    requires c as int == b as int
    ensures c as int as bv8 == b
  {
  }

  /** Every suffix of the check string encodes to the same suffix of the check input. */
  lemma {:induction false} CheckTail(k: nat)
    requires k <= 9
    ensures Utf8(CheckString[k..]) == CheckInput[k..]
    decreases 9 - k
  {
    if k < 9 {
      CheckTail(k + 1);
      var t := CheckString[k..];
      assert t[0] == CheckString[k] && t[1..] == CheckString[k + 1..];
      CheckChar(k);
      CharByte(t[0], CheckInput[k]);
      Utf8Ascii(t);
      assert CheckInput[k..] == [CheckInput[k]] + CheckInput[k + 1..];
    }
  }

  /** The bytes of the check string are the check input. */
  lemma CheckBytes()
    ensures Utf8(CheckString) == CheckInput
  {
    CheckTail(0);
    assert CheckString[0..] == CheckString && CheckInput[0..] == CheckInput;
  }

  /** crc_str of the catalogue's check string is "31C3". */
  lemma CheckTrailerStr()
    ensures CrcStr(CheckString) == "31C3"
  {
    CheckBytes();
    CheckValue();
  }

  /** The empty string has the trailer "0000". */
  lemma EmptyCrcStr()
    ensures CrcStr("") == "0000"
  {
  }
}
