/** The CRC of PNG chunks: the table-driven loop computes the bit-by-bit definition. */
module Crc {
  import opened Bits

  /** One bit of the shift register (section 5.5 of the PNG specification, Second Edition). */
  function Step(c: bv32): bv32 {
    if c & 1 == 1 then 0xEDB88320 ^ (c >> 1) else c >> 1
  }

  function Step2(c: bv32): bv32 { Step(Step(c)) }

  function Step4(c: bv32): bv32 { Step2(Step2(c)) }

  function Step8(c: bv32): bv32 { Step4(Step4(c)) }

  function Xor(a: bv32, b: bv32): bv32 { a ^ b }

  function High(c: bv32): bv32 { c & 0xFFFF_FF00 }

  function Low(c: bv32): bv8 { (c & 0xff) as bv8 }

  function Shift(c: bv32): bv32 { c >> 8 }

  /** The register after a message: each byte is added to the low end and shifted out bit by bit. */
  function Register(bytes: seq<Byte>): bv32 {
    if bytes == [] then 0xFFFF_FFFF
    else AddByte(Register(bytes[..|bytes| - 1]), bytes[|bytes| - 1] as bv8)
  }

  function AddByte(c: bv32, b: bv8): bv32 {
    Step8(Xor(c, Widen(b)))
  }

  function Widen(b: bv8): bv32 {
    b as bv32
  }

  function Crc32(bytes: seq<Byte>): bv32 {
    !Register(bytes)
  }

  function Row(n: bv8, t0: bv32, t1: bv32, t2: bv32, t3: bv32, t4: bv32, t5: bv32, t6: bv32, t7: bv32): bv32 {
    var k := n & 7;
    if k == 0 then t0 else if k == 1 then t1 else if k == 2 then t2 else if k == 3 then t3
    else if k == 4 then t4 else if k == 5 then t5 else if k == 6 then t6 else t7
  }

  /** `crc_table` */
  function Table(n: bv8): bv32 {
    if n < 8 then Row(n,
      0x00000000, 0x77073096, 0xEE0E612C, 0x990951BA, 0x076DC419, 0x706AF48F, 0xE963A535, 0x9E6495A3)
    else if n < 16 then Row(n,
      0x0EDB8832, 0x79DCB8A4, 0xE0D5E91E, 0x97D2D988, 0x09B64C2B, 0x7EB17CBD, 0xE7B82D07, 0x90BF1D91)
    else if n < 24 then Row(n,
      0x1DB71064, 0x6AB020F2, 0xF3B97148, 0x84BE41DE, 0x1ADAD47D, 0x6DDDE4EB, 0xF4D4B551, 0x83D385C7)
    else if n < 32 then Row(n,
      0x136C9856, 0x646BA8C0, 0xFD62F97A, 0x8A65C9EC, 0x14015C4F, 0x63066CD9, 0xFA0F3D63, 0x8D080DF5)
    else if n < 40 then Row(n,
      0x3B6E20C8, 0x4C69105E, 0xD56041E4, 0xA2677172, 0x3C03E4D1, 0x4B04D447, 0xD20D85FD, 0xA50AB56B)
    else if n < 48 then Row(n,
      0x35B5A8FA, 0x42B2986C, 0xDBBBC9D6, 0xACBCF940, 0x32D86CE3, 0x45DF5C75, 0xDCD60DCF, 0xABD13D59)
    else if n < 56 then Row(n,
      0x26D930AC, 0x51DE003A, 0xC8D75180, 0xBFD06116, 0x21B4F4B5, 0x56B3C423, 0xCFBA9599, 0xB8BDA50F)
    else if n < 64 then Row(n,
      0x2802B89E, 0x5F058808, 0xC60CD9B2, 0xB10BE924, 0x2F6F7C87, 0x58684C11, 0xC1611DAB, 0xB6662D3D)
    else if n < 72 then Row(n,
      0x76DC4190, 0x01DB7106, 0x98D220BC, 0xEFD5102A, 0x71B18589, 0x06B6B51F, 0x9FBFE4A5, 0xE8B8D433)
    else if n < 80 then Row(n,
      0x7807C9A2, 0x0F00F934, 0x9609A88E, 0xE10E9818, 0x7F6A0DBB, 0x086D3D2D, 0x91646C97, 0xE6635C01)
    else if n < 88 then Row(n,
      0x6B6B51F4, 0x1C6C6162, 0x856530D8, 0xF262004E, 0x6C0695ED, 0x1B01A57B, 0x8208F4C1, 0xF50FC457)
    else if n < 96 then Row(n,
      0x65B0D9C6, 0x12B7E950, 0x8BBEB8EA, 0xFCB9887C, 0x62DD1DDF, 0x15DA2D49, 0x8CD37CF3, 0xFBD44C65)
    else if n < 104 then Row(n,
      0x4DB26158, 0x3AB551CE, 0xA3BC0074, 0xD4BB30E2, 0x4ADFA541, 0x3DD895D7, 0xA4D1C46D, 0xD3D6F4FB)
    else if n < 112 then Row(n,
      0x4369E96A, 0x346ED9FC, 0xAD678846, 0xDA60B8D0, 0x44042D73, 0x33031DE5, 0xAA0A4C5F, 0xDD0D7CC9)
    else if n < 120 then Row(n,
      0x5005713C, 0x270241AA, 0xBE0B1010, 0xC90C2086, 0x5768B525, 0x206F85B3, 0xB966D409, 0xCE61E49F)
    else if n < 128 then Row(n,
      0x5EDEF90E, 0x29D9C998, 0xB0D09822, 0xC7D7A8B4, 0x59B33D17, 0x2EB40D81, 0xB7BD5C3B, 0xC0BA6CAD)
    else if n < 136 then Row(n,
      0xEDB88320, 0x9ABFB3B6, 0x03B6E20C, 0x74B1D29A, 0xEAD54739, 0x9DD277AF, 0x04DB2615, 0x73DC1683)
    else if n < 144 then Row(n,
      0xE3630B12, 0x94643B84, 0x0D6D6A3E, 0x7A6A5AA8, 0xE40ECF0B, 0x9309FF9D, 0x0A00AE27, 0x7D079EB1)
    else if n < 152 then Row(n,
      0xF00F9344, 0x8708A3D2, 0x1E01F268, 0x6906C2FE, 0xF762575D, 0x806567CB, 0x196C3671, 0x6E6B06E7)
    else if n < 160 then Row(n,
      0xFED41B76, 0x89D32BE0, 0x10DA7A5A, 0x67DD4ACC, 0xF9B9DF6F, 0x8EBEEFF9, 0x17B7BE43, 0x60B08ED5)
    else if n < 168 then Row(n,
      0xD6D6A3E8, 0xA1D1937E, 0x38D8C2C4, 0x4FDFF252, 0xD1BB67F1, 0xA6BC5767, 0x3FB506DD, 0x48B2364B)
    else if n < 176 then Row(n,
      0xD80D2BDA, 0xAF0A1B4C, 0x36034AF6, 0x41047A60, 0xDF60EFC3, 0xA867DF55, 0x316E8EEF, 0x4669BE79)
    else if n < 184 then Row(n,
      0xCB61B38C, 0xBC66831A, 0x256FD2A0, 0x5268E236, 0xCC0C7795, 0xBB0B4703, 0x220216B9, 0x5505262F)
    else if n < 192 then Row(n,
      0xC5BA3BBE, 0xB2BD0B28, 0x2BB45A92, 0x5CB36A04, 0xC2D7FFA7, 0xB5D0CF31, 0x2CD99E8B, 0x5BDEAE1D)
    else if n < 200 then Row(n,
      0x9B64C2B0, 0xEC63F226, 0x756AA39C, 0x026D930A, 0x9C0906A9, 0xEB0E363F, 0x72076785, 0x05005713)
    else if n < 208 then Row(n,
      0x95BF4A82, 0xE2B87A14, 0x7BB12BAE, 0x0CB61B38, 0x92D28E9B, 0xE5D5BE0D, 0x7CDCEFB7, 0x0BDBDF21)
    else if n < 216 then Row(n,
      0x86D3D2D4, 0xF1D4E242, 0x68DDB3F8, 0x1FDA836E, 0x81BE16CD, 0xF6B9265B, 0x6FB077E1, 0x18B74777)
    else if n < 224 then Row(n,
      0x88085AE6, 0xFF0F6A70, 0x66063BCA, 0x11010B5C, 0x8F659EFF, 0xF862AE69, 0x616BFFD3, 0x166CCF45)
    else if n < 232 then Row(n,
      0xA00AE278, 0xD70DD2EE, 0x4E048354, 0x3903B3C2, 0xA7672661, 0xD06016F7, 0x4969474D, 0x3E6E77DB)
    else if n < 240 then Row(n,
      0xAED16A4A, 0xD9D65ADC, 0x40DF0B66, 0x37D83BF0, 0xA9BCAE53, 0xDEBB9EC5, 0x47B2CF7F, 0x30B5FFE9)
    else if n < 248 then Row(n,
      0xBDBDF21C, 0xCABAC28A, 0x53B39330, 0x24B4A3A6, 0xBAD03605, 0xCDD70693, 0x54DE5729, 0x23D967BF)
    else Row(n,
      0xB3667A2E, 0xC4614AB8, 0x5D681B02, 0x2A6F2B94, 0xB40BBE37, 0xC30C8EA1, 0x5A05DF1B, 0x2D02EF8D)
  }

  /** Every entry of the literal table is eight register steps of its index. */
  lemma TableIsStep8(n: bv8)
    ensures Table(n) == Step8(Widen(n))
  {
  }

  lemma XorParts(a: bv32, b: bv32)
    ensures (a ^ b) & 1 == (a & 1) ^ (b & 1)
    ensures (a ^ b) >> 1 == (a >> 1) ^ (b >> 1)
    ensures a & 1 == 0 || a & 1 == 1
    ensures b & 1 == 0 || b & 1 == 1
  {
  }

  lemma XorMoves(x: bv32, y: bv32, p: bv32)
    ensures (p ^ x) ^ (p ^ y) == x ^ y
    ensures (p ^ x) ^ y == p ^ (x ^ y)
    ensures x ^ (p ^ y) == p ^ (x ^ y)
  {
  }

  lemma StepLinear(a: bv32, b: bv32)
    ensures Step(Xor(a, b)) == Xor(Step(a), Step(b))
  {
    XorParts(a, b);
    XorMoves(a >> 1, b >> 1, 0xEDB88320);
  }

  lemma Step2Linear(a: bv32, b: bv32)
    ensures Step2(Xor(a, b)) == Xor(Step2(a), Step2(b))
  {
    StepLinear(a, b);
    StepLinear(Step(a), Step(b));
  }

  lemma Step4Linear(a: bv32, b: bv32)
    ensures Step4(Xor(a, b)) == Xor(Step4(a), Step4(b))
  {
    Step2Linear(a, b);
    Step2Linear(Step2(a), Step2(b));
  }

  /** The register steps are linear over exclusive or. */
  lemma Step8Linear(a: bv32, b: bv32)
    ensures Step8(Xor(a, b)) == Xor(Step8(a), Step8(b))
  {
    Step4Linear(a, b);
    Step4Linear(Step4(a), Step4(b));
  }

  lemma Step8High(c: bv32)
    ensures Step8(High(c)) == Shift(c)
  {
  }

  lemma LowByteBits(c: bv32, b: bv8)
    ensures c ^ Widen(b) == High(c) ^ Widen(b ^ Low(c))
  {
  }

  lemma LowByte(c: bv32, b: bv8)
    ensures Xor(c, Widen(b)) == Xor(High(c), Widen(b ^ Low(c)))
  {
    LowByteBits(c, b);
  }

  /** The loop body of `stbiw__crc32`. */
  function LookUp(c: bv32, b: bv8): bv32 {
    Xor(Shift(c), Table(b ^ Low(c)))
  }

  /** One table look-up does the work of eight register steps. */
  lemma TableStep(c: bv32, b: bv8)
    ensures LookUp(c, b) == AddByte(c, b)
  {
    var low := b ^ Low(c);
    LowByte(c, b);
    Step8Linear(High(c), Widen(low));
    Step8High(c);
    TableIsStep8(low);
  }

  /** `stbiw__crc32` */
  method ComputeCrc(buffer: seq<Byte>) returns (r: bv32)
    ensures r == Crc32(buffer)
  {
    var crc: bv32 := 0xFFFF_FFFF;
    for i := 0 to |buffer|
      invariant crc == Register(buffer[..i])
    {
      assert buffer[..i + 1][..i] == buffer[..i];
      TableStep(crc, buffer[i] as bv8);
      crc := LookUp(crc, buffer[i] as bv8);
    }
    assert buffer[..|buffer|] == buffer;
    r := !crc;
  }

  /** A 32-bit word as four bytes, high byte first. */
  function WordBytes(w: bv32): (r: seq<Byte>)
    ensures |r| == 4
  {
    [((w >> 24) & 0xff) as bv8 as int, ((w >> 16) & 0xff) as bv8 as int, ((w >> 8) & 0xff) as bv8 as int,
        (w & 0xff) as bv8 as int]
  }
}
