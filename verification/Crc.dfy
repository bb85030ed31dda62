/** The table-driven CRC-32 (`crc.c`), against the bit-by-bit computation of section 8 of RFC 1952. */
module Crc {

  const POLYNOMIAL: bv32 := 0xEDB88320

  // ----- The table, one function to a row of sixteen

  function Row0(k: bv8): bv32 {
    if k == 0 then 0x00000000 else if k == 1 then 0x77073096 else if k == 2 then 0xEE0E612C else
    if k == 3 then 0x990951BA else if k == 4 then 0x076DC419 else if k == 5 then 0x706AF48F else
    if k == 6 then 0xE963A535 else if k == 7 then 0x9E6495A3 else if k == 8 then 0x0EDB8832 else
    if k == 9 then 0x79DCB8A4 else if k == 10 then 0xE0D5E91E else if k == 11 then 0x97D2D988 else
    if k == 12 then 0x09B64C2B else if k == 13 then 0x7EB17CBD else if k == 14 then 0xE7B82D07 else
    0x90BF1D91
  }

  function Row1(k: bv8): bv32 {
    if k == 0 then 0x1DB71064 else if k == 1 then 0x6AB020F2 else if k == 2 then 0xF3B97148 else
    if k == 3 then 0x84BE41DE else if k == 4 then 0x1ADAD47D else if k == 5 then 0x6DDDE4EB else
    if k == 6 then 0xF4D4B551 else if k == 7 then 0x83D385C7 else if k == 8 then 0x136C9856 else
    if k == 9 then 0x646BA8C0 else if k == 10 then 0xFD62F97A else if k == 11 then 0x8A65C9EC else
    if k == 12 then 0x14015C4F else if k == 13 then 0x63066CD9 else if k == 14 then 0xFA0F3D63 else
    0x8D080DF5
  }

  function Row2(k: bv8): bv32 {
    if k == 0 then 0x3B6E20C8 else if k == 1 then 0x4C69105E else if k == 2 then 0xD56041E4 else
    if k == 3 then 0xA2677172 else if k == 4 then 0x3C03E4D1 else if k == 5 then 0x4B04D447 else
    if k == 6 then 0xD20D85FD else if k == 7 then 0xA50AB56B else if k == 8 then 0x35B5A8FA else
    if k == 9 then 0x42B2986C else if k == 10 then 0xDBBBC9D6 else if k == 11 then 0xACBCF940 else
    if k == 12 then 0x32D86CE3 else if k == 13 then 0x45DF5C75 else if k == 14 then 0xDCD60DCF else
    0xABD13D59
  }

  function Row3(k: bv8): bv32 {
    if k == 0 then 0x26D930AC else if k == 1 then 0x51DE003A else if k == 2 then 0xC8D75180 else
    if k == 3 then 0xBFD06116 else if k == 4 then 0x21B4F4B5 else if k == 5 then 0x56B3C423 else
    if k == 6 then 0xCFBA9599 else if k == 7 then 0xB8BDA50F else if k == 8 then 0x2802B89E else
    if k == 9 then 0x5F058808 else if k == 10 then 0xC60CD9B2 else if k == 11 then 0xB10BE924 else
    if k == 12 then 0x2F6F7C87 else if k == 13 then 0x58684C11 else if k == 14 then 0xC1611DAB else
    0xB6662D3D
  }

  function Row4(k: bv8): bv32 {
    if k == 0 then 0x76DC4190 else if k == 1 then 0x01DB7106 else if k == 2 then 0x98D220BC else
    if k == 3 then 0xEFD5102A else if k == 4 then 0x71B18589 else if k == 5 then 0x06B6B51F else
    if k == 6 then 0x9FBFE4A5 else if k == 7 then 0xE8B8D433 else if k == 8 then 0x7807C9A2 else
    if k == 9 then 0x0F00F934 else if k == 10 then 0x9609A88E else if k == 11 then 0xE10E9818 else
    if k == 12 then 0x7F6A0DBB else if k == 13 then 0x086D3D2D else if k == 14 then 0x91646C97 else
    0xE6635C01
  }

  function Row5(k: bv8): bv32 {
    if k == 0 then 0x6B6B51F4 else if k == 1 then 0x1C6C6162 else if k == 2 then 0x856530D8 else
    if k == 3 then 0xF262004E else if k == 4 then 0x6C0695ED else if k == 5 then 0x1B01A57B else
    if k == 6 then 0x8208F4C1 else if k == 7 then 0xF50FC457 else if k == 8 then 0x65B0D9C6 else
    if k == 9 then 0x12B7E950 else if k == 10 then 0x8BBEB8EA else if k == 11 then 0xFCB9887C else
    if k == 12 then 0x62DD1DDF else if k == 13 then 0x15DA2D49 else if k == 14 then 0x8CD37CF3 else
    0xFBD44C65
  }

  function Row6(k: bv8): bv32 {
    if k == 0 then 0x4DB26158 else if k == 1 then 0x3AB551CE else if k == 2 then 0xA3BC0074 else
    if k == 3 then 0xD4BB30E2 else if k == 4 then 0x4ADFA541 else if k == 5 then 0x3DD895D7 else
    if k == 6 then 0xA4D1C46D else if k == 7 then 0xD3D6F4FB else if k == 8 then 0x4369E96A else
    if k == 9 then 0x346ED9FC else if k == 10 then 0xAD678846 else if k == 11 then 0xDA60B8D0 else
    if k == 12 then 0x44042D73 else if k == 13 then 0x33031DE5 else if k == 14 then 0xAA0A4C5F else
    0xDD0D7CC9
  }

  function Row7(k: bv8): bv32 {
    if k == 0 then 0x5005713C else if k == 1 then 0x270241AA else if k == 2 then 0xBE0B1010 else
    if k == 3 then 0xC90C2086 else if k == 4 then 0x5768B525 else if k == 5 then 0x206F85B3 else
    if k == 6 then 0xB966D409 else if k == 7 then 0xCE61E49F else if k == 8 then 0x5EDEF90E else
    if k == 9 then 0x29D9C998 else if k == 10 then 0xB0D09822 else if k == 11 then 0xC7D7A8B4 else
    if k == 12 then 0x59B33D17 else if k == 13 then 0x2EB40D81 else if k == 14 then 0xB7BD5C3B else
    0xC0BA6CAD
  }

  function Row8(k: bv8): bv32 {
    if k == 0 then 0xEDB88320 else if k == 1 then 0x9ABFB3B6 else if k == 2 then 0x03B6E20C else
    if k == 3 then 0x74B1D29A else if k == 4 then 0xEAD54739 else if k == 5 then 0x9DD277AF else
    if k == 6 then 0x04DB2615 else if k == 7 then 0x73DC1683 else if k == 8 then 0xE3630B12 else
    if k == 9 then 0x94643B84 else if k == 10 then 0x0D6D6A3E else if k == 11 then 0x7A6A5AA8 else
    if k == 12 then 0xE40ECF0B else if k == 13 then 0x9309FF9D else if k == 14 then 0x0A00AE27 else
    0x7D079EB1
  }

  function Row9(k: bv8): bv32 {
    if k == 0 then 0xF00F9344 else if k == 1 then 0x8708A3D2 else if k == 2 then 0x1E01F268 else
    if k == 3 then 0x6906C2FE else if k == 4 then 0xF762575D else if k == 5 then 0x806567CB else
    if k == 6 then 0x196C3671 else if k == 7 then 0x6E6B06E7 else if k == 8 then 0xFED41B76 else
    if k == 9 then 0x89D32BE0 else if k == 10 then 0x10DA7A5A else if k == 11 then 0x67DD4ACC else
    if k == 12 then 0xF9B9DF6F else if k == 13 then 0x8EBEEFF9 else if k == 14 then 0x17B7BE43 else
    0x60B08ED5
  }

  function RowA(k: bv8): bv32 {
    if k == 0 then 0xD6D6A3E8 else if k == 1 then 0xA1D1937E else if k == 2 then 0x38D8C2C4 else
    if k == 3 then 0x4FDFF252 else if k == 4 then 0xD1BB67F1 else if k == 5 then 0xA6BC5767 else
    if k == 6 then 0x3FB506DD else if k == 7 then 0x48B2364B else if k == 8 then 0xD80D2BDA else
    if k == 9 then 0xAF0A1B4C else if k == 10 then 0x36034AF6 else if k == 11 then 0x41047A60 else
    if k == 12 then 0xDF60EFC3 else if k == 13 then 0xA867DF55 else if k == 14 then 0x316E8EEF else
    0x4669BE79
  }

  function RowB(k: bv8): bv32 {
    if k == 0 then 0xCB61B38C else if k == 1 then 0xBC66831A else if k == 2 then 0x256FD2A0 else
    if k == 3 then 0x5268E236 else if k == 4 then 0xCC0C7795 else if k == 5 then 0xBB0B4703 else
    if k == 6 then 0x220216B9 else if k == 7 then 0x5505262F else if k == 8 then 0xC5BA3BBE else
    if k == 9 then 0xB2BD0B28 else if k == 10 then 0x2BB45A92 else if k == 11 then 0x5CB36A04 else
    if k == 12 then 0xC2D7FFA7 else if k == 13 then 0xB5D0CF31 else if k == 14 then 0x2CD99E8B else
    0x5BDEAE1D
  }

  function RowC(k: bv8): bv32 {
    if k == 0 then 0x9B64C2B0 else if k == 1 then 0xEC63F226 else if k == 2 then 0x756AA39C else
    if k == 3 then 0x026D930A else if k == 4 then 0x9C0906A9 else if k == 5 then 0xEB0E363F else
    if k == 6 then 0x72076785 else if k == 7 then 0x05005713 else if k == 8 then 0x95BF4A82 else
    if k == 9 then 0xE2B87A14 else if k == 10 then 0x7BB12BAE else if k == 11 then 0x0CB61B38 else
    if k == 12 then 0x92D28E9B else if k == 13 then 0xE5D5BE0D else if k == 14 then 0x7CDCEFB7 else
    0x0BDBDF21
  }

  function RowD(k: bv8): bv32 {
    if k == 0 then 0x86D3D2D4 else if k == 1 then 0xF1D4E242 else if k == 2 then 0x68DDB3F8 else
    if k == 3 then 0x1FDA836E else if k == 4 then 0x81BE16CD else if k == 5 then 0xF6B9265B else
    if k == 6 then 0x6FB077E1 else if k == 7 then 0x18B74777 else if k == 8 then 0x88085AE6 else
    if k == 9 then 0xFF0F6A70 else if k == 10 then 0x66063BCA else if k == 11 then 0x11010B5C else
    if k == 12 then 0x8F659EFF else if k == 13 then 0xF862AE69 else if k == 14 then 0x616BFFD3 else
    0x166CCF45
  }

  function RowE(k: bv8): bv32 {
    if k == 0 then 0xA00AE278 else if k == 1 then 0xD70DD2EE else if k == 2 then 0x4E048354 else
    if k == 3 then 0x3903B3C2 else if k == 4 then 0xA7672661 else if k == 5 then 0xD06016F7 else
    if k == 6 then 0x4969474D else if k == 7 then 0x3E6E77DB else if k == 8 then 0xAED16A4A else
    if k == 9 then 0xD9D65ADC else if k == 10 then 0x40DF0B66 else if k == 11 then 0x37D83BF0 else
    if k == 12 then 0xA9BCAE53 else if k == 13 then 0xDEBB9EC5 else if k == 14 then 0x47B2CF7F else
    0x30B5FFE9
  }

  function RowF(k: bv8): bv32 {
    if k == 0 then 0xBDBDF21C else if k == 1 then 0xCABAC28A else if k == 2 then 0x53B39330 else
    if k == 3 then 0x24B4A3A6 else if k == 4 then 0xBAD03605 else if k == 5 then 0xCDD70693 else
    if k == 6 then 0x54DE5729 else if k == 7 then 0x23D967BF else if k == 8 then 0xB3667A2E else
    if k == 9 then 0xC4614AB8 else if k == 10 then 0x5D681B02 else if k == 11 then 0x2A6F2B94 else
    if k == 12 then 0xB40BBE37 else if k == 13 then 0xC30C8EA1 else if k == 14 then 0x5A05DF1B else
    0x2D02EF8D
  }

  /** crc_table[i] */
  function Table(i: bv8): bv32 {
    var (row, k) := (i >> 4, i & 15);
    if row == 0 then Row0(k) else if row == 1 then Row1(k) else if row == 2 then Row2(k) else
    if row == 3 then Row3(k) else if row == 4 then Row4(k) else if row == 5 then Row5(k) else
    if row == 6 then Row6(k) else if row == 7 then Row7(k) else if row == 8 then Row8(k) else
    if row == 9 then Row9(k) else if row == 10 then RowA(k) else if row == 11 then RowB(k) else
    if row == 12 then RowC(k) else if row == 13 then RowD(k) else if row == 14 then RowE(k) else
    RowF(k)
  }

  // ----- Bit by bit

  function Carry(x: bv32): bv32 { if x & 1 == 1 then POLYNOMIAL else 0 }

  function Half(x: bv32): bv32 { x >> 1 }

  function Xor(x: bv32, y: bv32): bv32 { x ^ y }

  /** One bit shifted out. */
  function Shift(x: bv32): bv32 { Xor(Half(x), Carry(x)) }

  function Shift2(x: bv32): bv32 { Shift(Shift(x)) }

  function Shift4(x: bv32): bv32 { Shift2(Shift2(x)) }

  /** Eight bits shifted out. */
  function Shift8(x: bv32): bv32 { Shift4(Shift4(x)) }

  /** A byte added to the low bits, and shifted out. */
  function Feed(crc: bv32, b: bv8): bv32 { Shift8(Xor(crc, b as bv32)) }

  function Index(crc: bv32, b: bv8): bv8 { b ^ ((crc & 0xFF) as bv8) }

  function High(crc: bv32): bv32 { crc & 0xFFFFFF00 }

  function Drop8(crc: bv32): bv32 { crc >> 8 }

  /** The same with the table, as crc_update has it. */
  function Lookup(crc: bv32, b: bv8): bv32 { Xor(Drop8(crc), Table(Index(crc, b))) }

  lemma Row0LowIsShifted(i: bv8)
    requires i >> 3 == 0
    ensures Row0(i & 15) == Shift8(i as bv32)
  {
  }

  lemma Row0HighIsShifted(i: bv8)
    requires i >> 3 == 1
    ensures Row0(i & 15) == Shift8(i as bv32)
  {
  }

  lemma Row0IsShifted(i: bv8)
    requires i >> 4 == 0
    ensures Row0(i & 15) == Shift8(i as bv32)
  {
    hide Row0, Shift8;
    if i >> 3 == 0 { Row0LowIsShifted(i); } else { Row0HighIsShifted(i); }
  }

  lemma Row1LowIsShifted(i: bv8)
    requires i >> 3 == 2
    ensures Row1(i & 15) == Shift8(i as bv32)
  {
  }

  lemma Row1HighIsShifted(i: bv8)
    requires i >> 3 == 3
    ensures Row1(i & 15) == Shift8(i as bv32)
  {
  }

  lemma Row1IsShifted(i: bv8)
    requires i >> 4 == 1
    ensures Row1(i & 15) == Shift8(i as bv32)
  {
    hide Row1, Shift8;
    if i >> 3 == 2 { Row1LowIsShifted(i); } else { Row1HighIsShifted(i); }
  }

  lemma Row2IsShifted(i: bv8)
    requires i >> 4 == 2
    ensures Row2(i & 15) == Shift8(i as bv32)
  {
  }

  lemma Row3IsShifted(i: bv8)
    requires i >> 4 == 3
    ensures Row3(i & 15) == Shift8(i as bv32)
  {
  }

  lemma Row4IsShifted(i: bv8)
    requires i >> 4 == 4
    ensures Row4(i & 15) == Shift8(i as bv32)
  {
  }

  lemma Row5IsShifted(i: bv8)
    requires i >> 4 == 5
    ensures Row5(i & 15) == Shift8(i as bv32)
  {
  }

  lemma Row6IsShifted(i: bv8)
    requires i >> 4 == 6
    ensures Row6(i & 15) == Shift8(i as bv32)
  {
  }

  lemma Row7IsShifted(i: bv8)
    requires i >> 4 == 7
    ensures Row7(i & 15) == Shift8(i as bv32)
  {
  }

  lemma Row8LowIsShifted(i: bv8)
    requires i >> 3 == 16
    ensures Row8(i & 15) == Shift8(i as bv32)
  {
  }

  lemma Row8HighIsShifted(i: bv8)
    requires i >> 3 == 17
    ensures Row8(i & 15) == Shift8(i as bv32)
  {
  }

  lemma Row8IsShifted(i: bv8)
    requires i >> 4 == 8
    ensures Row8(i & 15) == Shift8(i as bv32)
  {
    hide Row8, Shift8;
    if i >> 3 == 16 { Row8LowIsShifted(i); } else { Row8HighIsShifted(i); }
  }

  lemma Row9IsShifted(i: bv8)
    requires i >> 4 == 9
    ensures Row9(i & 15) == Shift8(i as bv32)
  {
  }

  lemma RowALowIsShifted(i: bv8)
    requires i >> 3 == 20
    ensures RowA(i & 15) == Shift8(i as bv32)
  {
  }

  lemma RowAHighIsShifted(i: bv8)
    requires i >> 3 == 21
    ensures RowA(i & 15) == Shift8(i as bv32)
  {
  }

  lemma RowAIsShifted(i: bv8)
    requires i >> 4 == 10
    ensures RowA(i & 15) == Shift8(i as bv32)
  {
    hide RowA, Shift8;
    if i >> 3 == 20 { RowALowIsShifted(i); } else { RowAHighIsShifted(i); }
  }

  lemma RowBIsShifted(i: bv8)
    requires i >> 4 == 11
    ensures RowB(i & 15) == Shift8(i as bv32)
  {
  }

  lemma RowCIsShifted(i: bv8)
    requires i >> 4 == 12
    ensures RowC(i & 15) == Shift8(i as bv32)
  {
  }

  lemma RowDIsShifted(i: bv8)
    requires i >> 4 == 13
    ensures RowD(i & 15) == Shift8(i as bv32)
  {
  }

  lemma RowEIsShifted(i: bv8)
    requires i >> 4 == 14
    ensures RowE(i & 15) == Shift8(i as bv32)
  {
  }

  lemma RowFIsShifted(i: bv8)
    requires i >> 4 == 15
    ensures RowF(i & 15) == Shift8(i as bv32)
  {
  }

  /** Entry i of the table is i with its eight bits shifted out. */
  lemma TableIsShifted(i: bv8)
    ensures Table(i) == Shift8(i as bv32)
  {
    hide Row0, Row1, Row2, Row3, Row4, Row5, Row6, Row7, Row8, Row9, RowA, RowB, RowC, RowD, RowE, RowF, Shift8;
    if i >> 4 == 0 { Row0IsShifted(i); }
    else if i >> 4 == 1 { Row1IsShifted(i); }
    else if i >> 4 == 2 { Row2IsShifted(i); }
    else if i >> 4 == 3 { Row3IsShifted(i); }
    else if i >> 4 == 4 { Row4IsShifted(i); }
    else if i >> 4 == 5 { Row5IsShifted(i); }
    else if i >> 4 == 6 { Row6IsShifted(i); }
    else if i >> 4 == 7 { Row7IsShifted(i); }
    else if i >> 4 == 8 { Row8IsShifted(i); }
    else if i >> 4 == 9 { Row9IsShifted(i); }
    else if i >> 4 == 10 { RowAIsShifted(i); }
    else if i >> 4 == 11 { RowBIsShifted(i); }
    else if i >> 4 == 12 { RowCIsShifted(i); }
    else if i >> 4 == 13 { RowDIsShifted(i); }
    else if i >> 4 == 14 { RowEIsShifted(i); }
    else { RowFIsShifted(i); }
  }

  // ----- Shifting is linear

  /** s is the sum, without carries, of x and y. */
  predicate Sum(s: bv32, x: bv32, y: bv32) { s ^ x ^ y == 0 }

  lemma HalfSum(s: bv32, x: bv32, y: bv32)
    requires Sum(s, x, y)
    ensures Sum(Half(s), Half(x), Half(y))
  {
  }

  lemma CarrySum(s: bv32, x: bv32, y: bv32)
    requires Sum(s, x, y)
    ensures Sum(Carry(s), Carry(x), Carry(y))
  {
  }

  lemma XorSum(s: bv32, x: bv32, y: bv32, s': bv32, x': bv32, y': bv32)
    requires Sum(s, x, y) && Sum(s', x', y')
    ensures Sum(Xor(s, s'), Xor(x, x'), Xor(y, y'))
  {
    hide Sum;
    SumsAdd(s, x, y, s', x', y');
    XorIs(s, s');
    XorIs(x, x');
    XorIs(y, y');
    hide Xor;
  }

  lemma XorIs(x: bv32, y: bv32)
    ensures x ^ y == Xor(x, y)
  {
  }

  lemma SumsAdd(s: bv32, x: bv32, y: bv32, s': bv32, x': bv32, y': bv32)
    requires Sum(s, x, y) && Sum(s', x', y')
    ensures Sum(s ^ s', x ^ x', y ^ y')
  {
    assert (s ^ s') ^ (x ^ x') ^ (y ^ y') == (s ^ x ^ y) ^ (s' ^ x' ^ y');
  }

  lemma ShiftSum(s: bv32, x: bv32, y: bv32)
    requires Sum(s, x, y)
    ensures Sum(Shift(s), Shift(x), Shift(y))
  {
    hide Sum, Carry, Half, Xor;
    HalfSum(s, x, y);
    CarrySum(s, x, y);
    XorSum(Half(s), Half(x), Half(y), Carry(s), Carry(x), Carry(y));
  }

  lemma Shift4Sum(s: bv32, x: bv32, y: bv32)
    requires Sum(s, x, y)
    ensures Sum(Shift4(s), Shift4(x), Shift4(y))
  {
    hide Sum, Shift;
    ShiftSum(s, x, y);
    ShiftSum(Shift(s), Shift(x), Shift(y));
    ShiftSum(Shift2(s), Shift2(x), Shift2(y));
    ShiftSum(Shift(Shift2(s)), Shift(Shift2(x)), Shift(Shift2(y)));
  }

  /** Zero bits are shifted out without a trace. */
  lemma ShiftZeros(x: bv32)
    requires x & 0xFF == 0
    ensures Shift8(x) == Drop8(x)
  {
  }

  /** The byte only meets the low bits. */
  lemma Halves(crc: bv32, b: bv8)
    ensures Sum(Xor(crc, b as bv32), High(crc), Index(crc, b) as bv32)
    ensures High(crc) & 0xFF == 0 && Drop8(High(crc)) == Drop8(crc)
  {
  }

  lemma SumIsXor(s: bv32, x: bv32, y: bv32)
    requires Sum(s, x, y)
    ensures s == Xor(x, y)
  {
  }

  /** One step of the table-driven loop is eight of the bit-by-bit one. */
  lemma LookupIsFeed(crc: bv32, b: bv8)
    ensures Lookup(crc, b) == Feed(crc, b)
  {
    hide Shift4, Table, Sum, Xor, High, Drop8, Index;
    Halves(crc, b);
    var (whole, high, low) := (Xor(crc, b as bv32), High(crc), Index(crc, b) as bv32);
    TableIsShifted(Index(crc, b));
    ShiftZeros(high);
    Shift4Sum(whole, high, low);
    Shift4Sum(Shift4(whole), Shift4(high), Shift4(low));
    SumIsXor(Shift8(whole), Drop8(crc), Shift8(low));
  }

  // ----- Whole messages

  /** The bit-by-bit computation over a message. */
  function BitByBit(data: seq<bv8>, crc: bv32): bv32 {
    if data == [] then crc else Feed(BitByBit(data[..|data| - 1], crc), data[|data| - 1])
  }

  /** crc_update, for data of any length */
  method Update(data: seq<bv8>, crc: bv32) returns (r: bv32)
    ensures r == BitByBit(data, crc)
  {
    hide Feed, Lookup;
    r := crc;
    for i := 0 to |data|
      invariant r == BitByBit(data[..i], crc)
    {
      assert data[..i + 1][..i] == data[..i];
      LookupIsFeed(r, data[i]);
      r := Lookup(r, data[i]);
    }
    assert data[..|data|] == data;
  }

  /** Updating over the parts in turn is updating over the whole. */
  lemma {:induction false} UpdateAppends(a: seq<bv8>, b: seq<bv8>, crc: bv32)
    ensures BitByBit(a + b, crc) == BitByBit(b, BitByBit(a, crc))
  {
    hide Feed;
    if b == [] {
      assert a + b == a;
    } else {
      UpdateAppends(a, b[..|b| - 1], crc);
      assert (a + b)[..|a + b| - 1] == a + b[..|b| - 1];
    }
  }

  /** The bytes of a key on a little-endian machine. */
  function KeyBytes(key: bv32): seq<bv8> {
    [(key & 0xFF) as bv8, ((key >> 8) & 0xFF) as bv8, ((key >> 16) & 0xFF) as bv8, (key >> 24) as bv8]
  }

  /** crc_calc32 */
  method Calc32(data: seq<bv8>) returns (r: bv32)
    ensures r == !BitByBit(data, 0xFFFFFFFF)
  {
    var crc := Update(data, 0xFFFFFFFF);
    r := !crc;
  }

  /** crc_calc16: the low half of the sum over the key and the data; key 0 switches it off. */
  method Calc16(data: seq<bv8>, key: bv32) returns (r: bv16)
    ensures key == 0 ==> r == 0
    ensures key != 0 ==>
              var bytes := [(key & 0xFF) as bv8, ((key >> 8) & 0xFF) as bv8, ((key >> 16) & 0xFF) as bv8, (key >> 24) as bv8];
              r as bv32 == !BitByBit(bytes + data, 0xFFFFFFFF) & 0xFFFF
  {
    if key == 0 { return 0; }
    hide BitByBit;
    var crc := Update(KeyBytes(key), 0xFFFFFFFF);
    UpdateAppends(KeyBytes(key), data, 0xFFFFFFFF);
    crc := Update(data, crc);
    r := (!crc & 0xFFFF) as bv16;
  }
}
