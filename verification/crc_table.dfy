/** The table crc_tab of crc32.c for little-endian machines, entry by entry. */
module CrcTable {
  function Row0(x: bv32): bv32 {
    if x == 0x00 then 0x00000000
    else if x == 0x01 then 0x77073096
    else if x == 0x02 then 0xEE0E612C
    else if x == 0x03 then 0x990951BA
    else if x == 0x04 then 0x076DC419
    else if x == 0x05 then 0x706AF48F
    else if x == 0x06 then 0xE963A535
    else if x == 0x07 then 0x9E6495A3
    else if x == 0x08 then 0x0EDB8832
    else if x == 0x09 then 0x79DCB8A4
    else if x == 0x0A then 0xE0D5E91E
    else if x == 0x0B then 0x97D2D988
    else if x == 0x0C then 0x09B64C2B
    else if x == 0x0D then 0x7EB17CBD
    else if x == 0x0E then 0xE7B82D07
    else 0x90BF1D91
  }

  function Row1(x: bv32): bv32 {
    if x == 0x10 then 0x1DB71064
    else if x == 0x11 then 0x6AB020F2
    else if x == 0x12 then 0xF3B97148
    else if x == 0x13 then 0x84BE41DE
    else if x == 0x14 then 0x1ADAD47D
    else if x == 0x15 then 0x6DDDE4EB
    else if x == 0x16 then 0xF4D4B551
    else if x == 0x17 then 0x83D385C7
    else if x == 0x18 then 0x136C9856
    else if x == 0x19 then 0x646BA8C0
    else if x == 0x1A then 0xFD62F97A
    else if x == 0x1B then 0x8A65C9EC
    else if x == 0x1C then 0x14015C4F
    else if x == 0x1D then 0x63066CD9
    else if x == 0x1E then 0xFA0F3D63
    else 0x8D080DF5
  }

  function Row2(x: bv32): bv32 {
    if x == 0x20 then 0x3B6E20C8
    else if x == 0x21 then 0x4C69105E
    else if x == 0x22 then 0xD56041E4
    else if x == 0x23 then 0xA2677172
    else if x == 0x24 then 0x3C03E4D1
    else if x == 0x25 then 0x4B04D447
    else if x == 0x26 then 0xD20D85FD
    else if x == 0x27 then 0xA50AB56B
    else if x == 0x28 then 0x35B5A8FA
    else if x == 0x29 then 0x42B2986C
    else if x == 0x2A then 0xDBBBC9D6
    else if x == 0x2B then 0xACBCF940
    else if x == 0x2C then 0x32D86CE3
    else if x == 0x2D then 0x45DF5C75
    else if x == 0x2E then 0xDCD60DCF
    else 0xABD13D59
  }

  function Row3(x: bv32): bv32 {
    if x == 0x30 then 0x26D930AC
    else if x == 0x31 then 0x51DE003A
    else if x == 0x32 then 0xC8D75180
    else if x == 0x33 then 0xBFD06116
    else if x == 0x34 then 0x21B4F4B5
    else if x == 0x35 then 0x56B3C423
    else if x == 0x36 then 0xCFBA9599
    else if x == 0x37 then 0xB8BDA50F
    else if x == 0x38 then 0x2802B89E
    else if x == 0x39 then 0x5F058808
    else if x == 0x3A then 0xC60CD9B2
    else if x == 0x3B then 0xB10BE924
    else if x == 0x3C then 0x2F6F7C87
    else if x == 0x3D then 0x58684C11
    else if x == 0x3E then 0xC1611DAB
    else 0xB6662D3D
  }

  function Row4(x: bv32): bv32 {
    if x == 0x40 then 0x76DC4190
    else if x == 0x41 then 0x01DB7106
    else if x == 0x42 then 0x98D220BC
    else if x == 0x43 then 0xEFD5102A
    else if x == 0x44 then 0x71B18589
    else if x == 0x45 then 0x06B6B51F
    else if x == 0x46 then 0x9FBFE4A5
    else if x == 0x47 then 0xE8B8D433
    else if x == 0x48 then 0x7807C9A2
    else if x == 0x49 then 0x0F00F934
    else if x == 0x4A then 0x9609A88E
    else if x == 0x4B then 0xE10E9818
    else if x == 0x4C then 0x7F6A0DBB
    else if x == 0x4D then 0x086D3D2D
    else if x == 0x4E then 0x91646C97
    else 0xE6635C01
  }

  function Row5(x: bv32): bv32 {
    if x == 0x50 then 0x6B6B51F4
    else if x == 0x51 then 0x1C6C6162
    else if x == 0x52 then 0x856530D8
    else if x == 0x53 then 0xF262004E
    else if x == 0x54 then 0x6C0695ED
    else if x == 0x55 then 0x1B01A57B
    else if x == 0x56 then 0x8208F4C1
    else if x == 0x57 then 0xF50FC457
    else if x == 0x58 then 0x65B0D9C6
    else if x == 0x59 then 0x12B7E950
    else if x == 0x5A then 0x8BBEB8EA
    else if x == 0x5B then 0xFCB9887C
    else if x == 0x5C then 0x62DD1DDF
    else if x == 0x5D then 0x15DA2D49
    else if x == 0x5E then 0x8CD37CF3
    else 0xFBD44C65
  }

  function Row6(x: bv32): bv32 {
    if x == 0x60 then 0x4DB26158
    else if x == 0x61 then 0x3AB551CE
    else if x == 0x62 then 0xA3BC0074
    else if x == 0x63 then 0xD4BB30E2
    else if x == 0x64 then 0x4ADFA541
    else if x == 0x65 then 0x3DD895D7
    else if x == 0x66 then 0xA4D1C46D
    else if x == 0x67 then 0xD3D6F4FB
    else if x == 0x68 then 0x4369E96A
    else if x == 0x69 then 0x346ED9FC
    else if x == 0x6A then 0xAD678846
    else if x == 0x6B then 0xDA60B8D0
    else if x == 0x6C then 0x44042D73
    else if x == 0x6D then 0x33031DE5
    else if x == 0x6E then 0xAA0A4C5F
    else 0xDD0D7CC9
  }

  function Row7(x: bv32): bv32 {
    if x == 0x70 then 0x5005713C
    else if x == 0x71 then 0x270241AA
    else if x == 0x72 then 0xBE0B1010
    else if x == 0x73 then 0xC90C2086
    else if x == 0x74 then 0x5768B525
    else if x == 0x75 then 0x206F85B3
    else if x == 0x76 then 0xB966D409
    else if x == 0x77 then 0xCE61E49F
    else if x == 0x78 then 0x5EDEF90E
    else if x == 0x79 then 0x29D9C998
    else if x == 0x7A then 0xB0D09822
    else if x == 0x7B then 0xC7D7A8B4
    else if x == 0x7C then 0x59B33D17
    else if x == 0x7D then 0x2EB40D81
    else if x == 0x7E then 0xB7BD5C3B
    else 0xC0BA6CAD
  }

  function Row8(x: bv32): bv32 {
    if x == 0x80 then 0xEDB88320
    else if x == 0x81 then 0x9ABFB3B6
    else if x == 0x82 then 0x03B6E20C
    else if x == 0x83 then 0x74B1D29A
    else if x == 0x84 then 0xEAD54739
    else if x == 0x85 then 0x9DD277AF
    else if x == 0x86 then 0x04DB2615
    else if x == 0x87 then 0x73DC1683
    else if x == 0x88 then 0xE3630B12
    else if x == 0x89 then 0x94643B84
    else if x == 0x8A then 0x0D6D6A3E
    else if x == 0x8B then 0x7A6A5AA8
    else if x == 0x8C then 0xE40ECF0B
    else if x == 0x8D then 0x9309FF9D
    else if x == 0x8E then 0x0A00AE27
    else 0x7D079EB1
  }

  function Row9(x: bv32): bv32 {
    if x == 0x90 then 0xF00F9344
    else if x == 0x91 then 0x8708A3D2
    else if x == 0x92 then 0x1E01F268
    else if x == 0x93 then 0x6906C2FE
    else if x == 0x94 then 0xF762575D
    else if x == 0x95 then 0x806567CB
    else if x == 0x96 then 0x196C3671
    else if x == 0x97 then 0x6E6B06E7
    else if x == 0x98 then 0xFED41B76
    else if x == 0x99 then 0x89D32BE0
    else if x == 0x9A then 0x10DA7A5A
    else if x == 0x9B then 0x67DD4ACC
    else if x == 0x9C then 0xF9B9DF6F
    else if x == 0x9D then 0x8EBEEFF9
    else if x == 0x9E then 0x17B7BE43
    else 0x60B08ED5
  }

  function RowA(x: bv32): bv32 {
    if x == 0xA0 then 0xD6D6A3E8
    else if x == 0xA1 then 0xA1D1937E
    else if x == 0xA2 then 0x38D8C2C4
    else if x == 0xA3 then 0x4FDFF252
    else if x == 0xA4 then 0xD1BB67F1
    else if x == 0xA5 then 0xA6BC5767
    else if x == 0xA6 then 0x3FB506DD
    else if x == 0xA7 then 0x48B2364B
    else if x == 0xA8 then 0xD80D2BDA
    else if x == 0xA9 then 0xAF0A1B4C
    else if x == 0xAA then 0x36034AF6
    else if x == 0xAB then 0x41047A60
    else if x == 0xAC then 0xDF60EFC3
    else if x == 0xAD then 0xA867DF55
    else if x == 0xAE then 0x316E8EEF
    else 0x4669BE79
  }

  function RowB(x: bv32): bv32 {
    if x == 0xB0 then 0xCB61B38C
    else if x == 0xB1 then 0xBC66831A
    else if x == 0xB2 then 0x256FD2A0
    else if x == 0xB3 then 0x5268E236
    else if x == 0xB4 then 0xCC0C7795
    else if x == 0xB5 then 0xBB0B4703
    else if x == 0xB6 then 0x220216B9
    else if x == 0xB7 then 0x5505262F
    else if x == 0xB8 then 0xC5BA3BBE
    else if x == 0xB9 then 0xB2BD0B28
    else if x == 0xBA then 0x2BB45A92
    else if x == 0xBB then 0x5CB36A04
    else if x == 0xBC then 0xC2D7FFA7
    else if x == 0xBD then 0xB5D0CF31
    else if x == 0xBE then 0x2CD99E8B
    else 0x5BDEAE1D
  }

  function RowC(x: bv32): bv32 {
    if x == 0xC0 then 0x9B64C2B0
    else if x == 0xC1 then 0xEC63F226
    else if x == 0xC2 then 0x756AA39C
    else if x == 0xC3 then 0x026D930A
    else if x == 0xC4 then 0x9C0906A9
    else if x == 0xC5 then 0xEB0E363F
    else if x == 0xC6 then 0x72076785
    else if x == 0xC7 then 0x05005713
    else if x == 0xC8 then 0x95BF4A82
    else if x == 0xC9 then 0xE2B87A14
    else if x == 0xCA then 0x7BB12BAE
    else if x == 0xCB then 0x0CB61B38
    else if x == 0xCC then 0x92D28E9B
    else if x == 0xCD then 0xE5D5BE0D
    else if x == 0xCE then 0x7CDCEFB7
    else 0x0BDBDF21
  }

  function RowD(x: bv32): bv32 {
    if x == 0xD0 then 0x86D3D2D4
    else if x == 0xD1 then 0xF1D4E242
    else if x == 0xD2 then 0x68DDB3F8
    else if x == 0xD3 then 0x1FDA836E
    else if x == 0xD4 then 0x81BE16CD
    else if x == 0xD5 then 0xF6B9265B
    else if x == 0xD6 then 0x6FB077E1
    else if x == 0xD7 then 0x18B74777
    else if x == 0xD8 then 0x88085AE6
    else if x == 0xD9 then 0xFF0F6A70
    else if x == 0xDA then 0x66063BCA
    else if x == 0xDB then 0x11010B5C
    else if x == 0xDC then 0x8F659EFF
    else if x == 0xDD then 0xF862AE69
    else if x == 0xDE then 0x616BFFD3
    else 0x166CCF45
  }

  function RowE(x: bv32): bv32 {
    if x == 0xE0 then 0xA00AE278
    else if x == 0xE1 then 0xD70DD2EE
    else if x == 0xE2 then 0x4E048354
    else if x == 0xE3 then 0x3903B3C2
    else if x == 0xE4 then 0xA7672661
    else if x == 0xE5 then 0xD06016F7
    else if x == 0xE6 then 0x4969474D
    else if x == 0xE7 then 0x3E6E77DB
    else if x == 0xE8 then 0xAED16A4A
    else if x == 0xE9 then 0xD9D65ADC
    else if x == 0xEA then 0x40DF0B66
    else if x == 0xEB then 0x37D83BF0
    else if x == 0xEC then 0xA9BCAE53
    else if x == 0xED then 0xDEBB9EC5
    else if x == 0xEE then 0x47B2CF7F
    else 0x30B5FFE9
  }

  function RowF(x: bv32): bv32 {
    if x == 0xF0 then 0xBDBDF21C
    else if x == 0xF1 then 0xCABAC28A
    else if x == 0xF2 then 0x53B39330
    else if x == 0xF3 then 0x24B4A3A6
    else if x == 0xF4 then 0xBAD03605
    else if x == 0xF5 then 0xCDD70693
    else if x == 0xF6 then 0x54DE5729
    else if x == 0xF7 then 0x23D967BF
    else if x == 0xF8 then 0xB3667A2E
    else if x == 0xF9 then 0xC4614AB8
    else if x == 0xFA then 0x5D681B02
    else if x == 0xFB then 0x2A6F2B94
    else if x == 0xFC then 0xB40BBE37
    else if x == 0xFD then 0xC30C8EA1
    else if x == 0xFE then 0x5A05DF1B
    else 0x2D02EF8D
  }

  /** crc_tab[x] */
  function CrcTab(x: bv32): bv32
    requires x < 0x100
  {
    if x < 0x10 then Row0(x)
    else if x < 0x20 then Row1(x)
    else if x < 0x30 then Row2(x)
    else if x < 0x40 then Row3(x)
    else if x < 0x50 then Row4(x)
    else if x < 0x60 then Row5(x)
    else if x < 0x70 then Row6(x)
    else if x < 0x80 then Row7(x)
    else if x < 0x90 then Row8(x)
    else if x < 0xA0 then Row9(x)
    else if x < 0xB0 then RowA(x)
    else if x < 0xC0 then RowB(x)
    else if x < 0xD0 then RowC(x)
    else if x < 0xE0 then RowD(x)
    else if x < 0xF0 then RowE(x)
    else RowF(x)
  }
}
