/**
 * The lookup tables of AES, as decision trees over the index octet, and the equations that tie
 * them together: the S-boxes are mutual inverses, and the 32-bit tables hold their outputs
 * multiplied by the columns of MixColumns and InvMixColumns. The first S-box is the one that FIPS 197
 * defines by inverses in GF(2^8).
 */
module AesTables {
  import opened Blocks

  // sbox
  function Sbox(x: byte): byte {
    if x < 0x20 then Sbox0(x)
    else if x < 0x40 then Sbox1(x)
    else if x < 0x60 then Sbox2(x)
    else if x < 0x80 then Sbox3(x)
    else if x < 0xA0 then Sbox4(x)
    else if x < 0xC0 then Sbox5(x)
    else if x < 0xE0 then Sbox6(x)
    else Sbox7(x)
  }

  function Sbox0(x: byte): byte {
    if x < 0x10 then (
      if x < 0x08 then (
        if x < 0x04 then (
          if x < 0x02 then (if x < 0x01 then 0x63 else 0x7C) else (if x < 0x03 then 0x77 else 0x7B)
        ) else (
          if x < 0x06 then (if x < 0x05 then 0xF2 else 0x6B) else (if x < 0x07 then 0x6F else 0xC5)
        )
      ) else (
        if x < 0x0C then (
          if x < 0x0A then (if x < 0x09 then 0x30 else 0x01) else (if x < 0x0B then 0x67 else 0x2B)
        ) else (
          if x < 0x0E then (if x < 0x0D then 0xFE else 0xD7) else (if x < 0x0F then 0xAB else 0x76)
        )
      )
    ) else (
      if x < 0x18 then (
        if x < 0x14 then (
          if x < 0x12 then (if x < 0x11 then 0xCA else 0x82) else (if x < 0x13 then 0xC9 else 0x7D)
        ) else (
          if x < 0x16 then (if x < 0x15 then 0xFA else 0x59) else (if x < 0x17 then 0x47 else 0xF0)
        )
      ) else (
        if x < 0x1C then (
          if x < 0x1A then (if x < 0x19 then 0xAD else 0xD4) else (if x < 0x1B then 0xA2 else 0xAF)
        ) else (
          if x < 0x1E then (if x < 0x1D then 0x9C else 0xA4) else (if x < 0x1F then 0x72 else 0xC0)
        )
      )
    )
  }

  function Sbox1(x: byte): byte {
    if x < 0x30 then (
      if x < 0x28 then (
        if x < 0x24 then (
          if x < 0x22 then (if x < 0x21 then 0xB7 else 0xFD) else (if x < 0x23 then 0x93 else 0x26)
        ) else (
          if x < 0x26 then (if x < 0x25 then 0x36 else 0x3F) else (if x < 0x27 then 0xF7 else 0xCC)
        )
      ) else (
        if x < 0x2C then (
          if x < 0x2A then (if x < 0x29 then 0x34 else 0xA5) else (if x < 0x2B then 0xE5 else 0xF1)
        ) else (
          if x < 0x2E then (if x < 0x2D then 0x71 else 0xD8) else (if x < 0x2F then 0x31 else 0x15)
        )
      )
    ) else (
      if x < 0x38 then (
        if x < 0x34 then (
          if x < 0x32 then (if x < 0x31 then 0x04 else 0xC7) else (if x < 0x33 then 0x23 else 0xC3)
        ) else (
          if x < 0x36 then (if x < 0x35 then 0x18 else 0x96) else (if x < 0x37 then 0x05 else 0x9A)
        )
      ) else (
        if x < 0x3C then (
          if x < 0x3A then (if x < 0x39 then 0x07 else 0x12) else (if x < 0x3B then 0x80 else 0xE2)
        ) else (
          if x < 0x3E then (if x < 0x3D then 0xEB else 0x27) else (if x < 0x3F then 0xB2 else 0x75)
        )
      )
    )
  }

  function Sbox2(x: byte): byte {
    if x < 0x50 then (
      if x < 0x48 then (
        if x < 0x44 then (
          if x < 0x42 then (if x < 0x41 then 0x09 else 0x83) else (if x < 0x43 then 0x2C else 0x1A)
        ) else (
          if x < 0x46 then (if x < 0x45 then 0x1B else 0x6E) else (if x < 0x47 then 0x5A else 0xA0)
        )
      ) else (
        if x < 0x4C then (
          if x < 0x4A then (if x < 0x49 then 0x52 else 0x3B) else (if x < 0x4B then 0xD6 else 0xB3)
        ) else (
          if x < 0x4E then (if x < 0x4D then 0x29 else 0xE3) else (if x < 0x4F then 0x2F else 0x84)
        )
      )
    ) else (
      if x < 0x58 then (
        if x < 0x54 then (
          if x < 0x52 then (if x < 0x51 then 0x53 else 0xD1) else (if x < 0x53 then 0x00 else 0xED)
        ) else (
          if x < 0x56 then (if x < 0x55 then 0x20 else 0xFC) else (if x < 0x57 then 0xB1 else 0x5B)
        )
      ) else (
        if x < 0x5C then (
          if x < 0x5A then (if x < 0x59 then 0x6A else 0xCB) else (if x < 0x5B then 0xBE else 0x39)
        ) else (
          if x < 0x5E then (if x < 0x5D then 0x4A else 0x4C) else (if x < 0x5F then 0x58 else 0xCF)
        )
      )
    )
  }

  function Sbox3(x: byte): byte {
    if x < 0x70 then (
      if x < 0x68 then (
        if x < 0x64 then (
          if x < 0x62 then (if x < 0x61 then 0xD0 else 0xEF) else (if x < 0x63 then 0xAA else 0xFB)
        ) else (
          if x < 0x66 then (if x < 0x65 then 0x43 else 0x4D) else (if x < 0x67 then 0x33 else 0x85)
        )
      ) else (
        if x < 0x6C then (
          if x < 0x6A then (if x < 0x69 then 0x45 else 0xF9) else (if x < 0x6B then 0x02 else 0x7F)
        ) else (
          if x < 0x6E then (if x < 0x6D then 0x50 else 0x3C) else (if x < 0x6F then 0x9F else 0xA8)
        )
      )
    ) else (
      if x < 0x78 then (
        if x < 0x74 then (
          if x < 0x72 then (if x < 0x71 then 0x51 else 0xA3) else (if x < 0x73 then 0x40 else 0x8F)
        ) else (
          if x < 0x76 then (if x < 0x75 then 0x92 else 0x9D) else (if x < 0x77 then 0x38 else 0xF5)
        )
      ) else (
        if x < 0x7C then (
          if x < 0x7A then (if x < 0x79 then 0xBC else 0xB6) else (if x < 0x7B then 0xDA else 0x21)
        ) else (
          if x < 0x7E then (if x < 0x7D then 0x10 else 0xFF) else (if x < 0x7F then 0xF3 else 0xD2)
        )
      )
    )
  }

  function Sbox4(x: byte): byte {
    if x < 0x90 then (
      if x < 0x88 then (
        if x < 0x84 then (
          if x < 0x82 then (if x < 0x81 then 0xCD else 0x0C) else (if x < 0x83 then 0x13 else 0xEC)
        ) else (
          if x < 0x86 then (if x < 0x85 then 0x5F else 0x97) else (if x < 0x87 then 0x44 else 0x17)
        )
      ) else (
        if x < 0x8C then (
          if x < 0x8A then (if x < 0x89 then 0xC4 else 0xA7) else (if x < 0x8B then 0x7E else 0x3D)
        ) else (
          if x < 0x8E then (if x < 0x8D then 0x64 else 0x5D) else (if x < 0x8F then 0x19 else 0x73)
        )
      )
    ) else (
      if x < 0x98 then (
        if x < 0x94 then (
          if x < 0x92 then (if x < 0x91 then 0x60 else 0x81) else (if x < 0x93 then 0x4F else 0xDC)
        ) else (
          if x < 0x96 then (if x < 0x95 then 0x22 else 0x2A) else (if x < 0x97 then 0x90 else 0x88)
        )
      ) else (
        if x < 0x9C then (
          if x < 0x9A then (if x < 0x99 then 0x46 else 0xEE) else (if x < 0x9B then 0xB8 else 0x14)
        ) else (
          if x < 0x9E then (if x < 0x9D then 0xDE else 0x5E) else (if x < 0x9F then 0x0B else 0xDB)
        )
      )
    )
  }

  function Sbox5(x: byte): byte {
    if x < 0xB0 then (
      if x < 0xA8 then (
        if x < 0xA4 then (
          if x < 0xA2 then (if x < 0xA1 then 0xE0 else 0x32) else (if x < 0xA3 then 0x3A else 0x0A)
        ) else (
          if x < 0xA6 then (if x < 0xA5 then 0x49 else 0x06) else (if x < 0xA7 then 0x24 else 0x5C)
        )
      ) else (
        if x < 0xAC then (
          if x < 0xAA then (if x < 0xA9 then 0xC2 else 0xD3) else (if x < 0xAB then 0xAC else 0x62)
        ) else (
          if x < 0xAE then (if x < 0xAD then 0x91 else 0x95) else (if x < 0xAF then 0xE4 else 0x79)
        )
      )
    ) else (
      if x < 0xB8 then (
        if x < 0xB4 then (
          if x < 0xB2 then (if x < 0xB1 then 0xE7 else 0xC8) else (if x < 0xB3 then 0x37 else 0x6D)
        ) else (
          if x < 0xB6 then (if x < 0xB5 then 0x8D else 0xD5) else (if x < 0xB7 then 0x4E else 0xA9)
        )
      ) else (
        if x < 0xBC then (
          if x < 0xBA then (if x < 0xB9 then 0x6C else 0x56) else (if x < 0xBB then 0xF4 else 0xEA)
        ) else (
          if x < 0xBE then (if x < 0xBD then 0x65 else 0x7A) else (if x < 0xBF then 0xAE else 0x08)
        )
      )
    )
  }

  function Sbox6(x: byte): byte {
    if x < 0xD0 then (
      if x < 0xC8 then (
        if x < 0xC4 then (
          if x < 0xC2 then (if x < 0xC1 then 0xBA else 0x78) else (if x < 0xC3 then 0x25 else 0x2E)
        ) else (
          if x < 0xC6 then (if x < 0xC5 then 0x1C else 0xA6) else (if x < 0xC7 then 0xB4 else 0xC6)
        )
      ) else (
        if x < 0xCC then (
          if x < 0xCA then (if x < 0xC9 then 0xE8 else 0xDD) else (if x < 0xCB then 0x74 else 0x1F)
        ) else (
          if x < 0xCE then (if x < 0xCD then 0x4B else 0xBD) else (if x < 0xCF then 0x8B else 0x8A)
        )
      )
    ) else (
      if x < 0xD8 then (
        if x < 0xD4 then (
          if x < 0xD2 then (if x < 0xD1 then 0x70 else 0x3E) else (if x < 0xD3 then 0xB5 else 0x66)
        ) else (
          if x < 0xD6 then (if x < 0xD5 then 0x48 else 0x03) else (if x < 0xD7 then 0xF6 else 0x0E)
        )
      ) else (
        if x < 0xDC then (
          if x < 0xDA then (if x < 0xD9 then 0x61 else 0x35) else (if x < 0xDB then 0x57 else 0xB9)
        ) else (
          if x < 0xDE then (if x < 0xDD then 0x86 else 0xC1) else (if x < 0xDF then 0x1D else 0x9E)
        )
      )
    )
  }

  function Sbox7(x: byte): byte {
    if x < 0xF0 then (
      if x < 0xE8 then (
        if x < 0xE4 then (
          if x < 0xE2 then (if x < 0xE1 then 0xE1 else 0xF8) else (if x < 0xE3 then 0x98 else 0x11)
        ) else (
          if x < 0xE6 then (if x < 0xE5 then 0x69 else 0xD9) else (if x < 0xE7 then 0x8E else 0x94)
        )
      ) else (
        if x < 0xEC then (
          if x < 0xEA then (if x < 0xE9 then 0x9B else 0x1E) else (if x < 0xEB then 0x87 else 0xE9)
        ) else (
          if x < 0xEE then (if x < 0xED then 0xCE else 0x55) else (if x < 0xEF then 0x28 else 0xDF)
        )
      )
    ) else (
      if x < 0xF8 then (
        if x < 0xF4 then (
          if x < 0xF2 then (if x < 0xF1 then 0x8C else 0xA1) else (if x < 0xF3 then 0x89 else 0x0D)
        ) else (
          if x < 0xF6 then (if x < 0xF5 then 0xBF else 0xE6) else (if x < 0xF7 then 0x42 else 0x68)
        )
      ) else (
        if x < 0xFC then (
          if x < 0xFA then (if x < 0xF9 then 0x41 else 0x99) else (if x < 0xFB then 0x2D else 0x0F)
        ) else (
          if x < 0xFE then (if x < 0xFD then 0xB0 else 0x54) else (if x < 0xFF then 0xBB else 0x16)
        )
      )
    )
  }

  // isbox
  function InvSbox(x: byte): byte {
    if x < 0x20 then InvSbox0(x)
    else if x < 0x40 then InvSbox1(x)
    else if x < 0x60 then InvSbox2(x)
    else if x < 0x80 then InvSbox3(x)
    else if x < 0xA0 then InvSbox4(x)
    else if x < 0xC0 then InvSbox5(x)
    else if x < 0xE0 then InvSbox6(x)
    else InvSbox7(x)
  }

  function InvSbox0(x: byte): byte {
    if x < 0x10 then (
      if x < 0x08 then (
        if x < 0x04 then (
          if x < 0x02 then (if x < 0x01 then 0x52 else 0x09) else (if x < 0x03 then 0x6A else 0xD5)
        ) else (
          if x < 0x06 then (if x < 0x05 then 0x30 else 0x36) else (if x < 0x07 then 0xA5 else 0x38)
        )
      ) else (
        if x < 0x0C then (
          if x < 0x0A then (if x < 0x09 then 0xBF else 0x40) else (if x < 0x0B then 0xA3 else 0x9E)
        ) else (
          if x < 0x0E then (if x < 0x0D then 0x81 else 0xF3) else (if x < 0x0F then 0xD7 else 0xFB)
        )
      )
    ) else (
      if x < 0x18 then (
        if x < 0x14 then (
          if x < 0x12 then (if x < 0x11 then 0x7C else 0xE3) else (if x < 0x13 then 0x39 else 0x82)
        ) else (
          if x < 0x16 then (if x < 0x15 then 0x9B else 0x2F) else (if x < 0x17 then 0xFF else 0x87)
        )
      ) else (
        if x < 0x1C then (
          if x < 0x1A then (if x < 0x19 then 0x34 else 0x8E) else (if x < 0x1B then 0x43 else 0x44)
        ) else (
          if x < 0x1E then (if x < 0x1D then 0xC4 else 0xDE) else (if x < 0x1F then 0xE9 else 0xCB)
        )
      )
    )
  }

  function InvSbox1(x: byte): byte {
    if x < 0x30 then (
      if x < 0x28 then (
        if x < 0x24 then (
          if x < 0x22 then (if x < 0x21 then 0x54 else 0x7B) else (if x < 0x23 then 0x94 else 0x32)
        ) else (
          if x < 0x26 then (if x < 0x25 then 0xA6 else 0xC2) else (if x < 0x27 then 0x23 else 0x3D)
        )
      ) else (
        if x < 0x2C then (
          if x < 0x2A then (if x < 0x29 then 0xEE else 0x4C) else (if x < 0x2B then 0x95 else 0x0B)
        ) else (
          if x < 0x2E then (if x < 0x2D then 0x42 else 0xFA) else (if x < 0x2F then 0xC3 else 0x4E)
        )
      )
    ) else (
      if x < 0x38 then (
        if x < 0x34 then (
          if x < 0x32 then (if x < 0x31 then 0x08 else 0x2E) else (if x < 0x33 then 0xA1 else 0x66)
        ) else (
          if x < 0x36 then (if x < 0x35 then 0x28 else 0xD9) else (if x < 0x37 then 0x24 else 0xB2)
        )
      ) else (
        if x < 0x3C then (
          if x < 0x3A then (if x < 0x39 then 0x76 else 0x5B) else (if x < 0x3B then 0xA2 else 0x49)
        ) else (
          if x < 0x3E then (if x < 0x3D then 0x6D else 0x8B) else (if x < 0x3F then 0xD1 else 0x25)
        )
      )
    )
  }

  function InvSbox2(x: byte): byte {
    if x < 0x50 then (
      if x < 0x48 then (
        if x < 0x44 then (
          if x < 0x42 then (if x < 0x41 then 0x72 else 0xF8) else (if x < 0x43 then 0xF6 else 0x64)
        ) else (
          if x < 0x46 then (if x < 0x45 then 0x86 else 0x68) else (if x < 0x47 then 0x98 else 0x16)
        )
      ) else (
        if x < 0x4C then (
          if x < 0x4A then (if x < 0x49 then 0xD4 else 0xA4) else (if x < 0x4B then 0x5C else 0xCC)
        ) else (
          if x < 0x4E then (if x < 0x4D then 0x5D else 0x65) else (if x < 0x4F then 0xB6 else 0x92)
        )
      )
    ) else (
      if x < 0x58 then (
        if x < 0x54 then (
          if x < 0x52 then (if x < 0x51 then 0x6C else 0x70) else (if x < 0x53 then 0x48 else 0x50)
        ) else (
          if x < 0x56 then (if x < 0x55 then 0xFD else 0xED) else (if x < 0x57 then 0xB9 else 0xDA)
        )
      ) else (
        if x < 0x5C then (
          if x < 0x5A then (if x < 0x59 then 0x5E else 0x15) else (if x < 0x5B then 0x46 else 0x57)
        ) else (
          if x < 0x5E then (if x < 0x5D then 0xA7 else 0x8D) else (if x < 0x5F then 0x9D else 0x84)
        )
      )
    )
  }

  function InvSbox3(x: byte): byte {
    if x < 0x70 then (
      if x < 0x68 then (
        if x < 0x64 then (
          if x < 0x62 then (if x < 0x61 then 0x90 else 0xD8) else (if x < 0x63 then 0xAB else 0x00)
        ) else (
          if x < 0x66 then (if x < 0x65 then 0x8C else 0xBC) else (if x < 0x67 then 0xD3 else 0x0A)
        )
      ) else (
        if x < 0x6C then (
          if x < 0x6A then (if x < 0x69 then 0xF7 else 0xE4) else (if x < 0x6B then 0x58 else 0x05)
        ) else (
          if x < 0x6E then (if x < 0x6D then 0xB8 else 0xB3) else (if x < 0x6F then 0x45 else 0x06)
        )
      )
    ) else (
      if x < 0x78 then (
        if x < 0x74 then (
          if x < 0x72 then (if x < 0x71 then 0xD0 else 0x2C) else (if x < 0x73 then 0x1E else 0x8F)
        ) else (
          if x < 0x76 then (if x < 0x75 then 0xCA else 0x3F) else (if x < 0x77 then 0x0F else 0x02)
        )
      ) else (
        if x < 0x7C then (
          if x < 0x7A then (if x < 0x79 then 0xC1 else 0xAF) else (if x < 0x7B then 0xBD else 0x03)
        ) else (
          if x < 0x7E then (if x < 0x7D then 0x01 else 0x13) else (if x < 0x7F then 0x8A else 0x6B)
        )
      )
    )
  }

  function InvSbox4(x: byte): byte {
    if x < 0x90 then (
      if x < 0x88 then (
        if x < 0x84 then (
          if x < 0x82 then (if x < 0x81 then 0x3A else 0x91) else (if x < 0x83 then 0x11 else 0x41)
        ) else (
          if x < 0x86 then (if x < 0x85 then 0x4F else 0x67) else (if x < 0x87 then 0xDC else 0xEA)
        )
      ) else (
        if x < 0x8C then (
          if x < 0x8A then (if x < 0x89 then 0x97 else 0xF2) else (if x < 0x8B then 0xCF else 0xCE)
        ) else (
          if x < 0x8E then (if x < 0x8D then 0xF0 else 0xB4) else (if x < 0x8F then 0xE6 else 0x73)
        )
      )
    ) else (
      if x < 0x98 then (
        if x < 0x94 then (
          if x < 0x92 then (if x < 0x91 then 0x96 else 0xAC) else (if x < 0x93 then 0x74 else 0x22)
        ) else (
          if x < 0x96 then (if x < 0x95 then 0xE7 else 0xAD) else (if x < 0x97 then 0x35 else 0x85)
        )
      ) else (
        if x < 0x9C then (
          if x < 0x9A then (if x < 0x99 then 0xE2 else 0xF9) else (if x < 0x9B then 0x37 else 0xE8)
        ) else (
          if x < 0x9E then (if x < 0x9D then 0x1C else 0x75) else (if x < 0x9F then 0xDF else 0x6E)
        )
      )
    )
  }

  function InvSbox5(x: byte): byte {
    if x < 0xB0 then (
      if x < 0xA8 then (
        if x < 0xA4 then (
          if x < 0xA2 then (if x < 0xA1 then 0x47 else 0xF1) else (if x < 0xA3 then 0x1A else 0x71)
        ) else (
          if x < 0xA6 then (if x < 0xA5 then 0x1D else 0x29) else (if x < 0xA7 then 0xC5 else 0x89)
        )
      ) else (
        if x < 0xAC then (
          if x < 0xAA then (if x < 0xA9 then 0x6F else 0xB7) else (if x < 0xAB then 0x62 else 0x0E)
        ) else (
          if x < 0xAE then (if x < 0xAD then 0xAA else 0x18) else (if x < 0xAF then 0xBE else 0x1B)
        )
      )
    ) else (
      if x < 0xB8 then (
        if x < 0xB4 then (
          if x < 0xB2 then (if x < 0xB1 then 0xFC else 0x56) else (if x < 0xB3 then 0x3E else 0x4B)
        ) else (
          if x < 0xB6 then (if x < 0xB5 then 0xC6 else 0xD2) else (if x < 0xB7 then 0x79 else 0x20)
        )
      ) else (
        if x < 0xBC then (
          if x < 0xBA then (if x < 0xB9 then 0x9A else 0xDB) else (if x < 0xBB then 0xC0 else 0xFE)
        ) else (
          if x < 0xBE then (if x < 0xBD then 0x78 else 0xCD) else (if x < 0xBF then 0x5A else 0xF4)
        )
      )
    )
  }

  function InvSbox6(x: byte): byte {
    if x < 0xD0 then (
      if x < 0xC8 then (
        if x < 0xC4 then (
          if x < 0xC2 then (if x < 0xC1 then 0x1F else 0xDD) else (if x < 0xC3 then 0xA8 else 0x33)
        ) else (
          if x < 0xC6 then (if x < 0xC5 then 0x88 else 0x07) else (if x < 0xC7 then 0xC7 else 0x31)
        )
      ) else (
        if x < 0xCC then (
          if x < 0xCA then (if x < 0xC9 then 0xB1 else 0x12) else (if x < 0xCB then 0x10 else 0x59)
        ) else (
          if x < 0xCE then (if x < 0xCD then 0x27 else 0x80) else (if x < 0xCF then 0xEC else 0x5F)
        )
      )
    ) else (
      if x < 0xD8 then (
        if x < 0xD4 then (
          if x < 0xD2 then (if x < 0xD1 then 0x60 else 0x51) else (if x < 0xD3 then 0x7F else 0xA9)
        ) else (
          if x < 0xD6 then (if x < 0xD5 then 0x19 else 0xB5) else (if x < 0xD7 then 0x4A else 0x0D)
        )
      ) else (
        if x < 0xDC then (
          if x < 0xDA then (if x < 0xD9 then 0x2D else 0xE5) else (if x < 0xDB then 0x7A else 0x9F)
        ) else (
          if x < 0xDE then (if x < 0xDD then 0x93 else 0xC9) else (if x < 0xDF then 0x9C else 0xEF)
        )
      )
    )
  }

  function InvSbox7(x: byte): byte {
    if x < 0xF0 then (
      if x < 0xE8 then (
        if x < 0xE4 then (
          if x < 0xE2 then (if x < 0xE1 then 0xA0 else 0xE0) else (if x < 0xE3 then 0x3B else 0x4D)
        ) else (
          if x < 0xE6 then (if x < 0xE5 then 0xAE else 0x2A) else (if x < 0xE7 then 0xF5 else 0xB0)
        )
      ) else (
        if x < 0xEC then (
          if x < 0xEA then (if x < 0xE9 then 0xC8 else 0xEB) else (if x < 0xEB then 0xBB else 0x3C)
        ) else (
          if x < 0xEE then (if x < 0xED then 0x83 else 0x53) else (if x < 0xEF then 0x99 else 0x61)
        )
      )
    ) else (
      if x < 0xF8 then (
        if x < 0xF4 then (
          if x < 0xF2 then (if x < 0xF1 then 0x17 else 0x2B) else (if x < 0xF3 then 0x04 else 0x7E)
        ) else (
          if x < 0xF6 then (if x < 0xF5 then 0xBA else 0x77) else (if x < 0xF7 then 0xD6 else 0x26)
        )
      ) else (
        if x < 0xFC then (
          if x < 0xFA then (if x < 0xF9 then 0xE1 else 0x69) else (if x < 0xFB then 0x14 else 0x63)
        ) else (
          if x < 0xFE then (if x < 0xFD then 0x55 else 0x21) else (if x < 0xFF then 0x0C else 0x7D)
        )
      )
    )
  }

  // te
  function Te(x: byte): bv32 {
    if x < 0x20 then Te0(x)
    else if x < 0x40 then Te1(x)
    else if x < 0x60 then Te2(x)
    else if x < 0x80 then Te3(x)
    else if x < 0xA0 then Te4(x)
    else if x < 0xC0 then Te5(x)
    else if x < 0xE0 then Te6(x)
    else Te7(x)
  }

  function Te0(x: byte): bv32 {
    if x < 0x10 then (
      if x < 0x08 then (
        if x < 0x04 then (
          if x < 0x02 then (if x < 0x01 then 0xA56363C6 else 0x847C7CF8) else (if x < 0x03 then 0x997777EE else 0x8D7B7BF6)
        ) else (
          if x < 0x06 then (if x < 0x05 then 0x0DF2F2FF else 0xBD6B6BD6) else (if x < 0x07 then 0xB16F6FDE else 0x54C5C591)
        )
      ) else (
        if x < 0x0C then (
          if x < 0x0A then (if x < 0x09 then 0x50303060 else 0x03010102) else (if x < 0x0B then 0xA96767CE else 0x7D2B2B56)
        ) else (
          if x < 0x0E then (if x < 0x0D then 0x19FEFEE7 else 0x62D7D7B5) else (if x < 0x0F then 0xE6ABAB4D else 0x9A7676EC)
        )
      )
    ) else (
      if x < 0x18 then (
        if x < 0x14 then (
          if x < 0x12 then (if x < 0x11 then 0x45CACA8F else 0x9D82821F) else (if x < 0x13 then 0x40C9C989 else 0x877D7DFA)
        ) else (
          if x < 0x16 then (if x < 0x15 then 0x15FAFAEF else 0xEB5959B2) else (if x < 0x17 then 0xC947478E else 0x0BF0F0FB)
        )
      ) else (
        if x < 0x1C then (
          if x < 0x1A then (if x < 0x19 then 0xECADAD41 else 0x67D4D4B3) else (if x < 0x1B then 0xFDA2A25F else 0xEAAFAF45)
        ) else (
          if x < 0x1E then (if x < 0x1D then 0xBF9C9C23 else 0xF7A4A453) else (if x < 0x1F then 0x967272E4 else 0x5BC0C09B)
        )
      )
    )
  }

  function Te1(x: byte): bv32 {
    if x < 0x30 then (
      if x < 0x28 then (
        if x < 0x24 then (
          if x < 0x22 then (if x < 0x21 then 0xC2B7B775 else 0x1CFDFDE1) else (if x < 0x23 then 0xAE93933D else 0x6A26264C)
        ) else (
          if x < 0x26 then (if x < 0x25 then 0x5A36366C else 0x413F3F7E) else (if x < 0x27 then 0x02F7F7F5 else 0x4FCCCC83)
        )
      ) else (
        if x < 0x2C then (
          if x < 0x2A then (if x < 0x29 then 0x5C343468 else 0xF4A5A551) else (if x < 0x2B then 0x34E5E5D1 else 0x08F1F1F9)
        ) else (
          if x < 0x2E then (if x < 0x2D then 0x937171E2 else 0x73D8D8AB) else (if x < 0x2F then 0x53313162 else 0x3F15152A)
        )
      )
    ) else (
      if x < 0x38 then (
        if x < 0x34 then (
          if x < 0x32 then (if x < 0x31 then 0x0C040408 else 0x52C7C795) else (if x < 0x33 then 0x65232346 else 0x5EC3C39D)
        ) else (
          if x < 0x36 then (if x < 0x35 then 0x28181830 else 0xA1969637) else (if x < 0x37 then 0x0F05050A else 0xB59A9A2F)
        )
      ) else (
        if x < 0x3C then (
          if x < 0x3A then (if x < 0x39 then 0x0907070E else 0x36121224) else (if x < 0x3B then 0x9B80801B else 0x3DE2E2DF)
        ) else (
          if x < 0x3E then (if x < 0x3D then 0x26EBEBCD else 0x6927274E) else (if x < 0x3F then 0xCDB2B27F else 0x9F7575EA)
        )
      )
    )
  }

  function Te2(x: byte): bv32 {
    if x < 0x50 then (
      if x < 0x48 then (
        if x < 0x44 then (
          if x < 0x42 then (if x < 0x41 then 0x1B090912 else 0x9E83831D) else (if x < 0x43 then 0x742C2C58 else 0x2E1A1A34)
        ) else (
          if x < 0x46 then (if x < 0x45 then 0x2D1B1B36 else 0xB26E6EDC) else (if x < 0x47 then 0xEE5A5AB4 else 0xFBA0A05B)
        )
      ) else (
        if x < 0x4C then (
          if x < 0x4A then (if x < 0x49 then 0xF65252A4 else 0x4D3B3B76) else (if x < 0x4B then 0x61D6D6B7 else 0xCEB3B37D)
        ) else (
          if x < 0x4E then (if x < 0x4D then 0x7B292952 else 0x3EE3E3DD) else (if x < 0x4F then 0x712F2F5E else 0x97848413)
        )
      )
    ) else (
      if x < 0x58 then (
        if x < 0x54 then (
          if x < 0x52 then (if x < 0x51 then 0xF55353A6 else 0x68D1D1B9) else (if x < 0x53 then 0x00000000 else 0x2CEDEDC1)
        ) else (
          if x < 0x56 then (if x < 0x55 then 0x60202040 else 0x1FFCFCE3) else (if x < 0x57 then 0xC8B1B179 else 0xED5B5BB6)
        )
      ) else (
        if x < 0x5C then (
          if x < 0x5A then (if x < 0x59 then 0xBE6A6AD4 else 0x46CBCB8D) else (if x < 0x5B then 0xD9BEBE67 else 0x4B393972)
        ) else (
          if x < 0x5E then (if x < 0x5D then 0xDE4A4A94 else 0xD44C4C98) else (if x < 0x5F then 0xE85858B0 else 0x4ACFCF85)
        )
      )
    )
  }

  function Te3(x: byte): bv32 {
    if x < 0x70 then (
      if x < 0x68 then (
        if x < 0x64 then (
          if x < 0x62 then (if x < 0x61 then 0x6BD0D0BB else 0x2AEFEFC5) else (if x < 0x63 then 0xE5AAAA4F else 0x16FBFBED)
        ) else (
          if x < 0x66 then (if x < 0x65 then 0xC5434386 else 0xD74D4D9A) else (if x < 0x67 then 0x55333366 else 0x94858511)
        )
      ) else (
        if x < 0x6C then (
          if x < 0x6A then (if x < 0x69 then 0xCF45458A else 0x10F9F9E9) else (if x < 0x6B then 0x06020204 else 0x817F7FFE)
        ) else (
          if x < 0x6E then (if x < 0x6D then 0xF05050A0 else 0x443C3C78) else (if x < 0x6F then 0xBA9F9F25 else 0xE3A8A84B)
        )
      )
    ) else (
      if x < 0x78 then (
        if x < 0x74 then (
          if x < 0x72 then (if x < 0x71 then 0xF35151A2 else 0xFEA3A35D) else (if x < 0x73 then 0xC0404080 else 0x8A8F8F05)
        ) else (
          if x < 0x76 then (if x < 0x75 then 0xAD92923F else 0xBC9D9D21) else (if x < 0x77 then 0x48383870 else 0x04F5F5F1)
        )
      ) else (
        if x < 0x7C then (
          if x < 0x7A then (if x < 0x79 then 0xDFBCBC63 else 0xC1B6B677) else (if x < 0x7B then 0x75DADAAF else 0x63212142)
        ) else (
          if x < 0x7E then (if x < 0x7D then 0x30101020 else 0x1AFFFFE5) else (if x < 0x7F then 0x0EF3F3FD else 0x6DD2D2BF)
        )
      )
    )
  }

  function Te4(x: byte): bv32 {
    if x < 0x90 then (
      if x < 0x88 then (
        if x < 0x84 then (
          if x < 0x82 then (if x < 0x81 then 0x4CCDCD81 else 0x140C0C18) else (if x < 0x83 then 0x35131326 else 0x2FECECC3)
        ) else (
          if x < 0x86 then (if x < 0x85 then 0xE15F5FBE else 0xA2979735) else (if x < 0x87 then 0xCC444488 else 0x3917172E)
        )
      ) else (
        if x < 0x8C then (
          if x < 0x8A then (if x < 0x89 then 0x57C4C493 else 0xF2A7A755) else (if x < 0x8B then 0x827E7EFC else 0x473D3D7A)
        ) else (
          if x < 0x8E then (if x < 0x8D then 0xAC6464C8 else 0xE75D5DBA) else (if x < 0x8F then 0x2B191932 else 0x957373E6)
        )
      )
    ) else (
      if x < 0x98 then (
        if x < 0x94 then (
          if x < 0x92 then (if x < 0x91 then 0xA06060C0 else 0x98818119) else (if x < 0x93 then 0xD14F4F9E else 0x7FDCDCA3)
        ) else (
          if x < 0x96 then (if x < 0x95 then 0x66222244 else 0x7E2A2A54) else (if x < 0x97 then 0xAB90903B else 0x8388880B)
        )
      ) else (
        if x < 0x9C then (
          if x < 0x9A then (if x < 0x99 then 0xCA46468C else 0x29EEEEC7) else (if x < 0x9B then 0xD3B8B86B else 0x3C141428)
        ) else (
          if x < 0x9E then (if x < 0x9D then 0x79DEDEA7 else 0xE25E5EBC) else (if x < 0x9F then 0x1D0B0B16 else 0x76DBDBAD)
        )
      )
    )
  }

  function Te5(x: byte): bv32 {
    if x < 0xB0 then (
      if x < 0xA8 then (
        if x < 0xA4 then (
          if x < 0xA2 then (if x < 0xA1 then 0x3BE0E0DB else 0x56323264) else (if x < 0xA3 then 0x4E3A3A74 else 0x1E0A0A14)
        ) else (
          if x < 0xA6 then (if x < 0xA5 then 0xDB494992 else 0x0A06060C) else (if x < 0xA7 then 0x6C242448 else 0xE45C5CB8)
        )
      ) else (
        if x < 0xAC then (
          if x < 0xAA then (if x < 0xA9 then 0x5DC2C29F else 0x6ED3D3BD) else (if x < 0xAB then 0xEFACAC43 else 0xA66262C4)
        ) else (
          if x < 0xAE then (if x < 0xAD then 0xA8919139 else 0xA4959531) else (if x < 0xAF then 0x37E4E4D3 else 0x8B7979F2)
        )
      )
    ) else (
      if x < 0xB8 then (
        if x < 0xB4 then (
          if x < 0xB2 then (if x < 0xB1 then 0x32E7E7D5 else 0x43C8C88B) else (if x < 0xB3 then 0x5937376E else 0xB76D6DDA)
        ) else (
          if x < 0xB6 then (if x < 0xB5 then 0x8C8D8D01 else 0x64D5D5B1) else (if x < 0xB7 then 0xD24E4E9C else 0xE0A9A949)
        )
      ) else (
        if x < 0xBC then (
          if x < 0xBA then (if x < 0xB9 then 0xB46C6CD8 else 0xFA5656AC) else (if x < 0xBB then 0x07F4F4F3 else 0x25EAEACF)
        ) else (
          if x < 0xBE then (if x < 0xBD then 0xAF6565CA else 0x8E7A7AF4) else (if x < 0xBF then 0xE9AEAE47 else 0x18080810)
        )
      )
    )
  }

  function Te6(x: byte): bv32 {
    if x < 0xD0 then (
      if x < 0xC8 then (
        if x < 0xC4 then (
          if x < 0xC2 then (if x < 0xC1 then 0xD5BABA6F else 0x887878F0) else (if x < 0xC3 then 0x6F25254A else 0x722E2E5C)
        ) else (
          if x < 0xC6 then (if x < 0xC5 then 0x241C1C38 else 0xF1A6A657) else (if x < 0xC7 then 0xC7B4B473 else 0x51C6C697)
        )
      ) else (
        if x < 0xCC then (
          if x < 0xCA then (if x < 0xC9 then 0x23E8E8CB else 0x7CDDDDA1) else (if x < 0xCB then 0x9C7474E8 else 0x211F1F3E)
        ) else (
          if x < 0xCE then (if x < 0xCD then 0xDD4B4B96 else 0xDCBDBD61) else (if x < 0xCF then 0x868B8B0D else 0x858A8A0F)
        )
      )
    ) else (
      if x < 0xD8 then (
        if x < 0xD4 then (
          if x < 0xD2 then (if x < 0xD1 then 0x907070E0 else 0x423E3E7C) else (if x < 0xD3 then 0xC4B5B571 else 0xAA6666CC)
        ) else (
          if x < 0xD6 then (if x < 0xD5 then 0xD8484890 else 0x05030306) else (if x < 0xD7 then 0x01F6F6F7 else 0x120E0E1C)
        )
      ) else (
        if x < 0xDC then (
          if x < 0xDA then (if x < 0xD9 then 0xA36161C2 else 0x5F35356A) else (if x < 0xDB then 0xF95757AE else 0xD0B9B969)
        ) else (
          if x < 0xDE then (if x < 0xDD then 0x91868617 else 0x58C1C199) else (if x < 0xDF then 0x271D1D3A else 0xB99E9E27)
        )
      )
    )
  }

  function Te7(x: byte): bv32 {
    if x < 0xF0 then (
      if x < 0xE8 then (
        if x < 0xE4 then (
          if x < 0xE2 then (if x < 0xE1 then 0x38E1E1D9 else 0x13F8F8EB) else (if x < 0xE3 then 0xB398982B else 0x33111122)
        ) else (
          if x < 0xE6 then (if x < 0xE5 then 0xBB6969D2 else 0x70D9D9A9) else (if x < 0xE7 then 0x898E8E07 else 0xA7949433)
        )
      ) else (
        if x < 0xEC then (
          if x < 0xEA then (if x < 0xE9 then 0xB69B9B2D else 0x221E1E3C) else (if x < 0xEB then 0x92878715 else 0x20E9E9C9)
        ) else (
          if x < 0xEE then (if x < 0xED then 0x49CECE87 else 0xFF5555AA) else (if x < 0xEF then 0x78282850 else 0x7ADFDFA5)
        )
      )
    ) else (
      if x < 0xF8 then (
        if x < 0xF4 then (
          if x < 0xF2 then (if x < 0xF1 then 0x8F8C8C03 else 0xF8A1A159) else (if x < 0xF3 then 0x80898909 else 0x170D0D1A)
        ) else (
          if x < 0xF6 then (if x < 0xF5 then 0xDABFBF65 else 0x31E6E6D7) else (if x < 0xF7 then 0xC6424284 else 0xB86868D0)
        )
      ) else (
        if x < 0xFC then (
          if x < 0xFA then (if x < 0xF9 then 0xC3414182 else 0xB0999929) else (if x < 0xFB then 0x772D2D5A else 0x110F0F1E)
        ) else (
          if x < 0xFE then (if x < 0xFD then 0xCBB0B07B else 0xFC5454A8) else (if x < 0xFF then 0xD6BBBB6D else 0x3A16162C)
        )
      )
    )
  }

  // td
  function Td(x: byte): bv32 {
    if x < 0x20 then Td0(x)
    else if x < 0x40 then Td1(x)
    else if x < 0x60 then Td2(x)
    else if x < 0x80 then Td3(x)
    else if x < 0xA0 then Td4(x)
    else if x < 0xC0 then Td5(x)
    else if x < 0xE0 then Td6(x)
    else Td7(x)
  }

  function Td0(x: byte): bv32 {
    if x < 0x10 then (
      if x < 0x08 then (
        if x < 0x04 then (
          if x < 0x02 then (if x < 0x01 then 0x50A7F451 else 0x5365417E) else (if x < 0x03 then 0xC3A4171A else 0x965E273A)
        ) else (
          if x < 0x06 then (if x < 0x05 then 0xCB6BAB3B else 0xF1459D1F) else (if x < 0x07 then 0xAB58FAAC else 0x9303E34B)
        )
      ) else (
        if x < 0x0C then (
          if x < 0x0A then (if x < 0x09 then 0x55FA3020 else 0xF66D76AD) else (if x < 0x0B then 0x9176CC88 else 0x254C02F5)
        ) else (
          if x < 0x0E then (if x < 0x0D then 0xFCD7E54F else 0xD7CB2AC5) else (if x < 0x0F then 0x80443526 else 0x8FA362B5)
        )
      )
    ) else (
      if x < 0x18 then (
        if x < 0x14 then (
          if x < 0x12 then (if x < 0x11 then 0x495AB1DE else 0x671BBA25) else (if x < 0x13 then 0x980EEA45 else 0xE1C0FE5D)
        ) else (
          if x < 0x16 then (if x < 0x15 then 0x02752FC3 else 0x12F04C81) else (if x < 0x17 then 0xA397468D else 0xC6F9D36B)
        )
      ) else (
        if x < 0x1C then (
          if x < 0x1A then (if x < 0x19 then 0xE75F8F03 else 0x959C9215) else (if x < 0x1B then 0xEB7A6DBF else 0xDA595295)
        ) else (
          if x < 0x1E then (if x < 0x1D then 0x2D83BED4 else 0xD3217458) else (if x < 0x1F then 0x2969E049 else 0x44C8C98E)
        )
      )
    )
  }

  function Td1(x: byte): bv32 {
    if x < 0x30 then (
      if x < 0x28 then (
        if x < 0x24 then (
          if x < 0x22 then (if x < 0x21 then 0x6A89C275 else 0x78798EF4) else (if x < 0x23 then 0x6B3E5899 else 0xDD71B927)
        ) else (
          if x < 0x26 then (if x < 0x25 then 0xB64FE1BE else 0x17AD88F0) else (if x < 0x27 then 0x66AC20C9 else 0xB43ACE7D)
        )
      ) else (
        if x < 0x2C then (
          if x < 0x2A then (if x < 0x29 then 0x184ADF63 else 0x82311AE5) else (if x < 0x2B then 0x60335197 else 0x457F5362)
        ) else (
          if x < 0x2E then (if x < 0x2D then 0xE07764B1 else 0x84AE6BBB) else (if x < 0x2F then 0x1CA081FE else 0x942B08F9)
        )
      )
    ) else (
      if x < 0x38 then (
        if x < 0x34 then (
          if x < 0x32 then (if x < 0x31 then 0x58684870 else 0x19FD458F) else (if x < 0x33 then 0x876CDE94 else 0xB7F87B52)
        ) else (
          if x < 0x36 then (if x < 0x35 then 0x23D373AB else 0xE2024B72) else (if x < 0x37 then 0x578F1FE3 else 0x2AAB5566)
        )
      ) else (
        if x < 0x3C then (
          if x < 0x3A then (if x < 0x39 then 0x0728EBB2 else 0x03C2B52F) else (if x < 0x3B then 0x9A7BC586 else 0xA50837D3)
        ) else (
          if x < 0x3E then (if x < 0x3D then 0xF2872830 else 0xB2A5BF23) else (if x < 0x3F then 0xBA6A0302 else 0x5C8216ED)
        )
      )
    )
  }

  function Td2(x: byte): bv32 {
    if x < 0x50 then (
      if x < 0x48 then (
        if x < 0x44 then (
          if x < 0x42 then (if x < 0x41 then 0x2B1CCF8A else 0x92B479A7) else (if x < 0x43 then 0xF0F207F3 else 0xA1E2694E)
        ) else (
          if x < 0x46 then (if x < 0x45 then 0xCDF4DA65 else 0xD5BE0506) else (if x < 0x47 then 0x1F6234D1 else 0x8AFEA6C4)
        )
      ) else (
        if x < 0x4C then (
          if x < 0x4A then (if x < 0x49 then 0x9D532E34 else 0xA055F3A2) else (if x < 0x4B then 0x32E18A05 else 0x75EBF6A4)
        ) else (
          if x < 0x4E then (if x < 0x4D then 0x39EC830B else 0xAAEF6040) else (if x < 0x4F then 0x069F715E else 0x51106EBD)
        )
      )
    ) else (
      if x < 0x58 then (
        if x < 0x54 then (
          if x < 0x52 then (if x < 0x51 then 0xF98A213E else 0x3D06DD96) else (if x < 0x53 then 0xAE053EDD else 0x46BDE64D)
        ) else (
          if x < 0x56 then (if x < 0x55 then 0xB58D5491 else 0x055DC471) else (if x < 0x57 then 0x6FD40604 else 0xFF155060)
        )
      ) else (
        if x < 0x5C then (
          if x < 0x5A then (if x < 0x59 then 0x24FB9819 else 0x97E9BDD6) else (if x < 0x5B then 0xCC434089 else 0x779ED967)
        ) else (
          if x < 0x5E then (if x < 0x5D then 0xBD42E8B0 else 0x888B8907) else (if x < 0x5F then 0x385B19E7 else 0xDBEEC879)
        )
      )
    )
  }

  function Td3(x: byte): bv32 {
    if x < 0x70 then (
      if x < 0x68 then (
        if x < 0x64 then (
          if x < 0x62 then (if x < 0x61 then 0x470A7CA1 else 0xE90F427C) else (if x < 0x63 then 0xC91E84F8 else 0x00000000)
        ) else (
          if x < 0x66 then (if x < 0x65 then 0x83868009 else 0x48ED2B32) else (if x < 0x67 then 0xAC70111E else 0x4E725A6C)
        )
      ) else (
        if x < 0x6C then (
          if x < 0x6A then (if x < 0x69 then 0xFBFF0EFD else 0x5638850F) else (if x < 0x6B then 0x1ED5AE3D else 0x27392D36)
        ) else (
          if x < 0x6E then (if x < 0x6D then 0x64D90F0A else 0x21A65C68) else (if x < 0x6F then 0xD1545B9B else 0x3A2E3624)
        )
      )
    ) else (
      if x < 0x78 then (
        if x < 0x74 then (
          if x < 0x72 then (if x < 0x71 then 0xB1670A0C else 0x0FE75793) else (if x < 0x73 then 0xD296EEB4 else 0x9E919B1B)
        ) else (
          if x < 0x76 then (if x < 0x75 then 0x4FC5C080 else 0xA220DC61) else (if x < 0x77 then 0x694B775A else 0x161A121C)
        )
      ) else (
        if x < 0x7C then (
          if x < 0x7A then (if x < 0x79 then 0x0ABA93E2 else 0xE52AA0C0) else (if x < 0x7B then 0x43E0223C else 0x1D171B12)
        ) else (
          if x < 0x7E then (if x < 0x7D then 0x0B0D090E else 0xADC78BF2) else (if x < 0x7F then 0xB9A8B62D else 0xC8A91E14)
        )
      )
    )
  }

  function Td4(x: byte): bv32 {
    if x < 0x90 then (
      if x < 0x88 then (
        if x < 0x84 then (
          if x < 0x82 then (if x < 0x81 then 0x8519F157 else 0x4C0775AF) else (if x < 0x83 then 0xBBDD99EE else 0xFD607FA3)
        ) else (
          if x < 0x86 then (if x < 0x85 then 0x9F2601F7 else 0xBCF5725C) else (if x < 0x87 then 0xC53B6644 else 0x347EFB5B)
        )
      ) else (
        if x < 0x8C then (
          if x < 0x8A then (if x < 0x89 then 0x7629438B else 0xDCC623CB) else (if x < 0x8B then 0x68FCEDB6 else 0x63F1E4B8)
        ) else (
          if x < 0x8E then (if x < 0x8D then 0xCADC31D7 else 0x10856342) else (if x < 0x8F then 0x40229713 else 0x2011C684)
        )
      )
    ) else (
      if x < 0x98 then (
        if x < 0x94 then (
          if x < 0x92 then (if x < 0x91 then 0x7D244A85 else 0xF83DBBD2) else (if x < 0x93 then 0x1132F9AE else 0x6DA129C7)
        ) else (
          if x < 0x96 then (if x < 0x95 then 0x4B2F9E1D else 0xF330B2DC) else (if x < 0x97 then 0xEC52860D else 0xD0E3C177)
        )
      ) else (
        if x < 0x9C then (
          if x < 0x9A then (if x < 0x99 then 0x6C16B32B else 0x99B970A9) else (if x < 0x9B then 0xFA489411 else 0x2264E947)
        ) else (
          if x < 0x9E then (if x < 0x9D then 0xC48CFCA8 else 0x1A3FF0A0) else (if x < 0x9F then 0xD82C7D56 else 0xEF903322)
        )
      )
    )
  }

  function Td5(x: byte): bv32 {
    if x < 0xB0 then (
      if x < 0xA8 then (
        if x < 0xA4 then (
          if x < 0xA2 then (if x < 0xA1 then 0xC74E4987 else 0xC1D138D9) else (if x < 0xA3 then 0xFEA2CA8C else 0x360BD498)
        ) else (
          if x < 0xA6 then (if x < 0xA5 then 0xCF81F5A6 else 0x28DE7AA5) else (if x < 0xA7 then 0x268EB7DA else 0xA4BFAD3F)
        )
      ) else (
        if x < 0xAC then (
          if x < 0xAA then (if x < 0xA9 then 0xE49D3A2C else 0x0D927850) else (if x < 0xAB then 0x9BCC5F6A else 0x62467E54)
        ) else (
          if x < 0xAE then (if x < 0xAD then 0xC2138DF6 else 0xE8B8D890) else (if x < 0xAF then 0x5EF7392E else 0xF5AFC382)
        )
      )
    ) else (
      if x < 0xB8 then (
        if x < 0xB4 then (
          if x < 0xB2 then (if x < 0xB1 then 0xBE805D9F else 0x7C93D069) else (if x < 0xB3 then 0xA92DD56F else 0xB31225CF)
        ) else (
          if x < 0xB6 then (if x < 0xB5 then 0x3B99ACC8 else 0xA77D1810) else (if x < 0xB7 then 0x6E639CE8 else 0x7BBB3BDB)
        )
      ) else (
        if x < 0xBC then (
          if x < 0xBA then (if x < 0xB9 then 0x097826CD else 0xF418596E) else (if x < 0xBB then 0x01B79AEC else 0xA89A4F83)
        ) else (
          if x < 0xBE then (if x < 0xBD then 0x656E95E6 else 0x7EE6FFAA) else (if x < 0xBF then 0x08CFBC21 else 0xE6E815EF)
        )
      )
    )
  }

  function Td6(x: byte): bv32 {
    if x < 0xD0 then (
      if x < 0xC8 then (
        if x < 0xC4 then (
          if x < 0xC2 then (if x < 0xC1 then 0xD99BE7BA else 0xCE366F4A) else (if x < 0xC3 then 0xD4099FEA else 0xD67CB029)
        ) else (
          if x < 0xC6 then (if x < 0xC5 then 0xAFB2A431 else 0x31233F2A) else (if x < 0xC7 then 0x3094A5C6 else 0xC066A235)
        )
      ) else (
        if x < 0xCC then (
          if x < 0xCA then (if x < 0xC9 then 0x37BC4E74 else 0xA6CA82FC) else (if x < 0xCB then 0xB0D090E0 else 0x15D8A733)
        ) else (
          if x < 0xCE then (if x < 0xCD then 0x4A9804F1 else 0xF7DAEC41) else (if x < 0xCF then 0x0E50CD7F else 0x2FF69117)
        )
      )
    ) else (
      if x < 0xD8 then (
        if x < 0xD4 then (
          if x < 0xD2 then (if x < 0xD1 then 0x8DD64D76 else 0x4DB0EF43) else (if x < 0xD3 then 0x544DAACC else 0xDF0496E4)
        ) else (
          if x < 0xD6 then (if x < 0xD5 then 0xE3B5D19E else 0x1B886A4C) else (if x < 0xD7 then 0xB81F2CC1 else 0x7F516546)
        )
      ) else (
        if x < 0xDC then (
          if x < 0xDA then (if x < 0xD9 then 0x04EA5E9D else 0x5D358C01) else (if x < 0xDB then 0x737487FA else 0x2E410BFB)
        ) else (
          if x < 0xDE then (if x < 0xDD then 0x5A1D67B3 else 0x52D2DB92) else (if x < 0xDF then 0x335610E9 else 0x1347D66D)
        )
      )
    )
  }

  function Td7(x: byte): bv32 {
    if x < 0xF0 then (
      if x < 0xE8 then (
        if x < 0xE4 then (
          if x < 0xE2 then (if x < 0xE1 then 0x8C61D79A else 0x7A0CA137) else (if x < 0xE3 then 0x8E14F859 else 0x893C13EB)
        ) else (
          if x < 0xE6 then (if x < 0xE5 then 0xEE27A9CE else 0x35C961B7) else (if x < 0xE7 then 0xEDE51CE1 else 0x3CB1477A)
        )
      ) else (
        if x < 0xEC then (
          if x < 0xEA then (if x < 0xE9 then 0x59DFD29C else 0x3F73F255) else (if x < 0xEB then 0x79CE1418 else 0xBF37C773)
        ) else (
          if x < 0xEE then (if x < 0xED then 0xEACDF753 else 0x5BAAFD5F) else (if x < 0xEF then 0x146F3DDF else 0x86DB4478)
        )
      )
    ) else (
      if x < 0xF8 then (
        if x < 0xF4 then (
          if x < 0xF2 then (if x < 0xF1 then 0x81F3AFCA else 0x3EC468B9) else (if x < 0xF3 then 0x2C342438 else 0x5F40A3C2)
        ) else (
          if x < 0xF6 then (if x < 0xF5 then 0x72C31D16 else 0x0C25E2BC) else (if x < 0xF7 then 0x8B493C28 else 0x41950DFF)
        )
      ) else (
        if x < 0xFC then (
          if x < 0xFA then (if x < 0xF9 then 0x7101A839 else 0xDEB30C08) else (if x < 0xFB then 0x9CE4B4D8 else 0x90C15664)
        ) else (
          if x < 0xFE then (if x < 0xFD then 0x6184CB7B else 0x70B632D5) else (if x < 0xFF then 0x745C6C48 else 0x4257B8D0)
        )
      )
    )
  }

  // Multiplication by x in the field of section 4.2 of FIPS 197, and by the other constants of
  // MixColumns and InvMixColumns.
  function X2(b: byte): byte { (b << 1) ^ (if b & 0x80 != 0 then 0x1B else 0) }
  function X4(b: byte): byte { X2(X2(b)) }
  function X8(b: byte): byte { X2(X2(X2(b))) }
  function X3(b: byte): byte { Sum(X2(b), b) }
  function X9(b: byte): byte { Sum(X8(b), b) }
  function XB(b: byte): byte { Sum3(X8(b), X2(b), b) }
  function XD(b: byte): byte { Sum3(X8(b), X4(b), b) }
  function XE(b: byte): byte { Sum3(X8(b), X4(b), X2(b)) }

  function Sum3(a: byte, b: byte, c: byte): byte { a ^ b ^ c }

  // Four octets as a word, least significant first (LOAD32LE).
  function Pack(a: byte, b: byte, c: byte, d: byte): bv32 {
    (a as bv32) | ((b as bv32) << 8) | ((c as bv32) << 16) | ((d as bv32) << 24)
  }

  lemma SboxInverse(x: byte)
    ensures InvSbox(Sbox(x)) == x && Sbox(InvSbox(x)) == x
  {
    hide Sbox, InvSbox;
    SboxLeft(x);
    SboxRight(x);
  }

  lemma SboxLeft(x: byte)
    ensures InvSbox(Sbox(x)) == x
  {
  }

  lemma SboxRight(x: byte)
    ensures Sbox(InvSbox(x)) == x
  {
  }

  lemma TeEquation0(x: byte)
    requires 0x00 <= x < 0x20
    ensures Te(x) == Pack(X2(Sbox(x)), Sbox(x), Sbox(x), X3(Sbox(x)))
  {
    hide Te1, Te2, Te3, Te4, Te5, Te6, Te7, Sbox1, Sbox2, Sbox3, Sbox4, Sbox5, Sbox6, Sbox7;
    if x < 0x08 {
    } else if x < 0x10 {
    } else if x < 0x18 {
    } else {
    }
  }

  lemma TeEquation1(x: byte)
    requires 0x20 <= x < 0x40
    ensures Te(x) == Pack(X2(Sbox(x)), Sbox(x), Sbox(x), X3(Sbox(x)))
  {
    hide Te0, Te2, Te3, Te4, Te5, Te6, Te7, Sbox0, Sbox2, Sbox3, Sbox4, Sbox5, Sbox6, Sbox7;
    if x < 0x28 {
    } else if x < 0x30 {
    } else if x < 0x38 {
    } else {
    }
  }

  lemma TeEquation2(x: byte)
    requires 0x40 <= x < 0x60
    ensures Te(x) == Pack(X2(Sbox(x)), Sbox(x), Sbox(x), X3(Sbox(x)))
  {
    hide Te0, Te1, Te3, Te4, Te5, Te6, Te7, Sbox0, Sbox1, Sbox3, Sbox4, Sbox5, Sbox6, Sbox7;
    if x < 0x48 {
    } else if x < 0x50 {
    } else if x < 0x58 {
    } else {
    }
  }

  lemma TeEquation3(x: byte)
    requires 0x60 <= x < 0x80
    ensures Te(x) == Pack(X2(Sbox(x)), Sbox(x), Sbox(x), X3(Sbox(x)))
  {
    hide Te0, Te1, Te2, Te4, Te5, Te6, Te7, Sbox0, Sbox1, Sbox2, Sbox4, Sbox5, Sbox6, Sbox7;
    if x < 0x68 {
    } else if x < 0x70 {
    } else if x < 0x78 {
    } else {
    }
  }

  lemma TeEquation4(x: byte)
    requires 0x80 <= x < 0xA0
    ensures Te(x) == Pack(X2(Sbox(x)), Sbox(x), Sbox(x), X3(Sbox(x)))
  {
    hide Te0, Te1, Te2, Te3, Te5, Te6, Te7, Sbox0, Sbox1, Sbox2, Sbox3, Sbox5, Sbox6, Sbox7;
    if x < 0x88 {
    } else if x < 0x90 {
    } else if x < 0x98 {
    } else {
    }
  }

  lemma TeEquation5(x: byte)
    requires 0xA0 <= x < 0xC0
    ensures Te(x) == Pack(X2(Sbox(x)), Sbox(x), Sbox(x), X3(Sbox(x)))
  {
    hide Te0, Te1, Te2, Te3, Te4, Te6, Te7, Sbox0, Sbox1, Sbox2, Sbox3, Sbox4, Sbox6, Sbox7;
    if x < 0xA8 {
    } else if x < 0xB0 {
    } else if x < 0xB8 {
    } else {
    }
  }

  lemma TeEquation6(x: byte)
    requires 0xC0 <= x < 0xE0
    ensures Te(x) == Pack(X2(Sbox(x)), Sbox(x), Sbox(x), X3(Sbox(x)))
  {
    hide Te0, Te1, Te2, Te3, Te4, Te5, Te7, Sbox0, Sbox1, Sbox2, Sbox3, Sbox4, Sbox5, Sbox7;
    if x < 0xC8 {
    } else if x < 0xD0 {
    } else if x < 0xD8 {
    } else {
    }
  }

  lemma TeEquation7(x: byte)
    requires 0xE0 <= x
    ensures Te(x) == Pack(X2(Sbox(x)), Sbox(x), Sbox(x), X3(Sbox(x)))
  {
    hide Te0, Te1, Te2, Te3, Te4, Te5, Te6, Sbox0, Sbox1, Sbox2, Sbox3, Sbox4, Sbox5, Sbox6;
    if x < 0xE8 {
    } else if x < 0xF0 {
    } else if x < 0xF8 {
    } else {
    }
  }

  lemma TeEquation(x: byte)
    ensures Te(x) == Pack(X2(Sbox(x)), Sbox(x), Sbox(x), X3(Sbox(x)))
  {
    hide *;
    if x < 0x20 { TeEquation0(x); } else if x < 0x40 { TeEquation1(x); } else if x < 0x60 { TeEquation2(x); } else if x < 0x80 { TeEquation3(x); } else if x < 0xA0 { TeEquation4(x); } else if x < 0xC0 { TeEquation5(x); } else if x < 0xE0 { TeEquation6(x); } else { TeEquation7(x); }
  }

  lemma TdEquation0(x: byte)
    requires 0x00 <= x < 0x20
    ensures Td(x) == Pack(XE(InvSbox(x)), X9(InvSbox(x)), XD(InvSbox(x)), XB(InvSbox(x)))
  {
    hide Td1, Td2, Td3, Td4, Td5, Td6, Td7, InvSbox1, InvSbox2, InvSbox3, InvSbox4, InvSbox5, InvSbox6, InvSbox7;
    if x < 0x08 {
    } else if x < 0x10 {
    } else if x < 0x18 {
    } else {
    }
  }

  lemma TdEquation1(x: byte)
    requires 0x20 <= x < 0x40
    ensures Td(x) == Pack(XE(InvSbox(x)), X9(InvSbox(x)), XD(InvSbox(x)), XB(InvSbox(x)))
  {
    hide Td0, Td2, Td3, Td4, Td5, Td6, Td7, InvSbox0, InvSbox2, InvSbox3, InvSbox4, InvSbox5, InvSbox6, InvSbox7;
    if x < 0x28 {
    } else if x < 0x30 {
    } else if x < 0x38 {
    } else {
    }
  }

  lemma TdEquation2(x: byte)
    requires 0x40 <= x < 0x60
    ensures Td(x) == Pack(XE(InvSbox(x)), X9(InvSbox(x)), XD(InvSbox(x)), XB(InvSbox(x)))
  {
    hide Td0, Td1, Td3, Td4, Td5, Td6, Td7, InvSbox0, InvSbox1, InvSbox3, InvSbox4, InvSbox5, InvSbox6, InvSbox7;
    if x < 0x48 {
    } else if x < 0x50 {
    } else if x < 0x58 {
    } else {
    }
  }

  lemma TdEquation3(x: byte)
    requires 0x60 <= x < 0x80
    ensures Td(x) == Pack(XE(InvSbox(x)), X9(InvSbox(x)), XD(InvSbox(x)), XB(InvSbox(x)))
  {
    hide Td0, Td1, Td2, Td4, Td5, Td6, Td7, InvSbox0, InvSbox1, InvSbox2, InvSbox4, InvSbox5, InvSbox6, InvSbox7;
    if x < 0x68 {
    } else if x < 0x70 {
    } else if x < 0x78 {
    } else {
    }
  }

  lemma TdEquation4(x: byte)
    requires 0x80 <= x < 0xA0
    ensures Td(x) == Pack(XE(InvSbox(x)), X9(InvSbox(x)), XD(InvSbox(x)), XB(InvSbox(x)))
  {
    hide Td0, Td1, Td2, Td3, Td5, Td6, Td7, InvSbox0, InvSbox1, InvSbox2, InvSbox3, InvSbox5, InvSbox6, InvSbox7;
    if x < 0x88 {
    } else if x < 0x90 {
    } else if x < 0x98 {
    } else {
    }
  }

  lemma TdEquation5(x: byte)
    requires 0xA0 <= x < 0xC0
    ensures Td(x) == Pack(XE(InvSbox(x)), X9(InvSbox(x)), XD(InvSbox(x)), XB(InvSbox(x)))
  {
    hide Td0, Td1, Td2, Td3, Td4, Td6, Td7, InvSbox0, InvSbox1, InvSbox2, InvSbox3, InvSbox4, InvSbox6, InvSbox7;
    if x < 0xA8 {
    } else if x < 0xB0 {
    } else if x < 0xB8 {
    } else {
    }
  }

  lemma TdEquation6(x: byte)
    requires 0xC0 <= x < 0xE0
    ensures Td(x) == Pack(XE(InvSbox(x)), X9(InvSbox(x)), XD(InvSbox(x)), XB(InvSbox(x)))
  {
    hide Td0, Td1, Td2, Td3, Td4, Td5, Td7, InvSbox0, InvSbox1, InvSbox2, InvSbox3, InvSbox4, InvSbox5, InvSbox7;
    if x < 0xC8 {
    } else if x < 0xD0 {
    } else if x < 0xD8 {
    } else {
    }
  }

  lemma TdEquation7(x: byte)
    requires 0xE0 <= x
    ensures Td(x) == Pack(XE(InvSbox(x)), X9(InvSbox(x)), XD(InvSbox(x)), XB(InvSbox(x)))
  {
    hide Td0, Td1, Td2, Td3, Td4, Td5, Td6, InvSbox0, InvSbox1, InvSbox2, InvSbox3, InvSbox4, InvSbox5, InvSbox6;
    if x < 0xE8 {
    } else if x < 0xF0 {
    } else if x < 0xF8 {
    } else {
    }
  }

  lemma TdEquation(x: byte)
    ensures Td(x) == Pack(XE(InvSbox(x)), X9(InvSbox(x)), XD(InvSbox(x)), XB(InvSbox(x)))
  {
    hide *;
    if x < 0x20 { TdEquation0(x); } else if x < 0x40 { TdEquation1(x); } else if x < 0x60 { TdEquation2(x); } else if x < 0x80 { TdEquation3(x); } else if x < 0xA0 { TdEquation4(x); } else if x < 0xC0 { TdEquation5(x); } else if x < 0xE0 { TdEquation6(x); } else { TdEquation7(x); }
  }

  // ---------------------------------------------------------------- the S-box of FIPS 197

  // The product in GF(2^8), modulo x^8 + x^4 + x^3 + x + 1 (section 4.2)
  function Times(a: byte, b: byte): byte {
    var a1 := X2(a);
    var a2 := X2(a1);
    var a3 := X2(a2);
    var a4 := X2(a3);
    var a5 := X2(a4);
    var a6 := X2(a5);
    var a7 := X2(a6);
    (if b & 0x01 != 0 then a else 0) ^ (if b & 0x02 != 0 then a1 else 0) ^ (if b & 0x04 != 0 then a2 else 0)
    ^ (if b & 0x08 != 0 then a3 else 0) ^ (if b & 0x10 != 0 then a4 else 0) ^ (if b & 0x20 != 0 then a5 else 0)
    ^ (if b & 0x40 != 0 then a6 else 0) ^ (if b & 0x80 != 0 then a7 else 0)
  }

  // Section 5.1.1: every bit of b summed with the bits four, five, six and seven places further
  // on, and with the constant.
  function Mixed(b: byte): byte {
    b ^ ((b << 1) | (b >> 7)) ^ ((b << 2) | (b >> 6)) ^ ((b << 3) | (b >> 5)) ^ ((b << 4) | (b >> 4)) ^ 0x63
  }

  function Unmixed(z: byte): byte { ((z << 1) | (z >> 7)) ^ ((z << 3) | (z >> 5)) ^ ((z << 6) | (z >> 2)) ^ 0x05 }

  lemma MixedUnmixed(z: byte)
    ensures Mixed(Unmixed(z)) == z
  {
  }

  lemma Product(x: byte)
    requires x != 0
    ensures Times(x, Unmixed(Sbox(x))) == 1
  {
    if x < 0x20 {
    } else if x < 0x40 {
    } else if x < 0x60 {
    } else if x < 0x80 {
    } else if x < 0xA0 {
    } else if x < 0xC0 {
    } else if x < 0xE0 {
    } else {
    }
  }

  // The table of AES: the multiplicative inverse, 0 for 0, and the affine transformation.
  lemma SboxIs(x: byte) returns (y: byte)
    ensures if x == 0 then y == 0 else Times(x, y) == 1
    ensures Sbox(x) == Mixed(y)
  {
    hide Times, Mixed;
    y := Unmixed(Sbox(x));
    MixedUnmixed(Sbox(x));
    if x != 0 {
      hide Sbox, Unmixed;
      Product(x);
    }
  }
}
