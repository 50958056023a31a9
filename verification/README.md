# Verified models of the cryptographic and utility code

The repository is a card-reader test tool with the CycloneCrypto library and its own key
management functions. This project models the parts with the most intricate logic and proves
what they compute:

- **Elliptic curves** (`ec.c`): `Groups`, `EcMult` and `EcTwinMult` prove the two scalar
  recodings over an abstract group; `Modular`, `EcPoint` and `EcCurve` prove the point formulas
  modulo p. The big integers of the library are mathematical integers, and a bit outside a
  number reads as 0.
- **Block ciphers**: AES (`AesTables`, `AesRounds`, `Aes`), DES and triple DES in both
  implementations of the repository (`Feistel`, `DesKeys`, `Des`, `SDes`, `DesComplement`),
  ARIA (`AriaTables`, `AriaLayers`, `Aria`) and Camellia (`Camellia`). `Ciphers` states that
  each is a block cipher in the sense the modes need. `Fips197`, `Fips46`, `Rfc5794` and
  `Rfc3713` write each cipher a second time, as its standard does, and prove that the code
  computes it.
- **Modes**: GCM (`Gf128`, `GcmMul`, `Gcm`, `GcmFormat`), CCM (`CcmFormat`, `Ccm`, `CcmLaws`), CBC,
  CFB and CTR (`Modes`, `ModeLaws`, `Cbc`, `Cfb`, `Ctr`), over any block cipher, with `Blocks`,
  `Octets`, `Counter` and `CounterMode` shared.
- **Key management** (`base_security.cpp`): triple-DES CBC with padding (`Tdes`) and the
  derivation of session keys (`Dukpt`).
- **Utilities**: ASN.1 tags and integers (`Asn1`, and `X690` for what the octets mean), Unix time and dates (`Dates`), wildcard
  matching (`PathMatch`).

`dafny verify dfyconfig.toml` checks everything.

## How the code is modelled

Code that changes state is a method over arrays, fields or mutable variables, proved against a
specification function; the theorems are about those functions. Some choices:

- Straight-line C code is split into several methods where one proof would be too large, and
  a macro that is written out many times in a row (the rounds of DES, the substitution layers)
  is a loop. Bit operations that need a name of their own (`Sum`, `Add32`, `And`) have one.
- The tables of AES and ARIA are the literal tables, as decision trees. The first and third
  table of ARIA are those of AES. The selection tables of DES and the substitution boxes of
  Camellia are arbitrary functions: the theorems hold whatever they contain. (`des.c` and
  `s_des.cpp` contain the same tables.)
- A cipher in the modes is a pair of functions on blocks, of which only the second inverting
  the first on blocks is assumed.
- ARIA keeps its state in words that are only ever summed and used as octets; the model keeps
  octets and turns to words for the key schedule.
- Where the code and its purpose differ the model follows the code: `ecFullAdd` reads its first
  operand after it has written the result, and both scalar multiplications call it with
  the two being one object (`EcMult.MultExact`, `EcMult.MultInPlace`,
  `EcTwinMult.TwinExact`, `EcCurve.InPlaceSum`); `ecFullSub` can leave the
  unreduced ordinate p (`EcCurve.FullSubRange`); the length check of `asn1ReadTag`
  (`Asn1.DecodedWithin`); the long length field of additional data in CCM
  (`CcmFormat.FormatPrefixExact`); the stored lengths in GCM (`GcmFormat.LengthsExact`,
  `GcmFormat.HashedExact`); negative and large Unix times (`Dates.RoundTripExact`).
- Lengths in GCM are stored modulo 2^32 in 64-bit fields, as in the code.
- ASN.1 lengths and sizes have 32 bits. Masks and shifts of octets are written as division and
  remainder, and the octet that follows the input in memory is a parameter, because the code
  can read it.
- `dukpt_generate_sk` copies out an array it never wrote when the counter is zero; nothing is
  stated about that case.

## Model

| member | source | states |
|---|---|---|
| `EcMult.EcMult` | CycloneTCP_SSL_Crypto_Open_1_5_0/cyclone_crypto/ec.c:758-855 | scalar multiplication as the loop over the bits of 3d and d runs it, in place on the result; tied to `MultValue` |
| `EcMult.RecodingIsExact` | CycloneTCP_SSL_Crypto_Open_1_5_0/cyclone_crypto/ec.c:823-845 | the signed digits of the bits of 3d and d, with the leading one implicit and bit 0 never read, spell exactly d, for every d >= 2 |
| `EcMult.AccStep` | CycloneTCP_SSL_Crypto_Open_1_5_0/cyclone_crypto/ec.c:823-845 | each pass keeps: scalar so far = 2 * (scalar before) + digit |
| `EcMult.MultCorrect` | CycloneTCP_SSL_Crypto_Open_1_5_0/cyclone_crypto/ec.c:823-845 | the result is d.S in every abelian group whenever the additions are exact, and in place when no pass adds the accumulator to itself |
| `EcMult.CollisionOnlyAt` | CycloneTCP_SSL_Crypto_Open_1_5_0/cyclone_crypto/ec.c:823-845 | for S of order n and a scalar below n, or with d + 5 < 2n, a pass adds a point to itself only in the last pass, and only when n = 1 mod 4 and d = n - 2 or n = 3 mod 4 and d = n + 2 |
| `EcMult.MultExact` | CycloneTCP_SSL_Crypto_Open_1_5_0/cyclone_crypto/ec.c:758-855 | as the code runs it, the result is d.S for d < n, and for d + 5 < 2n, if and only if neither n = 1 mod 4 and d = n - 2 nor n = 3 mod 4 and d = n + 2 |
| `EcMult.MultInPlace` | CycloneTCP_SSL_Crypto_Open_1_5_0/cyclone_crypto/ec.c:758-855 | for every scalar and every point of every abelian group the result is (d - lost).S, and so it is d.S if and only if lost.S is zero, where lost are the digits up to the last pass that added a point to itself |
| `EcMult.MultExactAll` | CycloneTCP_SSL_Crypto_Open_1_5_0/cyclone_crypto/ec.c:823-845 | for a point of order n the lost scalar is a number computed from d and n, and the result is d.S if and only if n divides it, for every d >= 2 |
| `EcMult.MultFailsAtOrderFive` | CycloneTCP_SSL_Crypto_Open_1_5_0/cyclone_crypto/ec.c:823-845 | the concrete failing case: order 5 and d = 3 give the zero of the group |
| `EcMult.MultFailsAtOrderSeven` | CycloneTCP_SSL_Crypto_Open_1_5_0/cyclone_crypto/ec.c:823-845 | the other failing case: order 7 and d = 9 give the zero of the group |
| `EcTwinMult.TwinMultF` | CycloneTCP_SSL_Crypto_Open_1_5_0/cyclone_crypto/ec.c:864-876 | the threshold lies between 9 and 14, which is all the recoding needs |
| `EcTwinMult.MagnitudeOf` | CycloneTCP_SSL_Crypto_Open_1_5_0/cyclone_crypto/ec.c:941-951 | the sign bit and the five magnitude bits of a register are those of its signed value |
| `EcTwinMult.RegisterStart` | CycloneTCP_SSL_Crypto_Open_1_5_0/cyclone_crypto/ec.c:923-931 | the first five bits of a scalar put its register into step |
| `EcTwinMult.RegisterStep` | CycloneTCP_SSL_Crypto_Open_1_5_0/cyclone_crypto/ec.c:941-975 | every pass keeps (bits consumed) = 32 * (digits emitted) + (signed register), and the register never ends at -32 |
| `EcTwinMult.RegisterEnd` | CycloneTCP_SSL_Crypto_Open_1_5_0/cyclone_crypto/ec.c:939-975 | after the last pass the digits emitted are the scalar |
| `EcTwinMult.TwinRecodingIsExact` | CycloneTCP_SSL_Crypto_Open_1_5_0/cyclone_crypto/ec.c:916-975 | the columns emitted have digits -1, 0 and 1 and spell both scalars, for all scalars |
| `EcTwinMult.EcTwinMult` | CycloneTCP_SSL_Crypto_Open_1_5_0/cyclone_crypto/ec.c:890-1030 | the loop over both registers with the precomputed sum and difference; tied to `TwinValue` |
| `EcTwinMult.TwinCorrect` | CycloneTCP_SSL_Crypto_Open_1_5_0/cyclone_crypto/ec.c:911-1021 | the result is d0.S + d1.T for all scalars and points with exact sums, and in place when no pass adds the accumulator to itself |
| `EcTwinMult.TwinInPlace` | CycloneTCP_SSL_Crypto_Open_1_5_0/cyclone_crypto/ec.c:938-1021 | as the code runs it, in place, the result is that of the digits after the last pass that added the accumulator to itself, for all scalars and points |
| `EcTwinMult.TwinExact` | CycloneTCP_SSL_Crypto_Open_1_5_0/cyclone_crypto/ec.c:938-1021 | for all scalars and all points of every abelian group the in-place result is d0.S + d1.T if and only if the scalars lost, the digits up to the last pass that added a point to itself, give zero |
| `EcTwinMult.TwinExactOdd` | CycloneTCP_SSL_Crypto_Open_1_5_0/cyclone_crypto/ec.c:938-1021 | in a group without elements of order two: if and only if there is no such pass or the digits up to the last one, as they stand right after it, give zero |
| `EcTwinMult.OneMeetingSpoils` | CycloneTCP_SSL_Crypto_Open_1_5_0/cyclone_crypto/ec.c:938-1021 | in such a group a single such pass always spoils the result |
| `EcTwinMult.TwinFailsAtOrderFive` | CycloneTCP_SSL_Crypto_Open_1_5_0/cyclone_crypto/ec.c:977-1021 | a concrete case with S = T of order 5 where an in-place pass loses the sum |
| `EcTwinMult.TwinRightAtOrderFive` | CycloneTCP_SSL_Crypto_Open_1_5_0/cyclone_crypto/ec.c:977-1021 | a concrete case where two such passes make up for one another |
| `EcPoint.EcAddMod` | CycloneTCP_SSL_Crypto_Open_1_5_0/cyclone_crypto/ec.c:1042-1058 | addition of reduced values leaves the remainder modulo p, by one comparison |
| `EcPoint.EcSubMod` | CycloneTCP_SSL_Crypto_Open_1_5_0/cyclone_crypto/ec.c:1070-1086 | subtraction of reduced values leaves the remainder modulo p |
| `EcPoint.SlopeMod` | CycloneTCP_SSL_Crypto_Open_1_5_0/cyclone_crypto/ec.c:418-455 | the branches for a = 0, a = -3 and general a compute the same slope |
| `EcPoint.EcDouble` | CycloneTCP_SSL_Crypto_Open_1_5_0/cyclone_crypto/ec.c:385-504 | doubling, also in place: the straight-line code yields the remainders of the doubling formulas over the integers |
| `EcPoint.EcAdd` | CycloneTCP_SSL_Crypto_Open_1_5_0/cyclone_crypto/ec.c:516-663 | addition, also in place, with the shortcut for Tz = 1 and the halving of the ordinate |
| `EcPoint.EcFullAdd` | CycloneTCP_SSL_Crypto_Open_1_5_0/cyclone_crypto/ec.c:675-711 | addition with the special cases, and what it yields when the result is the first operand |
| `EcPoint.EcFullSub` | CycloneTCP_SSL_Crypto_Open_1_5_0/cyclone_crypto/ec.c:723-746 | subtraction by mirroring the second operand; tied to `FullAddValue`, for which `EcCurve.FullSubLaw` is proved |
| `EcCurve.DoubleOnCurve` | CycloneTCP_SSL_Crypto_Open_1_5_0/cyclone_crypto/ec.c:385-504 | doubling keeps points on the curve and coordinates in [0, p) |
| `EcCurve.DoubleLaw` | CycloneTCP_SSL_Crypto_Open_1_5_0/cyclone_crypto/ec.c:385-504 | doubling is the tangent law on affine coordinates |
| `EcCurve.AddLaw` | CycloneTCP_SSL_Crypto_Open_1_5_0/cyclone_crypto/ec.c:516-663 | adding points with different abscissas is the chord law on affine coordinates |
| `EcCurve.FullAddLaw` | CycloneTCP_SSL_Crypto_Open_1_5_0/cyclone_crypto/ec.c:675-711 | the complete addition is the sum of affine points with infinity, for points, equal points, opposite points and infinity; with the result in place of the first operand, except for two equal points |
| `EcCurve.NegatedRepresents` | CycloneTCP_SSL_Crypto_Open_1_5_0/cyclone_crypto/ec.c:731-738 | the mirrored operand stands for the point with the ordinate negated |
| `EcCurve.FullSubLaw` | CycloneTCP_SSL_Crypto_Open_1_5_0/cyclone_crypto/ec.c:723-746 | the difference is the sum with the mirrored point, in all these cases |
| `EcCurve.HalfOfTwice` | CycloneTCP_SSL_Crypto_Open_1_5_0/cyclone_crypto/ec.c:632-641 | adding p to an odd value before halving divides by two modulo p |
| `EcCurve.AddSentinel` | CycloneTCP_SSL_Crypto_Open_1_5_0/cyclone_crypto/ec.c:516-663 | (0, 0, 0) is returned exactly for two representations of one point |
| `EcCurve.FullAddOnCurve` | CycloneTCP_SSL_Crypto_Open_1_5_0/cyclone_crypto/ec.c:675-711 | the complete addition keeps points on the curve |
| `EcCurve.InPlaceSum` | CycloneTCP_SSL_Crypto_Open_1_5_0/cyclone_crypto/ec.c:698-706 | in place, the sum of a point with itself is the point at infinity instead of the double, and nothing else changes |
| `EcCurve.FullSubOnCurve` | CycloneTCP_SSL_Crypto_Open_1_5_0/cyclone_crypto/ec.c:723-746 | subtraction keeps points on the curve |
| `EcCurve.FullSubRange` | CycloneTCP_SSL_Crypto_Open_1_5_0/cyclone_crypto/ec.c:723-746 | the coordinates of a difference are in [0, p) if and only if not both Sz = 0 and Ty = 0 |
| `GcmMul.GcmShiftBlock` | CycloneTCP_SSL_Crypto_Open_1_5_0/cyclone_crypto/cipher_mode_gcm.c:425-434 | the shift by one bit across a block, in place |
| `GcmMul.PolyShift` | CycloneTCP_SSL_Crypto_Open_1_5_0/cyclone_crypto/cipher_mode_gcm.c:425-434 | as polynomials the shift multiplies by x and drops x^128 |
| `GcmMul.GcmMul` | CycloneTCP_SSL_Crypto_Open_1_5_0/cyclone_crypto/cipher_mode_gcm.c:367-399 | the shift-and-reduce loop in place on its first operand; tied to `MulBlock` |
| `GcmMul.MulIsFieldProduct` | CycloneTCP_SSL_Crypto_Open_1_5_0/cyclone_crypto/cipher_mode_gcm.c:367-399 | the result is the polynomial product modulo x^128 + x^7 + x^2 + x + 1 (section 6.3 of SP 800-38D) |
| `GcmMul.MulUnique` | CycloneTCP_SSL_Crypto_Open_1_5_0/cyclone_crypto/cipher_mode_gcm.c:367-399 | it is the only block congruent to the product |
| `GcmMul.MulCommutes` | CycloneTCP_SSL_Crypto_Open_1_5_0/cyclone_crypto/cipher_mode_gcm.c:367-399 | the multiplication commutes |
| `GcmMul.MulLinear` | CycloneTCP_SSL_Crypto_Open_1_5_0/cyclone_crypto/cipher_mode_gcm.c:367-399 | and is additive in each argument |
| `Gf128.ResidueUnique` | CycloneTCP_SSL_Crypto_Open_1_5_0/cyclone_crypto/cipher_mode_gcm.c:367-399 | residues of degree below 128 are unique |
| `Counter.Increment` | CycloneTCP_SSL_Crypto_Open_1_5_0/cyclone_crypto/cipher_mode_gcm.c:442-454 | the octet-wise increment with carry of the last m octets (also in CCM and CTR), in place |
| `Counter.IncrementedValue` | CycloneTCP_SSL_Crypto_Open_1_5_0/cyclone_crypto/cipher_mode_ccm.c:411-423 | it counts modulo 256^m |
| `Counter.CountersDistinct` | CycloneTCP_SSL_Crypto_Open_1_5_0/cyclone_crypto/cipher_mode_ctr.c:80-105 | counter blocks are pairwise distinct within 256^m blocks, and only the last m octets change |
| `Counter.CountersRecur` | CycloneTCP_SSL_Crypto_Open_1_5_0/cyclone_crypto/cipher_mode_ctr.c:80-105 | after 256^m blocks the counter block is the first one again |
| `Gcm.GcmEncrypt` | CycloneTCP_SSL_Crypto_Open_1_5_0/cyclone_crypto/cipher_mode_gcm.c:64-199 | status for every input; ciphertext (as in `GcmFormat.CiphertextAt`), and the tag over bit lengths modulo 2^32, with message and ciphertext in one buffer or two |
| `Gcm.GcmDecrypt` | CycloneTCP_SSL_Crypto_Open_1_5_0/cyclone_crypto/cipher_mode_gcm.c:218-358 | status for every input: success exactly when the tag is the tag of nonce, data and ciphertext; the plaintext, which is written either way, is the ciphertext enciphered once more |
| `Gcm.EncryptBlocks` | CycloneTCP_SSL_Crypto_Open_1_5_0/cyclone_crypto/cipher_mode_gcm.c:163-183 | the loop adds the key stream and absorbs exactly the ciphertext it wrote |
| `Gcm.DecryptBlocks` | CycloneTCP_SSL_Crypto_Open_1_5_0/cyclone_crypto/cipher_mode_gcm.c:318-338 | the loop absorbs exactly the ciphertext it was given, also in place |
| `CounterMode.GctrInvolution` | CycloneTCP_SSL_Crypto_Open_1_5_0/cyclone_crypto/cipher_mode_gcm.c:163-183 | running the key stream twice restores the message |
| `CounterMode.GctrAt` | CycloneTCP_SSL_Crypto_Open_1_5_0/cyclone_crypto/cipher_mode_gcm.c:163-183 | which counter block masks which octet |
| `Gcm.CiphertextInverts` | CycloneTCP_SSL_Crypto_Open_1_5_0/cyclone_crypto/cipher_mode_gcm.c:218-358 | deciphering under the same nonce inverts enciphering |
| `Gcm.RoundTrip` | CycloneTCP_SSL_Crypto_Open_1_5_0/cyclone_crypto/cipher_mode_gcm.c:218-358 | gcmDecrypt of the output of gcmEncrypt succeeds and returns the plaintext, for every accepted input |
| `GcmFormat.LengthsExact` | CycloneTCP_SSL_Crypto_Open_1_5_0/cyclone_crypto/cipher_mode_gcm.c:185-188 | the length block is that of SP 800-38D if and only if both numbers of bits, modulo 2^64, fit 32 bits |
| `GcmFormat.PreCounterExact` | CycloneTCP_SSL_Crypto_Open_1_5_0/cyclone_crypto/cipher_mode_gcm.c:91-134 | for a nonce of other than 12 octets the pre-counter block is that of the standard if and only if the difference of the length blocks times the hash subkey is zero |
| `GcmFormat.TagExact` | CycloneTCP_SSL_Crypto_Open_1_5_0/cyclone_crypto/cipher_mode_gcm.c:185-195 | the same for the tag |
| `GcmFormat.TagIsStandard` | CycloneTCP_SSL_Crypto_Open_1_5_0/cyclone_crypto/cipher_mode_gcm.c:64-199 | the tag is that of section 7.1 of SP 800-38D, written with GHASH over whole blocks, for nonce, data and ciphertext of fewer than 2^29 octets |
| `GcmFormat.GhashIsStandard` | CycloneTCP_SSL_Crypto_Open_1_5_0/cyclone_crypto/cipher_mode_gcm.c:107-126 | absorbing whole blocks one after the other is GHASH, written from the last block on (section 6.4) |
| `GcmFormat.CiphertextAt` | CycloneTCP_SSL_Crypto_Open_1_5_0/cyclone_crypto/cipher_mode_gcm.c:163-176 | octet i of the ciphertext is octet i of the message summed with octet i % 16 of the encipherment of the counter block i / 16 + 1 steps after the pre-counter block of the standard |
| `GcmFormat.CiphertextAt96` | CycloneTCP_SSL_Crypto_Open_1_5_0/cyclone_crypto/cipher_mode_gcm.c:91-176 | for a nonce of 12 octets that counter block is the nonce followed by the number i / 16 + 2 in 32 bits |
| `GcmFormat.TagOfHashed` | CycloneTCP_SSL_Crypto_Open_1_5_0/cyclone_crypto/cipher_mode_gcm.c:137-195 | the tag depends on data and ciphertext only through the octets hashed: both filled up to whole blocks, and the stored lengths |
| `GcmFormat.HashedInjective` | CycloneTCP_SSL_Crypto_Open_1_5_0/cyclone_crypto/cipher_mode_gcm.c:137-192 | the octets hashed determine data and ciphertext below 2^29 octets |
| `GcmFormat.HashedExact` | CycloneTCP_SSL_Crypto_Open_1_5_0/cyclone_crypto/cipher_mode_gcm.c:137-192 | other data and ciphertext have the same octets if and only if the data could end elsewhere: at a length congruent modulo 2^29 with zeros where its padding would be |
| `GcmFormat.TagsCollide` | CycloneTCP_SSL_Crypto_Open_1_5_0/cyclone_crypto/cipher_mode_gcm.c:137-195 | the concrete case: zeros move from data to ciphertext without a change of the tag, under every key and nonce |
| `AesTables.SboxInverse` | CycloneTCP_SSL_Crypto_Open_1_5_0/cyclone_crypto/aes.c:46-86 | the two substitution tables are inverse to each other |
| `AesTables.SboxIs` | CycloneTCP_SSL_Crypto_Open_1_5_0/cyclone_crypto/aes.c:46-65 | the table is the multiplicative inverse in GF(2^8), 0 for 0, followed by the affine transformation (section 5.1.1 of FIPS 197) |
| `AesTables.TeEquation` | CycloneTCP_SSL_Crypto_Open_1_5_0/cyclone_crypto/aes.c:88-123 | every entry of the encryption table is the MixColumns multiple of the substituted octet |
| `AesTables.TdEquation` | CycloneTCP_SSL_Crypto_Open_1_5_0/cyclone_crypto/aes.c:125-160 | every entry of the decryption table is the InvMixColumns multiple of the octet |
| `Aes.TeSumIsRound` | CycloneTCP_SSL_Crypto_Open_1_5_0/cyclone_crypto/aes.c:320-354 | one table-driven column is SubBytes, ShiftRows and MixColumns of FIPS 197 |
| `Aes.TdSumIsRound` | CycloneTCP_SSL_Crypto_Open_1_5_0/cyclone_crypto/aes.c:430-464 | and the inverse column |
| `AesRounds.MixColInverse` | CycloneTCP_SSL_Crypto_Open_1_5_0/cyclone_crypto/aes.c:125-160 | InvMixColumns undoes MixColumns |
| `AesRounds.InvCipherUndoesCipher` | CycloneTCP_SSL_Crypto_Open_1_5_0/cyclone_crypto/aes.c:404-504 | the inverse cipher of FIPS 197 undoes the cipher, for every number of rounds and all round keys |
| `AesRounds.EquivalentInverse` | CycloneTCP_SSL_Crypto_Open_1_5_0/cyclone_crypto/aes.c:404-504 | with transformed keys the forward-shaped rounds are the inverse cipher (section 5.3.5 of FIPS 197) |
| `Aes.AesInit` | CycloneTCP_SSL_Crypto_Open_1_5_0/cyclone_crypto/aes.c:201-284 | error for other key lengths, and then nothing changes; otherwise the expanded key of FIPS 197 and decryption keys with InvMixColumns folded in |
| `Aes.ExpandKey` | CycloneTCP_SSL_Crypto_Open_1_5_0/cyclone_crypto/aes.c:223-259 | the expanded key word by word |
| `Aes.RconIsPower` | CycloneTCP_SSL_Crypto_Open_1_5_0/cyclone_crypto/aes.c:162-176 | the round constants are the powers of x |
| `Aes.DecryptionWords` | CycloneTCP_SSL_Crypto_Open_1_5_0/cyclone_crypto/aes.c:261-280 | the decryption schedule is that of the equivalent inverse cipher |
| `Aes.AesEncryptBlock` | CycloneTCP_SSL_Crypto_Open_1_5_0/cyclone_crypto/aes.c:294-394 | the table form computes the cipher of FIPS 197 |
| `Aes.AesDecryptBlock` | CycloneTCP_SSL_Crypto_Open_1_5_0/cyclone_crypto/aes.c:404-504 | the table form computes the inverse cipher of FIPS 197 |
| `Aes.RoundTrip` | CycloneTCP_SSL_Crypto_Open_1_5_0/cyclone_crypto/aes.c:201-504 | for every key of 16, 24 or 32 octets and every block decryption returns the block |
| `Fips197.Encrypt` | CycloneTCP_SSL_Crypto_Open_1_5_0/cyclone_crypto/aes.c:201-398 | key setup and encryption compute the cipher of FIPS 197 as written on octets, for every key and block |
| `Fips197.Decrypt` | CycloneTCP_SSL_Crypto_Open_1_5_0/cyclone_crypto/aes.c:201-504 | key setup and decryption find the one block that this cipher maps to the given one |
| `Fips197.KeyWordIs` | CycloneTCP_SSL_Crypto_Open_1_5_0/cyclone_crypto/aes.c:223-259 | the expanded key, octet by octet (section 5.2) |
| `Fips197.CipherIs` | CycloneTCP_SSL_Crypto_Open_1_5_0/cyclone_crypto/aes.c:294-394 | the rounds on columns are those on the octets of the state, with ShiftRows and MixColumns by place |
| `Ciphers.AesCipherValid` | CycloneTCP_SSL_Crypto_Open_1_5_0/cyclone_crypto/aes.c:294-504 | AES is a block cipher as the modes assume |
| `Feistel.RoundsUndo` | CycloneTCP_SSL_Crypto_Open_1_5_0/cyclone_crypto/des.c:93-108 | the rounds with reversed subkeys undo the rounds, whatever the subkeys and selection tables |
| `Feistel.FpIp` | CycloneTCP_SSL_Crypto_Open_1_5_0/cyclone_crypto/des.c:49-90 | the final permutation undoes the initial one |
| `Feistel.IpFp` | CycloneTCP_SSL_Crypto_Open_1_5_0/cyclone_crypto/des.c:49-90 | and conversely |
| `Feistel.DesUndo` | CycloneTCP_SSL_Crypto_Open_1_5_0/cyclone_crypto/des.c:342-405 | decryption undoes encryption and is undone by it |
| `Feistel.TripleUndo` | CycloneTCP_SSL_Crypto_Open_1_5_0/cyclone_crypto/des3.c:115-141 | triple decryption undoes triple encryption for every three keys |
| `Feistel.TripleWithOneKey` | CycloneTCP_SSL_Crypto_Open_1_5_0/cyclone_crypto/des3.c:72-79 | with one key three times triple DES is DES |
| `Des.InitialPermutation` | CycloneTCP_SSL_Crypto_Open_1_5_0/cyclone_crypto/des.c:49-68 | the initial permutation as exchanges of bit groups |
| `Des.FinalPermutation` | CycloneTCP_SSL_Crypto_Open_1_5_0/cyclone_crypto/des.c:71-90 | the final permutation |
| `Des.DesRound` | CycloneTCP_SSL_Crypto_Open_1_5_0/cyclone_crypto/des.c:93-108 | one round, its eight selections added one after the other |
| `Des.DesInit` | CycloneTCP_SSL_Crypto_Open_1_5_0/cyclone_crypto/des.c:270-332 | error for key lengths other than 8; otherwise the sixteen subkeys |
| `Des.DesEncryptBlock` | CycloneTCP_SSL_Crypto_Open_1_5_0/cyclone_crypto/des.c:342-369 | the cipher, with input and output in one buffer or two |
| `Des.DesDecryptBlock` | CycloneTCP_SSL_Crypto_Open_1_5_0/cyclone_crypto/des.c:379-406 | the cipher with the subkeys read backwards |
| `Fips46.IpIs` | CycloneTCP_SSL_Crypto_Open_1_5_0/cyclone_crypto/des.c:49-68 | the exchanges of bit groups are the initial permutation of FIPS 46-3, with both halves turned by one bit |
| `Fips46.IpOctets` | CycloneTCP_SSL_Crypto_Open_1_5_0/cyclone_crypto/des.c:49-68 | on the octets of a block: which bit of which octet goes where |
| `Fips46.Pc1Is` | CycloneTCP_SSL_Crypto_Open_1_5_0/cyclone_crypto/des.c:111-141 | the exchanges are permuted choice 1 |
| `Fips46.FIs` | CycloneTCP_SSL_Crypto_Open_1_5_0/cyclone_crypto/des.c:93-108 | the two words of a subkey and the turned half give the function f: expansion, permuted choice 2 of the halves turned by the total of the shifts, eight lookups |
| `Fips46.DesIsFips` | CycloneTCP_SSL_Crypto_Open_1_5_0/cyclone_crypto/des.c:270-405 | des.c computes DES as FIPS 46-3 writes it, for every key, block and selection table |
| `Fips46.PermutationInjective` | CycloneTCP_SSL_Crypto_Open_1_5_0/cyclone_crypto/des.c:49-68 | blocks with the same initial permutation are equal, so the result is determined |
| `Des.Des3Init` | CycloneTCP_SSL_Crypto_Open_1_5_0/cyclone_crypto/des3.c:69-105 | which part of a key of 8, 16 or 24 octets becomes which of the three keys (as in `SDes.TwoKeysAgree` and `SDes.ThreeKeysAgree`); other lengths are an error |
| `Des.Des3EncryptBlock` | CycloneTCP_SSL_Crypto_Open_1_5_0/cyclone_crypto/des3.c:115-123 | encrypt, decrypt, encrypt, the last two in place |
| `Des.Des3DecryptBlock` | CycloneTCP_SSL_Crypto_Open_1_5_0/cyclone_crypto/des3.c:133-141 | decrypt, encrypt, decrypt |
| `Des.TripleDesValid` | CycloneTCP_SSL_Crypto_Open_1_5_0/cyclone_crypto/des3.c:69-141 | triple DES is a block cipher as the modes assume, for keys of 8, 16 and 24 octets |
| `Des.KeyedEncryptDecrypt` | CycloneTCP_SSL_Crypto_Open_1_5_0/cyclone_crypto/des3.c:69-141 | key setup followed by the block methods computes that cipher |
| `Des.SingleKeyIsDes` | CycloneTCP_SSL_Crypto_Open_1_5_0/cyclone_crypto/des3.c:72-79 | under an 8-octet key it is DES |
| `DesKeys.TablePc1Is` | yss_dukpt/s_des.cpp:277-290 | the table-driven permuted choice of s_des.cpp is the exchange-driven one of des.c, for every key |
| `DesComplement.Complementation` | CycloneTCP_SSL_Crypto_Open_1_5_0/cyclone_crypto/des.c:270-405 | complementing key and plaintext complements the ciphertext, for every key, block and selection table |
| `DesComplement.ScheduleNot` | CycloneTCP_SSL_Crypto_Open_1_5_0/cyclone_crypto/des.c:270-332 | complementing the key complements the subkey bits that are read |
| `SDes.InitialPermutation` | yss_dukpt/s_des.cpp:224-233 | the rotating form computes the same initial permutation as des.c |
| `SDes.FinalPermutation` | yss_dukpt/s_des.cpp:237-246 | and the same final permutation |
| `SDes.DesRound` | yss_dukpt/s_des.cpp:250-263 | the round with its terms in the other order is the round of des.c |
| `SDes.DesCrypt` | yss_dukpt/s_des.cpp:357-379 | des_crypt computes what des.c computes |
| `SDes.Fused` | yss_dukpt/s_des.cpp:444-484 | one initial and one final permutation with exchanged halves in the middle third equal three complete operations |
| `SDes.Des3Crypt` | yss_dukpt/s_des.cpp:444-484 | the 48 rounds compute the three operations for the three thirds of the subkey array |
| `SDes.TripleCryptUndo` | yss_dukpt/s_des.cpp:444-484 | with the reversed subkeys the run undoes itself |
| `SDes.MainKs` | yss_dukpt/s_des.cpp:267-334 | the sixteen subkeys, equal to those of des.c, and nothing else in the array changes |
| `SDes.Des3Set2Keys` | yss_dukpt/s_des.cpp:393-416 | the interleaved loop leaves K1, reversed K2, K1 in esk, and dsk is the reverse of esk |
| `SDes.Des3Set3Keys` | yss_dukpt/s_des.cpp:418-440 | the interleaved loop leaves K1, reversed K2, K3 in esk, and dsk is the reverse of esk |
| `SDes.TripleCryptIs` | yss_dukpt/s_des.cpp:418-494 | with these arrays the fused form is the triple encryption and decryption of des3.c |
| `SDes.TwoKeysAgree` | CycloneTCP_SSL_Crypto_Open_1_5_0/cyclone_crypto/des3.c:80-88 | under a 16-octet key triple DES of des3.c is the fused form with the subkeys of the first half, those of the second half reversed, and those of the first half again |
| `SDes.ThreeKeysAgree` | CycloneTCP_SSL_Crypto_Open_1_5_0/cyclone_crypto/des3.c:89-96 | under a 24-octet key it is the fused form with the subkeys of the three thirds |
| `SDes.RoundTrip` | yss_dukpt/s_des.cpp:486-494 | decryption after encryption returns the block, for every three keys |
| `SDes.RoundTripTwoKeys` | yss_dukpt/s_des.cpp:486-494 | and for every two keys with the two-key setup |
| `AriaTables.Sb4OfSb2` | CycloneTCP_SSL_Crypto_Open_1_5_0/cyclone_crypto/aria.c:165-226 | the fourth table inverts the second |
| `AriaTables.Sb2OfSb4` | CycloneTCP_SSL_Crypto_Open_1_5_0/cyclone_crypto/aria.c:165-226 | the second table inverts the fourth |
| `AriaLayers.SlInverse` | CycloneTCP_SSL_Crypto_Open_1_5_0/cyclone_crypto/aria.c:75-118 | the two substitution layers undo each other |
| `AriaLayers.DiffuseTwice` | CycloneTCP_SSL_Crypto_Open_1_5_0/cyclone_crypto/aria.c:121-141 | the diffusion layer is an involution |
| `AriaLayers.DiffuseXor` | CycloneTCP_SSL_Crypto_Open_1_5_0/cyclone_crypto/aria.c:121-141 | and additive |
| `Aria.OddRound` | CycloneTCP_SSL_Crypto_Open_1_5_0/cyclone_crypto/aria.c:256-266 | the odd round in place |
| `Aria.EvenRound` | CycloneTCP_SSL_Crypto_Open_1_5_0/cyclone_crypto/aria.c:275-285 | the even round in place |
| `Aria.RunsBackwards` | CycloneTCP_SSL_Crypto_Open_1_5_0/cyclone_crypto/aria.c:498-553 | what the state is after each round of decryption, in terms of the states of encryption |
| `Aria.DecryptionInverts` | CycloneTCP_SSL_Crypto_Open_1_5_0/cyclone_crypto/aria.c:498-553 | the same rounds with the derived keys undo encryption, for every even number of rounds (section 2 of RFC 5794) |
| `Aria.RolQuadIsRotation` | CycloneTCP_SSL_Crypto_Open_1_5_0/cyclone_crypto/aria.c:66-72 | ROL128 is the rotation of the 128-bit number, for the five amounts in use |
| `Aria.KeyValues` | CycloneTCP_SSL_Crypto_Open_1_5_0/cyclone_crypto/aria.c:342-360 | the four intermediate values of the key schedule of RFC 5794 |
| `Aria.ExpandKey` | CycloneTCP_SSL_Crypto_Open_1_5_0/cyclone_crypto/aria.c:366-407 | the seventeen encryption round keys: which value is rotated by which amount and summed with which |
| `Aria.DeriveDecryptionKeys` | CycloneTCP_SSL_Crypto_Open_1_5_0/cyclone_crypto/aria.c:409-419 | the decryption round keys |
| `Aria.AriaInit` | CycloneTCP_SSL_Crypto_Open_1_5_0/cyclone_crypto/aria.c:296-423 | number of rounds and both key arrays, or an error that changes nothing |
| `Aria.CryptBlock` | CycloneTCP_SSL_Crypto_Open_1_5_0/cyclone_crypto/aria.c:433-550 | the block function on either key array, for 12, 14 and 16 rounds |
| `Aria.RoundTrip` | CycloneTCP_SSL_Crypto_Open_1_5_0/cyclone_crypto/aria.c:296-550 | for every key of 16, 24 or 32 octets and every block decryption returns the block |
| `Rfc5794.RotLIsRotation` | CycloneTCP_SSL_Crypto_Open_1_5_0/cyclone_crypto/aria.c:66-72 | on the number that sixteen octets stand for the rotation is that of RFC 5794 |
| `Rfc5794.KeyIs` | CycloneTCP_SSL_Crypto_Open_1_5_0/cyclone_crypto/aria.c:342-407 | the round keys on octets (section 2.2 of RFC 5794) |
| `Rfc5794.Encrypt` | CycloneTCP_SSL_Crypto_Open_1_5_0/cyclone_crypto/aria.c:296-550 | key setup and the block function compute ARIA as RFC 5794 writes it on octets, for every key and block |
| `Rfc5794.Decrypt` | CycloneTCP_SSL_Crypto_Open_1_5_0/cyclone_crypto/aria.c:296-550 | with the decryption keys they find the one block that it maps to the given one |
| `Ciphers.AriaCipherValid` | CycloneTCP_SSL_Crypto_Open_1_5_0/cyclone_crypto/aria.c:433-550 | ARIA is a block cipher as the modes assume |
| `Camellia.CamelliaRound` | CycloneTCP_SSL_Crypto_Open_1_5_0/cyclone_crypto/camellia.c:47-59 | one round |
| `Camellia.RoundInverse` | CycloneTCP_SSL_Crypto_Open_1_5_0/cyclone_crypto/camellia.c:47-59 | a round with exchanged roles undoes the round |
| `Camellia.CamelliaFl` | CycloneTCP_SSL_Crypto_Open_1_5_0/cyclone_crypto/camellia.c:71-76 | the FL-function |
| `Camellia.CamelliaInvFl` | CycloneTCP_SSL_Crypto_Open_1_5_0/cyclone_crypto/camellia.c:79-84 | the inverse FL-function |
| `Camellia.FlInverse` | CycloneTCP_SSL_Crypto_Open_1_5_0/cyclone_crypto/camellia.c:71-84 | they undo each other, in either order, for every subkey |
| `Camellia.CamelliaEncryptBlock` | CycloneTCP_SSL_Crypto_Open_1_5_0/cyclone_crypto/camellia.c:421-476 | the loop with its moving subkey pointer computes the cipher of RFC 3713, section 2 |
| `Camellia.CamelliaDecryptBlock` | CycloneTCP_SSL_Crypto_Open_1_5_0/cyclone_crypto/camellia.c:486-541 | the loop with its pointer moving down undoes one round and layer after the other |
| `Camellia.BackUndoes` | CycloneTCP_SSL_Crypto_Open_1_5_0/cyclone_crypto/camellia.c:508-526 | walking back visits exactly the subkeys the forward walk used |
| `Camellia.DecryptUndoes` | CycloneTCP_SSL_Crypto_Open_1_5_0/cyclone_crypto/camellia.c:421-541 | decryption undoes encryption for 18 and 24 rounds and every subkey array |
| `Camellia.RoundTrip` | CycloneTCP_SSL_Crypto_Open_1_5_0/cyclone_crypto/camellia.c:421-541 | the same for the two methods |
| `Rfc3713.FIs` | CycloneTCP_SSL_Crypto_Open_1_5_0/cyclone_crypto/camellia.c:47-102 | the word operations of one round compute the F-function on octets, with the P-function given by the octets each output sums (section 2.4.1 of RFC 3713) |
| `Rfc3713.FlIs` | CycloneTCP_SSL_Crypto_Open_1_5_0/cyclone_crypto/camellia.c:71-84 | the FL-function on words is that on 64 bits, and so is its inverse (section 2.4.2) |
| `Rfc3713.EncryptIs` | CycloneTCP_SSL_Crypto_Open_1_5_0/cyclone_crypto/camellia.c:421-476 | the subkeys come in the order of RFC 3713: three or four groups of six rounds, with the layers between them and the sums at both ends |
| `Rfc3713.BlockIs` | CycloneTCP_SSL_Crypto_Open_1_5_0/cyclone_crypto/camellia.c:428-441 | the order of the octets in both halves, on the way in and out |
| `Ciphers.CamelliaCipherValid` | CycloneTCP_SSL_Crypto_Open_1_5_0/cyclone_crypto/camellia.c:421-541 | Camellia is a block cipher as the modes assume |
| `CcmFormat.FirstBlockDetermines` | CycloneTCP_SSL_Crypto_Open_1_5_0/cyclone_crypto/cipher_mode_ccm.c:91-112 | the first block determines nonce, tag length, payload length and whether there is additional data |
| `CcmFormat.DataBlocksInjective` | CycloneTCP_SSL_Crypto_Open_1_5_0/cyclone_crypto/cipher_mode_ccm.c:117-170 | the blocks of the additional data determine it, although its length is stored modulo 2^32 |
| `CcmFormat.FormatInjective` | CycloneTCP_SSL_Crypto_Open_1_5_0/cyclone_crypto/cipher_mode_ccm.c:91-206 | the octets authenticated determine nonce, data, payload and tag length, for all accepted inputs (section 5.4 of SP 800-38C) |
| `CcmFormat.FormatPrefixFree` | CycloneTCP_SSL_Crypto_Open_1_5_0/cyclone_crypto/cipher_mode_ccm.c:91-206 | an input with fewer than 0xFF00 octets of data starts no other one, nor do inputs with fewer than 2^32 octets start one another |
| `CcmFormat.FormatPrefixExact` | CycloneTCP_SSL_Crypto_Open_1_5_0/cyclone_crypto/cipher_mode_ccm.c:91-206 | an accepted input starts another accepted one if and only if its data has at least 0xFF00 octets, so that its length is stored modulo 2^32 |
| `CcmFormat.FormatExtends` | CycloneTCP_SSL_Crypto_Open_1_5_0/cyclone_crypto/cipher_mode_ccm.c:133-144 | which input that is: its own octets after the length field, filled up with zeros, as longer data |
| `CcmFormat.FormatNotPrefixFree` | CycloneTCP_SSL_Crypto_Open_1_5_0/cyclone_crypto/cipher_mode_ccm.c:133-144 | a concrete pair: all-zero data of 0xFF00 octets and of 2^32 octets more |
| `CcmFormat.FirstBlockIsNoCounter` | CycloneTCP_SSL_Crypto_Open_1_5_0/cyclone_crypto/cipher_mode_ccm.c:172-177 | no counter block of any nonce is a first block |
| `CcmLaws.FirstBlockFields` | CycloneTCP_SSL_Crypto_Open_1_5_0/cyclone_crypto/cipher_mode_ccm.c:91-112 | the flags, the nonce and the length of the payload at their places, as numbers (appendix A.2.1 of SP 800-38C) |
| `CcmLaws.DataBlocksFields` | CycloneTCP_SSL_Crypto_Open_1_5_0/cyclone_crypto/cipher_mode_ccm.c:117-170 | the length of the additional data in two or six octets, the data, and zeros up to whole blocks (appendix A.2.2) |
| `CcmLaws.FormatFields` | CycloneTCP_SSL_Crypto_Open_1_5_0/cyclone_crypto/cipher_mode_ccm.c:91-206 | the octets authenticated: first block, data blocks, and the payload filled up with zeros |
| `Ccm.FormatFirst` | CycloneTCP_SSL_Crypto_Open_1_5_0/cyclone_crypto/cipher_mode_ccm.c:91-112 | the first block, and whether the length fits its field |
| `Ccm.FormatData` | CycloneTCP_SSL_Crypto_Open_1_5_0/cyclone_crypto/cipher_mode_ccm.c:120-144 | the first block of the additional data with its length encoding |
| `Ccm.AbsorbData` | CycloneTCP_SSL_Crypto_Open_1_5_0/cyclone_crypto/cipher_mode_ccm.c:117-170 | the chaining value after the additional data |
| `Ccm.ChainPadded` | CycloneTCP_SSL_Crypto_Open_1_5_0/cyclone_crypto/cipher_mode_ccm.c:155-169 | chaining a partial block is chaining it padded with zeros |
| `Ccm.EncryptBlocks` | CycloneTCP_SSL_Crypto_Open_1_5_0/cyclone_crypto/cipher_mode_ccm.c:184-206 | the loop chains the payload and encrypts it, also in place |
| `Ccm.DecryptBlocks` | CycloneTCP_SSL_Crypto_Open_1_5_0/cyclone_crypto/cipher_mode_ccm.c:351-373 | the loop decrypts and chains the payload it wrote, also in place |
| `Ccm.CcmEncrypt` | CycloneTCP_SSL_Crypto_Open_1_5_0/cyclone_crypto/cipher_mode_ccm.c:66-213 | status for every input; ciphertext and tag |
| `Ccm.CcmDecrypt` | CycloneTCP_SSL_Crypto_Open_1_5_0/cyclone_crypto/cipher_mode_ccm.c:232-384 | status for every input: success exactly when the tag is the tag of the decrypted payload |
| `CcmLaws.TagIs` | CycloneTCP_SSL_Crypto_Open_1_5_0/cyclone_crypto/cipher_mode_ccm.c:91-211 | the tag is the CBC-MAC of these octets, taken block by block from the last one, summed with the encipherment of counter block 0 |
| `CcmLaws.CounterBlockIs` | CycloneTCP_SSL_Crypto_Open_1_5_0/cyclone_crypto/cipher_mode_ccm.c:411-423 | the i-th counter block is the flags, the nonce and the number i |
| `CcmLaws.CiphertextAt` | CycloneTCP_SSL_Crypto_Open_1_5_0/cyclone_crypto/cipher_mode_ccm.c:184-206 | octet i of the ciphertext is octet i of the payload summed with octet i % 16 of the encipherment of counter block i / 16 + 1 |
| `Ccm.RoundTrip` | CycloneTCP_SSL_Crypto_Open_1_5_0/cyclone_crypto/cipher_mode_ccm.c:232-384 | ccmDecrypt of the output of ccmEncrypt succeeds and returns the payload |
| `Modes.Inverse` | CycloneTCP_SSL_Crypto_Open_1_5_0/cyclone_crypto/cipher_mode_cfb.c:63-164 | CBC, CFB of every segment size and CTR: decryption restores what was processed and leaves the register encryption left |
| `Modes.Pieces` | CycloneTCP_SSL_Crypto_Open_1_5_0/cyclone_crypto/cipher_mode_ctr.c:61-109 | whole chunks in consecutive calls with the register carried over equal one call, for all modes |
| `Modes.CtrAt` | CycloneTCP_SSL_Crypto_Open_1_5_0/cyclone_crypto/cipher_mode_ctr.c:80-105 | which counter block masks which octet (section 6.5 of SP 800-38A) |
| `ModeLaws.RegisterAt` | CycloneTCP_SSL_Crypto_Open_1_5_0/cyclone_crypto/cipher_mode_cfb.c:63-105 | after any input of whole chunks the register is the last octets of the register before followed by the ciphertext, for CBC and CFB in both directions |
| `ModeLaws.TakenIs` | CycloneTCP_SSL_Crypto_Open_1_5_0/cyclone_crypto/cipher_mode_cbc.c:60-139 | in CBC all whole blocks of an input are processed, in CFB all whole segments, and nothing else |
| `ModeLaws.CbcAt` | CycloneTCP_SSL_Crypto_Open_1_5_0/cyclone_crypto/cipher_mode_cbc.c:60-91 | block q of the output is the encipherment of block q of the input summed with block q - 1 of the output, or with the iv (section 6.2 of SP 800-38A) |
| `ModeLaws.CbcDecryptAt` | CycloneTCP_SSL_Crypto_Open_1_5_0/cyclone_crypto/cipher_mode_cbc.c:105-139 | block q of the output is the decipherment of block q of the input summed with block q - 1 of the input, or with the iv |
| `ModeLaws.CfbAt` | CycloneTCP_SSL_Crypto_Open_1_5_0/cyclone_crypto/cipher_mode_cfb.c:63-106 | segment q of the output is segment q of the input summed with the encipherment of the last octets of the iv followed by the output before (section 6.3 of SP 800-38A) |
| `ModeLaws.CfbDecryptAt` | CycloneTCP_SSL_Crypto_Open_1_5_0/cyclone_crypto/cipher_mode_cfb.c:121-164 | segment q of the output is segment q of the input summed with the encipherment of the last octets of the iv followed by the input before |
| `Cbc.Encrypt` | CycloneTCP_SSL_Crypto_Open_1_5_0/cyclone_crypto/cipher_mode_cbc.c:60-91 | output (as in `ModeLaws.CbcAt`), final iv and status, in one buffer or two |
| `Cbc.Decrypt` | CycloneTCP_SSL_Crypto_Open_1_5_0/cyclone_crypto/cipher_mode_cbc.c:105-139 | output (as in `ModeLaws.CbcDecryptAt`), final iv and status, in one buffer or two |
| `Cfb.Encrypt` | CycloneTCP_SSL_Crypto_Open_1_5_0/cyclone_crypto/cipher_mode_cfb.c:63-106 | output, shift register and status (section 6.3 of SP 800-38A), in one buffer or two |
| `Cfb.Decrypt` | CycloneTCP_SSL_Crypto_Open_1_5_0/cyclone_crypto/cipher_mode_cfb.c:121-164 | output, shift register and status, in one buffer or two |
| `Cfb.ShiftIn` | CycloneTCP_SSL_Crypto_Open_1_5_0/cyclone_crypto/cipher_mode_cfb.c:90-92 | the register drops its first octets and takes in the segment |
| `Ctr.Crypt` | CycloneTCP_SSL_Crypto_Open_1_5_0/cyclone_crypto/cipher_mode_ctr.c:61-172 | output, counter block and status of either direction, in one buffer or two |
| `Tdes.EnCbcTdes` | yss_dukpt/base_security.cpp:258-277 | the calls block by block equal one call on the filled-up message; other key lengths give no output |
| `Tdes.DeCbcTdes` | yss_dukpt/base_security.cpp:279-297 | the calls block by block equal one call; other key and message lengths give no output |
| `Tdes.TdesCbcEncryptWithPadding` | yss_dukpt/base_security.cpp:737-744 | the public encryption |
| `Tdes.TdesCbcDescrypt` | yss_dukpt/base_security.cpp:728-735 | the public decryption |
| `Tdes.RoundTrip` | yss_dukpt/base_security.cpp:728-744 | for every key and message the result is the message followed by the padding octet up to the next multiple of 8 |
| `Dukpt.DukptBlackBox` | yss_dukpt/base_security.cpp:38-132 | both halves of the new key (as in `Dukpt.BlackBoxDeciphers`); the two masks put the register together from the last eight octets |
| `Dukpt.BlackBoxDeciphers` | yss_dukpt/base_security.cpp:38-132 | each half of the new key, less the right half of the key it is made with, deciphers under the left half to the sum of the right half and the register: the key itself for the right half, the key with octets 0 to 3 and 8 to 11 changed by 0xC0 for the left half |
| `Dukpt.OneMoreBit` | yss_dukpt/base_security.cpp:513-557 | a bit that is set is the lowest set bit of those used so far |
| `Dukpt.MaskLoop` | yss_dukpt/base_security.cpp:513-557 | each loop derives the key of the part of the counter it has used |
| `Dukpt.GenerateSk` | yss_dukpt/base_security.cpp:493-561 | for every non-zero counter the three loops give `Key` of that counter |
| `Dukpt.KeyUnfold` | yss_dukpt/base_security.cpp:513-557 | the key of a counter is the black box of the key of the counter without its lowest set bit |
| `Dukpt.WithoutLowestNumber` | yss_dukpt/base_security.cpp:513-557 | on the counter as a number that is n & (n - 1) |
| `Dukpt.WithCountIs` | yss_dukpt/base_security.cpp:463-512 | the serial number a key is made with differs from the given one in the 21 counter bits only, and these are the count |
| `Dukpt.IncreaseKsn` | yss_dukpt/base_security.cpp:449-491 | the next number; false exactly after the last counter |
| `Dukpt.NextKsnCounts` | yss_dukpt/base_security.cpp:449-491 | the counter grows by one modulo 2^21 and no other bit changes |
| `Dukpt.EveryCounterOnce` | yss_dukpt/base_security.cpp:449-491 | from counter 0 the number after k steps has counter k |
| `Dukpt.SeriesRepeats` | yss_dukpt/base_security.cpp:449-491 | after 2^21 steps the series starts again |
| `Dukpt.KsnDetermined` | yss_dukpt/base_security.cpp:449-491 | device and counter determine the number |
| `Dukpt.KeyOfNumber` | yss_dukpt/base_security.cpp:449-561 | the key of the k-th number is derived with that number from the key of k without its lowest set bit |
| `Dates.ConvertUnixTimeToDate` | CycloneTCP_SSL_Crypto_Open_1_5_0/common/date_time.c:194-244 | the fields, with every conversion to a narrower type; tied to `DateOf` |
| `Dates.ConvertDateToUnixTime` | CycloneTCP_SSL_Crypto_Open_1_5_0/common/date_time.c:253-287 | the time modulo 2^32, through wrapping intermediate values |
| `Dates.ComputeDayOfWeek` | CycloneTCP_SSL_Crypto_Open_1_5_0/common/date_time.c:298-321 | for every date of the calendar from 1970 to 65535 the result is (days since the first of January 1970 + 3) % 7 + 1 |
| `Dates.IsGregorian` | CycloneTCP_SSL_Crypto_Open_1_5_0/common/date_time.c:217-240 | the date is valid, with the leap years of the Gregorian calendar, for every day number |
| `Dates.CivilIsDay` | CycloneTCP_SSL_Crypto_Open_1_5_0/common/date_time.c:217-240 | it is the date reached by counting the days year by year and month by month from 1970 |
| `Dates.FormulaIsDayNumber` | CycloneTCP_SSL_Crypto_Open_1_5_0/common/date_time.c:267-279 | the day formula counts the days of every date from 1970 on |
| `Dates.ZellerIsWeekday` | CycloneTCP_SSL_Crypto_Open_1_5_0/common/date_time.c:298-321 | Zeller's congruence is (days + 3) % 7 + 1 |
| `Dates.DateOfIsCorrect` | CycloneTCP_SSL_Crypto_Open_1_5_0/common/date_time.c:194-244 | the fields are the Gregorian date t / 86400 days after the first of January 1970, its day of the week and the time of day, if and only if the date lies in a year up to 65535 |
| `Dates.RoundTripExact` | CycloneTCP_SSL_Crypto_Open_1_5_0/common/date_time.c:194-287 | converting to a date and back gives the time if and only if 0 <= t < 2^32 |
| `Dates.DateRoundTrip` | CycloneTCP_SSL_Crypto_Open_1_5_0/common/date_time.c:194-287 | a date comes back from its time if and only if the time fits 32 bits |
| `Asn1.ReadTag` | CycloneTCP_SSL_Crypto_Open_1_5_0/cyclone_crypto/asn1.c:48-145 | status and all fields, as a function of the input and the octet that follows it |
| `Asn1.WriteTag` | CycloneTCP_SSL_Crypto_Open_1_5_0/cyclone_crypto/asn1.c:203-328 | header and contents at their place, forwards and in reverse, with and without contents or buffer, and the counts returned |
| `Asn1.TagRoundTrip` | CycloneTCP_SSL_Crypto_Open_1_5_0/cyclone_crypto/asn1.c:48-328 | reading what was written recovers class, encoding, tag number, length, place of the contents and total length |
| `X690.HeaderMeans` | CycloneTCP_SSL_Crypto_Open_1_5_0/cyclone_crypto/asn1.c:203-328 | what the octets written mean: class, encoding and tag number in the identifier octets, seven bits each, and the short or long length (sections 8.1.2 and 8.1.3 of ITU-T X.690) |
| `X690.DecodeExact` | CycloneTCP_SSL_Crypto_Open_1_5_0/cyclone_crypto/asn1.c:48-145 | an input is accepted if and only if it starts with a header of this form, with at most five more octets of tag number and four of length, and the contents fit; and then the result is what it says |
| `Asn1.SizesAreMinimal` | CycloneTCP_SSL_Crypto_Open_1_5_0/cyclone_crypto/asn1.c:209-233 | tag number and length take the fewest octets (sections 8.1.2 and 8.1.3 of ITU-T X.690) |
| `Asn1.DecodedWithin` | CycloneTCP_SSL_Crypto_Open_1_5_0/cyclone_crypto/asn1.c:97-142 | a result lies within the input and does not depend on what follows if and only if the header is complete |
| `Asn1.OneOctetShort` | CycloneTCP_SSL_Crypto_Open_1_5_0/cyclone_crypto/asn1.c:109-127 | the concrete input that ends one octet too early |
| `Asn1.WriteInt32` | CycloneTCP_SSL_Crypto_Open_1_5_0/cyclone_crypto/asn1.c:340-382 | the encoding with the fewest octets, forwards and in reverse |
| `Asn1.NineEqualBits` | CycloneTCP_SSL_Crypto_Open_1_5_0/cyclone_crypto/asn1.c:346-355 | nine equal upper bits mean that one octet less is enough |
| `Asn1.ReadInt32` | CycloneTCP_SSL_Crypto_Open_1_5_0/cyclone_crypto/asn1.c:157-191 | which of the checks fails first, and the value, which is written only on success |
| `Asn1.IntRoundTrip` | CycloneTCP_SSL_Crypto_Open_1_5_0/cyclone_crypto/asn1.c:157-382 | every 32-bit integer comes back (section 8.3 of ITU-T X.690) |
| `X690.IntEncodingMeans` | CycloneTCP_SSL_Crypto_Open_1_5_0/cyclone_crypto/asn1.c:340-382 | tag number 2, the number of octets, and the integer in two's complement (section 8.3) |
| `X690.IntReadMeans` | CycloneTCP_SSL_Crypto_Open_1_5_0/cyclone_crypto/asn1.c:157-191 | the value read is the number in two's complement, for all contents of one to four octets |
| `Asn1.IntMinimal` | CycloneTCP_SSL_Crypto_Open_1_5_0/cyclone_crypto/asn1.c:346-355 | no shorter contents stand for the integer |
| `Asn1.CheckTag` | CycloneTCP_SSL_Crypto_Open_1_5_0/cyclone_crypto/asn1.c:394-408 | which of the three checks fails first |
| `PathMatch.PathMatch` | CycloneTCP_SSL_Crypto_Open_1_5_0/common/path.c:366-430 | terminates on all strings, and is true exactly when the path can be cut into pieces that the characters of the pattern stand for |
| `PathMatch.MatchesStar` | CycloneTCP_SSL_Crypto_Open_1_5_0/common/path.c:390-407 | the two ways on at an asterisk |
| `PathMatch.MatchesOne` | CycloneTCP_SSL_Crypto_Open_1_5_0/common/path.c:375-389 | a character that takes exactly one |
| `PathMatch.StarMatchesAll` | CycloneTCP_SSL_Crypto_Open_1_5_0/common/path.c:390-407 | an asterisk alone matches every path |
| `PathMatch.StarTwice` | CycloneTCP_SSL_Crypto_Open_1_5_0/common/path.c:390-407 | a second asterisk next to one changes nothing |
| `PathMatch.CaseIgnored` | CycloneTCP_SSL_Crypto_Open_1_5_0/common/path.c:408-422 | paths that differ in case only match the same patterns |

## Left out

- EcCurve.DoubleLaw: together with `AddLaw` it gives the affine laws; that these form a group (associativity) is not proved, the scalar multiplications are over any abelian group.
- The key schedule of Camellia (`camelliaInit`): decryption is proved for every subkey array instead.
- `ecProjectify`, `ecAffinify`, import and export of points, and everything on top of `ec.c` (ECDH, ECDSA): they rest on `mpi.c` functions that are not part of this model.
- Errors of memory allocation and of the big-integer functions; NULL parameters of the modes; the cipher type field, which only block ciphers have set.
- The AES and single DES wrappers of `base_security.cpp`, ECB and OFB: the same loops as the triple-DES wrappers, or easier ones.
- `dukpt_generate_ipek` and the key variants derived from a session key: single encryptions and constant sums.
- The DES entry points `des_set_key`, `des_encrypt` and `des_decrypt` of `s_des.cpp`: the same reversal and calls as the triple forms.
- The ASN.1 object identifier check and dump; formatting, comparing and reading the system clock in `date_time.c`; the other path functions.
- `tolower` is the mapping of the default locale.
- DH, DSA, RSA, hashes, random generators, user interface, device access and operating-system ports.
