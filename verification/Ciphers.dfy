/**
 * The 128-bit ciphers of the repository as block ciphers in the sense the modes are proved for:
 * what the modes assume of a cipher holds of AES, ARIA and Camellia, for every key schedule.
 * (Triple DES is Des.TripleDes.)
 */
module Ciphers {
  import opened Blocks
  import A = Aes
  import R = AesRounds
  import Aria
  import C = Camellia

  // ---------------------------------------------------------------- AES

  function AesEnc(ks: seq<R.State>, b: seq<byte>): (r: seq<byte>)
    requires |ks| >= 2
    ensures |b| == 16 ==> |r| == 16
  {
    if |b| == 16 then A.StateBlock(R.Encipher(ks, A.BlockState(b))) else b
  }

  // By the equivalent inverse cipher, as aesDecryptBlock computes it
  function AesDec(ks: seq<R.State>, b: seq<byte>): (r: seq<byte>)
    requires |ks| >= 2
    ensures |b| == 16 ==> |r| == 16
  {
    if |b| == 16 then A.StateBlock(R.EqInvCipher(R.DecryptionKeys(ks), A.BlockState(b))) else b
  }

  function AesCipher(ks: seq<R.State>): Cipher
    requires |ks| >= 2
  {
    Cipher(16, b => AesEnc(ks, b), b => AesDec(ks, b))
  }

  lemma AesCipherValid(ks: seq<R.State>)
    requires |ks| >= 2
    ensures AesCipher(ks).Valid()
  {
    hide AesEnc, AesDec;
    forall b: seq<byte> ensures AesCipher(ks).BlockAt(b) {
      if |b| == 16 {
        AesDecEnc(ks, b);
      }
    }
  }

  lemma AesDecEnc(ks: seq<R.State>, b: seq<byte>)
    requires |ks| >= 2 && |b| == 16
    ensures AesDec(ks, AesEnc(ks, b)) == b
  {
    hide A.StateBlock, A.BlockState, R.Encipher, R.InvCipher, R.EqInvCipher, R.DecryptionKeys;
    R.EquivalentInverse(ks, A.BlockState(AesEnc(ks, b)));
    A.AesInverse(ks, b);
  }

  // ---------------------------------------------------------------- ARIA

  ghost predicate AriaKeys(ks: seq<seq<byte>>) { Aria.Keys(ks) && |ks| >= 3 && |ks| % 2 == 1 }

  ghost function AriaEnc(ks: seq<seq<byte>>, b: seq<byte>): (r: seq<byte>)
    requires AriaKeys(ks)
    ensures |b| == 16 ==> |r| == 16
  {
    if |b| == 16 then Aria.Encipher(ks, b) else b
  }

  ghost function AriaCipher(ks: seq<seq<byte>>): Cipher
    requires AriaKeys(ks)
  {
    var dk := Aria.DecryptionKeys(ks);
    Cipher(16, b => AriaEnc(ks, b), b => AriaEnc(dk, b))
  }

  lemma AriaCipherValid(ks: seq<seq<byte>>)
    requires AriaKeys(ks)
    ensures AriaCipher(ks).Valid()
  {
    hide Aria.Encipher, Aria.DecryptionKeys, Aria.Keys;
    forall b: seq<byte> ensures AriaCipher(ks).BlockAt(b) {
      if |b| == 16 {
        Aria.DecryptionInverts(ks, b);
      }
    }
  }

  // ---------------------------------------------------------------- Camellia

  function CamelliaEnc(sb: C.SBoxes, ks: seq<bv32>, nr: nat, b: seq<byte>): (r: seq<byte>)
    requires C.RoundCount(nr) && |ks| == 68
    ensures |b| == 16 ==> |r| == 16
  {
    if |b| == 16 then C.StateBlock(C.Encrypt(sb, ks, nr, C.BlockState(b))) else b
  }

  function CamelliaDec(sb: C.SBoxes, ks: seq<bv32>, nr: nat, b: seq<byte>): (r: seq<byte>)
    requires C.RoundCount(nr) && |ks| == 68
    ensures |b| == 16 ==> |r| == 16
  {
    if |b| == 16 then C.StateBlock(C.Decrypt(sb, ks, nr, C.BlockState(b))) else b
  }

  function CamelliaCipher(sb: C.SBoxes, ks: seq<bv32>, nr: nat): Cipher
    requires C.RoundCount(nr) && |ks| == 68
  {
    Cipher(16, b => CamelliaEnc(sb, ks, nr, b), b => CamelliaDec(sb, ks, nr, b))
  }

  lemma CamelliaCipherValid(sb: C.SBoxes, ks: seq<bv32>, nr: nat)
    requires C.RoundCount(nr) && |ks| == 68
    ensures CamelliaCipher(sb, ks, nr).Valid()
  {
    hide CamelliaEnc, CamelliaDec;
    forall b: seq<byte> ensures CamelliaCipher(sb, ks, nr).BlockAt(b) {
      if |b| == 16 {
        CamelliaDecEnc(sb, ks, nr, b);
      }
    }
  }

  lemma CamelliaDecEnc(sb: C.SBoxes, ks: seq<bv32>, nr: nat, b: seq<byte>)
    requires C.RoundCount(nr) && |ks| == 68 && |b| == 16
    ensures CamelliaDec(sb, ks, nr, CamelliaEnc(sb, ks, nr, b)) == b
  {
    hide C.StateBlock, C.BlockState, C.Encrypt, C.Decrypt;
    var s := C.BlockState(b);
    C.StateRoundTrip(b, C.Encrypt(sb, ks, nr, s));
    C.DecryptUndoes(sb, ks, nr, s);
  }
}
