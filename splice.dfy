/**
 * The limb-splicing steps of the SAPHERE protocol. A ciphertext's or a
 * plaintext's raw data (`data()`, a buffer of 64-bit limbs) is an array here;
 * every step writes a contiguous range of one buffer with the limbs at the same
 * positions of another, and keeps everything else.
 */
module Splice {

  /** One raw limb (`std::uint64_t`). */
  type Limb = bv64

  /** `dst` with the positions `from .. from + count - 1` taken from `src`. */
  function Overwrite(dst: seq<Limb>, src: seq<Limb>, from: nat, count: nat): (r: seq<Limb>)
    requires from + count <= |dst| && from + count <= |src|
    ensures |r| == |dst|
    ensures forall k :: 0 <= k < |r| ==> r[k] == if from <= k < from + count then src[k] else dst[k]
  {
    dst[..from] + src[from..from + count] + dst[from + count..]
  }

  /** Copying a buffer's own limbs back into it changes nothing. */
  lemma OverwriteWithItself(x: seq<Limb>, from: nat, count: nat)
    requires from + count <= |x|
    ensures Overwrite(x, x, from, count) == x
  {
    var r := Overwrite(x, x, from, count);
    assert forall k :: 0 <= k < |x| ==> r[k] == x[k];
  }

  /**
   * After splicing the lower `h` limbs, copying the template's own limbs into
   * the next `h` positions (the second loop of step 5a) changes nothing.
   */
  lemma OverwriteUpperFromTemplate(x: seq<Limb>, m: seq<Limb>, h: nat)
    requires h + h <= |x| && h <= |m|
    ensures Overwrite(Overwrite(x, m, 0, h), x, h, h) == Overwrite(x, m, 0, h)
  {
    var lower := Overwrite(x, m, 0, h);
    var r := Overwrite(lower, x, h, h);
    assert forall k :: 0 <= k < |x| ==> r[k] == lower[k];
  }

  /**
   * The copy loop shared by all splice steps:
   * `for (i = 0; i < count; i++) dst.data()[i + from] = src.data()[i + from];`
   */
  method CopyRange(dst: array<Limb>, src: array<Limb>, from: nat, count: nat)
    requires from + count <= dst.Length && from + count <= src.Length
    modifies dst
    ensures dst[..] == Overwrite(old(dst[..]), old(src[..]), from, count)
  {
    for i := 0 to count
      invariant forall k :: 0 <= k < dst.Length ==>
        dst[k] == if from <= k < from + i then old(src[k]) else old(dst[k])
    {
      dst[i + from] := src[i + from];
    }
    ghost var r := Overwrite(old(dst[..]), old(src[..]), from, count);
    assert forall k :: 0 <= k < dst.Length ==> dst[..][k] == r[k];
  }

  /** `seal::Ciphertext ciph(other)`: a fresh buffer holding the same limbs. */
  method CopyOf(src: array<Limb>) returns (c: array<Limb>)
    ensures fresh(c)
    ensures c[..] == src[..]
  {
    c := new Limb[src.Length](i requires 0 <= i < src.Length reads src => src[i]);
  }

  /** A fresh buffer holding the limbs an encryption-provider operation produced. */
  method FromSeq(s: seq<Limb>) returns (a: array<Limb>)
    ensures fresh(a)
    ensures a[..] == s
  {
    a := new Limb[|s|](i requires 0 <= i < |s| => s[i]);
  }

  /**
   * Step 1a: the processor fills the dummy plaintext `c_first_plain` with the
   * lower half (`cipher_size / 2` limbs) of the source ciphertext `c`. The
   * plaintext's other limbs keep the dummy encoding.
   */
  method FillPlainWithLowerHalf(plain: array<Limb>, encrypted: array<Limb>)
    requires encrypted.Length / 2 <= plain.Length
    modifies plain
    ensures plain[..] == Overwrite(old(plain[..]), old(encrypted[..]), 0, encrypted.Length / 2)
    ensures forall i :: 0 <= i < encrypted.Length / 2 ==> plain[i] == old(encrypted[i])
    ensures forall i :: encrypted.Length / 2 <= i < plain.Length ==> plain[i] == old(plain[i])
  {
    var cipherSize := encrypted.Length;
    var plainSize := cipherSize / 2;
    CopyRange(plain, encrypted, 0, plainSize);
  }

  /**
   * Step 1c: `c''` starts as a copy of `c'_0 = c_first_ciph`; its lower
   * `cipher_size / 2` limbs are copied from `c'_0` (a no-op on the copy) and the
   * next `cipher_size / 2` from the source ciphertext `c`. For an odd
   * `cipher_size` the last limb is never written and keeps `c'_0`'s value.
   */
  method ComposeDoublePrime(cFirstCiph: array<Limb>, encrypted: array<Limb>) returns (dd: array<Limb>)
    requires 2 * (encrypted.Length / 2) <= cFirstCiph.Length
    ensures fresh(dd)
    ensures dd[..] == Overwrite(cFirstCiph[..], encrypted[..], encrypted.Length / 2, encrypted.Length / 2)
    ensures dd.Length == cFirstCiph.Length
    ensures forall i :: 0 <= i < encrypted.Length / 2 ==> dd[i] == cFirstCiph[i]
    ensures forall i :: encrypted.Length / 2 <= i < 2 * (encrypted.Length / 2) ==> dd[i] == encrypted[i]
    ensures forall i :: 2 * (encrypted.Length / 2) <= i < dd.Length ==> dd[i] == cFirstCiph[i]
  {
    var cipherSize := encrypted.Length;
    dd := CopyOf(cFirstCiph);
    CopyRange(dd, cFirstCiph, 0, cipherSize / 2);
    OverwriteWithItself(cFirstCiph[..], 0, cipherSize / 2);
    CopyRange(dd, encrypted, cipherSize / 2, cipherSize / 2);
  }

  /**
   * Step 5a: `c'''` starts as a copy of `c'_0 = c_first_ciph`; its lower
   * `cipher_size / 2` limbs are copied from the midtext and the next
   * `cipher_size / 2` from `c'_0` itself (a no-op on the copy).
   */
  method ComposeTriplePrime(cFirstCiph: array<Limb>, midtext: array<Limb>, cipherSize: nat)
    returns (ddd: array<Limb>)
    requires cipherSize / 2 <= midtext.Length
    requires 2 * (cipherSize / 2) <= cFirstCiph.Length
    ensures fresh(ddd)
    ensures ddd[..] == Overwrite(cFirstCiph[..], midtext[..], 0, cipherSize / 2)
    ensures ddd.Length == cFirstCiph.Length
    ensures forall i :: 0 <= i < cipherSize / 2 ==> ddd[i] == midtext[i]
    ensures forall i :: cipherSize / 2 <= i < ddd.Length ==> ddd[i] == cFirstCiph[i]
  {
    ddd := CopyOf(cFirstCiph);
    CopyRange(ddd, midtext, 0, cipherSize / 2);
    CopyRange(ddd, cFirstCiph, cipherSize / 2, cipherSize / 2);
    OverwriteUpperFromTemplate(cFirstCiph[..], midtext[..], cipherSize / 2);
  }
}
