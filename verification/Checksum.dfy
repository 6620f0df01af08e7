/** The Internet checksum (RFC 1071) of src/kernel32/netx.c and, over a pseudo header, of netx/udp.c and netx/tcp.c. */
module Checksum {
  type byte = b: nat | b < 256

  const WORD: nat := 0x1_0000
  const WRAP: nat := 0x1_0000_0000

  // ---- specification

  // The big-endian 16-bit words of data added up; an odd last byte counts as the high half.
  function Sum(data: seq<byte>): nat {
    if data == [] then 0
    else if |data| == 1 then data[0] * 256
    else data[0] * 256 + data[1] + Sum(data[2..])
  }

  // One turn of the fold loop.
  function Round(c: nat): nat { c % WORD + c / WORD }

  function Fold(c: nat): (r: nat)
    ensures r < WORD
  {
    if c / WORD == 0 then c else Fold(Round(c))
  }

  // htons on a little-endian machine.
  function Swap(w: nat): (r: nat)
    requires w < WORD
    ensures r < WORD && r % 256 == w / 256 && r / 256 == w % 256
  {
    w % 256 * 256 + w / 256
  }

  /** What the three functions return: complement of the folded 32-bit sum, in network order. */
  function ChecksumOf(data: seq<byte>): (r: nat)
    ensures r < WORD
  {
    Swap(WORD - 1 - Fold(Sum(data) % WRAP))
  }

  /** One's complement addition of all words, as RFC 1071 asks: 0 only for all zeros, otherwise 1 to 65535. */
  function OnesSum(data: seq<byte>): nat { Residue(Sum(data)) }

  // The residue modulo 65535 in 1 to 65535, and 0 for 0.
  function Residue(c: nat): (r: nat)
    ensures r < WORD
  {
    if c == 0 then 0 else (c - 1) % (WORD - 1) + 1
  }

  // ---- sums

  lemma {:induction false} SumConcat(a: seq<byte>, b: seq<byte>)
    requires |a| % 2 == 0
    ensures Sum(a + b) == Sum(a) + Sum(b)
  {
    if a == [] {
      assert a + b == b;
    } else {
      SumConcat(a[2..], b);
      assert (a + b)[2..] == a[2..] + b;
    }
  }

  // The word that starts at i.
  function Word(data: seq<byte>, i: nat): nat
    requires i < |data|
  {
    data[i] as nat * 256 + if i + 1 < |data| then data[i + 1] as nat else 0
  }

  function Min(a: nat, b: nat): nat { if a < b then a else b }

  // One turn of the summing loop.
  lemma SumNext(data: seq<byte>, i: nat)
    requires i < |data| && i % 2 == 0
    ensures Sum(data[..Min(i + 2, |data|)]) == Sum(data[..i]) + Word(data, i)
  {
    var e := Min(i + 2, |data|);
    SumConcat(data[..i], data[i..e]);
    assert data[..e] == data[..i] + data[i..e];
  }

  lemma {:induction false} SumBound(data: seq<byte>)
    ensures Sum(data) <= (|data| + 1) / 2 * (WORD - 1)
  {
    if |data| < 2 {
    } else {
      SumBound(data[2..]);
    }
  }

  // ---- the fold

  lemma RoundKeeps(c: nat)
    ensures Round(c) % (WORD - 1) == c % (WORD - 1) && (Round(c) == 0 <==> c == 0)
    ensures c / WORD != 0 ==> Round(c) < c
  {
    var hi, lo := c / WORD, c % WORD;
    assert c == hi * 65535 + (hi + lo);
    ModPlus(hi, hi + lo);
  }

  lemma ModPlus(k: nat, a: nat)
    ensures (k * 65535 + a) % 65535 == a % 65535
  {
    var q := (k * 65535 + a) / 65535 - a / 65535 - k;
    assert (k * 65535 + a) % 65535 - a % 65535 == -q * 65535;
  }

  /** The fold keeps the value mod 65535: it is the representative in 1 to 65535, and 0 for 0. */
  lemma {:induction false} FoldValue(c: nat)
    ensures Fold(c) == Residue(c)
  {
    RoundKeeps(c);
    if c / WORD == 0 {
    } else {
      FoldValue(Round(c));
      Shifted(c, Round(c));
    }
  }

  lemma Shifted(a: nat, b: nat)
    requires a > 0 && b > 0 && a % 65535 == b % 65535
    ensures (a - 1) % 65535 == (b - 1) % 65535
  {
  }

  /** Two rounds are enough for any 32-bit sum. */
  lemma TwoRounds(c: nat)
    requires c < WRAP
    ensures Round(c) <= 2 * (WORD - 1) && Round(Round(c)) < WORD
    ensures Fold(c) == if c < WORD then c else if Round(c) < WORD then Round(c) else Round(Round(c))
  {
  }

  /** The checksum is 0 exactly when the 32-bit sum is a non-zero multiple of 65535. */
  lemma ZeroMeans(data: seq<byte>)
    ensures ChecksumOf(data) == 0 <==> Sum(data) % WRAP != 0 && Sum(data) % WRAP % (WORD - 1) == 0
  {
    FoldFull(Sum(data) % WRAP);
    SwapInjective(WORD - 1 - Fold(Sum(data) % WRAP), 0);
  }

  // Within the bound below, of the sum itself.
  lemma ZeroExactly(data: seq<byte>)
    requires |data| <= 131074
    ensures ChecksumOf(data) == 0 <==> Sum(data) != 0 && Sum(data) % (WORD - 1) == 0
  {
    hide *;
    NoWrap(data);
    Unwrapped(Sum(data));
    ZeroMeans(data);
  }

  lemma Unwrapped(s: nat)
    requires s < WRAP
    ensures s % WRAP == s
  {
  }

  lemma FoldFull(c: nat)
    ensures Fold(c) == WORD - 1 <==> c != 0 && c % (WORD - 1) == 0
  {
    FoldValue(c);
    hide Fold;
    if c != 0 {
      FullResidue(c);
    }
  }

  lemma FullResidue(c: nat)
    requires c > 0
    ensures (c - 1) % 65535 + 1 == 65535 <==> c % 65535 == 0
  {
  }

  // ---- how far the 32-bit sum is exact

  /** Up to 131074 bytes the 32-bit sum cannot wrap, since 65537 * 65535 = 2^32 - 1. */
  lemma NoWrap(data: seq<byte>)
    requires |data| <= 131074
    ensures Sum(data) < WRAP
  {
    SumBound(data);
  }

  function AllOnes(n: nat): (r: seq<byte>)
    ensures |r| == n
  {
    seq(n, _ => 255)
  }

  lemma {:induction false} AllOnesSum(k: nat)
    ensures Sum(AllOnes(2 * k)) == k * (WORD - 1)
  {
    if k == 0 {
    } else {
      AllOnesSum(k - 1);
      assert AllOnes(2 * k)[2..] == AllOnes(2 * (k - 1));
    }
  }

  lemma AllOnesBeyond(n: nat, k: nat)
    requires n > 2 * k
    ensures Sum(AllOnes(n)) >= k * (WORD - 1) + 255 * 256
  {
    var rest := AllOnes(n - 2 * k);
    AllOnesSum(k);
    SumConcat(AllOnes(2 * k), rest);
    assert AllOnes(n) == AllOnes(2 * k) + rest;
    assert rest[0] == 255;
  }

  /** The bound is the best: beyond it, a buffer of ones wraps. */
  lemma Wraps(n: nat)
    requires n > 131074
    ensures Sum(AllOnes(n)) >= WRAP
  {
    hide Sum, AllOnes;
    AllOnesBeyond(n, 65537);
  }

  /** The result is the one RFC 1071 defines exactly when the sum does not wrap, for every buffer that has a 32-bit
      length. */
  lemma ExactlyUnwrapped(data: seq<byte>)
    requires |data| < WRAP
    ensures ChecksumOf(data) == Swap(WORD - 1 - OnesSum(data)) <==> Sum(data) < WRAP
  {
    var s := Sum(data);
    SumBound(data);
    FoldValue(s % WRAP);
    SwapInjective(WORD - 1 - Residue(s % WRAP), WORD - 1 - Residue(s));
    WrapChanges(s, |data|);
    hide Sum, Fold, Swap, Residue;
  }

  // A sum that wrapped q times has lost q modulo 65535.
  lemma WrapChanges(s: nat, n: nat)
    requires s <= (n + 1) / 2 * (WORD - 1) && n < WRAP
    ensures Residue(s % WRAP) == Residue(s) <==> s < WRAP
  {
    if s >= WRAP {
      FewWraps(s, n);
      Residues(s, s / WRAP, s % WRAP);
    }
  }

  lemma FewWraps(s: nat, n: nat)
    requires WRAP <= s <= (n + 1) / 2 * (WORD - 1) && n < WRAP
    ensures 0 < s / WRAP < 65535 && s == s / WRAP * WRAP + s % WRAP
  {
    assert (n + 1) / 2 <= 0x8000_0000;
    assert s <= 0x8000_0000 * 0xFFFF;
  }

  lemma Residues(s: nat, q: nat, c: nat)
    requires s == q * WRAP + c && 0 < q < 65535
    ensures Residue(s) != Residue(c)
  {
    assert s == (q * 65537) * 65535 + (q + c);
    ModPlus(q * 65537, q + c);
    if c > 0 {
      assert s - 1 == (q * 65537) * 65535 + (q + c - 1);
      ModPlus(q * 65537, q + c - 1);
      assert (q + (c - 1)) % 65535 != (c - 1) % 65535;
    }
  }

  lemma SwapInjective(a: nat, b: nat)
    requires a < WORD && b < WORD
    ensures Swap(a) == Swap(b) <==> a == b
  {
  }

  // ---- storing the checksum

  // A 16-bit store on a little-endian machine.
  function Store(data: seq<byte>, k: nat, w: nat): (r: seq<byte>)
    requires k + 1 < |data| && w < WORD
    ensures |r| == |data|
  {
    data[k := w % 256][k + 1 := w / 256]
  }

  lemma StoredSum(data: seq<byte>, k: nat, v: nat)
    requires k % 2 == 0 && k + 1 < |data| && data[k] == 0 && data[k + 1] == 0 && v < WORD
    ensures Sum(Store(data, k, Swap(v))) == Sum(data) + v
  {
    ReplacedSum(data, k, v / 256, v % 256);
  }

  // Replacing one word changes the sum by the difference.
  lemma ReplacedSum(data: seq<byte>, k: nat, hi: byte, lo: byte)
    requires k % 2 == 0 && k + 1 < |data|
    ensures Sum(data[k := hi][k + 1 := lo]) == Sum(data) - Word(data, k) + hi * 256 + lo
  {
    var a, b := data[..k], data[k + 2..];
    assert data == a + ([data[k], data[k + 1]] + b);
    assert data[k := hi][k + 1 := lo] == a + ([hi, lo] + b);
    SumConcat(a, [data[k], data[k + 1]] + b);
    SumConcat(a, [hi, lo] + b);
    SumConcat([data[k], data[k + 1]], b);
    SumConcat([hi, lo], b);
  }

  /** Self-verification, for buffers of every length: with the checksum stored into a zeroed field at an even offset, the
      same function over the whole buffer returns 0. It needs no length bound: 2^32 - 1 is a multiple of 65535, so
      completing the folded sum to a multiple of 65535 never wraps the 32-bit sum. */
  lemma SelfVerifies(data: seq<byte>, k: nat)
    requires k % 2 == 0 && k + 1 < |data| && data[k] == 0 && data[k + 1] == 0
    ensures ChecksumOf(Store(data, k, ChecksumOf(data))) == 0
  {
    var v: nat := WORD - 1 - Fold(Sum(data) % WRAP);
    FoldValue(Sum(data) % WRAP);
    assert ChecksumOf(data) == Swap(v) && v == 65535 - Residue(Sum(data) % WRAP);
    hide *;
    StoredSum(data, k, v);
    Completed(Sum(data), v);
    Vanishes(Store(data, k, Swap(v)), Sum(data) + v);
  }

  lemma Vanishes(data: seq<byte>, sum: nat)
    requires Sum(data) == sum && sum % WRAP != 0 && sum % WRAP % 65535 == 0
    ensures ChecksumOf(data) == 0
  {
    ZeroMeans(data);
    hide Sum, ChecksumOf;
  }

  lemma ModAdd(a: nat, b: nat)
    ensures (a % WRAP + b) % WRAP == (a + b) % WRAP
  {
  }

  // Adding v completes the 32-bit sum to a multiple of 65535, which is at most 2^32 - 1.
  lemma Completed(s: nat, v: nat)
    requires v == 65535 - Residue(s % WRAP)
    ensures (s + v) % WRAP != 0 && (s + v) % WRAP % 65535 == 0
  {
    var c := s % WRAP;
    var q := if c == 0 then 0 else (c - 1) / 65535;
    assert c + v == (q + 1) * 65535 && c + v < WRAP;
    ModAdd(s, v);
    ModPlus(q + 1, 0);
  }

  /** A buffer that verifies still does after one of its words is replaced only if the new word is congruent to the old
      one modulo 65535, that is equal, or 0 for 0xFFFF. */
  lemma ChangeDetected(data: seq<byte>, k: nat, hi: byte, lo: byte)
    requires |data| <= 131074 && k % 2 == 0 && k + 1 < |data| && ChecksumOf(data) == 0
    ensures var changed := data[k := hi][k + 1 := lo];
      ChecksumOf(changed) == 0 <==> (hi * 256 + lo) % 65535 == Word(data, k) % 65535 && Sum(changed) != 0
  {
    var changed := data[k := hi][k + 1 := lo];
    ZeroExactly(data);
    ZeroExactly(changed);
    ReplacedSum(data, k, hi, lo);
    hide *;
    SameResidue(Sum(data), Sum(changed), Word(data, k), hi as nat * 256 + lo);
  }

  lemma SameResidue(s: nat, t: nat, a: nat, b: nat)
    requires t + a == s + b && s % 65535 == 0
    ensures t % 65535 == 0 <==> b % 65535 == a % 65535
  {
  }

  // ---- the functions

  // i += 2 on an index that wraps at w.
  function IndexNext(i: nat, w: nat): nat
    requires i < w
  {
    if i + 2 < w then i + 2 else if i + 2 == w then 0 else 1
  }

  // One summing loop: length bytes from start on, with an index of 16 or 32 bits.
  method AddWords(data: array<byte>, start: nat, length: nat, checksum: nat, indexWrap: nat) returns (r: nat)
    requires start + length <= data.Length && length + 1 < indexWrap && checksum < WRAP
    ensures r == (checksum + Sum(data[start..start + length])) % WRAP
  {
    ghost var all := data[start..start + length];
    r := checksum;
    var i: nat := 0;
    ghost var sum: nat := 0;
    while i < length
      invariant i % 2 == 0 && i <= length + 1
      invariant r == (checksum + sum) % WRAP && sum == Sum(all[..Min(i, length)])
    {
      var word := data[start + i] as nat * 256;
      if i + 1 < length {
        word := word + data[start + i + 1];
      }
      SumNext(all, i);
      assert word == Word(all, i);
      hide Sum, Word;
      ModAdd(checksum + sum, word);
      sum := sum + word;
      r := (r + word) % WRAP;
      i := IndexNext(i, indexWrap);
    }
    assert all[..length] == all;
  }

  // The fold loop.
  method FoldSum(sum: nat) returns (r: nat)
    requires sum < WRAP
    ensures r == Fold(sum)
  {
    r := sum;
    while r / WORD != 0
      invariant Fold(r) == Fold(sum)
      decreases r
    {
      RoundKeeps(r);
      r := r % WORD + r / WORD;
    }
  }

  lemma Complement(c: nat)
    requires c < WORD
    ensures (WRAP - 1 - c) % WORD == WORD - 1 - c && Finish(c) == Swap(WORD - 1 - c)
  {
    LowHalf(WORD - 1 - c);
  }

  lemma LowHalf(r: nat)
    requires r < WORD
    ensures (65535 * WORD + r) % WORD == r
  {
  }

  /** calc_checksum. With length 2^32 - 1 the 32-bit index would wrap and the loop never end. */
  method CalcChecksum(data: array<byte>, length: nat) returns (r: nat)
    requires length <= data.Length && length < WRAP - 1
    ensures r == ChecksumOf(data[..length])
  {
    assert data[0..length] == data[..length];
    hide Sum, Fold, Swap;
    var checksum := AddWords(data, 0, length, 0, WRAP);
    checksum := FoldSum(checksum);
    Complement(checksum);
    r := Swap((WRAP - 1 - checksum) % WORD);
  }

  // The pseudo header of UDP and TCP over IPv4, with the protocol's number.
  function Pseudo(src: seq<byte>, dst: seq<byte>, protocol: byte, length: nat): (r: seq<byte>)
    requires |src| == |dst| == 4 && length < WORD
    ensures |r| == 12
  {
    src + dst + [0, protocol, length / 256, length % 256]
  }

  // The additions before the loops.
  method AddPseudo(src: seq<byte>, dst: seq<byte>, protocol: byte, length: nat) returns (checksum: nat)
    requires |src| == |dst| == 4 && length < WORD
    ensures checksum == Sum(Pseudo(src, dst, protocol, length)) < WRAP
  {
    checksum := src[0] as nat * 256 + src[1];
    checksum := checksum + (src[2] as nat * 256 + src[3]);
    checksum := checksum + (dst[0] as nat * 256 + dst[1]);
    checksum := checksum + (dst[2] as nat * 256 + dst[3]);
    checksum := checksum + protocol;
    checksum := checksum + length;
    PseudoSum(src, dst, protocol, length);
  }

  lemma PseudoSum(src: seq<byte>, dst: seq<byte>, protocol: byte, length: nat)
    requires |src| == |dst| == 4 && length < WORD
    ensures Sum(Pseudo(src, dst, protocol, length)) ==
      Word(src, 0) + Word(src, 2) + Word(dst, 0) + Word(dst, 2) + protocol + length
  {
    var last: seq<byte> := [0, protocol, length / 256, length % 256];
    SumConcat(src + dst, last);
    SumConcat(src, dst);
    assert last[2..] == [length / 256, length % 256];
    FourBytes(src);
    FourBytes(dst);
    FourBytes(last);
  }

  lemma FourBytes(a: seq<byte>)
    requires |a| == 4
    ensures Sum(a) == Word(a, 0) + Word(a, 2)
  {
    assert Sum(a[2..]) == Word(a, 2) + Sum(a[2..][2..]);
  }

  // The last statement of both, on the 32-bit complement; that is never 0, so the second arm is dead.
  function Choose(complement: nat): (r: nat)
    ensures r < WORD
  {
    if complement != 0 then complement % WORD else 0xFFFF
  }

  function Finish(checksum: nat): nat
    requires checksum < WORD
  {
    Swap(Choose(WRAP - 1 - checksum))
  }

  // Fold and complement, as both end.
  method Conclude(sum: nat) returns (r: nat)
    requires sum < WRAP
    ensures r == Swap(WORD - 1 - Fold(sum))
  {
    hide *;
    var checksum := FoldSum(sum);
    Complement(checksum);
    r := Finish(checksum);
  }

  // The length calc_udp_checksum works with: 16 bits.
  function UdpLength(dataLen: nat): nat { (8 + dataLen) % WORD }

  /** calc_udp_checksum is the plain checksum of the pseudo header and the datagram with its checksum field zeroed. */
  method CalcUdpChecksum(src: seq<byte>, dst: seq<byte>, seg: array<byte>, dataLen: nat) returns (r: nat)
    requires |src| == |dst| == 4 && dataLen < WORD
    requires 8 <= seg.Length && UdpLength(dataLen) <= seg.Length && UdpLength(dataLen) < WORD - 1
    modifies seg
    ensures seg[..] == old(seg[..])[6 := 0][7 := 0]
    ensures r == ChecksumOf(Pseudo(src, dst, 17, UdpLength(dataLen)) + seg[..UdpLength(dataLen)])
    ensures 8 + dataLen == seg.Length < WORD ==> r == ChecksumOf(Pseudo(src, dst, 17, seg.Length) + seg[..])
  {
    var udpLen := (8 + dataLen) % WORD;
    assert 8 + dataLen == seg.Length < WORD ==> udpLen == seg.Length;
    hide *;
    r := SumUdp(src, dst, udpLen, seg);
    assert seg[..seg.Length] == seg[..];
  }

  // calc_udp_checksum from the length on.
  method SumUdp(src: seq<byte>, dst: seq<byte>, udpLen: nat, seg: array<byte>) returns (r: nat)
    requires |src| == |dst| == 4 && 8 <= seg.Length && udpLen <= seg.Length && udpLen < WORD - 1
    modifies seg
    ensures seg[..] == old(seg[..])[6 := 0][7 := 0]
    ensures r == ChecksumOf(Pseudo(src, dst, 17, udpLen) + seg[..udpLen])
  {
    var checksum := AddPseudo(src, dst, 17, udpLen);
    seg[6], seg[7] := 0, 0;
    SumConcat(Pseudo(src, dst, 17, udpLen), seg[..udpLen]);
    hide Sum, Pseudo;
    checksum := AddWords(seg, 0, udpLen, checksum, WORD);
    assert seg[0..udpLen] == seg[..udpLen];
    r := Conclude(checksum);
  }

  // A header of odd length is summed as if a zero byte followed it.
  function Padded(a: seq<byte>): (r: seq<byte>)
    ensures |r| % 2 == 0 && (|a| % 2 == 0 ==> r == a)
  {
    if |a| % 2 == 0 then a else a + [0]
  }

  lemma {:induction false} PaddedSum(a: seq<byte>)
    ensures Sum(Padded(a)) == Sum(a)
  {
    if |a| >= 2 {
      PaddedSum(a[2..]);
      assert Padded(a)[2..] == Padded(a[2..]);
    } else if |a| == 1 {
      assert Padded(a)[2..] == [];
    }
  }

  lemma ThreeParts(pseudo: seq<byte>, header: seq<byte>, data: seq<byte>)
    requires |pseudo| % 2 == 0
    ensures Sum(pseudo + Padded(header) + data) == Sum(pseudo) + Sum(header) + Sum(data)
  {
    PaddedSum(header);
    SumConcat(pseudo, Padded(header));
    SumConcat(pseudo + Padded(header), data);
  }

  // tcp_hdr_len, in 16 bits, from the fields of the IP header.
  function HeaderLength(totalLen: nat, ihl: nat, dataLen: nat): (r: nat)
    ensures r < WORD
  {
    (totalLen - ihl * 4 - dataLen) % WORD
  }

  lemma LengthsAgree(totalLen: nat, ihl: nat, dataLen: nat, payload: nat)
    requires totalLen == 4 * ihl + payload + dataLen < WORD
    ensures HeaderLength(totalLen, ihl, dataLen) == payload && (payload + dataLen) % WORD == payload + dataLen
  {
  }

  // The two loops of calc_tcp_checksum.
  method AddSegment(seg: array<byte>, h: nat, payload: nat, dataLen: nat, checksum: nat) returns (r: nat)
    requires h <= seg.Length && 18 <= seg.Length && payload + dataLen <= seg.Length && checksum < WRAP
    requires h < WORD - 1 && dataLen < WORD - 1
    modifies seg
    ensures seg[..] == old(seg[..])[16 := 0][17 := 0]
    ensures r == (checksum + Sum(seg[..h]) + Sum(seg[payload..payload + dataLen])) % WRAP
  {
    hide Sum;
    seg[16], seg[17] := 0, 0;
    r := AddWords(seg, 0, h, checksum, WORD);
    assert seg[0..h] == seg[..h];
    ModAdd(checksum + Sum(seg[..h]), Sum(seg[payload..payload + dataLen]));
    r := AddWords(seg, payload, dataLen, r, WORD);
  }

  /** calc_tcp_checksum, the data starting at payload: the header and the data are summed apart, which is the plain
      checksum of pseudo header, header and data for every header of even length. */
  method CalcTcpChecksum(src: seq<byte>, dst: seq<byte>, totalLen: nat, ihl: nat, seg: array<byte>, payload: nat, dataLen: nat)
    returns (r: nat)
    requires |src| == |dst| == 4 && totalLen < WORD && ihl < 16 && dataLen < WORD - 1
    requires HeaderLength(totalLen, ihl, dataLen) < WORD - 1 && HeaderLength(totalLen, ihl, dataLen) <= seg.Length
    requires 18 <= seg.Length && payload + dataLen <= seg.Length
    modifies seg
    ensures seg[..] == old(seg[..])[16 := 0][17 := 0]
    ensures var h := HeaderLength(totalLen, ihl, dataLen);
      r == ChecksumOf(Pseudo(src, dst, 6, (h + dataLen) % WORD) + Padded(seg[..h]) + seg[payload..payload + dataLen])
    ensures totalLen == 4 * ihl + seg.Length && payload + dataLen == seg.Length ==>
      OfSegment(r, Pseudo(src, dst, 6, seg.Length), seg[..], payload)
  {
    hide *;
    var h := HeaderLength(totalLen, ihl, dataLen);
    ghost var whole := totalLen == 4 * ihl + seg.Length && payload + dataLen == seg.Length;
    if whole {
      LengthsAgree(totalLen, ihl, dataLen, payload);
    }
    r := SumTcp(src, dst, h, (h + dataLen) % WORD, seg, payload, dataLen);
    if whole {
      WholeSegment(src, dst, seg[..], payload);
      assert seg[..][..payload] == seg[..payload] && seg[..][payload..] == seg[payload..payload + dataLen];
    }
  }

  /** r is the checksum of the segment as a whole: always when the data start at an even offset, and otherwise exactly
      when their words add up to a multiple of 257. */
  ghost predicate OfSegment(r: nat, pseudo: seq<byte>, seg: seq<byte>, payload: nat)
    requires payload <= |seg|
  {
    r == ChecksumOf(pseudo + seg) <==> payload % 2 == 0 || Sum(seg[payload..]) % 257 == 0
  }

  lemma WholeSegment(src: seq<byte>, dst: seq<byte>, seg: seq<byte>, payload: nat)
    requires |src| == |dst| == 4 && payload <= |seg| < WORD
    ensures var p := Pseudo(src, dst, 6, |seg|);
      OfSegment(ChecksumOf(p + Padded(seg[..payload]) + seg[payload..]), p, seg, payload)
  {
    var (p, header, data) := (Pseudo(src, dst, 6, |seg|), seg[..payload], seg[payload..]);
    assert p + header + data == p + seg;
    ProtocolCounts(src, dst, 6, |seg|);
    hide Sum, Fold, Swap, Pseudo;
    if payload % 2 == 1 {
      OddHeaderExactly(p, header, data);
    }
  }

  // calc_tcp_checksum from the header length on.
  method SumTcp(src: seq<byte>, dst: seq<byte>, h: nat, tcpLen: nat, seg: array<byte>, payload: nat, dataLen: nat)
    returns (r: nat)
    requires |src| == |dst| == 4 && tcpLen < WORD && dataLen < WORD - 1 && h < WORD - 1 && h <= seg.Length
    requires 18 <= seg.Length && payload + dataLen <= seg.Length
    modifies seg
    ensures seg[..] == old(seg[..])[16 := 0][17 := 0]
    ensures r == ChecksumOf(Pseudo(src, dst, 6, tcpLen) + Padded(seg[..h]) + seg[payload..payload + dataLen])
  {
    hide Sum, Pseudo, Padded, Fold, Swap;
    var checksum := AddPseudo(src, dst, 6, tcpLen);
    checksum := AddSegment(seg, h, payload, dataLen, checksum);
    ThreeParts(Pseudo(src, dst, 6, tcpLen), seg[..h], seg[payload..payload + dataLen]);
    r := Conclude(checksum);
  }

  /** A segment whose data follow a header of even length: the two loops give the checksum of the segment as a whole, and
      a receiver that sums pseudo header and segment with the checksum stored at offset 16 gets 0. */
  lemma SegmentVerifies(pseudo: seq<byte>, seg: seq<byte>, h: nat)
    requires |pseudo| == 12 && h % 2 == 0 && 18 <= h <= |seg| && seg[16] == 0 && seg[17] == 0
    ensures ChecksumOf(pseudo + Padded(seg[..h]) + seg[h..]) == ChecksumOf(pseudo + seg)
    ensures ChecksumOf(pseudo + Store(seg, 16, ChecksumOf(pseudo + seg))) == 0
  {
    assert pseudo + Padded(seg[..h]) + seg[h..] == pseudo + seg;
    SelfVerifies(pseudo + seg, 28);
    var c := ChecksumOf(pseudo + seg);
    assert Store(pseudo + seg, 28, c) == pseudo + Store(seg, 16, c);
  }

  // Moving the data by one byte swaps the bytes of their words, which multiplies their sum by 256 modulo 65535.
  lemma {:induction false} ShiftedSum(data: seq<byte>)
    ensures Sum([0] + data) * 256 % 65535 == Sum(data) % 65535
  {
    if data == [] {
      assert [0] + data == [0];
    } else if |data| == 1 {
      assert ([0] + data)[2..] == [];
    } else {
      var (hi, rest) := (data[0] as nat, data[2..]);
      ShiftedSum(rest);
      assert ([0] + data)[2..] == [data[1]] + rest;
      FirstByte(data[1], rest);
      SwapBytes(hi, data[1] as nat, Sum([0] + rest), Sum(rest));
    }
  }

  // The first byte of an even position adds 256 times itself.
  lemma FirstByte(b: byte, rest: seq<byte>)
    ensures Sum([b] + rest) == b as nat * 256 + Sum([0] + rest)
  {
    if rest != [] {
      assert ([b] + rest)[2..] == ([0] + rest)[2..];
    }
  }

  lemma SwapBytes(hi: nat, lo: nat, shifted: nat, sum: nat)
    requires shifted * 256 % 65535 == sum % 65535
    ensures (hi + (lo * 256 + shifted)) * 256 % 65535 == (hi * 256 + lo + sum) % 65535
  {
    var q: int := shifted * 256 / 65535 - sum / 65535;
    assert shifted * 256 == sum + q * 65535;
    SameMod((hi + (lo * 256 + shifted)) * 256, hi * 256 + lo + sum, lo + q);
  }

  // Two sums that do not wrap fold to the same checksum exactly when they are congruent.
  lemma SameChecksum(a: seq<byte>, b: seq<byte>)
    requires |a| <= 131074 && |b| <= 131074 && Sum(a) > 0 && Sum(b) > 0
    ensures ChecksumOf(a) == ChecksumOf(b) <==> Sum(a) % 65535 == Sum(b) % 65535
  {
    NoWrap(a);
    NoWrap(b);
    Unwrapped(Sum(a));
    Unwrapped(Sum(b));
    FoldValue(Sum(a));
    FoldValue(Sum(b));
    SwapInjective(WORD - 1 - Fold(Sum(a)), WORD - 1 - Fold(Sum(b)));
    hide Sum, Fold, Swap;
    SameResidues(Sum(a), Sum(b));
  }

  lemma SameResidues(a: nat, b: nat)
    requires a > 0 && b > 0
    ensures Residue(a) == Residue(b) <==> a % 65535 == b % 65535
  {
    if a % 65535 == b % 65535 {
      Shifted(a, b);
    }
  }

  // With an odd header the data are summed a byte too early.
  lemma OddSums(pseudo: seq<byte>, header: seq<byte>, data: seq<byte>)
    requires |pseudo| % 2 == 0 && |header| % 2 == 1
    ensures Sum(pseudo + header + data) == Sum(pseudo) + Sum(header) + Sum([0] + data)
  {
    var parts := OddParts(header);
    var (most, last) := (parts.0, parts.1);
    hide *;
    Regrouped(pseudo, most, [last], data);
    FirstByte(last, data);
  }

  lemma OddParts(header: seq<byte>) returns (r: (seq<byte>, byte))
    requires |header| % 2 == 1
    ensures header == r.0 + [r.1] && |r.0| % 2 == 0 && Sum(header) == Sum(r.0) + r.1 as nat * 256
  {
    var (most, last) := (header[..|header| - 1], header[|header| - 1]);
    r := (most, last);
    assert header == most + [last];
    SumConcat(most, [last]);
  }

  lemma Regrouped(pseudo: seq<byte>, most: seq<byte>, last: seq<byte>, data: seq<byte>)
    requires |pseudo| % 2 == 0 && |most| % 2 == 0
    ensures Sum(pseudo + (most + last) + data) == Sum(pseudo) + Sum(most) + Sum(last + data)
  {
    assert pseudo + (most + last) + data == pseudo + (most + (last + data));
    SumConcat(pseudo, most + (last + data));
    SumConcat(most, last + data);
  }

  /** For a header of odd length the two loops agree with the checksum of the segment as a whole exactly when the words of
      the data add up to a multiple of 257, provided the sum does not wrap and something (the protocol) is not zero. */
  lemma OddHeaderExactly(pseudo: seq<byte>, header: seq<byte>, data: seq<byte>)
    requires |pseudo| % 2 == 0 && |header| % 2 == 1 && Sum(pseudo) > 0
    requires |pseudo| + |header| + |data| <= 131073
    ensures ChecksumOf(pseudo + Padded(header) + data) == ChecksumOf(pseudo + header + data) <==> Sum(data) % 257 == 0
  {
    hide *;
    ThreeParts(pseudo, header, data);
    OddSums(pseudo, header, data);
    PaddedLength(header);
    SameChecksum(pseudo + Padded(header) + data, pseudo + header + data);
    ShiftedSum(data);
    TimesOf257(Sum(pseudo) + Sum(header), Sum(data), Sum([0] + data));
  }

  lemma PaddedLength(a: seq<byte>)
    ensures |Padded(a)| <= |a| + 1
  {
  }

  lemma TimesOf257(base: nat, sum: nat, shifted: nat)
    requires shifted * 256 % 65535 == sum % 65535
    ensures (base + sum) % 65535 == (base + shifted) % 65535 <==> sum % 257 == 0
  {
    var q: int := shifted * 256 / 65535 - sum / 65535;
    var j: int := shifted - 256 * q;
    assert shifted * 256 == sum + 65535 * q;
    assert sum - shifted == 65535 * j - 255 * sum;
    if (base + sum) % 65535 == (base + shifted) % 65535 {
      var k: int := (base + sum) / 65535 - (base + shifted) / 65535;
      assert sum == 257 * (j - k);
      Multiple257(sum, j - k);
    }
    if sum % 257 == 0 {
      var m: int := sum / 257;
      assert sum - shifted == 65535 * (j - m);
      SameMod(base + sum, base + shifted, j - m);
    }
  }

  lemma Multiple257(a: nat, k: int)
    requires a == 257 * k
    ensures a % 257 == 0
  {
  }

  lemma SameMod(a: nat, b: nat, k: int)
    requires a == b + 65535 * k
    ensures a % 65535 == b % 65535
  {
    var q: int := a / 65535 - b / 65535 - k;
    assert a % 65535 - b % 65535 == -65535 * q;
  }

  // The pseudo header of TCP is never all zeros.
  lemma ProtocolCounts(src: seq<byte>, dst: seq<byte>, protocol: byte, length: nat)
    requires |src| == |dst| == 4 && length < WORD && protocol > 0
    ensures Sum(Pseudo(src, dst, protocol, length)) > 0
  {
    PseudoSum(src, dst, protocol, length);
  }

  /** An input of real length: 21 bytes of header, and the two data bytes 0 and 1. */
  lemma OddHeaderDiffers(src: seq<byte>, dst: seq<byte>, header: seq<byte>)
    requires |src| == |dst| == 4 && |header| == 21
    ensures var p := Pseudo(src, dst, 6, 23);
      ChecksumOf(p + Padded(header) + [0, 1]) != ChecksumOf(p + header + [0, 1])
  {
    ProtocolCounts(src, dst, 6, 23);
    OddHeaderExactly(Pseudo(src, dst, 6, 23), header, [0, 1]);
  }

  /** The same for a datagram, whose checksum is at offset 6. */
  lemma DatagramVerifies(pseudo: seq<byte>, seg: seq<byte>)
    requires |pseudo| == 12 && 8 <= |seg| && seg[6] == 0 && seg[7] == 0
    ensures ChecksumOf(pseudo + Store(seg, 6, ChecksumOf(pseudo + seg))) == 0
  {
    SelfVerifies(pseudo + seg, 18);
    var c := ChecksumOf(pseudo + seg);
    assert Store(pseudo + seg, 18, c) == pseudo + Store(seg, 6, c);
  }
}
