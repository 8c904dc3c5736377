/** ipv4_checksum of panctl/ipv4.c: RFC 1071's sum, computed in a 32-bit accumulator. */
module InternetChecksum {
  import opened Bytes

  const WRAP := 0x1_0000_0000

  /** The plain sum of the big-endian 16-bit words, an odd last byte being a word's high half. */
  function WordSum(s: seq<byte>): nat {
    if |s| == 0 then 0
    else if |s| == 1 then (s[0] as int) * 0x100
    else (s[0] as int) * 0x100 + s[1] + WordSum(s[2..])
  }

  function FoldOnce(sum: nat): nat { sum % 0x1_0000 + sum / 0x1_0000 }

  function Fold(sum: nat): u16 {
    if sum < 0x1_0000 then sum else Fold(FoldOnce(sum))
  }

  function Checksum(s: seq<byte>): u16 { 0xFFFF - Fold(WordSum(s) % WRAP) }

  // ----- the reference: section 2 of RFC 1071 -----

  /** Ones-complement addition: the carry out of the high bit is added back in. */
  function OnesAdd(a: u16, b: u16): u16 {
    if a + b > 0xFFFF then a + b - 0xFFFF else a + b
  }

  function OnesSum(s: seq<byte>): u16 {
    if |s| == 0 then 0
    else if |s| == 1 then (s[0] as int) * 0x100
    else OnesAdd((s[0] as int) * 0x100 + s[1], OnesSum(s[2..]))
  }

  // ----- the loops -----

  /** ipv4_checksum: additions wrap at 32 bits as they do in C, and the fold loop runs at most
      twice. */
  method ComputeChecksum(buf: seq<byte>) returns (c: u16)
    ensures c == Checksum(buf)
  {
    var sum := 0;
    var i := 0;
    assert buf[i..] == buf;
    while i + 1 < |buf|
      invariant 0 <= i <= |buf| && 0 <= sum < WRAP
      invariant (sum + WordSum(buf[i..])) % WRAP == WordSum(buf) % WRAP
    {
      var word := (buf[i] as int) * 0x100 + buf[i + 1];
      assert WordSum(buf[i..]) == word + WordSum(buf[i + 2..]) by { assert buf[i..][2..] == buf[i + 2..]; }
      WrapAdd(sum, word, WordSum(buf[i + 2..]));
      sum := (sum + word) % WRAP;
      i := i + 2;
    }
    if i < |buf| {
      sum := (sum + (buf[i] as int) * 0x100) % WRAP;
    }
    assert sum == WordSum(buf) % WRAP;
    ghost var folds := 0;
    FoldTwice(sum);
    while sum / 0x1_0000 != 0
      invariant 0 <= sum && Fold(sum) == Fold(WordSum(buf) % WRAP)
      invariant folds == 0 ==> sum == WordSum(buf) % WRAP
      invariant folds == 1 ==> sum == FoldOnce(WordSum(buf) % WRAP)
      invariant folds == 2 ==> sum < 0x1_0000
      invariant 0 <= folds <= 2
      decreases sum
    {
      sum := sum % 0x1_0000 + sum / 0x1_0000;
      folds := folds + 1;
    }
    c := 0xFFFF - sum;
  }

  lemma WrapAdd(a: nat, b: nat, c: nat)
    ensures ((a + b) % WRAP + c) % WRAP == (a + (b + c)) % WRAP
  {
    var q, r := (a + b) / WRAP, (a + b) % WRAP;
    var p, t := (r + c) / WRAP, (r + c) % WRAP;
    assert a + (b + c) == (q + p) * WRAP + t;
  }

  lemma AddMultiple(x: nat, q: nat)
    ensures (x + q * 0xFFFF) % 0xFFFF == x % 0xFFFF
  {
    var p, t := x / 0xFFFF, x % 0xFFFF;
    assert x + q * 0xFFFF == (p + q) * 0xFFFF + t;
  }

  /** Two folds bring any 32-bit sum below 2^16. */
  lemma FoldTwice(sum: nat)
    requires sum < WRAP
    ensures FoldOnce(FoldOnce(sum)) < 0x1_0000
  {
  }

  // ----- arithmetic meaning -----

  /** The fold is the remainder modulo 65535, with 65535 standing for 0 unless the sum is 0. */
  lemma {:induction false} FoldIsResidue(sum: nat)
    ensures Fold(sum) % 0xFFFF == sum % 0xFFFF
    ensures Fold(sum) == 0 <==> sum == 0
  {
    if sum >= 0x1_0000 {
      FoldIsResidue(FoldOnce(sum));
      AddMultiple(FoldOnce(sum), sum / 0x1_0000);
      assert FoldOnce(sum) + (sum / 0x1_0000) * 0xFFFF == sum;
    }
  }

  /** Two 16-bit values with one residue are equal once they agree on being 0. */
  lemma ResidueUnique(a: u16, b: u16)
    requires a % 0xFFFF == b % 0xFFFF && (a == 0 <==> b == 0)
    ensures a == b
  {
  }

  lemma OnesAddResidue(a: u16, b: u16, s: nat)
    requires b % 0xFFFF == s % 0xFFFF && (b == 0 <==> s == 0)
    ensures OnesAdd(a, b) % 0xFFFF == (a + s) % 0xFFFF && (OnesAdd(a, b) == 0 <==> a + s == 0)
  {
    var q, p := s / 0xFFFF, b / 0xFFFF;
    assert a + s == (a + s % 0xFFFF) + q * 0xFFFF;
    AddMultiple(a + s % 0xFFFF, q);
    AddMultiple(a + b % 0xFFFF, p);
    assert a + b == (a + b % 0xFFFF) + p * 0xFFFF;
    if a + b > 0xFFFF {
      AddMultiple(a + b - 0xFFFF, 1);
    }
  }

  lemma {:induction false} OnesSumResidue(s: seq<byte>)
    ensures OnesSum(s) % 0xFFFF == WordSum(s) % 0xFFFF
    ensures OnesSum(s) == 0 <==> WordSum(s) == 0
    decreases |s|
  {
    if |s| >= 2 {
      OnesSumResidue(s[2..]);
      OnesAddResidue((s[0] as int) * 0x100 + s[1], OnesSum(s[2..]), WordSum(s[2..]));
    }
  }

  /** Adding first and folding the carries later is ones-complement addition throughout. */
  lemma FoldIsOnesSum(s: seq<byte>)
    ensures Fold(WordSum(s)) == OnesSum(s)
  {
    OnesSumResidue(s);
    FoldIsResidue(WordSum(s));
    ResidueUnique(Fold(WordSum(s)), OnesSum(s));
  }

  // ----- the accumulator's range -----

  lemma {:induction false} WordSumBound(s: seq<byte>)
    ensures WordSum(s) <= (|s| + 1) / 2 * 0xFFFF
    ensures |s| % 2 == 1 ==> WordSum(s) <= |s| / 2 * 0xFFFF + 0xFF00
    decreases |s|
  {
    if |s| >= 2 {
      WordSumBound(s[2..]);
    }
  }

  lemma {:induction false} AllOnesSum(n: nat)
    ensures WordSum(seq(n, _ => 0xFF)) == n / 2 * 0xFFFF + n % 2 * 0xFF00
    decreases n
  {
    if n >= 2 {
      assert seq(n, _ => 0xFF as byte)[2..] == seq(n - 2, _ => 0xFF as byte);
      AllOnesSum(n - 2);
    }
  }

  /** 131074 bytes is exactly the length up to which no buffer overflows the accumulator. */
  lemma NoOverflowExactly(n: nat)
    ensures n <= 131074 <==> forall s: seq<byte> | |s| == n :: WordSum(s) < WRAP
  {
    if n <= 131074 {
      forall s: seq<byte> | |s| == n ensures WordSum(s) < WRAP { NeverWraps(s); }
    } else {
      AllOnesSum(n);
      assert |seq(n, _ => 0xFF as byte)| == n;
    }
  }

  lemma NoLostCarry(s: seq<byte>)
    requires |s| <= 131074
    ensures Checksum(s) == 0xFFFF - Fold(WordSum(s))
  {
    NeverWraps(s);
    SmallMod(WordSum(s));
  }

  lemma NeverWraps(s: seq<byte>)
    requires |s| <= 131074
    ensures WordSum(s) < WRAP
  {
    WordSumBound(s);
    assert (|s| + 1) / 2 <= 65537;
  }

  lemma SmallMod(x: nat)
    requires x < WRAP
    ensures x % WRAP == x
  {
  }

  /** The value of residue s that is nonzero unless s is. */
  function Representative(s: nat): u16 {
    if s == 0 then 0 else if s % 0xFFFF == 0 then 0xFFFF else s % 0xFFFF
  }

  /** Within it, the result is the complement of RFC 1071's sum, which is the plain sum modulo
      65535 written with 65535 instead of 0 unless every word is 0. */
  lemma ChecksumIsRfc1071(s: seq<byte>)
    requires |s| <= 131074
    ensures Checksum(s) == 0xFFFF - OnesSum(s)
    ensures OnesSum(s) == Representative(WordSum(s))
  {
    NoLostCarry(s);
    FoldIsOnesSum(s);
    OnesSumResidue(s);
    ResidueUnique(OnesSum(s), Representative(WordSum(s)));
  }

  /** On buffers of any length the result is right exactly if the number of lost carries is a
      multiple of 65535 and does not leave a 0 behind. */
  lemma ChecksumRightExactly(s: seq<byte>)
    ensures var q, r := WordSum(s) / WRAP, WordSum(s) % WRAP;
            Checksum(s) == 0xFFFF - OnesSum(s) <==> q % 0xFFFF == 0 && (r == 0 ==> q == 0)
  {
    var q, r := WordSum(s) / WRAP, WordSum(s) % WRAP;
    FoldIsOnesSum(s);
    FoldIsResidue(WordSum(s));
    FoldIsResidue(r);
    assert WordSum(s) == q * WRAP + r;
    assert q * WRAP == q * 65537 * 0xFFFF + q;
    AddMultiple(q + r, q * 65537);
    SumResidue(q, r);
    if q % 0xFFFF == 0 && (r == 0 ==> q == 0) {
      ResidueUnique(Fold(r), Fold(WordSum(s)));
    }
  }

  lemma SumResidue(q: nat, r: nat)
    ensures (q + r) % 0xFFFF == r % 0xFFFF <==> q % 0xFFFF == 0
  {
    var a, b := q / 0xFFFF, r / 0xFFFF;
    assert q + r == (q % 0xFFFF + r % 0xFFFF) + (a + b) * 0xFFFF;
    AddMultiple(q % 0xFFFF + r % 0xFFFF, a + b);
  }

  // ----- self-validation -----

  /** Writing v over two zero bytes at an even offset adds v to the sum. */
  lemma {:induction false} WordSumPatch(s: seq<byte>, k: nat, v: u16)
    requires k % 2 == 0 && k + 2 <= |s| && s[k] == 0 && s[k + 1] == 0
    ensures WordSum(Overwrite(s, k, U16Be(v))) == WordSum(s) + v
    decreases k
  {
    var t := Overwrite(s, k, U16Be(v));
    if k == 0 {
      assert t[2..] == s[2..];
    } else {
      assert t[2..] == Overwrite(s[2..], k - 2, U16Be(v));
      WordSumPatch(s[2..], k - 2, v);
    }
  }

  lemma FillsUp(sum: nat, c: u16)
    requires c == 0xFFFF - Fold(sum) || (Fold(sum) == 0xFFFF && c == 0xFFFF)
    ensures Fold(sum + c) == 0xFFFF
  {
    FoldIsResidue(sum);
    FoldIsResidue(sum + c);
    FillsUpResidue(sum, Fold(sum), c);
    ResidueUnique(Fold(sum + c), 0xFFFF);
  }

  lemma FillsUpResidue(sum: nat, f: u16, c: u16)
    requires f % 0xFFFF == sum % 0xFFFF && (f == 0 <==> sum == 0)
    requires c == 0xFFFF - f || (f == 0xFFFF && c == 0xFFFF)
    ensures (sum + c) % 0xFFFF == 0 && sum + c > 0
  {
    var q := sum / 0xFFFF;
    AddMultiple(f % 0xFFFF + c, q);
    assert sum + c == f % 0xFFFF + c + q * 0xFFFF;
  }

  /** A buffer whose zeroed checksum field is filled with its checksum checks to 0, and so it does
      with 0xFFFF in place of a computed 0. */
  lemma SelfValidates(s: seq<byte>, k: nat, c: u16)
    requires |s| <= 131074 && k % 2 == 0 && k + 2 <= |s| && s[k] == 0 && s[k + 1] == 0
    requires c == Checksum(s) || (Checksum(s) == 0 && c == 0xFFFF)
    ensures Checksum(Overwrite(s, k, U16Be(c))) == 0
  {
    NoLostCarry(s);
    NoLostCarry(Overwrite(s, k, U16Be(c)));
    WordSumPatch(s, k, c);
    FillsUp(WordSum(s), c);
  }
}
