/** One's-complement sums (RFC 1071) and the checksum-neutral compensation word. */
module Checksum {
  import opened Bytes

  /** Sum of the big-endian words; an odd last octet is the high half of its word. */
  function WordSum(data: bytes): nat {
    if |data| == 0 then 0
    else if |data| == 1 then data[0] * 0x100
    else data[0] * 0x100 + data[1] + WordSum(data[2..])
  }

  /** The representative of `total` modulo 65535 that folding reaches: 0 only for 0. */
  function Normal(total: nat): (r: nat) {
    if total == 0 then 0 else (total - 1) % 0xFFFF + 1
  }

  function OnesSum(data: bytes): (sum: uint16) {
    Normal(WordSum(data))
  }

  function InternetChecksum(data: bytes): uint16 {
    0xFFFF - OnesSum(data)
  }

  /** Folding carries back in, as the source does, computes the normal form. */
  method OnesComplementSum(data: bytes) returns (total: nat)
    ensures total == OnesSum(data)
  {
    hide Normal, WordSum;
    total := 0;
    var padded := if |data| % 2 == 1 then data + [0] else data;
    var at := 0;
    while at < |padded|
      invariant at % 2 == 0 && 0 <= at <= |padded|
      invariant total + WordSum(padded[at..]) == WordSum(padded)
    {
      WordSumStep(padded, at);
      total := total + ReadU16(padded, at);
      at := at + 2;
    }
    PaddingIsNeutral(data);
    NothingLeft(padded);
    ghost var sum := total;
    while total / 0x1_0000 != 0
      invariant Normal(total) == Normal(sum)
      decreases total
    {
      FoldKeepsNormal(total);
      total := total % 0x1_0000 + total / 0x1_0000;
    }
    FoldedIsNormal(total);
  }

  lemma NothingLeft(data: bytes)
    ensures WordSum(data[|data|..]) == 0 && data[0..] == data
  {
  }

  lemma FoldedIsNormal(total: nat)
    requires total < 0x1_0000
    ensures Normal(total) == total
  {
  }

  lemma FoldKeepsNormal(total: nat)
    requires total / 0x1_0000 != 0
    ensures 0 < total % 0x1_0000 + total / 0x1_0000 < total
    ensures Normal(total % 0x1_0000 + total / 0x1_0000) == Normal(total)
  {
    var folded := total % 0x1_0000 + total / 0x1_0000;
    assert total == folded + 0xFFFF * (total / 0x1_0000);
    SameResidue(folded - 1, total / 0x1_0000);
  }

  lemma SameResidue(x: nat, k: nat)
    ensures (x + 0xFFFF * k) % 0xFFFF == x % 0xFFFF
  {
  }

  lemma FirstWord(high: byte, low: byte, rest: bytes)
    ensures WordSum([high, low] + rest) == high * 0x100 + low + WordSum(rest)
  {
    assert ([high, low] + rest)[2..] == rest;
  }

  lemma WordSumStep(data: bytes, at: nat)
    requires at + 2 <= |data|
    ensures WordSum(data[at..]) == ReadU16(data, at) + WordSum(data[at + 2..])
  {
    assert data[at..][2..] == data[at + 2..];
  }

  lemma {:induction false} PaddingIsNeutral(data: bytes)
    ensures |data| % 2 == 1 ==> WordSum(data + [0]) == WordSum(data)
  {
    if |data| < 2 {
    } else {
      assert (data + [0])[2..] == data[2..] + [0];
      PaddingIsNeutral(data[2..]);
    }
  }

  lemma {:induction false} WordSumAppend(a: bytes, b: bytes)
    requires |a| % 2 == 0
    ensures WordSum(a + b) == WordSum(a) + WordSum(b)
  {
    if |a| == 0 {
      assert a + b == b;
    } else {
      assert (a + b)[2..] == a[2..] + b;
      WordSumAppend(a[2..], b);
    }
  }

  /** After an odd prefix a two-octet field straddles two words, its halves exchanged. */
  lemma {:induction false} WordSumAppendOdd(a: bytes, high: byte, low: byte)
    requires |a| % 2 == 1
    ensures WordSum(a + [high, low]) == WordSum(a) + high + low * 0x100
  {
    if |a| == 1 {
      assert (a + [high, low])[2..] == [low];
    } else {
      assert (a + [high, low])[2..] == a[2..] + [high, low];
      WordSumAppendOdd(a[2..], high, low);
    }
  }

  /** A message whose checksum field was zero when the checksum was computed verifies to zero. */
  lemma FilledChecksumVerifies(before: bytes, after: bytes)
    requires |before| % 2 == 0 && WordSum(before + [0, 0] + after) > 0
    ensures InternetChecksum(before + U16(InternetChecksum(before + [0, 0] + after)) + after) == 0
  {
    hide WordSum, Normal;
    var zeroed := before + [0, 0] + after;
    FieldSum(before, 0, after);
    FieldSum(before, InternetChecksum(zeroed), after);
    assert U16(0) == [0, 0];
    ComplementFills(WordSum(zeroed));
  }

  /** A sum and the complement of its normal form fold to all ones. */
  lemma ComplementFills(sum: nat)
    requires sum > 0
    ensures Normal(sum) <= 0xFFFF && Normal(sum + (0xFFFF - Normal(sum))) == 0xFFFF
  {
    var k := (sum - 1) / 0xFFFF;
    assert sum == k * 0xFFFF + Normal(sum);
    SameResidue(0xFFFE, k);
    assert sum + (0xFFFF - Normal(sum)) - 1 == 0xFFFE + 0xFFFF * k;
  }

  lemma FieldSum(before: bytes, field: uint16, after: bytes)
    requires |before| % 2 == 0
    ensures WordSum(before + U16(field) + after) == WordSum(before) + field + WordSum(after)
  {
    WordSumAppend(before + U16(field), after);
    WordSumAppend(before, U16(field));
  }

  // ---------- Corruption ----------

  lemma {:induction false} WordSumUpdate(data: bytes, k: nat, octet: byte)
    requires k < |data|
    ensures WordSum(data[k := octet]) == WordSum(data) + (octet - data[k]) * (if k % 2 == 0 then 0x100 else 1)
  {
    if k < 2 {
      assert |data| >= 2 ==> data[k := octet][2..] == data[2..];
    } else {
      assert data[k := octet][2..] == data[2..][k - 2 := octet];
      WordSumUpdate(data[2..], k - 2, octet);
    }
  }

  lemma VerifiesByResidue(data: bytes)
    ensures InternetChecksum(data) == 0 <==> WordSum(data) > 0 && WordSum(data) % 0xFFFF == 0
  {
    hide WordSum;
  }

  /** A message that verifies does not once any single octet of it is changed. */
  lemma CorruptionIsNoticed(data: bytes, k: nat, octet: byte)
    requires InternetChecksum(data) == 0 && k < |data| && octet != data[k]
    ensures InternetChecksum(data[k := octet]) != 0
  {
    hide WordSum, InternetChecksum;
    WordSumUpdate(data, k, octet);
    VerifiesByResidue(data);
    VerifiesByResidue(data[k := octet]);
    ShiftedResidue(WordSum(data), (octet - data[k]) * (if k % 2 == 0 then 0x100 else 1));
  }

  /** The word that moves the one's-complement sum of `data`, which ends in a zero word,
      so that its checksum becomes `target`. */
  function ChecksumCompensation(data: bytes, target: uint16): uint16 {
    var desired := 0xFFFF - target;
    var value := (desired - OnesSum(data)) % 0xFFFF;
    if value == 0 then 0xFFFF else value
  }

  /** With the word aligned the target is always hit (RFC 1071 sums are order independent);
      misaligned by one octet it is hit exactly when the word is a multiple of 257. */
  lemma CompensationHitsTarget(prefix: bytes, target: uint16)
    requires 0 < target < 0xFFFF
    ensures var word := ChecksumCompensation(prefix + [0, 0], target);
            InternetChecksum(prefix + U16(word)) == target <==> |prefix| % 2 == 0 || word % 257 == 0
  {
    var sum, word := WordSum(prefix), ChecksumCompensation(prefix + [0, 0], target);
    if |prefix| % 2 == 0 {
      WordSumAppend(prefix, [0, 0]);
      WordSumAppend(prefix, U16(word));
      CompensationArithmetic(sum, word, target);
    } else {
      WordSumAppendOdd(prefix, 0, 0);
      WordSumAppendOdd(prefix, word / 0x100, word % 0x100);
      assert U16(word) == [word / 0x100, word % 0x100];
      CompensationArithmetic(sum, word, target);
      SwappedWord(word, sum, target);
    }
  }

  lemma CompensationArithmetic(sum: nat, word: int, target: int)
    requires 0 < target < 0xFFFF
    requires word ==
             (if (0xFFFF - target - Normal(sum)) % 0xFFFF == 0 then 0xFFFF
              else (0xFFFF - target - Normal(sum)) % 0xFFFF)
    ensures 0 < word <= 0xFFFF
    ensures (sum + word) % 0xFFFF == 0xFFFF - target
    ensures 0xFFFF - Normal(sum + word) == target
  {
  }

  lemma SwappedWord(word: int, sum: nat, target: int)
    requires 0 < word <= 0xFFFF && 0 < target < 0xFFFF
    requires (sum + word) % 0xFFFF == 0xFFFF - target
    ensures 0xFFFF - Normal(sum + word / 0x100 + word % 0x100 * 0x100) == target <==> word % 257 == 0
  {
    hide Normal;
    var gap := word % 0x100 - word / 0x100;
    var swapped := sum + word / 0x100 + word % 0x100 * 0x100;
    assert swapped == sum + word + 255 * gap;
    NormalByResidue(swapped, 0xFFFF - target);
    MultipleOf257(word, gap);
    if gap != 0 {
      ShiftedResidue(sum + word, 255 * gap);
    }
  }

  lemma NormalByResidue(x: nat, r: nat)
    requires x > 0 && 0 < r < 0xFFFF
    ensures Normal(x) == r <==> x % 0xFFFF == r
  {
  }

  lemma ShiftedResidue(x: int, shift: int)
    requires -0xFFFF < shift < 0xFFFF && shift != 0
    ensures (x + shift) % 0xFFFF != x % 0xFFFF
  {
  }

  lemma MultipleOf257(word: int, gap: int)
    requires 0 < word <= 0xFFFF && gap == word % 0x100 - word / 0x100
    ensures word % 257 == 0 <==> gap == 0
  {
    assert word == 257 * (word / 0x100) + gap;
  }
}
