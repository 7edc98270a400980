/** The Internet checksum of RFC 1071, section 1, as pnet's `util::checksum(data, skipword)`
    computes it for the even-length buffers this program hands it: the one's-complement of the
    one's-complement sum of the big-endian 16-bit words, leaving out word `skipword`. */
module InternetChecksum {
  import opened Wire

  /** The `i`-th 16-bit word of `s`. */
  function Word(s: seq<byte>, i: nat): u16
    requires 2 * i + 2 <= |s|
  {
    ReadU16(s, 2 * i)
  }

  /** The plain sum of words `i`, `i + 1`, ... of `s`, leaving out word `skip`
      (a `skip` past the last word leaves out nothing). */
  function SumWords(s: seq<byte>, skip: nat, i: nat): nat
    requires |s| % 2 == 0
    decreases |s| - 2 * i
  {
    if 2 * i >= |s| then 0
    else (if i == skip then 0 else Word(s, i)) + SumWords(s, skip, i + 1)
  }

  /** End-around carry: adds the bits above 16 back into the low 16 bits until the sum fits.
      The result is the one's-complement sum: it is congruent to `x` modulo 0xFFFF and is
      zero only for a zero `x`. */
  function Fold(x: nat): (r: u16)
    ensures r % 0xFFFF == x % 0xFFFF
    ensures r == 0 <==> x == 0
    decreases x
  {
    if x < 0x1_0000 then x
    else
      var q, m := x / 0x1_0000, x % 0x1_0000;
      assert x == 0xFFFF * q + (q + m);
      ModAddMultiple(q, q + m);
      Fold(q + m)
  }

  lemma ModAddMultiple(q: nat, y: nat)
    ensures (0xFFFF * q + y) % 0xFFFF == y % 0xFFFF
  {
  }

  /** The checksum of `s` with word `skip` treated as absent. */
  function Checksum(s: seq<byte>, skip: nat): u16
    requires |s| % 2 == 0
  {
    0xFFFF - Fold(SumWords(s, skip, 0))
  }

  /** The RFC 1071 receiver check: the checksum of all words, stored checksum included, is 0. */
  predicate ChecksumValid(s: seq<byte>)
    requires |s| % 2 == 0
  {
    Checksum(s, |s| / 2) == 0
  }

  /** Bytes of word `skip` do not enter the sum that skips it. */
  lemma {:induction false} SumWordsIgnoresSkipped(s: seq<byte>, t: seq<byte>, skip: nat, i: nat)
    requires |s| == |t| && |s| % 2 == 0
    requires forall j :: 0 <= j < |s| && j != 2 * skip && j != 2 * skip + 1 ==> s[j] == t[j]
    ensures SumWords(s, skip, i) == SumWords(t, skip, i)
    decreases |s| - 2 * i
  {
    if 2 * i < |s| {
      SumWordsIgnoresSkipped(s, t, skip, i + 1);
    }
  }

  /** Summing every word is summing all but word `skip`, plus word `skip` itself. */
  lemma {:induction false} SumWordsWithSkipped(s: seq<byte>, skip: nat, i: nat)
    requires |s| % 2 == 0 && 2 * skip + 2 <= |s|
    ensures SumWords(s, |s| / 2, i) == SumWords(s, skip, i) + (if i <= skip then Word(s, skip) else 0)
    decreases |s| - 2 * i
  {
    if 2 * i < |s| {
      SumWordsWithSkipped(s, skip, i + 1);
    }
  }

  /** The checksum over `s` skipping word 1 (bytes 2 and 3) does not depend on what bytes 2 and 3
      held before: the same bytes elsewhere give the same checksum. */
  lemma ChecksumIgnoresField(s: seq<byte>, t: seq<byte>)
    requires |s| == |t| && |s| % 2 == 0
    requires forall j :: 0 <= j < |s| && j != 2 && j != 3 ==> s[j] == t[j]
    ensures Checksum(s, 1) == Checksum(t, 1)
  {
    SumWordsIgnoresSkipped(s, t, 1, 0);
  }

  /** Storing the checksum (computed with word 1 skipped) into bytes 2 and 3 makes the whole
      buffer pass the receiver check of RFC 1071. */
  lemma StoredChecksumVerifies(s: seq<byte>, t: seq<byte>)
    requires |s| % 2 == 0 && |s| >= 4
    requires t == s[2 := U16Bytes(Checksum(s, 1))[0]][3 := U16Bytes(Checksum(s, 1))[1]]
    ensures ChecksumValid(t)
  {
    var c := Checksum(s, 1);
    var sum := SumWords(s, 1, 0);
    SumWordsIgnoresSkipped(s, t, 1, 0);
    SumWordsWithSkipped(t, 1, 0);
    assert Word(t, 1) == c by {
      assert t[2] == c / 256 && t[3] == c % 256;
    }
    assert SumWords(t, |t| / 2, 0) == sum + c;
    ComplementCancels(sum);
  }

  /** Adding the complement of the folded sum gives a one's-complement sum of all ones
      (negative zero), whose complement is 0. */
  lemma ComplementCancels(sum: nat)
    ensures Fold(sum + (0xFFFF - Fold(sum))) == 0xFFFF
  {
    var f := Fold(sum);
    var total := sum + (0xFFFF - f);
    assert total > 0 by {
      if sum == 0 { assert f == 0; }
    }
    ComplementIsMultiple(sum);
    FoldOfMultiple(total);
  }

  /** A sum plus the complement of its fold is a multiple of 0xFFFF, because the fold and the
      sum are congruent. */
  lemma ComplementIsMultiple(sum: nat)
    ensures (sum + (0xFFFF - Fold(sum))) % 0xFFFF == 0
  {
    var f := Fold(sum);
    var q := sum / 0xFFFF;
    assert sum == 0xFFFF * q + sum % 0xFFFF;
    assert f == 0xFFFF * (f / 0xFFFF) + sum % 0xFFFF;
    assert sum + (0xFFFF - f) == 0xFFFF * (q + 1 - f / 0xFFFF);
  }

  /** The checksum is the one's complement of the folded sum: added to the sum it gives a
      multiple of 0xFFFF, and it is 0xFFFF exactly when every counted word is zero. */
  lemma ChecksumComplements(s: seq<byte>, skip: nat)
    requires |s| % 2 == 0
    ensures (Checksum(s, skip) + SumWords(s, skip, 0)) % 0xFFFF == 0
    ensures Checksum(s, skip) == 0xFFFF <==> SumWords(s, skip, 0) == 0
  {
    ComplementIsMultiple(SumWords(s, skip, 0));
  }

  /** A non-zero multiple of 0xFFFF folds to 0xFFFF. */
  lemma FoldOfMultiple(x: nat)
    requires x > 0 && x % 0xFFFF == 0
    ensures Fold(x) == 0xFFFF
  {
    var r := Fold(x);
    assert r != 0 && r % 0xFFFF == 0;
  }
}
