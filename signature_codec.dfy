/**
 * The signature codec of the Ledger helper: `reEncodeRawSignature` and its inner
 * `shuffleBytes`. The device returns a 64-byte signature as 128 hex characters, a
 * field element followed by a scalar, each in the device's byte order; the wallet
 * needs each of the two 32-byte components byte-reversed.
 *
 * Strings are `seq<char>`; a JavaScript string counts UTF-16 code units, which
 * coincide with characters for the hex text this code is given.
 */
module SignatureCodec {
  import opened Wrappers

  /** The two exceptions re-encoding can raise. */
  datatype SignatureError =
    | InvalidRawSignature  // the input is not 128 characters long
    | NoByteGroups         // a half holds no two adjacent non-line-terminator characters,
                           // so `match` yields null and `.reverse()` throws

  const RawSignatureLength: nat := 128
  const HalfLength: nat := 64

  /** The characters that the regular-expression `.` does not match. */
  predicate IsLineTerminator(c: char) {
    c == '\n' || c == '\r' || c == '\U{2028}' || c == '\U{2029}'
  }

  predicate NoLineTerminators(s: string) {
    forall i :: 0 <= i < |s| ==> !IsLineTerminator(s[i])
  }

  predicate IsHexDigit(c: char) {
    '0' <= c <= '9' || 'a' <= c <= 'f' || 'A' <= c <= 'F'
  }

  /** A well-formed hex text; the device's signatures have this form. */
  predicate IsHex(s: string) {
    forall i :: 0 <= i < |s| ==> IsHexDigit(s[i])
  }

  lemma HexHasNoLineTerminators(s: string)
    requires IsHex(s)
    ensures NoLineTerminators(s)
  {
  }

  /*
   * The reference definition: byte-order reversal of a hex text read as consecutive
   * two-character groups (a trailing odd character belongs to no group).
   */

  function ReverseBytes(s: string): (r: string)
    ensures |r| == |s| / 2 * 2
    decreases |s|
  {
    if |s| < 2 then [] else ReverseBytes(s[2..]) + s[..2]
  }

  /** Character `i` of the reversal is character `i % 2` of byte `n - 1 - i / 2`. */
  lemma {:induction false} ReverseBytesAt(s: string, i: nat)
    requires |s| % 2 == 0 && i < |s|
    ensures ReverseBytes(s)[i] == s[|s| - 2 - 2 * (i / 2) + i % 2]
    decreases |s|
  {
    var t := s[2..];
    assert ReverseBytes(s) == ReverseBytes(t) + s[..2];
    if i < |t| {
      ReverseBytesAt(t, i);
      assert ReverseBytes(s)[i] == ReverseBytes(t)[i];
    } else {
      assert i == |t| + i % 2 && i / 2 == |t| / 2;
    }
  }

  /** Reversing the concatenation of two whole-byte texts swaps them and reverses each. */
  lemma {:induction false} ReverseBytesAppend(x: string, y: string)
    requires |x| % 2 == 0
    ensures ReverseBytes(x + y) == ReverseBytes(y) + ReverseBytes(x)
    decreases |x|
  {
    if |x| == 0 {
      assert x + y == y;
    } else {
      var p, t := x[..2], x[2..];
      assert (x + y)[2..] == t + y;
      assert (x + y)[..2] == p;
      calc {
        ReverseBytes(x + y);
        ReverseBytes(t + y) + p;
        { ReverseBytesAppend(t, y); }
        ReverseBytes(y) + ReverseBytes(t) + p;
        ReverseBytes(y) + ReverseBytes(x);
      }
    }
  }

  /** Byte-order reversal is an involution on whole-byte texts. */
  lemma {:induction false} ReverseBytesInvolution(s: string)
    requires |s| % 2 == 0
    ensures ReverseBytes(ReverseBytes(s)) == s
    decreases |s|
  {
    if |s| > 0 {
      var p, t := s[..2], s[2..];
      ReverseBytesInvolution(t);
      ReverseBytesAppend(ReverseBytes(t), p);
      assert ReverseBytes(p) == p by {
        assert p[2..] == [];
      }
      assert p + t == s;
    }
  }

  lemma ReverseBytesKeepsNoLineTerminators(s: string)
    requires |s| % 2 == 0 && NoLineTerminators(s)
    ensures NoLineTerminators(ReverseBytes(s))
  {
    forall i | 0 <= i < |s|
      ensures !IsLineTerminator(ReverseBytes(s)[i])
    {
      ReverseBytesAt(s, i);
    }
  }

  /** A whole-byte text made of one byte repeated. */
  predicate RepeatsOneByte(s: string) {
    |s| % 2 == 0 && forall i :: 0 <= i < |s| ==> s[i] == s[i % 2]
  }

  lemma ReverseBytesOfRepeatedByte(s: string)
    requires RepeatsOneByte(s)
    ensures ReverseBytes(s) == s
  {
    forall i | 0 <= i < |s|
      ensures ReverseBytes(s)[i] == s[i]
    {
      ReverseBytesAt(s, i);
      var j := |s| - 2 - 2 * (i / 2) + i % 2;
      assert j % 2 == i % 2;
      assert s[j] == s[j % 2];
    }
  }

  /*
   * `shuffleBytes` as written: `hex.match(/.{2}/g)`, reverse, join.
   */

  /**
   * The successive matches of `/.{2}/g`: scanning left to right, two characters that are
   * not line terminators form a group; a position where no match starts is skipped.
   */
  function ByteGroups(s: string): (groups: seq<string>)
    ensures forall k :: 0 <= k < |groups| ==> |groups[k]| == 2 && NoLineTerminators(groups[k])
    ensures 2 * |groups| <= |s|
    decreases |s|
  {
    if |s| < 2 then []
    else if !IsLineTerminator(s[0]) && !IsLineTerminator(s[1]) then [s[..2]] + ByteGroups(s[2..])
    else ByteGroups(s[1..])
  }

  /** `bytes.reverse(); bytes.join("")`. */
  function JoinReversed(groups: seq<string>): string {
    if groups == [] then [] else JoinReversed(groups[1..]) + groups[0]
  }

  /** On a text without line terminators the regex groups are exactly its bytes. */
  lemma {:induction false} JoinReversedGroupsIsReverseBytes(s: string)
    ensures NoLineTerminators(s) ==> JoinReversed(ByteGroups(s)) == ReverseBytes(s)
    decreases |s|
  {
    if NoLineTerminators(s) && |s| >= 2 {
      var rest := s[2..];
      assert NoLineTerminators(rest) by {
        forall i | 0 <= i < |rest| ensures !IsLineTerminator(rest[i]) {
          assert rest[i] == s[i + 2];
        }
      }
      JoinReversedGroupsIsReverseBytes(rest);
      assert !IsLineTerminator(s[0]) && !IsLineTerminator(s[1]);
      var groups := [s[..2]] + ByteGroups(rest);
      assert ByteGroups(s) == groups;
      assert groups[1..] == ByteGroups(rest);
    }
  }

  function ShuffleBytes(hex: string): (r: Result<string, SignatureError>)
    ensures r.Failure? ==> r.error == NoByteGroups
    ensures NoLineTerminators(hex) ==> (r.Failure? <==> |hex| < 2)
    ensures NoLineTerminators(hex) && |hex| >= 2 ==> r == Success(ReverseBytes(hex))
  {
    JoinReversedGroupsIsReverseBytes(hex);
    var groups := ByteGroups(hex);
    if groups == [] then Failure(NoByteGroups) else Success(JoinReversed(groups))
  }

  /** `shuffleBytes` undoes itself on whole-byte hex text. */
  lemma ShuffleBytesInvolution(hex: string)
    requires IsHex(hex) && |hex| % 2 == 0 && |hex| >= 2
    ensures ShuffleBytes(hex).Success?
    ensures ShuffleBytes(ShuffleBytes(hex).value) == Success(hex)
  {
    HexHasNoLineTerminators(hex);
    ReverseBytesKeepsNoLineTerminators(hex);
    ReverseBytesInvolution(hex);
  }

  /*
   * `reEncodeRawSignature`.
   */

  lemma SlicesHaveNoLineTerminators(s: string, lo: nat, hi: nat)
    requires lo <= hi <= |s|
    ensures NoLineTerminators(s) ==> NoLineTerminators(s[lo..hi])
  {
    if NoLineTerminators(s) {
      forall i | 0 <= i < hi - lo ensures !IsLineTerminator(s[lo..hi][i]) {
        assert s[lo..hi][i] == s[lo + i];
      }
    }
  }

  function ReEncodeRawSignature(rawSignature: string): (r: Result<string, SignatureError>)
    ensures |rawSignature| != RawSignatureLength <==> r == Failure(InvalidRawSignature)
    ensures r == Failure(NoByteGroups) ==> !NoLineTerminators(rawSignature)
    ensures |rawSignature| == RawSignatureLength && NoLineTerminators(rawSignature) ==>
              r == Success(ReverseBytes(rawSignature[..HalfLength]) + ReverseBytes(rawSignature[HalfLength..]))
  {
    if |rawSignature| != RawSignatureLength then Failure(InvalidRawSignature)
    else
      SlicesHaveNoLineTerminators(rawSignature, 0, HalfLength);
      SlicesHaveNoLineTerminators(rawSignature, HalfLength, RawSignatureLength);
      assert rawSignature[HalfLength..] == rawSignature[HalfLength..RawSignatureLength];
      var field :- ShuffleBytes(rawSignature[..HalfLength]);
      var scalar :- ShuffleBytes(rawSignature[HalfLength..]);
      Success(field + scalar)
  }

  /** Re-encoding a well-formed signature twice gives it back. */
  lemma ReEncodeIsInvolution(rawSignature: string)
    requires |rawSignature| == RawSignatureLength && NoLineTerminators(rawSignature)
    ensures ReEncodeRawSignature(rawSignature).Success?
    ensures |ReEncodeRawSignature(rawSignature).value| == RawSignatureLength
    ensures ReEncodeRawSignature(ReEncodeRawSignature(rawSignature).value) == Success(rawSignature)
  {
    var field, scalar := rawSignature[..HalfLength], rawSignature[HalfLength..];
    SlicesHaveNoLineTerminators(rawSignature, 0, HalfLength);
    SlicesHaveNoLineTerminators(rawSignature, HalfLength, RawSignatureLength);
    assert scalar == rawSignature[HalfLength..RawSignatureLength];
    var encoded := ReverseBytes(field) + ReverseBytes(scalar);
    ReverseBytesKeepsNoLineTerminators(field);
    ReverseBytesKeepsNoLineTerminators(scalar);
    assert NoLineTerminators(encoded) by {
      forall i | 0 <= i < |encoded| ensures !IsLineTerminator(encoded[i]) {
        if i < HalfLength {
          assert encoded[i] == ReverseBytes(field)[i];
        } else {
          assert encoded[i] == ReverseBytes(scalar)[i - HalfLength];
        }
      }
    }
    assert encoded[..HalfLength] == ReverseBytes(field);
    assert encoded[HalfLength..] == ReverseBytes(scalar);
    ReverseBytesInvolution(field);
    ReverseBytesInvolution(scalar);
    assert field + scalar == rawSignature;
  }

  /** A signature whose two halves each repeat a single byte re-encodes to itself. */
  lemma RepeatedByteHalvesAreFixed(rawSignature: string)
    requires |rawSignature| == RawSignatureLength && NoLineTerminators(rawSignature)
    requires RepeatsOneByte(rawSignature[..HalfLength]) && RepeatsOneByte(rawSignature[HalfLength..])
    ensures ReEncodeRawSignature(rawSignature) == Success(rawSignature)
  {
    ReverseBytesOfRepeatedByte(rawSignature[..HalfLength]);
    ReverseBytesOfRepeatedByte(rawSignature[HalfLength..]);
    assert rawSignature[..HalfLength] + rawSignature[HalfLength..] == rawSignature;
  }

  /** `unit` written `n` times, as in `"aa".repeat(n)`. */
  function Repeat(unit: string, n: nat): (s: string)
    ensures |s| == n * |unit|
  {
    if n == 0 then [] else unit + Repeat(unit, n - 1)
  }

  lemma {:induction false} RepeatedPairIsOneByte(c: char, n: nat)
    ensures forall i :: 0 <= i < 2 * n ==> Repeat([c, c], n)[i] == c
  {
    if n > 0 {
      RepeatedPairIsOneByte(c, n - 1);
      var s := Repeat([c, c], n);
      assert s == [c, c] + Repeat([c, c], n - 1);
      forall i | 0 <= i < 2 * n ensures s[i] == c {
        if i >= 2 {
          assert s[i] == Repeat([c, c], n - 1)[i - 2];
        }
      }
    }
  }

  /**
   * The canary: `"aa"*32 + "bb"*32` re-encodes to itself, whereas reversing the
   * whole 64-byte text as one would move the `bb` half in front.
   */
  lemma CanarySignature()
    ensures ReEncodeRawSignature(Repeat("aa", 32) + Repeat("bb", 32)) == Success(Repeat("aa", 32) + Repeat("bb", 32))
    ensures ReverseBytes(Repeat("aa", 32) + Repeat("bb", 32)) != Repeat("aa", 32) + Repeat("bb", 32)
  {
    var field, scalar := Repeat("aa", 32), Repeat("bb", 32);
    var raw := field + scalar;
    RepeatedPairIsOneByte('a', 32);
    RepeatedPairIsOneByte('b', 32);
    assert raw[..HalfLength] == field && raw[HalfLength..] == scalar;
    assert RepeatsOneByte(field) by {
      forall i | 0 <= i < |field| ensures field[i] == field[i % 2] {
        assert field[i] == 'a' && field[i % 2] == 'a';
      }
    }
    assert RepeatsOneByte(scalar) by {
      forall i | 0 <= i < |scalar| ensures scalar[i] == scalar[i % 2] {
        assert scalar[i] == 'b' && scalar[i % 2] == 'b';
      }
    }
    assert NoLineTerminators(raw) by {
      forall i | 0 <= i < |raw| ensures !IsLineTerminator(raw[i]) {
        if i < HalfLength {
          assert raw[i] == field[i];
        } else {
          assert raw[i] == scalar[i - HalfLength];
        }
      }
    }
    RepeatedByteHalvesAreFixed(raw);
    ReverseBytesAppend(field, scalar);
    ReverseBytesOfRepeatedByte(scalar);
    assert ReverseBytes(raw)[0] == scalar[0] == 'b';
    assert raw[0] == field[0] == 'a';
  }
}
