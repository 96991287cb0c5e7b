/** Outcomes of decoding and encoding, and the variable byte integer of section 1.5.5 of MQTT 5.0. */
module Varint {
  import opened Basics

  /** The error kinds the codec returns; `Panic` is a slice out of range, `OutOfModel` a packet type left out. */
  datatype ErrorKind = MalformedPacket | ProtocolError | InsufficientBytes | Panic | OutOfModel

  datatype Result<+T> = Ok(value: T) | Err(kind: ErrorKind) {
    predicate IsFailure() {
      Err?
    }
    function PropagateFailure<U>(): Result<U>
      requires Err?
    {
      Err(kind)
    }
    function Extract(): T
      requires Ok?
    {
      value
    }
  }

  const VAR_MAX: nat := 268_435_455

  /** A number of bytes taken in; whatever is decoded takes in at least one. */
  type Size = n: int | 0 < n witness 1

  /** The digits of `v` in base 128, least significant first, all but the last marked by the top bit. */
  function VarBytes(v: nat): (r: Bytes)
    ensures r != []
  {
    if v < 128 then [v] else [v % 128 + 128] + VarBytes(v / 128)
  }

  /** `VarU32::encode`. */
  function EncodeVar(v: nat): Result<Bytes> {
    if v <= VAR_MAX then Ok(VarBytes(v)) else Err(ProtocolError)
  }

  /** `byte & 0x7f`. */
  function Low(b: Byte): nat {
    b % 128
  }

  /** The number at the front of `s`, of at most `k` digits, and how many it has. */
  function VarFrom(s: Bytes, k: nat): (r: Result<(nat, Size)>)
    ensures r.Ok? ==> r.value.1 <= k && r.value.1 <= |s|
    decreases k
  {
    if k == 0 || s == [] then Err(MalformedPacket)
    else if s[0] < 128 then Ok((s[0], 1))
    else
      var (v, n) :- VarFrom(s[1..], k - 1);
      Ok((Low(s[0]) + 128 * v, n + 1))
  }

  /** `VarU32::decode`: the outcome of `DecodeVarLoop`. */
  function DecodeVar(s: Bytes): (r: Result<(nat, Size)>)
    ensures r.Ok? ==> r.value.1 <= 4 && r.value.1 <= |s|
  {
    VarFrom(s, 4)
  }

  // ------------------------------------------------------------------- as the code has it

  /** The digits, written out for each of the four lengths. */
  method EncodeVarTable(v: nat) returns (r: Result<Bytes>)
    requires v <= U32_MAX
    ensures r == EncodeVar(v)
  {
    if v < 128 {
      return Ok([v]);
    } else if v < 16_384 {
      assert VarBytes(v / 128) == [v / 128 % 128];
      assert VarBytes(v) == [v % 128 + 128, v / 128 % 128];
      return Ok([v % 128 + 128, v / 128 % 128]);
    } else if v < 2_097_152 {
      assert VarBytes(v / 16_384) == [v / 16_384 % 128] && v / 128 / 128 == v / 16_384;
      assert VarBytes(v / 128) == [v / 128 % 128 + 128, v / 16_384 % 128];
      assert VarBytes(v) == [v % 128 + 128, v / 128 % 128 + 128, v / 16_384 % 128];
      return Ok([v % 128 + 128, v / 128 % 128 + 128, v / 16_384 % 128]);
    } else if v <= VAR_MAX {
      assert v / 128 / 128 == v / 16_384 && v / 16_384 / 128 == v / 2_097_152;
      assert VarBytes(v / 2_097_152) == [v / 2_097_152 % 128];
      assert VarBytes(v / 16_384) == [v / 16_384 % 128 + 128, v / 2_097_152 % 128];
      assert VarBytes(v / 128) == [v / 128 % 128 + 128, v / 16_384 % 128 + 128, v / 2_097_152 % 128];
      assert VarBytes(v) == [v % 128 + 128] + VarBytes(v / 128);
      assert VarBytes(v) == [v % 128 + 128, v / 128 % 128 + 128, v / 16_384 % 128 + 128, v / 2_097_152 % 128];
      return Ok([v % 128 + 128, v / 128 % 128 + 128, v / 16_384 % 128 + 128, v / 2_097_152 % 128]);
    } else {
      return Err(ProtocolError);
    }
  }

  /** `v << (7 * i)`. */
  function Shifted(i: nat, v: nat): nat {
    if i == 0 then v else 128 * Shifted(i - 1, v)
  }

  lemma {:induction false} ShiftedSum(i: nat, d: nat, v: nat)
    ensures Shifted(i, d + 128 * v) == Shifted(i, d) + Shifted(i + 1, v)
    ensures Shifted(i, 0) == 0
    ensures d < 128 ==> Shifted(i, d) + Shifted(i, 1) <= Shifted(i + 1, 1)
  {
    if i > 0 {
      ShiftedSum(i - 1, d, v);
    }
  }

  /** Before digit `i`, with `out` the value of the digits so far. */
  ghost predicate Accumulated(whole: Result<(nat, Size)>, s: Bytes, i: nat, out: nat)
    requires i <= |s| && i <= 4
  {
    Continued(whole, VarFrom(s[i..], 4 - i), i, out)
  }

  /** What `i` digits and the rest make together. */
  ghost predicate Continued(whole: Result<(nat, Size)>, rest: Result<(nat, Size)>, i: nat, out: nat) {
    whole == if rest.Ok? then Ok((out + Shifted(i, rest.value.0), i + rest.value.1)) else rest
  }

  lemma VarFromFirst(s: Bytes, i: nat)
    requires i < |s| && i < 4
    ensures VarFrom(s[i..], 4 - i)
         == if s[i] < 128 then Ok((s[i], 1)) else WithDigit(Low(s[i]), VarFrom(s[i + 1..], 3 - i))
  {
    assert s[i..][1..] == s[i + 1..];
  }

  /** A digit before the rest. */
  function WithDigit(d: nat, rest: Result<(nat, Size)>): Result<(nat, Size)> {
    if rest.Ok? then Ok((d + 128 * rest.value.0, rest.value.1 + 1)) else rest
  }

  lemma DigitMoves(whole: Result<(nat, Size)>, d: nat, rest: Result<(nat, Size)>, i: nat, out: nat)
    requires Continued(whole, WithDigit(d, rest), i, out)
    ensures Continued(whole, rest, i + 1, out + Shifted(i, d))
  {
    if rest.Ok? {
      ShiftedSum(i, d, rest.value.0);
    }
  }

  /** The next digit is the last, or moves to the others. */
  lemma Accumulate(whole: Result<(nat, Size)>, s: Bytes, i: nat, out: nat)
    requires i < |s| && i < 4 && Accumulated(whole, s, i, out)
    ensures s[i] < 128 ==> whole == Ok((out + Shifted(i, Low(s[i])), i + 1))
    ensures s[i] >= 128 ==> Accumulated(whole, s, i + 1, out + Shifted(i, Low(s[i])))
  {
    VarFromFirst(s, i);
    if s[i] >= 128 {
      DigitMoves(whole, Low(s[i]), VarFrom(s[i + 1..], 3 - i), i, out);
    }
  }

  /** The accumulating loop, with no overflow of the 32-bit sum. */
  method DecodeVarLoop(s: Bytes) returns (r: Result<(nat, Size)>)
    ensures r == DecodeVar(s)
    ensures r.Ok? ==> r.value.0 <= VAR_MAX <= U32_MAX
  {
    var n := Min(|s|, 4);
    var out: nat := 0;
    assert Shifted(3, 1) == 2_097_152 && Shifted(4, 1) == VAR_MAX + 1;
    for i := 0 to n
      invariant out < Shifted(i, 1)
      invariant Accumulated(DecodeVar(s), s, i, out)
    {
      Accumulate(DecodeVar(s), s, i, out);
      ShiftedSum(i, Low(s[i]), 0);
      ShiftedGrow(i + 1, 4);
      out := out + Shifted(i, Low(s[i]));
      if s[i] < 0x80 {
        return Ok((out, i + 1));
      }
    }
    return Err(MalformedPacket);
  }

  lemma {:induction false} ShiftedGrow(i: nat, j: nat)
    requires i <= j
    ensures 1 <= Shifted(i, 1) <= Shifted(j, 1)
    decreases j
  {
    if i < j {
      ShiftedGrow(i, j - 1);
    } else if i > 0 {
      ShiftedGrow(i - 1, j - 1);
    }
  }

  // ---------------------------------------------------------------------------- round trip

  lemma {:induction false} VarFromBytes(v: nat, k: nat, rest: Bytes)
    requires k > 0 && v < Shifted(k, 1)
    ensures VarFrom(VarBytes(v) + rest, k) == Ok((v, |VarBytes(v)|))
    decreases k
  {
    if v >= 128 {
      assert k > 1 by {
        assert Shifted(1, 1) == 128;
      }
      VarFromBytes(v / 128, k - 1, rest);
      assert (VarBytes(v) + rest)[1..] == VarBytes(v / 128) + rest;
      assert (VarBytes(v) + rest)[0] == v % 128 + 128;
      assert v == v % 128 + 128 * (v / 128);
    }
  }

  /** Decoding inverts encoding, whatever follows. */
  lemma VarRoundTrip(v: nat, rest: Bytes)
    requires v <= VAR_MAX
    ensures EncodeVar(v).Ok? && DecodeVar(EncodeVar(v).value + rest) == Ok((v, |EncodeVar(v).value|))
  {
    assert Shifted(3, 1) == 2_097_152;
    VarFromBytes(v, 4, rest);
  }

  lemma {:induction false} VarFromMinimal(s: Bytes, k: nat)
    requires VarFrom(s, k).Ok?
    ensures var (v, n) := VarFrom(s, k).value;
            && v < Shifted(k, 1) && |VarBytes(v)| <= n
            && (|VarBytes(v)| == n ==> VarBytes(v) == s[..n])
    decreases k
  {
    assert Shifted(1, 1) == 128;
    ShiftedGrow(1, k);
    if s[0] >= 128 {
      VarFromMinimal(s[1..], k - 1);
      var (v, n) := VarFrom(s[1..], k - 1).value;
      var d := Low(s[0]);
      assert (d + 128 * v) % 128 == d && (d + 128 * v) / 128 == v;
      assert s[1..][..n] == s[1..n + 1];
    }
  }

  /** No shorter string, and no other of the same length, has the same value. */
  lemma VarMinimal(s: Bytes)
    requires DecodeVar(s).Ok?
    ensures var (v, n) := DecodeVar(s).value;
            && v <= VAR_MAX && EncodeVar(v).Ok? && |EncodeVar(v).value| <= n
            && (|EncodeVar(v).value| == n ==> EncodeVar(v).value == s[..n])
  {
    VarFromMinimal(s, 4);
    assert Shifted(3, 1) == 2_097_152;
  }

  lemma {:induction false} VarFromFails(s: Bytes, k: nat)
    ensures VarFrom(s, k).Err? <==> forall i :: 0 <= i < |s| && i < k ==> s[i] >= 128
    decreases k
  {
    if k > 0 && s != [] {
      VarFromFails(s[1..], k - 1);
      assert forall i :: 1 <= i < |s| ==> s[i] == s[1..][i - 1];
      assert forall i :: 0 <= i < |s[1..]| ==> s[1..][i] == s[i + 1];
    }
  }

  /** `decode` fails exactly when none of the first four bytes ends the number. */
  lemma VarFailsIff(s: Bytes)
    ensures DecodeVar(s).Err? <==> forall i :: 0 <= i < |s| && i < 4 ==> s[i] >= 128
  {
    VarFromFails(s, 4);
  }

  lemma {:induction false} VarBytesGrow(v: nat, w: nat)
    requires v <= w
    ensures |VarBytes(v)| <= |VarBytes(w)|
    decreases w
  {
    if v >= 128 {
      VarBytesGrow(v / 128, w / 128);
    }
  }

  /** A larger number takes no fewer bytes, and every number takes one to four. */
  lemma EncodeVarSize(v: nat, w: nat)
    requires v <= w <= VAR_MAX
    ensures EncodeVar(v).Ok? && EncodeVar(w).Ok?
    ensures 1 <= |EncodeVar(v).value| <= |EncodeVar(w).value| <= 4
  {
    VarBytesGrow(v, w);
    VarBytesGrow(w, VAR_MAX);
    assert |VarBytes(VAR_MAX)| == 4 by {
      assert VAR_MAX / 128 == 2_097_151 && 2_097_151 / 128 == 16_383 && 16_383 / 128 == 127;
      assert |VarBytes(16_383)| == 2 && |VarBytes(2_097_151)| == 3;
    }
  }
}
