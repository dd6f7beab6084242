/** conn.go: the constant-time CBC padding check and the plain check it stands for. */
module Padding {
  import opened Bytes

  /** Section 6.2.3.2 of RFC 2246: the last octet p counts the padding octets before it, and all equal p. */
  predicate WellPadded(payload: bytes)
    requires payload != []
  {
    var p := payload[|payload| - 1];
    && p as int + 1 <= |payload|
    && forall i :: |payload| - 1 - p as int <= i < |payload| ==> payload[i] == p
  }

  /** The branching form of the check: octets to strip, and 255 for valid or 0 for invalid padding. */
  function PlainPadding(payload: bytes): (nat, byte) {
    if payload == [] then (0, 0)
    else if WellPadded(payload) then (payload[|payload| - 1] as int + 1, 255)
    else (1, 0)
  }

  /** `byte(int32(^t) >> 31)`, where t is the unsigned word holding the exact difference d. */
  function SignMask(d: int): byte {
    if (-1 - d) % 0x1_0000_0000 >= 0x8000_0000 then 255 else 0
  }

  /** The sign-extending shift `uint8(int8(b) >> 7)`. */
  function SpreadSign(b: byte): byte {
    if b & 0x80 != 0 then 255 else 0
  }

  /** Folding the eight bits together: the result is 255 exactly when every bit of `good` was set. */
  function Collapse(good: byte): (r: byte)
    ensures r == if good == 255 then 255 else 0
  {
    var g4 := good & (good << 4);
    var g2 := g4 & (g4 << 2);
    SpreadSign(g2 & (g2 << 1))
  }

  lemma ClearDifference(good: byte, mask: byte, p: byte, b: byte)
    requires mask == 255 || mask == 0
    ensures good & !((mask & p) ^ (mask & b)) == 255 <==> good == 255 && (mask == 0 || p == b)
  {
  }

  lemma MaskPaddingLength(p: byte)
    ensures p & 255 == p && p & 0 == 0
  {
  }

  lemma SignMaskTellsSign(d: int)
    requires -0x8000_0000 <= d < 0x8000_0000
    ensures SignMask(d) == if d >= 0 then 255 else 0
  {
  }

  /** The octets within `checked` of the end that lie in the claimed padding all equal p. */
  ghost predicate CheckedTail(payload: bytes, p: byte, checked: nat) {
    forall k :: 0 <= k < |payload| && |payload| - checked <= k && |payload| - 1 - p as int <= k ==> payload[k] == p
  }

  /** Counting back from the end over min(256, length) octets covers all the padding. */
  lemma AllChecked(payload: bytes, toCheck: nat)
    requires payload != []
    requires toCheck == if 256 > |payload| then |payload| else 256
    ensures var p := payload[|payload| - 1];
            WellPadded(payload) <==> p as int + 1 <= |payload| && CheckedTail(payload, p, toCheck)
  {
  }

  lemma TailStep(payload: bytes, p: byte, i: nat)
    requires i < |payload|
    ensures CheckedTail(payload, p, i + 1) <==> CheckedTail(payload, p, i) && (p as int < i || payload[|payload| - 1 - i] == p)
  {
  }

  /** One round of the loop: an octet inside the claimed padding that differs clears bits of good. */
  method CheckOctet(good: byte, paddingLen: byte, b: byte, i: nat) returns (r: byte)
    requires i < 256
    ensures r == 255 <==> good == 255 && (paddingLen as int < i || b == paddingLen)
  {
    SignMaskTellsSign(paddingLen as int - i);
    var mask := SignMask(paddingLen as int - i);
    ClearDifference(good, mask, paddingLen, b);
    return good & !((mask & paddingLen) ^ (mask & b));
  }

  /** The end of extractPadding: on bad padding the length is zeroed, so that one octet is removed. */
  method Conclude(good: byte, paddingLen: byte) returns (toRemove: nat, verdict: byte)
    ensures (toRemove, verdict) == if good == 255 then (paddingLen as int + 1, 255) else (1, 0)
  {
    verdict := Collapse(good);
    MaskPaddingLength(paddingLen);
    toRemove := (paddingLen & verdict) as int + 1;
  }

  /**
   * extractPadding. Below the 32-bit limit, where the sign bit of the truncated difference tells
   * the truth, the branch-free result is that of the plain check.
   */
  method ExtractPadding(payload: bytes) returns (toRemove: nat, good: byte)
    ensures |payload| < 0x8000_0000 ==> (toRemove, good) == PlainPadding(payload)
  {
    if |payload| < 1 {
      return 0, 0;
    }
    var paddingLen := payload[|payload| - 1];
    good := SignMask(|payload| - 1 - paddingLen as int);
    ghost var fits := good == 255;
    var toCheck := if 256 > |payload| then |payload| else 256;
    for i := 0 to toCheck
      invariant good == 255 <==> fits && CheckedTail(payload, paddingLen, i)
    {
      TailStep(payload, paddingLen, i);
      good := CheckOctet(good, paddingLen, payload[|payload| - 1 - i], i);
    }
    if |payload| < 0x8000_0000 {
      SignMaskTellsSign(|payload| - 1 - paddingLen as int);
      AllChecked(payload, toCheck);
    }
    toRemove, good := Conclude(good, paddingLen);
  }
}
