/** Rejection reasons kept to a length (protocol.rs, `truncate_reason`). */
module RejectReason {
  import opened Bytes
  import opened Utf8

  const MAX_REJECT_REASON_LENGTH: nat := 512
  const TRUNCATION_SUFFIX: bytes := [46, 46, 46]    // "..."

  /** `truncate_reason`, on the reason's UTF-8. */
  function TruncateReason(reason: string, maxLen: nat): bytes {
    var b := ToUtf8(reason);
    if |b| > maxLen then b[..FloorBoundary(b, if maxLen < 3 then 0 else maxLen - 3)] + TRUNCATION_SUFFIX else b
  }

  /** The result is always whole characters, and stays within the limit exactly
      when the reason did or the limit has room for the dots. A cut keeps the
      longest run of whole characters that leaves that room. */
  lemma TruncatedReason(reason: string, maxLen: nat) returns (k: nat)
    ensures k <= |reason|
    ensures TruncateReason(reason, maxLen)
         == ToUtf8(reason[..k]) + if |ToUtf8(reason)| > maxLen then TRUNCATION_SUFFIX else []
    ensures |TruncateReason(reason, maxLen)| <= maxLen <==> |ToUtf8(reason)| <= maxLen || maxLen >= 3
    ensures |ToUtf8(reason)| > maxLen ==>
              forall j :: 0 <= j <= |reason| && |ToUtf8(reason[..j])| + 3 <= maxLen ==>
                |ToUtf8(reason[..j])| <= |ToUtf8(reason[..k])|
  {
    if |ToUtf8(reason)| > maxLen {
      k := FloorIsLongestWholePrefix(reason, if maxLen < 3 then 0 else maxLen - 3);
    } else {
      k := |reason|;
      assert reason[..k] == reason;
      assert ToUtf8(reason) + [] == ToUtf8(reason);
    }
  }

  /** So every reason sent fits the protocol's own limit. */
  lemma ReasonsFit(reason: string)
    ensures |TruncateReason(reason, MAX_REJECT_REASON_LENGTH)| <= MAX_REJECT_REASON_LENGTH
  {
    var k := TruncatedReason(reason, MAX_REJECT_REASON_LENGTH);
  }
}
