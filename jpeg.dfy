/**
 * Recognising a JPEG by its first bytes: the start-of-image marker
 * `FF D8` followed by the `FF` that opens the next marker.
 */
module Jpeg {
  import opened Types

  /** The three leading bytes every JPEG file starts with. */
  const Signature: Bytes := [255, 216, 255]

  /** A missing buffer, or one shorter than three bytes, is not a JPEG. */
  function IsJpg(buffer: Option<Bytes>): (r: bool)
    ensures r <==> buffer.Some? && Signature <= buffer.value
  {
    if buffer.None? || |buffer.value| < 3 then false
    else buffer.value[0] == 255 && buffer.value[1] == 216 && buffer.value[2] == 255
  }

  /** A buffer that is too short, or missing, is rejected. */
  lemma ShortRejected(buffer: Option<Bytes>)
    requires buffer.None? || |buffer.value| < 3
    ensures !IsJpg(buffer)
  {
  }

  /** Only the first three bytes decide: any two buffers agreeing on them get the same verdict. */
  lemma OnlyPrefixMatters(a: Bytes, b: Bytes)
    requires |a| >= 3 && |b| >= 3 && a[..3] == b[..3]
    ensures IsJpg(Some(a)) == IsJpg(Some(b))
  {
    assert a[0] == a[..3][0] && a[1] == a[..3][1] && a[2] == a[..3][2];
    assert b[0] == b[..3][0] && b[1] == b[..3][1] && b[2] == b[..3][2];
  }

  /** Appending bytes to a buffer of three or more never changes the verdict. */
  lemma AppendKeepsVerdict(a: Bytes, tail: Bytes)
    requires |a| >= 3
    ensures IsJpg(Some(a + tail)) == IsJpg(Some(a))
  {
    assert (a + tail)[..3] == a[..3];
    OnlyPrefixMatters(a + tail, a);
  }

  /** Anything that begins with the signature is accepted, whatever follows. */
  lemma SignatureAccepted(tail: Bytes)
    ensures IsJpg(Some(Signature + tail))
  {
  }
}
