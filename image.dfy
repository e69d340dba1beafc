/**
 * The emptiness test on a decoded raster. Decoding is not modelled: the
 * input is the raw interleaved pixel buffer and its channel count. With an
 * alpha channel a pixel is empty when it is fully transparent; without one,
 * when it is pure white.
 */
module Image {
  import opened Types

  datatype ImageError = UnsupportedChannels

  /**
   * Reading a buffer position: past the end the source reads `undefined`,
   * which is unequal to every number.
   */
  function ByteAt(data: Bytes, k: int): Option<byte> {
    if 0 <= k < |data| then Some(data[k]) else None
  }

  /** The per-pixel test of the loop body, for the pixel starting at offset `i`. */
  predicate PixelEmpty(data: Bytes, i: int, channels: int) {
    if channels == 4 then ByteAt(data, i + 3) == Some(0)
    else ByteAt(data, i) == Some(255) && ByteAt(data, i + 1) == Some(255) && ByteAt(data, i + 2) == Some(255)
  }

  /** Every pixel from offset `i` on, stepping by `channels`, passes the test. */
  predicate PixelsEmptyFrom(data: Bytes, i: nat, channels: int)
    requires channels > 0
    decreases |data| - i
  {
    i >= |data| || (PixelEmpty(data, i, channels) && PixelsEmptyFrom(data, i + channels, channels))
  }

  /**
   * The raw-buffer scan: a channel count other than 3 or 4 is an error
   * raised before any pixel is read; otherwise the first pixel that fails
   * the test answers `false`, and a buffer without one answers `true`.
   */
  method IsEmptyImage(data: Bytes, channels: int) returns (r: Result<bool, ImageError>)
    ensures channels != 3 && channels != 4 ==> r == Failure(UnsupportedChannels)
    ensures channels == 3 || channels == 4 ==> r == Success(PixelsEmptyFrom(data, 0, channels))
  {
    if channels != 3 && channels != 4 {
      return Failure(UnsupportedChannels);
    }
    var i := 0;
    while i < |data|
      invariant PixelsEmptyFrom(data, i, channels) == PixelsEmptyFrom(data, 0, channels)
      decreases |data| - i
    {
      if channels == 4 && ByteAt(data, i + 3) != Some(0) {
        return Success(false);
      } else if channels == 3
        && (ByteAt(data, i) != Some(255) || ByteAt(data, i + 1) != Some(255) || ByteAt(data, i + 2) != Some(255))
      {
        return Success(false);
      }
      i := i + channels;
    }
    return Success(true);
  }

  /** An empty buffer with a supported channel count is empty. */
  lemma NoPixelsIsEmpty(channels: int)
    requires channels == 3 || channels == 4
    ensures PixelsEmptyFrom([], 0, channels)
  {
  }

  /**
   * Stopping at the first failing pixel agrees with testing every pixel:
   * the scan holds exactly when every pixel offset passes.
   */
  lemma {:induction false} ScanIsConjunction(data: Bytes, i: nat, channels: int)
    requires channels == 3 || channels == 4
    requires i % channels == 0
    decreases |data| - i
    ensures PixelsEmptyFrom(data, i, channels)
      <==> forall j | i <= j < |data| && j % channels == 0 :: PixelEmpty(data, j, channels)
  {
    if i < |data| {
      ScanIsConjunction(data, i + channels, channels);
      if channels == 3 {
        assert forall j | i < j < i + 3 :: j % 3 != 0;
      } else {
        assert forall j | i < j < i + 4 :: j % 4 != 0;
      }
    }
  }

  /**
   * With four channels only the alpha bytes count: the scan holds exactly
   * when the buffer is whole pixels and every alpha byte (offset 3) is 0.
   */
  lemma {:induction false} AlphaScan(data: Bytes, i: nat)
    requires i % 4 == 0
    decreases |data| - i
    ensures PixelsEmptyFrom(data, i, 4)
      <==> i >= |data| || (|data| % 4 == 0 && forall k | i <= k < |data| && k % 4 == 3 :: data[k] == 0)
  {
    if i < |data| {
      AlphaScan(data, i + 4);
    }
  }

  /**
   * With three channels the scan holds exactly when the buffer is whole
   * pixels and every byte is 255, i.e. every pixel is white.
   */
  lemma {:induction false} WhiteScan(data: Bytes, i: nat)
    requires i % 3 == 0
    decreases |data| - i
    ensures PixelsEmptyFrom(data, i, 3)
      <==> i >= |data| || (|data| % 3 == 0 && forall k | i <= k < |data| :: data[k] == 255)
  {
    if i < |data| {
      WhiteScan(data, i + 3);
    }
  }

  /** The four-channel verdict on a whole buffer. */
  lemma FourChannels(data: Bytes)
    ensures PixelsEmptyFrom(data, 0, 4)
      <==> |data| % 4 == 0 && forall k | 0 <= k < |data| && k % 4 == 3 :: data[k] == 0
  {
    AlphaScan(data, 0);
  }

  /** The three-channel verdict on a whole buffer. */
  lemma ThreeChannels(data: Bytes)
    ensures PixelsEmptyFrom(data, 0, 3)
      <==> |data| % 3 == 0 && forall k | 0 <= k < |data| :: data[k] == 255
  {
    WhiteScan(data, 0);
  }

  /** With four channels, changing colour bytes (offsets 0 to 2 of a pixel) never changes the verdict. */
  lemma ColourIgnored(a: Bytes, b: Bytes)
    requires |a| == |b|
    requires forall k | 0 <= k < |a| && k % 4 == 3 :: a[k] == b[k]
    ensures PixelsEmptyFrom(a, 0, 4) == PixelsEmptyFrom(b, 0, 4)
  {
    FourChannels(a);
    FourChannels(b);
  }
}
