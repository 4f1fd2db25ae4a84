/** `HdRprApiFramebuffer` (hdRpr/rprApiFramebuffer.cpp): a four-channel
    float framebuffer with its dimensions, the AOV it is attached to, and
    whether the RPR framebuffer object exists.  RPR calls are outside the
    model; creation of the RPR object is taken to succeed. */
module Framebuffer {

  /** `rpr::Aov`; `NoAov` is `kAovNone`. */
  datatype Aov = NoAov | Aov(id: nat)

  datatype Fb = Fb(width: nat, height: nat, aov: Aov, hasRprFb: bool)

  const NumChannels: nat := 4
  const SizeOfFloat: nat := 4
  const Uint32Modulus: nat := 0x1_0000_0000

  /** The state a freshly moved-from framebuffer is left in. */
  const Empty: Fb := Fb(0, 0, NoAov, false)

  /** `Delete`: detaches the AOV and destroys the RPR object; the stored
      dimensions are untouched. */
  function Delete(fb: Fb): (r: Fb)
    ensures r.aov == NoAov && !r.hasRprFb
    ensures r.width == fb.width && r.height == fb.height
  {
    fb.(aov := NoAov, hasRprFb := false)
  }

  /** `AttachAs`: the framebuffer records the new AOV. */
  function AttachAs(fb: Fb, aov: Aov): (r: Fb)
    ensures r.aov == aov && r.(aov := fb.aov) == fb
  {
    fb.(aov := aov)
  }

  /** `Create` as written: zero dimensions return before anything is
      stored, so the previous dimensions survive. */
  function CreateAsWritten(fb: Fb, width: nat, height: nat): (r: Fb)
    ensures width == 0 || height == 0 ==> r == fb
    ensures width > 0 && height > 0 ==> r == fb.(width := width, height := height, hasRprFb := true)
  {
    if width == 0 || height == 0 then fb
    else fb.(width := width, height := height, hasRprFb := true)
  }

  /** `Resize` as written: equal dimensions report no change; otherwise the
      framebuffer is deleted, re-created and re-attached to its AOV. */
  function ResizeAsWritten(fb: Fb, width: nat, height: nat): (r: (bool, Fb))
    ensures !r.0 <==> fb.width == width && fb.height == height
    ensures !r.0 ==> r.1 == fb
    ensures r.0 && width > 0 && height > 0 ==>
      r.1 == fb.(width := width, height := height, hasRprFb := true)
    ensures r.0 && (width == 0 || height == 0) ==> r.1 == fb.(hasRprFb := false)
  {
    if fb.width == width && fb.height == height then (false, fb)
    else
      var aov := fb.aov;
      var created := CreateAsWritten(Delete(fb), width, height);
      (true, if aov != NoAov then AttachAs(created, aov) else created)
  }

  /** Resizing a framebuffer to 0x0 and back to its old size leaves it
      without an RPR framebuffer: the first call keeps the old dimensions, so
      the second sees "no change" and creates nothing. */
  lemma ResizeThroughZeroLosesFramebuffer()
    ensures var fb := Fb(4, 4, Aov(0), true);
      var (c1, zero) := ResizeAsWritten(fb, 0, 0);
      var (c2, back) := ResizeAsWritten(zero, 4, 4);
      c1 && zero.width == 4 && !zero.hasRprFb && !c2 && !back.hasRprFb
  {
  }

  /** `Create` as evidently intended: the requested dimensions are always
      stored, and the RPR object exists exactly when they are non-zero. */
  function Create(fb: Fb, width: nat, height: nat): (r: Fb)
    ensures r.width == width && r.height == height
    ensures r.hasRprFb <==> width > 0 && height > 0
    ensures r.aov == fb.aov
  {
    fb.(width := width, height := height, hasRprFb := width > 0 && height > 0)
  }

  /** The constructor. */
  function New(width: nat, height: nat): (r: Fb)
    ensures r.width == width && r.height == height && r.aov == NoAov
    ensures r.hasRprFb <==> width > 0 && height > 0
  {
    Create(Fb(0, 0, NoAov, false), width, height)
  }

  /** `Resize`: no change and nothing touched for equal dimensions;
      otherwise the new dimensions are stored and the AOV re-attached. */
  function Resize(fb: Fb, width: nat, height: nat): (r: (bool, Fb))
    ensures !r.0 <==> fb.width == width && fb.height == height
    ensures !r.0 ==> r.1 == fb
    ensures r.0 ==> r.1.width == width && r.1.height == height && r.1.aov == fb.aov
    ensures r.0 ==> (r.1.hasRprFb <==> width > 0 && height > 0)
  {
    if fb.width == width && fb.height == height then (false, fb)
    else
      var aov := fb.aov;
      var created := Create(Delete(fb), width, height);
      (true, if aov != NoAov then AttachAs(created, aov) else created)
  }

  /** With `Create` corrected, a framebuffer that was consistent (it has an
      RPR object exactly when its dimensions are non-zero) stays so under any
      sequence of resizes, so a resize to non-zero dimensions always ends
      with a usable framebuffer. */
  predicate Consistent(fb: Fb) {
    fb.hasRprFb <==> fb.width > 0 && fb.height > 0
  }

  lemma ResizeKeepsConsistency(fb: Fb, width: nat, height: nat)
    requires Consistent(fb)
    ensures Consistent(Resize(fb, width, height).1)
    ensures width > 0 && height > 0 ==> Resize(fb, width, height).1.hasRprFb
  {
  }

  /** The written and the corrected `Resize` agree whenever both requested
      dimensions are non-zero; they differ only on a resize to zero. */
  lemma ResizeAgreesOnNonZero(fb: Fb, width: nat, height: nat)
    requires width > 0 && height > 0
    ensures ResizeAsWritten(fb, width, height) == Resize(fb, width, height)
  {
  }

  /** The move assignment: the target takes the source's state and the
      source is left 0x0, detached and without an RPR object. */
  function Move(src: Fb): (r: (Fb, Fb))
    ensures r.0 == src
    ensures r.1.width == 0 && r.1.height == 0 && r.1.aov == NoAov && !r.1.hasRprFb
  {
    (src, Empty)
  }

  /** `GetSize` as written: `m_width * m_height * kNumChannels` is computed
      in 32-bit unsigned arithmetic and wraps before the final multiply by
      `sizeof(float)` widens it. */
  function GetSizeAsWritten(fb: Fb): (s: nat)
    requires fb.width < Uint32Modulus && fb.height < Uint32Modulus
    ensures s < Uint32Modulus * SizeOfFloat
  {
    var w := fb.width * fb.height % Uint32Modulus;
    (w * NumChannels % Uint32Modulus) * SizeOfFloat
  }

  /** `GetSize` as intended: the byte size of four floats per pixel. */
  function GetSize(fb: Fb): (s: nat)
    ensures fb.width > 0 && fb.height > 0 ==> s >= NumChannels * SizeOfFloat
    ensures s % (NumChannels * SizeOfFloat) == 0 && s / (NumChannels * SizeOfFloat) == fb.width * fb.height
  {
    fb.width * fb.height * NumChannels * SizeOfFloat
  }

  /** The two agree while the pixel count times four fits in 32 bits. */
  lemma GetSizeAgreesWithoutOverflow(fb: Fb)
    requires fb.width < Uint32Modulus && fb.height < Uint32Modulus
    requires fb.width * fb.height * NumChannels < Uint32Modulus
    ensures GetSizeAsWritten(fb) == GetSize(fb)
  {
    var pixels := fb.width * fb.height;
    assert pixels < Uint32Modulus && pixels % Uint32Modulus == pixels;
    assert pixels * NumChannels % Uint32Modulus == pixels * NumChannels;
  }

  /** A 32768x32768 framebuffer has a wrapped size of zero. */
  lemma GetSizeWrapsAt32768()
    ensures GetSizeAsWritten(Fb(32768, 32768, NoAov, true)) == 0
    ensures GetSize(Fb(32768, 32768, NoAov, true)) == 0x4_0000_0000
  {
  }

  /** `GetData` as written: fails on a framebuffer without pixels or RPR
      object, or when the destination is smaller than the wrapped
      `GetSizeAsWritten`; otherwise the result is that of the RPR read,
      `readOk`. */
  function GetDataAsWritten(fb: Fb, dstSize: nat, readOk: bool): (ok: bool)
    requires fb.width < Uint32Modulus && fb.height < Uint32Modulus
    ensures ok ==> fb.width > 0 && fb.height > 0 && fb.hasRprFb && GetSizeAsWritten(fb) <= dstSize
    ensures fb.width > 0 && fb.height > 0 && fb.hasRprFb && GetSizeAsWritten(fb) <= dstSize ==> ok == readOk
  {
    if fb.width == 0 || fb.height == 0 || !fb.hasRprFb then false
    else if GetSizeAsWritten(fb) > dstSize then false
    else readOk
  }

  /** As written, a 32768x32768 framebuffer passes the destination check with
      a zero-byte destination, which the intended check refuses. */
  lemma GetDataAsWrittenAcceptsEmptyDestination()
    ensures GetDataAsWritten(Fb(32768, 32768, NoAov, true), 0, true)
    ensures !GetData(Fb(32768, 32768, NoAov, true), 0, true)
  {
    GetSizeWrapsAt32768();
  }

  /** The two reads agree while the size does not wrap. */
  lemma GetDataAgreesWithoutOverflow(fb: Fb, dstSize: nat, readOk: bool)
    requires fb.width < Uint32Modulus && fb.height < Uint32Modulus
    requires fb.width * fb.height * NumChannels < Uint32Modulus
    ensures GetDataAsWritten(fb, dstSize, readOk) == GetData(fb, dstSize, readOk)
  {
    GetSizeAgreesWithoutOverflow(fb);
  }

  /** `GetData` as intended: fails on a framebuffer without pixels or RPR
      object, or when the destination is smaller than the framebuffer;
      otherwise the result is that of the RPR read, `readOk`. */
  function GetData(fb: Fb, dstSize: nat, readOk: bool): (ok: bool)
    ensures ok ==> fb.width > 0 && fb.height > 0 && fb.hasRprFb && GetSize(fb) <= dstSize
    ensures fb.width > 0 && fb.height > 0 && fb.hasRprFb && GetSize(fb) <= dstSize ==> ok == readOk
  {
    if fb.width == 0 || fb.height == 0 || !fb.hasRprFb then false
    else if GetSize(fb) > dstSize then false
    else readOk
  }
}
