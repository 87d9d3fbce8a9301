/** image/internal.go: `isTypeSupported`, the test that decides whether an
    image can be handed on without conversion. */
module Image {
  import Text

  /** The accepted endings. The second one has no leading dot. */
  const SupportedTypes: seq<string> := [".jpg", "jpeg", ".png"]

  /** `isTypeSupported`: the lower-cased name ends with one of the supported
      endings. */
  function IsTypeSupported(filename: string): (b: bool)
    ensures b <==> exists i :: 0 <= i < |SupportedTypes| && Text.HasSuffix(Text.ToLower(filename), SupportedTypes[i])
  {
    Text.IsOneOf(Text.ToLower(filename), SupportedTypes)
  }

  /** The test ignores the case of ASCII letters. */
  lemma IsTypeSupportedIgnoresCase(a: string, b: string)
    requires |a| == |b|
    requires forall i :: 0 <= i < |a| ==> Text.LowerChar(a[i]) == Text.LowerChar(b[i])
    ensures IsTypeSupported(a) == IsTypeSupported(b)
  {
    assert Text.ToLower(a) == Text.ToLower(b);
  }

  /** The lower-cased name of `base + ext` ends with `ext` when `ext` has no
      upper-case letter. */
  lemma LowerEndsWith(base: string, ext: string)
    requires forall i :: 0 <= i < |ext| ==> !Text.IsUpper(ext[i])
    ensures Text.HasSuffix(Text.ToLower(base + ext), ext)
  {
    var lower := Text.ToLower(base + ext);
    assert lower[|base|..] == ext;
  }

  /** Because `jpeg` carries no dot, any name that merely ends in those four
      letters is accepted, with or without an extension separator. */
  lemma JpegWithoutDotAccepted(base: string)
    ensures IsTypeSupported(base + "jpeg")
  {
    LowerEndsWith(base, "jpeg");
    assert Text.HasSuffix(Text.ToLower(base + "jpeg"), SupportedTypes[1]);
  }

  /** A WebP image is not supported here, although tgmedia classifies it as a
      photo. */
  lemma WebpRejected(base: string)
    ensures !IsTypeSupported(base + ".webp")
  {
    var lower := Text.ToLower(base + ".webp");
    assert lower[|lower| - 1] == 'p';
    forall i | 0 <= i < |SupportedTypes| ensures !Text.HasSuffix(lower, SupportedTypes[i]) {
      var t := SupportedTypes[i];
      if Text.HasSuffix(lower, t) {
        assert false;
      }
    }
  }
}
