/** tgmedia/tgmedia.go: `FromDisk` turns a file name and a mixed list of
    options into an upload: a photo, a video or a document, with the
    conversions its extension calls for.

    The option values are kept abstract: `I` stands for an `*image.Opt`, `V`
    for a `*video.Opt`, and a modifier function is known by its name. The
    fresh zero-valued option `FromDisk` starts from is `None`. */
module TgMedia {
  import opened Wrappers
  import Text

  /** An argument of `FromDisk`; `OtherArg` is any value the type switch
      ignores. */
  datatype Arg<I, V> = ImageOptArg(imageOpt: I) | VideoOptArg(videoOpt: V)
                     | ImageModArg(imageMod: string) | VideoModArg(videoMod: string) | OtherArg

  /** A step applied to a photo before upload. */
  datatype ImageStep<I> = ConvertIfNeeded(opt: Option<I>) | ImageMod(name: string)

  /** A step applied to a video before upload. */
  datatype VideoStep<V> = ConvertByCopy(opt: Option<V>) | Convert(opt: Option<V>) | VideoMod(name: string)

  datatype Media<I, V> =
    | Photo(file: string, imageSteps: seq<ImageStep<I>>)
    | Video(file: string, videoSteps: seq<VideoStep<V>>)
    | Document(file: string)

  const ImageTypes: seq<string> := [".jpg", ".jpeg", ".png", ".webp", ".heic", ".jxl"]
  const NativeVideo: seq<string> := [".mp4", ".mov", ".mpeg4"]
  const CopyConvertibleVideo: seq<string> := [".webm", ".m4v"]
  const ConvertibleVideo: seq<string> := [".avi", ".gif", ".wmv", ".amv", ".qt"]

  /** The four kinds of file `FromDisk` tells apart. */
  datatype Kind = ImageFile | NativeVideoFile | CopyConvertibleVideoFile | ConvertibleVideoFile | OtherFile

  predicate EndsWithOneOf(name: string, suffixes: seq<string>) {
    exists i :: 0 <= i < |suffixes| && Text.HasSuffix(name, suffixes[i])
  }

  /** The kind of a file, by the extension of its lower-cased name, the lists
      being tried in the order image, native video, copy-convertible video,
      convertible video. */
  function Classify(filename: string): (k: Kind)
    ensures var lower := Text.ToLower(filename);
      && (k == ImageFile <==> EndsWithOneOf(lower, ImageTypes))
      && (k == NativeVideoFile <==> !EndsWithOneOf(lower, ImageTypes) && EndsWithOneOf(lower, NativeVideo))
      && (k == CopyConvertibleVideoFile <==>
            !EndsWithOneOf(lower, ImageTypes) && !EndsWithOneOf(lower, NativeVideo)
            && EndsWithOneOf(lower, CopyConvertibleVideo))
      && (k == ConvertibleVideoFile <==>
            !EndsWithOneOf(lower, ImageTypes) && !EndsWithOneOf(lower, NativeVideo)
            && !EndsWithOneOf(lower, CopyConvertibleVideo) && EndsWithOneOf(lower, ConvertibleVideo))
  {
    var lower := Text.ToLower(filename);
    if Text.IsOneOf(lower, ImageTypes) then ImageFile
    else if Text.IsOneOf(lower, NativeVideo) then NativeVideoFile
    else if Text.IsOneOf(lower, CopyConvertibleVideo) then CopyConvertibleVideoFile
    else if Text.IsOneOf(lower, ConvertibleVideo) then ConvertibleVideoFile
    else OtherFile
  }

  /** Classification ignores the case of ASCII letters. */
  lemma ClassifyIgnoresCase(a: string, b: string)
    requires |a| == |b|
    requires forall i :: 0 <= i < |a| ==> Text.LowerChar(a[i]) == Text.LowerChar(b[i])
    ensures Classify(a) == Classify(b)
  {
    assert Text.ToLower(a) == Text.ToLower(b);
  }

  lemma ToLowerAppend(a: string, b: string)
    ensures Text.ToLower(a + b) == Text.ToLower(a) + Text.ToLower(b)
  {
  }

  /** No suffix in the list ends with the last character of `name`. */
  lemma NoSuffixEndsWith(name: string, suffixes: seq<string>)
    requires |name| > 0
    requires forall i :: 0 <= i < |suffixes| ==> |suffixes[i]| > 0 && suffixes[i][|suffixes[i]| - 1] != name[|name| - 1]
    ensures !EndsWithOneOf(name, suffixes)
  {
    forall i | 0 <= i < |suffixes| ensures !Text.HasSuffix(name, suffixes[i]) {
      var t := suffixes[i];
      if Text.HasSuffix(name, t) {
        assert false;
      }
    }
  }

  /** An upper-case `.JPG` extension still makes a photo. */
  lemma UpperCaseJpgIsPhoto(base: string)
    ensures Classify(base + ".JPG") == ImageFile
  {
    var lower := Text.ToLower(base + ".JPG");
    assert Text.HasSuffix(lower, ImageTypes[0]) by {
      ToLowerAppend(base, ".JPG");
      assert Text.ToLower(".JPG") == ".jpg";
      assert lower[|lower| - 4..] == ".jpg";
    }
  }

  /** A `.gif` is converted as a video, not sent as an image. */
  lemma GifIsConvertedVideo(base: string)
    ensures Classify(base + ".gif") == ConvertibleVideoFile
  {
    var lower := Text.ToLower(base + ".gif");
    assert Text.HasSuffix(lower, ConvertibleVideo[1]) && lower[|lower| - 1] == 'f' by {
      ToLowerAppend(base, ".gif");
      assert Text.ToLower(".gif") == ".gif";
      assert lower[|lower| - 4..] == ".gif";
    }
    NoSuffixEndsWith(lower, ImageTypes);
    NoSuffixEndsWith(lower, NativeVideo);
    NoSuffixEndsWith(lower, CopyConvertibleVideo);
  }

  /** An audio file is uploaded as a plain document. */
  lemma Mp3IsDocument(base: string)
    ensures Classify(base + ".mp3") == OtherFile
  {
    var lower := Text.ToLower(base + ".mp3");
    assert |lower| > 0 && lower[|lower| - 1] == '3' by {
      ToLowerAppend(base, ".mp3");
    }
    NoSuffixEndsWith(lower, ImageTypes);
    NoSuffixEndsWith(lower, NativeVideo);
    NoSuffixEndsWith(lower, CopyConvertibleVideo);
    NoSuffixEndsWith(lower, ConvertibleVideo);
  }

  // ---------------------------------------------------------------------------
  // The option loop
  // ---------------------------------------------------------------------------

  /** An option argument of the image kind (`image`) or the video kind. */
  predicate IsOpt<I, V>(a: Arg<I, V>, image: bool) {
    if image then a.ImageOptArg? else a.VideoOptArg?
  }

  /** The index of the last option argument of one kind, -1 if there is none. */
  function LastOptIndex<I, V>(opts: seq<Arg<I, V>>, image: bool): (k: int)
    ensures -1 <= k < |opts|
    ensures k >= 0 ==> IsOpt(opts[k], image)
    ensures forall j :: k < j < |opts| ==> !IsOpt(opts[j], image)
  {
    if opts == [] then -1
    else if IsOpt(opts[|opts| - 1], image) then |opts| - 1
    else LastOptIndex(opts[..|opts| - 1], image)
  }

  /** The last `*image.Opt` among the arguments, if any. */
  function LastImageOpt<I, V>(opts: seq<Arg<I, V>>): (r: Option<I>)
    ensures r == None <==> forall i :: 0 <= i < |opts| ==> !opts[i].ImageOptArg?
    ensures r.Some? ==> exists i :: (0 <= i < |opts| && opts[i] == ImageOptArg(r.value)
                                     && forall j :: i < j < |opts| ==> !opts[j].ImageOptArg?)
  {
    var k := LastOptIndex(opts, true);
    if k < 0 then None else Some(opts[k].imageOpt)
  }

  /** The last `*video.Opt` among the arguments, if any. */
  function LastVideoOpt<I, V>(opts: seq<Arg<I, V>>): (r: Option<V>)
    ensures r == None <==> forall i :: 0 <= i < |opts| ==> !opts[i].VideoOptArg?
    ensures r.Some? ==> exists i :: (0 <= i < |opts| && opts[i] == VideoOptArg(r.value)
                                     && forall j :: i < j < |opts| ==> !opts[j].VideoOptArg?)
  {
    var k := LastOptIndex(opts, false);
    if k < 0 then None else Some(opts[k].videoOpt)
  }

  /** The image modifiers among the arguments, in argument order. */
  function ImageMods<I, V>(opts: seq<Arg<I, V>>): seq<ImageStep<I>> {
    if opts == [] then []
    else ImageMods(opts[..|opts| - 1])
         + (if opts[|opts| - 1].ImageModArg? then [ImageMod(opts[|opts| - 1].imageMod)] else [])
  }

  /** The video modifiers among the arguments, in argument order. */
  function VideoMods<I, V>(opts: seq<Arg<I, V>>): seq<VideoStep<V>> {
    if opts == [] then []
    else VideoMods(opts[..|opts| - 1])
         + (if opts[|opts| - 1].VideoModArg? then [VideoMod(opts[|opts| - 1].videoMod)] else [])
  }

  /** Modifiers keep argument order: those of a longer argument list are
      those of its first part followed by those of the rest. */
  lemma {:induction false} ModsAppend<I, V>(a: seq<Arg<I, V>>, b: seq<Arg<I, V>>)
    ensures ImageMods(a + b) == ImageMods(a) + ImageMods(b)
    ensures VideoMods(a + b) == VideoMods(a) + VideoMods(b)
    decreases |b|
  {
    if b == [] {
      assert a + b == a;
    } else {
      var b' := b[..|b| - 1];
      ModsAppend(a, b');
      assert (a + b)[..|a + b| - 1] == a + b';
      assert (a + b)[|a + b| - 1] == b[|b| - 1];
    }
  }

  /** Exactly the modifier arguments of each kind are kept. */
  lemma {:induction false} ModsMembers<I, V>(opts: seq<Arg<I, V>>)
    ensures forall n :: ImageMod(n) in ImageMods(opts) <==> ImageModArg(n) in opts
    ensures forall n :: VideoMod(n) in VideoMods(opts) <==> VideoModArg(n) in opts
    ensures forall s :: s in ImageMods(opts) ==> s.ImageMod?
  {
    if opts != [] {
      var init := opts[..|opts| - 1];
      ModsMembers(init);
      assert opts == init + [opts[|opts| - 1]];
    }
  }

  /** The loop of `FromDisk` over its arguments: the last option of each kind
      wins, and modifiers are collected per kind. */
  method CollectOptions<I, V>(opts: seq<Arg<I, V>>)
    returns (imageOpt: Option<I>, videoOpt: Option<V>, imageMods: seq<ImageStep<I>>, videoMods: seq<VideoStep<V>>)
    ensures imageOpt == LastImageOpt(opts) && videoOpt == LastVideoOpt(opts)
    ensures imageMods == ImageMods(opts) && videoMods == VideoMods(opts)
  {
    imageOpt, videoOpt, imageMods, videoMods := None, None, [], [];
    var i := 0;
    while i < |opts|
      invariant i <= |opts|
      invariant imageOpt == LastImageOpt(opts[..i]) && videoOpt == LastVideoOpt(opts[..i])
      invariant imageMods == ImageMods(opts[..i]) && videoMods == VideoMods(opts[..i])
    {
      assert opts[..i + 1][..i] == opts[..i];
      match opts[i] {
        case ImageOptArg(o) => imageOpt := Some(o);
        case VideoOptArg(o) => videoOpt := Some(o);
        case ImageModArg(n) => imageMods := imageMods + [ImageMod(n)];
        case VideoModArg(n) => videoMods := videoMods + [VideoMod(n)];
        case OtherArg =>
      }
      i := i + 1;
    }
    assert opts[..|opts|] == opts;
  }

  /** `FromDisk`: a photo gets `ConvertIfNeeded` with the image option and then
      the image modifiers; a native video only the video modifiers; the other
      video kinds a copy-conversion or a conversion first; anything else is a
      plain document. The file is opened under its name as given. */
  method FromDisk<I, V>(filename: string, opts: seq<Arg<I, V>>) returns (m: Media<I, V>)
    ensures Classify(filename) == ImageFile ==>
      m == Photo(filename, [ConvertIfNeeded(LastImageOpt(opts))] + ImageMods(opts))
    ensures Classify(filename) == NativeVideoFile ==> m == Video(filename, VideoMods(opts))
    ensures Classify(filename) == CopyConvertibleVideoFile ==>
      m == Video(filename, [ConvertByCopy(LastVideoOpt(opts))] + VideoMods(opts))
    ensures Classify(filename) == ConvertibleVideoFile ==>
      m == Video(filename, [Convert(LastVideoOpt(opts))] + VideoMods(opts))
    ensures Classify(filename) == OtherFile ==> m == Document(filename)
  {
    var imageOpt, videoOpt, imageMods, videoMods := CollectOptions(opts);
    var lower := Text.ToLower(filename);
    if Text.IsOneOf(lower, ImageTypes) {
      return Photo(filename, [ConvertIfNeeded(imageOpt)] + imageMods);
    }
    if Text.IsOneOf(lower, NativeVideo) {
      return Video(filename, videoMods);
    }
    if Text.IsOneOf(lower, CopyConvertibleVideo) {
      return Video(filename, [ConvertByCopy(videoOpt)] + videoMods);
    }
    if Text.IsOneOf(lower, ConvertibleVideo) {
      return Video(filename, [Convert(videoOpt)] + videoMods);
    }
    return Document(filename);
  }
}
