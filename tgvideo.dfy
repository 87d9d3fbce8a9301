/** tgvideo/video.go: the options of the video modifiers and `Opt.Defaults`,
    which fills in the unset ones through the pointer it is called on. */
module TgVideo {

  const DefaultFfmpeg: string := "ffmpeg"
  const DefaultFfprobe: string := "ffprobe"
  const DefaultConvert: string := "convert"
  const DefaultPreset: string := "fast"
  const DefaultSide: int := 5000

  /** The values held by an `Opt`. */
  datatype Settings = Settings(width: int, height: int, preset: string, ffmpeg: string,
                               ffprobe: string, convert: string, tempDir: string)

  /** A zero `Opt{}`. */
  const Zero: Settings := Settings(0, 0, "", "", "", "", "")

  /** The settings after `Defaults`. */
  function WithDefaults(s: Settings): Settings {
    Settings(if s.width <= 0 then DefaultSide else s.width,
             if s.height <= 0 then DefaultSide else s.height,
             if s.preset == "" then DefaultPreset else s.preset,
             if s.ffmpeg == "" then DefaultFfmpeg else s.ffmpeg,
             if s.ffprobe == "" then DefaultFfprobe else s.ffprobe,
             if s.convert == "" then DefaultConvert else s.convert,
             s.tempDir)
  }

  /** Settings that need no default. */
  predicate Complete(s: Settings) {
    s.width > 0 && s.height > 0 && s.preset != "" && s.ffmpeg != "" && s.ffprobe != "" && s.convert != ""
  }

  /** After `Defaults` nothing is missing; every field that was already set,
      and the temporary directory, is kept; so complete settings are left
      alone and `Defaults` is idempotent. */
  lemma WithDefaultsComplete(s: Settings)
    ensures Complete(WithDefaults(s))
    ensures var r := WithDefaults(s);
      && (s.width > 0 ==> r.width == s.width) && (s.height > 0 ==> r.height == s.height)
      && (s.preset != "" ==> r.preset == s.preset) && (s.ffmpeg != "" ==> r.ffmpeg == s.ffmpeg)
      && (s.ffprobe != "" ==> r.ffprobe == s.ffprobe) && (s.convert != "" ==> r.convert == s.convert)
      && r.tempDir == s.tempDir
    ensures Complete(s) ==> WithDefaults(s) == s
    ensures WithDefaults(WithDefaults(s)) == WithDefaults(s)
  {
  }

  /** A missing field gets its own default: 5000 for a side that is not
      positive, the program names and the "fast" preset for empty strings. */
  lemma WithDefaultsFillsIn(s: Settings)
    ensures var r := WithDefaults(s);
      && (s.width <= 0 ==> r.width == DefaultSide) && (s.height <= 0 ==> r.height == DefaultSide)
      && (s.preset == "" ==> r.preset == DefaultPreset) && (s.ffmpeg == "" ==> r.ffmpeg == DefaultFfmpeg)
      && (s.ffprobe == "" ==> r.ffprobe == DefaultFfprobe) && (s.convert == "" ==> r.convert == DefaultConvert)
  {
  }

  /** A nil `*Opt` gets the full set of defaults. */
  lemma ZeroDefaults()
    ensures WithDefaults(Zero) == Settings(DefaultSide, DefaultSide, DefaultPreset, DefaultFfmpeg,
                                           DefaultFfprobe, DefaultConvert, "")
  {
  }

  class Opt {
    var width: int
    var height: int
    var preset: string
    var ffmpeg: string
    var ffprobe: string
    var convert: string
    var tempDir: string

    function Value(): Settings
      reads this
    {
      Settings(width, height, preset, ffmpeg, ffprobe, convert, tempDir)
    }

    constructor (s: Settings)
      ensures Value() == s
    {
      width, height, preset := s.width, s.height, s.preset;
      ffmpeg, ffprobe, convert, tempDir := s.ffmpeg, s.ffprobe, s.convert, s.tempDir;
    }
  }

  /** `(*Opt).Defaults`: on a nil receiver a new zero `Opt` is made first;
      the fields are then filled in place and the same object is returned. */
  method Defaults(opts: Opt?) returns (r: Opt)
    modifies opts
    ensures opts != null ==> r == opts && r.Value() == WithDefaults(old(opts.Value()))
    ensures opts == null ==> fresh(r) && r.Value() == WithDefaults(Zero)
  {
    if opts == null {
      r := new Opt(Zero);
    } else {
      r := opts;
    }
    ghost var s := r.Value();
    if r.convert == "" {
      r.convert := DefaultConvert;
    }
    if r.ffmpeg == "" {
      r.ffmpeg := DefaultFfmpeg;
    }
    if r.ffprobe == "" {
      r.ffprobe := DefaultFfprobe;
    }
    if r.width <= 0 {
      r.width := DefaultSide;
    }
    if r.height <= 0 {
      r.height := DefaultSide;
    }
    if r.preset == "" {
      r.preset := DefaultPreset;
    }
    assert r.Value() == WithDefaults(s);
  }
}
