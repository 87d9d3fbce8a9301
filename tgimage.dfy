/** tgimage/image.go: `parseOpts`, which builds the options of an image
    operation from an optional caller-supplied `*Opt`. */
module TgImage {
  import opened Wrappers

  const DefaultConvert: string := "convert"

  datatype Opt = Opt(width: int, height: int, hardResize: bool, convert: string, tempDir: string, quality: int)

  /** The options used when the caller passes none. */
  const Defaults: Opt := Opt(5000, 5000, false, DefaultConvert, "", 95)

  /** `parseOpts`. Only the first argument is read; a nil pointer there is
      dereferenced and panics, which is `None`. A zero number or an empty
      string keeps the default, any other value (a negative one included)
      replaces it, and `HardResize` is always taken over. */
  function ParseOpts(opts: seq<Option<Opt>>): (r: Option<Opt>)
    ensures opts == [] ==> r == Some(Defaults)
    ensures opts != [] ==> (r.Some? <==> opts[0].Some?)
    ensures opts != [] && opts[0].Some? ==> var o, p := opts[0].value, r.value;
      && p.width == (if o.width != 0 then o.width else 5000)
      && p.height == (if o.height != 0 then o.height else 5000)
      && p.convert == (if o.convert != "" then o.convert else DefaultConvert)
      && p.tempDir == o.tempDir
      && p.quality == (if o.quality != 0 then o.quality else 95)
      && p.hardResize == o.hardResize
  {
    if |opts| == 0 then Some(Defaults)
    else if opts[0].None? then None
    else
      var o := opts[0].value;
      var opt := Defaults;
      var opt := if o.width != 0 then opt.(width := o.width) else opt;
      var opt := if o.height != 0 then opt.(height := o.height) else opt;
      var opt := if o.convert != "" then opt.(convert := o.convert) else opt;
      var opt := if o.tempDir != "" then opt.(tempDir := o.tempDir) else opt;
      var opt := if o.quality != 0 then opt.(quality := o.quality) else opt;
      Some(opt.(hardResize := o.hardResize))
  }

  /** The arguments after the first are never looked at. */
  lemma ParseOptsFirstOnly(o: Option<Opt>, rest1: seq<Option<Opt>>, rest2: seq<Option<Opt>>)
    ensures ParseOpts([o] + rest1) == ParseOpts([o] + rest2)
  {
  }

  /** Parsing is idempotent: options that were already parsed come back
      unchanged. */
  lemma ParseOptsIdempotent(o: Opt)
    ensures var p := ParseOpts([Some(o)]);
      p.Some? && ParseOpts([p]) == p
  {
  }

  /** An explicit option equal to the defaults parses to the defaults. */
  lemma ParseDefaults()
    ensures ParseOpts([Some(Defaults)]) == ParseOpts([])
  {
  }
}
