/** The per-item decision of the worker: where the converted file goes and
    whether the item is skipped, converted or fails. Everything the worker
    learns from the filesystem and the image library is an input. */
module Policy {
  import opened Paths

  /** The two target formats the format radio buttons offer. */
  datatype TargetFormat = Jpg | Png

  /** The lowercased value of the format variable. */
  function FormatName(t: TargetFormat): string
  {
    match t
    case Jpg => "jpg"
    case Png => "png"
  }

  /** The output folder field: left empty (write next to each source) or set. */
  datatype OutputFolder = SameAsSource | Folder(dir: Dir)

  /** The options of one run. */
  datatype Config = Config(
    inputRoot: Dir,
    output: OutputFolder,
    target: TargetFormat,
    overwrite: bool,
    recursive: bool)

  /** Opening the source with the image library: not an image at all, another
      failure while opening, or an image with its detected format name ("" when
      the library reports none) and its colour mode. */
  datatype Probe = NotAnImage | OpenFailed | Opened(format: string, mode: string)

  /** What one worker meets: whether creating the destination directory
      raises, the files that exist when it checks the destination, the result
      of opening the source, and whether the mode conversion or the save raises. */
  datatype ItemEnv = ItemEnv(
    makedirsFails: bool,
    existing: set<FilePath>,
    probe: Probe,
    saveFails: bool)

  /** The save call: JPEG with its mode, quality and optimize flag, or PNG with its mode. */
  datatype Encoding = JpegEncoding(mode: string, quality: nat, optimize: bool) | PngEncoding(mode: string)

  datatype ErrorKind = MakeDirsError | Unidentified | OpenError | SaveError

  datatype Outcome = SkippedExists | SkippedSameFormat | Converted(encoding: Encoding) | Failed(error: ErrorKind)

  /** The destination path and the outcome of one item. */
  datatype Processed = Processed(dest: FilePath, outcome: Outcome)

  /** The new base name: the source name without its extension, a dot, the
      format. Unless the stem is only dots, the new name splits back into
      that stem and exactly the target extension. */
  function DestName(name: string, target: TargetFormat): (r: string)
    ensures !AllDots(Stem(name)) ==> SplitExt(r) == (Stem(name), "." + FormatName(target))
  {
    TargetNameSplits(Stem(name), target);
    Stem(name) + "." + FormatName(target)
  }

  /** The folder the converted file is written to: the source's own folder,
      the output folder, or, when recursive, the output folder mirroring the
      source's place below the input root. */
  function TargetDir(item: FilePath, cfg: Config): (r: Dir)
    ensures cfg.output.SameAsSource? ==> r == item.dir
    ensures cfg.output.Folder? && !cfg.recursive ==> r == cfg.output.dir
    ensures cfg.output.Folder? && cfg.recursive && Under(item.dir, cfg.inputRoot) ==>
      r == cfg.output.dir + item.dir[|cfg.inputRoot|..]
  {
    match cfg.output
    case SameAsSource => item.dir
    case Folder(out) =>
      if cfg.recursive then Join(out, RelPath(item.dir, cfg.inputRoot)) else out
  }

  /** The converted file's path. Writing next to the source, a file that
      already has the target extension is its own destination. */
  function Destination(item: FilePath, cfg: Config): (r: FilePath)
    ensures cfg.output == SameAsSource && Extension(item.name) == "." + FormatName(cfg.target) ==> r == item
  {
    assert Stem(item.name) + Extension(item.name) == item.name;
    FilePath(TargetDir(item, cfg), DestName(item.name, cfg.target))
  }

  /** How a converted image is saved: for JPEG, forced to RGB at quality 100
      without optimisation; for PNG, in the source's mode. */
  function Encode(target: TargetFormat, mode: string): (r: Encoding)
    ensures r.JpegEncoding? <==> target == Jpg
    ensures r.JpegEncoding? ==> r == JpegEncoding("RGB", 100, false)
    ensures r.PngEncoding? ==> r.mode == mode
  {
    match target
    case Jpg => JpegEncoding(if mode != "RGB" then "RGB" else mode, 100, false)
    case Png => PngEncoding(mode)
  }

  /** The decision for one item, in the order the worker takes its steps. */
  function Decide(item: FilePath, cfg: Config, env: ItemEnv): (r: Processed)
    ensures r.dest == Destination(item, cfg)
    ensures r.outcome == Failed(MakeDirsError) <==> env.makedirsFails
    // An existing destination is decided on before the image is opened.
    ensures r.outcome == SkippedExists <==> !env.makedirsFails && r.dest in env.existing && !cfg.overwrite
    ensures r.outcome == Failed(Unidentified) <==>
      !env.makedirsFails && (cfg.overwrite || r.dest !in env.existing) && env.probe.NotAnImage?
    ensures r.outcome == Failed(OpenError) <==>
      !env.makedirsFails && (cfg.overwrite || r.dest !in env.existing) && env.probe.OpenFailed?
    ensures r.outcome == SkippedSameFormat <==>
      && !env.makedirsFails && !cfg.overwrite && r.dest !in env.existing
      && env.probe.Opened? && Lower(env.probe.format) == FormatName(cfg.target)
    ensures r.outcome == Failed(SaveError) <==>
      && !env.makedirsFails && (cfg.overwrite || r.dest !in env.existing)
      && env.probe.Opened? && (cfg.overwrite || Lower(env.probe.format) != FormatName(cfg.target))
      && env.saveFails
    ensures r.outcome.Converted? <==>
      && !env.makedirsFails && (cfg.overwrite || r.dest !in env.existing)
      && env.probe.Opened? && (cfg.overwrite || Lower(env.probe.format) != FormatName(cfg.target))
      && !env.saveFails
    ensures r.outcome.Converted? ==> r.outcome.encoding == Encode(cfg.target, env.probe.mode)
    // With overwrite on nothing is ever skipped.
    ensures cfg.overwrite ==> !r.outcome.SkippedExists? && !r.outcome.SkippedSameFormat?
  {
    var dest := Destination(item, cfg);
    var outcome :=
      if env.makedirsFails then Failed(MakeDirsError)
      else if dest in env.existing && !cfg.overwrite then SkippedExists
      else match env.probe
        case NotAnImage => Failed(Unidentified)
        case OpenFailed => Failed(OpenError)
        case Opened(format, mode) =>
          if Lower(format) == FormatName(cfg.target) && !cfg.overwrite then SkippedSameFormat
          else if env.saveFails then Failed(SaveError)
          else Converted(Encode(cfg.target, mode));
    Processed(dest, outcome)
  }

  /** The target extension: a dot, then lowercase letters only. */
  lemma TargetExtShape(target: TargetFormat)
    ensures var ext := "." + FormatName(target);
      ext[0] == '.' && '.' !in ext[1..] && Lower(ext) == ext
  {
    var ext := "." + FormatName(target);
    match target
    case Jpg => assert ext == ".jpg";
    case Png => assert ext == ".png";
  }

  /** The target extension is itself on the allowlist. */
  lemma TargetExtSupported(target: TargetFormat)
    ensures "." + FormatName(target) in SupportedExts
  {
    var ext := "." + FormatName(target);
    match target
    case Jpg => assert ext == ".jpg";
    case Png => assert ext == ".png";
  }

  /** A stem followed by the target extension splits back into the two. */
  lemma TargetNameSplits(stem: string, target: TargetFormat)
    ensures !AllDots(stem) ==> SplitExt(stem + "." + FormatName(target)) == (stem, "." + FormatName(target))
  {
    if !AllDots(stem) {
      var ext := "." + FormatName(target);
      TargetExtShape(target);
      SplitExtJoin(stem, ext);
      assert stem + "." + FormatName(target) == stem + ext;
    }
  }

  /** For a discovered name, the destination keeps the stem and carries
      exactly the target extension. */
  lemma DestNameSplits(name: string, target: TargetFormat)
    requires Qualifies(name)
    ensures SplitExt(DestName(name, target)) == (Stem(name), "." + FormatName(target))
  {
    assert !AllDots(Stem(name));
  }

  /** A destination name is itself picked up by discovery. */
  lemma DestNameQualifies(name: string, target: TargetFormat)
    requires Qualifies(name)
    ensures Qualifies(DestName(name, target))
  {
    DestNameSplits(name, target);
    TargetExtShape(target);
    TargetExtSupported(target);
  }

  /** Converting an output name again yields the same name. */
  lemma DestNameIdempotent(name: string, target: TargetFormat)
    requires Qualifies(name)
    ensures DestName(DestName(name, target), target) == DestName(name, target)
  {
    DestNameSplits(name, target);
  }

  /** Writing next to the source, a file that already has the target
      extension is its own destination (see `Destination`); since it exists,
      it is skipped as existing, never as same-format, unless overwrite is on. */
  lemma InPlaceSameExtension(item: FilePath, cfg: Config, env: ItemEnv)
    requires cfg.output == SameAsSource
    requires Extension(item.name) == "." + FormatName(cfg.target)
    ensures !cfg.overwrite && !env.makedirsFails && item in env.existing ==>
      Decide(item, cfg, env).outcome == SkippedExists
  {
  }

  /** `a.png` and `a.bmp` have the same stem `a`. */
  lemma StemOfExamples()
    ensures Stem("a.png") == "a" && Stem("a.bmp") == "a"
  {
    var png, bmp := "a.png", "a.bmp";
    LastDotAt(png, 1);
    LastDotAt(bmp, 1);
    assert png[..1] == "a" && bmp[..1] == "a";
    assert "a"[0] != '.';
  }

  /** Two sources that differ only in extension share one destination: in
      one folder, `a.png` and `a.bmp` both go to `a` plus the target extension. */
  lemma SharedDestination(dir: Dir, cfg: Config)
    ensures FilePath(dir, "a.png") != FilePath(dir, "a.bmp")
    ensures Destination(FilePath(dir, "a.png"), cfg) == Destination(FilePath(dir, "a.bmp"), cfg)
  {
    StemOfExamples();
    assert "a.png"[2] != "a.bmp"[2];
  }

  /** Once an item has been converted, a rerun without overwrite finds its
      destination on disk and skips it, whatever the image now looks like. */
  lemma RerunSkipsConverted(item: FilePath, cfg: Config, first: ItemEnv, second: ItemEnv)
    requires !cfg.overwrite && Decide(item, cfg, first).outcome.Converted?
    requires !second.makedirsFails && Decide(item, cfg, first).dest in second.existing
    ensures Decide(item, cfg, second).outcome == SkippedExists
  {
  }

  /** The same-format test compares format names literally: a source the
      library reports as JPEG is re-encoded for the `jpg` target, not skipped. */
  lemma JpegSourceNotSameFormat(item: FilePath, cfg: Config, env: ItemEnv)
    requires cfg.target == Jpg && env.probe.Opened? && Lower(env.probe.format) == "jpeg"
    ensures Decide(item, cfg, env).outcome != SkippedSameFormat
  {
  }
}
