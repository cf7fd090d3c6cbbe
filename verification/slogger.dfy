/** The slogger package: the logging options, the functional options that
    set them, and Init's defaulting and choice of writer and handler. The
    replaceAttr callback is an opaque token; slog itself, lumberjack and
    the global default logger are not modelled. */
module Slogger {
  import Base

  /** An opaque stand-in for a non-nil replaceAttr callback. */
  type Token = nat

  /** slog.LevelInfo. */
  const LevelInfo: int := 0

  /** The defaults Init fills in for file output. */
  const DefaultFileMaxSize: int := 100
  const DefaultFileName: string := "app.log"
  const DefaultFileMaxBackups: int := 10
  const DefaultFileMaxAge: int := 30

  /** The logging options; `replaceAttr` is None for a nil callback. */
  datatype Options = Options(
    json: bool,
    outputToFile: bool,
    fileName: string,
    fileMaxSize: int,
    fileMaxBackups: int,
    fileMaxAge: int,
    compress: bool,
    level: int,
    addSource: bool,
    replaceAttr: Base.Option<Token>)

  /** The record Init starts from: Info level, no callback, no file output,
      every other field at its zero value. */
  function InitialOptions(): (o: Options)
    ensures o.level == LevelInfo && o.replaceAttr.None? && !o.outputToFile && !o.json
    ensures o.fileName == "" && o.fileMaxSize == 0 && o.fileMaxBackups == 0 && o.fileMaxAge == 0
    ensures !o.compress && !o.addSource
  {
    Options(false, false, "", 0, 0, 0, false, LevelInfo, false, Base.None)
  }

  /** The functional options. */
  datatype Option =
    | WithEnableJSON
    | WithOutputToFile(outputFile: bool)
    | WithFileName(fileName: string)
    | WithFileMaxSize(fileMaxSize: int)
    | WithFileMaxBackups(fileMaxBackups: int)
    | WithFileMaxAge(fileMaxAge: int)
    | WithCompress(compress: bool)
    | WithLevel(level: int)
    | WithAddSource(addSource: bool)
    | WithReplaceAttr(r: Base.Option<Token>)

  /** One option applied as written, field by field: each field changes
      only under its own option. WithReplaceAttr only replaces a callback
      that is already set: with none set it does nothing. */
  function Apply(o: Options, opt: Option): (r: Options)
    ensures o.replaceAttr.None? ==> r.replaceAttr.None?
  {
    Options(
      if opt.WithEnableJSON? then true else o.json,
      if opt.WithOutputToFile? then opt.outputFile else o.outputToFile,
      if opt.WithFileName? then opt.fileName else o.fileName,
      if opt.WithFileMaxSize? then opt.fileMaxSize else o.fileMaxSize,
      if opt.WithFileMaxBackups? then opt.fileMaxBackups else o.fileMaxBackups,
      if opt.WithFileMaxAge? then opt.fileMaxAge else o.fileMaxAge,
      if opt.WithCompress? then opt.compress else o.compress,
      if opt.WithLevel? then opt.level else o.level,
      if opt.WithAddSource? then opt.addSource else o.addSource,
      if opt.WithReplaceAttr? && o.replaceAttr.Some? then opt.r else o.replaceAttr)
  }

  /** WithReplaceAttr as its name promises: a non-nil callback is installed,
      a nil one is ignored. Every other option is applied as written. */
  function ApplyIntended(o: Options, opt: Option): (r: Options)
    ensures InstallsCallback(opt) ==> r.replaceAttr == opt.r
    ensures !opt.WithReplaceAttr? ==> r == Apply(o, opt)
    ensures opt.WithReplaceAttr? ==> r.(replaceAttr := o.replaceAttr) == o
  {
    Apply(o, opt).(replaceAttr := if InstallsCallback(opt) then opt.r else o.replaceAttr)
  }

  /** The options applied in order. */
  function ApplyAll(o: Options, opts: seq<Option>): Options
    decreases |opts|
  {
    if |opts| == 0 then o else Apply(ApplyAll(o, opts[..|opts| - 1]), opts[|opts| - 1])
  }

  /** The options applied in order with the intended WithReplaceAttr. */
  function ApplyAllIntended(o: Options, opts: seq<Option>): Options
    decreases |opts|
  {
    if |opts| == 0 then o else ApplyIntended(ApplyAllIntended(o, opts[..|opts| - 1]), opts[|opts| - 1])
  }

  // ---------------------------------------------------------------------
  // What the fold leaves in each field

  /** The last option of a kind, by a test on options. */
  function LastWhere(opts: seq<Option>, kind: Option -> bool): (r: Base.Option<nat>)
    ensures r.Some? ==> r.value < |opts| && kind(opts[r.value]) && forall j :: r.value < j < |opts| ==> !kind(opts[j])
    ensures r.None? ==> forall j :: 0 <= j < |opts| ==> !kind(opts[j])
    decreases |opts|
  {
    if |opts| == 0 then Base.None
    else if kind(opts[|opts| - 1]) then Base.Some(|opts| - 1)
    else LastWhere(opts[..|opts| - 1], kind)
  }

  /** A field that each option either sets or leaves alone (`sets` says
      which options set it and `arg` what they store) ends up with the
      value of the last option that sets it, or keeps its starting value. */
  lemma {:induction false} ApplyAllLastSetter<T>(o: Options, opts: seq<Option>, get: Options -> T,
                                                 sets: Option -> bool, arg: Option -> T)
    requires forall c: Options, x: Option :: get(Apply(c, x)) == (if sets(x) then arg(x) else get(c))
    ensures var w := LastWhere(opts, sets);
      get(ApplyAll(o, opts)) == (if w.Some? then arg(opts[w.value]) else get(o))
    decreases |opts|
  {
    if |opts| > 0 {
      ApplyAllLastSetter(o, opts[..|opts| - 1], get, sets, arg);
    }
  }

  /** The level after the options: the last WithLevel's argument, or the
      starting level. */
  lemma {:induction false} ApplyAllLevel(o: Options, opts: seq<Option>)
    ensures var w := LastWhere(opts, (x: Option) => x.WithLevel?);
      ApplyAll(o, opts).level == (if w.Some? then opts[w.value].level else o.level)
  {
    ApplyAllLastSetter(o, opts, (c: Options) => c.level, (x: Option) => x.WithLevel?,
                       (x: Option) => if x.WithLevel? then x.level else o.level);
  }

  /** The output switch after the options: the last WithOutputToFile's
      argument, or the starting value. */
  lemma {:induction false} ApplyAllOutputToFile(o: Options, opts: seq<Option>)
    ensures var w := LastWhere(opts, (x: Option) => x.WithOutputToFile?);
      ApplyAll(o, opts).outputToFile == (if w.Some? then opts[w.value].outputFile else o.outputToFile)
  {
    ApplyAllLastSetter(o, opts, (c: Options) => c.outputToFile, (x: Option) => x.WithOutputToFile?,
                       (x: Option) => if x.WithOutputToFile? then x.outputFile else o.outputToFile);
  }

  /** The file name after the options: the last WithFileName's argument,
      or the starting name. */
  lemma {:induction false} ApplyAllFileName(o: Options, opts: seq<Option>)
    ensures var w := LastWhere(opts, (x: Option) => x.WithFileName?);
      ApplyAll(o, opts).fileName == (if w.Some? then opts[w.value].fileName else o.fileName)
  {
    ApplyAllLastSetter(o, opts, (c: Options) => c.fileName, (x: Option) => x.WithFileName?,
                       (x: Option) => if x.WithFileName? then x.fileName else o.fileName);
  }

  /** The size limit after the options: the last WithFileMaxSize's
      argument, or the starting limit. */
  lemma {:induction false} ApplyAllFileMaxSize(o: Options, opts: seq<Option>)
    ensures var w := LastWhere(opts, (x: Option) => x.WithFileMaxSize?);
      ApplyAll(o, opts).fileMaxSize == (if w.Some? then opts[w.value].fileMaxSize else o.fileMaxSize)
  {
    ApplyAllLastSetter(o, opts, (c: Options) => c.fileMaxSize, (x: Option) => x.WithFileMaxSize?,
                       (x: Option) => if x.WithFileMaxSize? then x.fileMaxSize else o.fileMaxSize);
  }

  /** The backup count after the options: the last WithFileMaxBackups's
      argument, or the starting count. */
  lemma {:induction false} ApplyAllFileMaxBackups(o: Options, opts: seq<Option>)
    ensures var w := LastWhere(opts, (x: Option) => x.WithFileMaxBackups?);
      ApplyAll(o, opts).fileMaxBackups == (if w.Some? then opts[w.value].fileMaxBackups else o.fileMaxBackups)
  {
    ApplyAllLastSetter(o, opts, (c: Options) => c.fileMaxBackups, (x: Option) => x.WithFileMaxBackups?,
                       (x: Option) => if x.WithFileMaxBackups? then x.fileMaxBackups else o.fileMaxBackups);
  }

  /** The age limit after the options: the last WithFileMaxAge's argument,
      or the starting limit. */
  lemma {:induction false} ApplyAllFileMaxAge(o: Options, opts: seq<Option>)
    ensures var w := LastWhere(opts, (x: Option) => x.WithFileMaxAge?);
      ApplyAll(o, opts).fileMaxAge == (if w.Some? then opts[w.value].fileMaxAge else o.fileMaxAge)
  {
    ApplyAllLastSetter(o, opts, (c: Options) => c.fileMaxAge, (x: Option) => x.WithFileMaxAge?,
                       (x: Option) => if x.WithFileMaxAge? then x.fileMaxAge else o.fileMaxAge);
  }

  /** Compression after the options: the last WithCompress's argument, or
      the starting value. */
  lemma {:induction false} ApplyAllCompress(o: Options, opts: seq<Option>)
    ensures var w := LastWhere(opts, (x: Option) => x.WithCompress?);
      ApplyAll(o, opts).compress == (if w.Some? then opts[w.value].compress else o.compress)
  {
    ApplyAllLastSetter(o, opts, (c: Options) => c.compress, (x: Option) => x.WithCompress?,
                       (x: Option) => if x.WithCompress? then x.compress else o.compress);
  }

  /** Source positions after the options: the last WithAddSource's
      argument, or the starting value. */
  lemma {:induction false} ApplyAllAddSource(o: Options, opts: seq<Option>)
    ensures var w := LastWhere(opts, (x: Option) => x.WithAddSource?);
      ApplyAll(o, opts).addSource == (if w.Some? then opts[w.value].addSource else o.addSource)
  {
    ApplyAllLastSetter(o, opts, (c: Options) => c.addSource, (x: Option) => x.WithAddSource?,
                       (x: Option) => if x.WithAddSource? then x.addSource else o.addSource);
  }

  /** JSON output is on after the options exactly when it was on before or
      some option asks for it: no option turns it off. */
  lemma {:induction false} ApplyAllJSON(o: Options, opts: seq<Option>)
    ensures ApplyAll(o, opts).json <==> (o.json || exists j :: 0 <= j < |opts| && opts[j].WithEnableJSON?)
    decreases |opts|
  {
    if |opts| > 0 {
      var init := opts[..|opts| - 1];
      var last := opts[|opts| - 1];
      ApplyAllJSON(o, init);
      assert ApplyAll(o, opts).json == (ApplyAll(o, init).json || last.WithEnableJSON?);
      assert (exists j :: 0 <= j < |opts| && opts[j].WithEnableJSON?) <==>
        ((exists j :: 0 <= j < |init| && init[j].WithEnableJSON?) || last.WithEnableJSON?) by {
        assert forall j :: 0 <= j < |init| ==> init[j] == opts[j];
      }
    }
  }

  /** As written, WithReplaceAttr can never install a callback on a record
      that has none, so no sequence of options does either. */
  lemma {:induction false} ApplyAllKeepsNilReplaceAttr(o: Options, opts: seq<Option>)
    requires o.replaceAttr.None?
    ensures ApplyAll(o, opts).replaceAttr.None?
    decreases |opts|
  {
    if |opts| > 0 {
      ApplyAllKeepsNilReplaceAttr(o, opts[..|opts| - 1]);
    }
  }

  /** With the intended WithReplaceAttr the callback after the options is
      the last non-nil one given, or the starting one. */
  lemma {:induction false} ApplyAllIntendedReplaceAttr(o: Options, opts: seq<Option>)
    ensures var w := LastWhere(opts, InstallsCallback);
      ApplyAllIntended(o, opts).replaceAttr == (if w.Some? then opts[w.value].r else o.replaceAttr)
    decreases |opts|
  {
    if |opts| > 0 {
      var init, last := opts[..|opts| - 1], opts[|opts| - 1];
      ApplyAllIntendedReplaceAttr(o, init);
      if !InstallsCallback(last) {
        assert LastWhere(opts, InstallsCallback) == LastWhere(init, InstallsCallback);
        var w := LastWhere(init, InstallsCallback);
        assert w.Some? ==> opts[w.value] == init[w.value];
      }
    }
  }

  /** A WithReplaceAttr with a non-nil callback. */
  predicate InstallsCallback(x: Option) {
    x.WithReplaceAttr? && x.r.Some?
  }

  /** Apart from WithReplaceAttr the intended fold is the written one. */
  lemma {:induction false} ApplyAllIntendedAgrees(o: Options, opts: seq<Option>)
    requires forall j :: 0 <= j < |opts| ==> !opts[j].WithReplaceAttr?
    ensures ApplyAllIntended(o, opts) == ApplyAll(o, opts)
    decreases |opts|
  {
    if |opts| > 0 {
      ApplyAllIntendedAgrees(o, opts[..|opts| - 1]);
    }
  }

  // ---------------------------------------------------------------------
  // Init

  /** Where the log goes: standard output, or a rotating file. */
  datatype Writer =
    | Stdout
    | RotatingFile(fileName: string, maxSize: int, maxBackups: int, maxAge: int, compress: bool)

  /** The slog handler Init builds. */
  datatype HandlerKind = JSONHandler | TextHandler

  /** The logger Init installs as the default. */
  datatype Logger = Logger(writer: Writer, handler: HandlerKind, level: int, addSource: bool, replaceAttr: Base.Option<Token>)

  /** A value left at zero is replaced by its default; any other value,
      negative ones included, is kept. */
  function OrDefault(n: int, d: int): (r: int)
    ensures n != 0 ==> r == n
    ensures n == 0 ==> r == d
  {
    if n == 0 then d else n
  }

  /** Init's work after the options: file output fills in only the zero
      or empty file settings; otherwise the writer is standard output. The
      JSON switch alone picks the handler; level, source and callback pass
      through. */
  function Build(o: Options): (l: Logger)
    ensures l.level == o.level && l.addSource == o.addSource && l.replaceAttr == o.replaceAttr
    ensures l.handler == JSONHandler <==> o.json
    ensures l.writer.Stdout? <==> !o.outputToFile
    ensures o.outputToFile ==>
      (&& l.writer.fileName == (if o.fileName == "" then DefaultFileName else o.fileName)
       && l.writer.maxSize == OrDefault(o.fileMaxSize, DefaultFileMaxSize)
       && l.writer.maxBackups == OrDefault(o.fileMaxBackups, DefaultFileMaxBackups)
       && l.writer.maxAge == OrDefault(o.fileMaxAge, DefaultFileMaxAge)
       && l.writer.compress == o.compress)
  {
    var w := if o.outputToFile then
      RotatingFile(if o.fileName == "" then DefaultFileName else o.fileName,
                   OrDefault(o.fileMaxSize, DefaultFileMaxSize),
                   OrDefault(o.fileMaxBackups, DefaultFileMaxBackups),
                   OrDefault(o.fileMaxAge, DefaultFileMaxAge),
                   o.compress)
      else Stdout;
    Logger(w, if o.json then JSONHandler else TextHandler, o.level, o.addSource, o.replaceAttr)
  }

  /** Init as written. */
  function Init(opts: seq<Option>): (l: Logger)
    ensures l.replaceAttr.None?
  {
    ApplyAllKeepsNilReplaceAttr(InitialOptions(), opts);
    Build(ApplyAll(InitialOptions(), opts))
  }

  /** Init with the intended WithReplaceAttr. */
  function InitIntended(opts: seq<Option>): (l: Logger)
    ensures var w := LastWhere(opts, InstallsCallback);
      l.replaceAttr == (if w.Some? then opts[w.value].r else Base.None)
  {
    ApplyAllIntendedReplaceAttr(InitialOptions(), opts);
    Build(ApplyAllIntended(InitialOptions(), opts))
  }

  /** A rotating file never gets an empty name or a zero limit. */
  lemma InitFileSettingsSet(opts: seq<Option>)
    requires Init(opts).writer.RotatingFile?
    ensures var w := Init(opts).writer;
      w.fileName != "" && w.maxSize != 0 && w.maxBackups != 0 && w.maxAge != 0
  {
  }

  /** Without options Init logs text at Info level to standard output. */
  lemma InitWithoutOptions()
    ensures Init([]) == Logger(Stdout, TextHandler, LevelInfo, false, Base.None)
  {
  }

  /** File output with nothing else set uses every default. */
  lemma InitFileDefaults()
    ensures Init([WithOutputToFile(true)]).writer ==
      RotatingFile(DefaultFileName, DefaultFileMaxSize, DefaultFileMaxBackups, DefaultFileMaxAge, false)
  {
    var opts := [WithOutputToFile(true)];
    assert opts[..0] == [];
  }

  /** The level Init installs is the last WithLevel's, or Info. */
  lemma InitLevel(opts: seq<Option>)
    ensures var w := LastWhere(opts, (x: Option) => x.WithLevel?);
      Init(opts).level == (if w.Some? then opts[w.value].level else LevelInfo)
  {
    ApplyAllLevel(InitialOptions(), opts);
  }

  /** The written WithReplaceAttr has no effect through Init, while the
      intended one installs the callback. */
  lemma ReplaceAttrIgnored(f: Token)
    ensures Init([WithReplaceAttr(Base.Some(f))]).replaceAttr == Base.None
    ensures InitIntended([WithReplaceAttr(Base.Some(f))]).replaceAttr == Base.Some(f)
  {
    var opts := [WithReplaceAttr(Base.Some(f))];
    assert opts[..0] == [];
  }
}
