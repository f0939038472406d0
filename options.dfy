/**
  The command-line options of the renderer: the `prog_opts` record, its
  defaults (`default_options`) and the `getopt` loop of `parse_options`,
  which overwrites fields option by option and ends in one of three
  outcomes: configured, exit status 0 (after -h) or exit status 1 (a
  malformed argument, or no -s).

  `getopt` is not modelled: the command line arrives as the sequence of
  options it would return, in order. For -c the `%f` conversions are not
  modelled either: the option carries the floats `sscanf` matched.
 */
module Options {
  import opened Wrappers
  import opened Scanf

  /** The value of a `struct prog_opts`. `colorsPath == None` is the NULL pointer. */
  datatype Config = Config(
    resX: int, resY: int,
    width: int, height: int,
    numIter: int,
    minX: real, minY: real, maxX: real, maxY: real,
    colorDensity: int,
    colorsPath: Option<string>)

  /** The values `default_options` writes. */
  function DefaultConfig(): (c: Config)
    ensures c.resX > 0 && c.resY > 0 && c.width > 0 && c.height > 0
    ensures c.numIter > 0 && c.colorDensity > 0
    ensures c.minX < c.maxX && c.minY < c.maxY
    ensures c.colorsPath == None
  {
    Config(32768, 18432, 16, 16, 4096 /* 1 << 12 */, -0.75, -1.0, 1.0, 1.0, 80000, None)
  }

  /** The floats `sscanf(optarg, "(%f,%f),(%f,%f)", ...)` matched, in order. */
  type CoordValues = s: seq<real> | |s| <= 4

  /** One option as `getopt(argc, argv, "c:d:g:hi:r:s:")` returns it, with its argument. */
  datatype Token =
    | CoordsOpt(coords: CoordValues)   // -c
    | DensityOpt(arg: string)          // -d
    | GridOpt(arg: string)             // -g
    | HelpOpt                          // -h
    | IterationsOpt(arg: string)       // -i
    | ResolutionOpt(arg: string)       // -r
    | ColorsOpt(arg: string)           // -s
    | Unrecognized                     // '?': an unknown option or a missing argument

  datatype Flag = C | D | G | H | I | R | S | Other

  function FlagOf(t: Token): Flag {
    match t
    case CoordsOpt(_) => C
    case DensityOpt(_) => D
    case GridOpt(_) => G
    case HelpOpt => H
    case IterationsOpt(_) => I
    case ResolutionOpt(_) => R
    case ColorsOpt(_) => S
    case Unrecognized => Other
  }

  /** Values of a group of fields. */
  datatype Fields = Reals(reals: seq<real>) | Ints(ints: seq<int>) | Path(path: Option<string>) | NoFields

  /** The fields the option with flag `f` sets. */
  function Owned(c: Config, f: Flag): Fields {
    match f
    case C => Reals([c.minX, c.minY, c.maxX, c.maxY])
    case D => Ints([c.colorDensity])
    case G => Ints([c.width, c.height])
    case I => Ints([c.numIter])
    case R => Ints([c.resX, c.resY])
    case S => Path(c.colorsPath)
    case H => NoFields
    case Other => NoFields
  }

  /**
    The option's argument does not have its required shape: `sscanf`
    stored fewer values than its format converts.
   */
  predicate IsMalformed(t: Token)
    ensures t.DensityOpt? || t.IterationsOpt? ==> (IsMalformed(t) <==> |ScanInt(t.arg).values| < 1)
    ensures t.GridOpt? || t.ResolutionOpt? ==> (IsMalformed(t) <==> |ScanIntPair(t.arg).values| < 2)
    ensures t.HelpOpt? || t.ColorsOpt? || t.Unrecognized? ==> !IsMalformed(t)
  {
    match t
    case CoordsOpt(v) => |v| < 4
    case DensityOpt(a) => ScanInt(a).ret < 1
    case GridOpt(a) => ScanIntPair(a).ret < 2
    case IterationsOpt(a) => ScanInt(a).ret < 1
    case ResolutionOpt(a) => ScanIntPair(a).ret < 2
    case _ => false
  }

  /** Processing stops at this option. */
  predicate Stops(t: Token) {
    t.HelpOpt? || IsMalformed(t)
  }

  /** The values a well-formed option stores into the fields it owns. */
  function Assigned(t: Token): Fields
    requires !IsMalformed(t)
  {
    match t
    case CoordsOpt(v) => Reals(v)
    case DensityOpt(a) => Ints(ScanInt(a).values)
    case GridOpt(a) => Ints(ScanIntPair(a).values)
    case IterationsOpt(a) => Ints(ScanInt(a).values)
    case ResolutionOpt(a) => Ints(ScanIntPair(a).values)
    case ColorsOpt(p) => Path(Some(p))
    case _ => NoFields
  }

  datatype Step = Continue(c: Config) | StopHelp | StopError

  /**
    One pass of the `switch` in `parse_options`: a well-formed option
    overwrites exactly the fields it owns and nothing else; -h stops with
    `terminate`, a malformed argument with `error`; '?' changes nothing.
   */
  function Apply(c: Config, t: Token): (r: Step)
    ensures r.StopHelp? <==> t.HelpOpt?
    ensures r.StopError? <==> IsMalformed(t)
  {
    match t
    case CoordsOpt(v) =>
      if |v| < 4 then StopError
      else Continue(c.(minX := v[0], minY := v[1], maxX := v[2], maxY := v[3]))
    case DensityOpt(a) =>
      var r := ScanInt(a);
      if r.ret < 1 then StopError else Continue(c.(colorDensity := r.values[0]))
    case GridOpt(a) =>
      var r := ScanIntPair(a);
      if r.ret < 2 then StopError else Continue(c.(width := r.values[0], height := r.values[1]))
    case HelpOpt => StopHelp
    case IterationsOpt(a) =>
      var r := ScanInt(a);
      if r.ret < 1 then StopError else Continue(c.(numIter := r.values[0]))
    case ResolutionOpt(a) =>
      var r := ScanIntPair(a);
      if r.ret < 2 then StopError else Continue(c.(resX := r.values[0], resY := r.values[1]))
    case ColorsOpt(p) => Continue(c.(colorsPath := Some(p)))
    case Unrecognized => Continue(c)
  }

  /**
    The record after one switch case has run its `sscanf`: every value the
    call matched is stored, in order, even when it matched too few.
   */
  function Stored(c: Config, t: Token): (r: Config)
    ensures forall f :: f != FlagOf(t) ==> Owned(r, f) == Owned(c, f)
  {
    match t
    case CoordsOpt(v) =>
      c.(minX := if |v| > 0 then v[0] else c.minX,
         minY := if |v| > 1 then v[1] else c.minY,
         maxX := if |v| > 2 then v[2] else c.maxX,
         maxY := if |v| > 3 then v[3] else c.maxY)
    case DensityOpt(a) =>
      var r := ScanInt(a);
      if r.ret >= 1 then c.(colorDensity := r.values[0]) else c
    case GridOpt(a) =>
      var r := ScanIntPair(a);
      c.(width := if r.ret >= 1 then r.values[0] else c.width,
         height := if r.ret >= 2 then r.values[1] else c.height)
    case HelpOpt => c
    case IterationsOpt(a) =>
      var r := ScanInt(a);
      if r.ret >= 1 then c.(numIter := r.values[0]) else c
    case ResolutionOpt(a) =>
      var r := ScanIntPair(a);
      c.(resX := if r.ret >= 1 then r.values[0] else c.resX,
         resY := if r.ret >= 2 then r.values[1] else c.resY)
    case ColorsOpt(p) => c.(colorsPath := Some(p))
    case Unrecognized => c
  }

  /**
    For an option that does not stop processing, what `sscanf` stored is
    the switch's next record; a malformed `"%dx%d"` argument that matched
    one number has written the first field only.
   */
  lemma StoredAgreesWithApply(c: Config, t: Token)
    ensures !Stops(t) ==> Apply(c, t) == Continue(Stored(c, t))
    ensures (t.GridOpt? || t.ResolutionOpt?) && ScanIntPair(t.arg).ret == 1 ==>
      IsMalformed(t) && Owned(Stored(c, t), FlagOf(t)) == Ints([ScanIntPair(t.arg).values[0], Owned(c, FlagOf(t)).ints[1]])
  {
  }

  /** A well-formed option overwrites exactly the fields it owns, and nothing else. */
  lemma ApplyOverwritesOwnFields(c: Config, t: Token)
    requires !Stops(t)
    ensures Owned(Apply(c, t).c, FlagOf(t)) == Assigned(t)
    ensures forall f :: f != FlagOf(t) ==> Owned(Apply(c, t).c, f) == Owned(c, f)
  {
    if t.DensityOpt? || t.IterationsOpt? {
      ApplyIntOption(c, t);
    } else if t.GridOpt? || t.ResolutionOpt? {
      ApplyPairOption(c, t);
    } else {
      ApplyOtherOption(c, t);
    }
  }

  lemma ApplyIntOption(c: Config, t: Token)
    requires (t.DensityOpt? || t.IterationsOpt?) && !Stops(t)
    ensures Owned(Apply(c, t).c, FlagOf(t)) == Assigned(t)
    ensures forall f :: f != FlagOf(t) ==> Owned(Apply(c, t).c, f) == Owned(c, f)
  {
    var r := ScanInt(t.arg);
    assert r.values == [r.values[0]];
  }

  lemma ApplyPairOption(c: Config, t: Token)
    requires (t.GridOpt? || t.ResolutionOpt?) && !Stops(t)
    ensures Owned(Apply(c, t).c, FlagOf(t)) == Assigned(t)
    ensures forall f :: f != FlagOf(t) ==> Owned(Apply(c, t).c, f) == Owned(c, f)
  {
    var r := ScanIntPair(t.arg);
    assert r.values == [r.values[0], r.values[1]];
  }

  lemma ApplyOtherOption(c: Config, t: Token)
    requires !(t.DensityOpt? || t.IterationsOpt? || t.GridOpt? || t.ResolutionOpt?) && !Stops(t)
    ensures Owned(Apply(c, t).c, FlagOf(t)) == Assigned(t)
    ensures forall f :: f != FlagOf(t) ==> Owned(Apply(c, t).c, f) == Owned(c, f)
  {
    if t.CoordsOpt? {
      var v := t.coords;
      assert v == [v[0], v[1], v[2], v[3]];
    }
  }

  /** How `parse_options` ends: it returns with the options set, or the process exits. */
  datatype Outcome = Configured(c: Config) | Exit(status: int)

  /**
    The whole of `parse_options`: the options in order, then the check for
    -s. Only a configuration with a palette path is ever accepted, and the
    only exit statuses are 0 and 1.
   */
  function Run(c: Config, ts: seq<Token>): (r: Outcome)
    ensures r.Configured? ==> r.c.colorsPath.Some?
    ensures r.Exit? ==> r.status == 0 || r.status == 1
    decreases |ts|
  {
    if ts == [] then
      if c.colorsPath.None? then Exit(1) else Configured(c)
    else
      match Apply(c, ts[0])
      case Continue(c') => Run(c', ts[1..])
      case StopHelp => Exit(0)
      case StopError => Exit(1)
  }

  predicate NoStops(ts: seq<Token>) {
    forall k :: 0 <= k < |ts| ==> !Stops(ts[k])
  }

  predicate HasColorsOpt(ts: seq<Token>) {
    exists k :: 0 <= k < |ts| && ts[k].ColorsOpt?
  }

  /**
    The first option that stops processing decides the outcome, whatever
    follows it: -h gives status 0, a malformed argument status 1.
   */
  lemma {:induction false} FirstStopDecides(c: Config, pre: seq<Token>, t: Token, post: seq<Token>)
    requires NoStops(pre) && Stops(t)
    ensures Run(c, pre + [t] + post) == Exit(if t.HelpOpt? then 0 else 1)
    decreases |pre|
  {
    var ts := pre + [t] + post;
    if pre == [] {
      assert ts[0] == t;
    } else {
      assert ts[0] == pre[0];
      assert !Stops(pre[0]);
      assert ts[1..] == pre[1..] + [t] + post;
      FirstStopDecides(Apply(c, pre[0]).c, pre[1..], t, post);
    }
  }

  /**
    Without an option that stops processing, the options are configured
    exactly when a palette path was already set or some -s is given;
    otherwise the status is 1.
   */
  lemma {:induction false} NoStopOutcome(c: Config, ts: seq<Token>)
    requires NoStops(ts)
    ensures Run(c, ts).Configured? <==> c.colorsPath.Some? || HasColorsOpt(ts)
    ensures !Run(c, ts).Configured? ==> Run(c, ts) == Exit(1)
    decreases |ts|
  {
    if ts != [] {
      assert !Stops(ts[0]);
      var c' := Apply(c, ts[0]).c;
      assert NoStops(ts[1..]) by {
        forall k | 0 <= k < |ts| - 1 ensures !Stops(ts[1..][k]) {
          assert ts[1..][k] == ts[k + 1];
        }
      }
      NoStopOutcome(c', ts[1..]);
      if ts[0].ColorsOpt? {
        assert HasColorsOpt(ts);
        assert Owned(c', S) == Path(Some(ts[0].arg));
      } else {
        assert Owned(c', S) == Owned(c, S);
        if HasColorsOpt(ts) {
          var k :| 0 <= k < |ts| && ts[k].ColorsOpt?;
          assert ts[1..][k - 1] == ts[k];
        }
        if HasColorsOpt(ts[1..]) {
          var k :| 0 <= k < |ts[1..]| && ts[1..][k].ColorsOpt?;
          assert ts[k + 1] == ts[1..][k];
        }
      }
    }
  }

  /** An option that does not occur leaves its fields as they were. */
  lemma {:induction false} AbsentOptionKeepsFields(c: Config, ts: seq<Token>, f: Flag)
    requires forall k :: 0 <= k < |ts| ==> FlagOf(ts[k]) != f
    requires Run(c, ts).Configured?
    ensures Owned(Run(c, ts).c, f) == Owned(c, f)
    decreases |ts|
  {
    if ts != [] {
      RunStep(c, ts);
      var c' := Apply(c, ts[0]).c;
      assert Owned(c', f) == Owned(c, f) by {
        assert FlagOf(ts[0]) != f;
        ApplyOverwritesOwnFields(c, ts[0]);
      }
      forall k | 0 <= k < |ts| - 1 ensures FlagOf(ts[1..][k]) != f {
        assert ts[1..][k] == ts[k + 1];
      }
      AbsentOptionKeepsFields(c', ts[1..], f);
    }
  }

  /** A run that ends configured went through its first option. */
  lemma RunStep(c: Config, ts: seq<Token>)
    requires ts != [] && Run(c, ts).Configured?
    ensures !Stops(ts[0]) && Apply(c, ts[0]).Continue?
    ensures Run(c, ts) == Run(Apply(c, ts[0]).c, ts[1..])
  {
  }

  /**
    When the options are configured, the fields an option owns hold the
    values of its last occurrence: a later occurrence overrides an earlier.
   */
  lemma {:induction false} LastOccurrenceWins(c: Config, pre: seq<Token>, t: Token, post: seq<Token>)
    requires forall k :: 0 <= k < |post| ==> FlagOf(post[k]) != FlagOf(t)
    requires Run(c, pre + [t] + post).Configured?
    ensures !IsMalformed(t)
    ensures Owned(Run(c, pre + [t] + post).c, FlagOf(t)) == Assigned(t)
    decreases |pre|
  {
    var ts := pre + [t] + post;
    RunStep(c, ts);
    if pre == [] {
      assert ts[0] == t && ts[1..] == post;
      var c' := Apply(c, t).c;
      ApplyOverwritesOwnFields(c, t);
      AbsentOptionKeepsFields(c', post, FlagOf(t));
    } else {
      assert ts[0] == pre[0];
      assert ts[1..] == pre[1..] + [t] + post;
      LastOccurrenceWins(Apply(c, pre[0]).c, pre[1..], t, post);
    }
  }

  /** Starting from the defaults, a run that is configured had an -s option. */
  lemma PathRequired(ts: seq<Token>)
    requires Run(DefaultConfig(), ts).Configured?
    ensures HasColorsOpt(ts)
  {
    if !HasColorsOpt(ts) {
      forall k | 0 <= k < |ts| ensures FlagOf(ts[k]) != S {
        assert !ts[k].ColorsOpt?;
      }
      AbsentOptionKeepsFields(DefaultConfig(), ts, S);
    }
  }

  /** The owned field groups together make up the whole record: options change nothing else. */
  lemma FieldsDetermineConfig(a: Config, b: Config)
    requires forall f :: Owned(a, f) == Owned(b, f)
    ensures a == b
  {
    assert Owned(a, C) == Owned(b, C);
    assert Owned(a, D) == Owned(b, D);
    assert Owned(a, G) == Owned(b, G);
    assert Owned(a, I) == Owned(b, I);
    assert Owned(a, R) == Owned(b, R);
    assert Owned(a, S) == Owned(b, S);
  }

  /** A `struct prog_opts`, updated in place by `parse_options`. */
  class ProgOpts {
    var resX: int
    var resY: int
    var width: int
    var height: int
    var numIter: int
    var minX: real
    var minY: real
    var maxX: real
    var maxY: real
    var colorDensity: int
    var colorsPath: Option<string>

    function Value(): Config
      reads this
    {
      Config(resX, resY, width, height, numIter, minX, minY, maxX, maxY, colorDensity, colorsPath)
    }

    /** A fresh record filled in by `default_options`. */
    constructor Default()
      ensures Value() == DefaultConfig()
    {
      resX, resY := 32768, 18432;
      width, height := 16, 16;
      numIter := 4096;  // 1 << 12
      minX, minY := -0.75, -1.0;
      maxX, maxY := 1.0, 1.0;
      colorDensity := 80000;
      colorsPath := None;
    }
  }

  /**
    One case of the `switch` in `parse_options`, on the record in place.
    `sscanf` stores each value it matched before it stops, so a malformed
    argument can leave some fields written; the process then exits.
   */
  method HandleOption(opts: ProgOpts, t: Token) returns (error: bool, terminate: bool)
    modifies opts
    ensures error <==> IsMalformed(t)
    ensures terminate <==> t.HelpOpt?
    ensures opts.Value() == Stored(old(opts.Value()), t)
    ensures terminate ==> opts.Value() == old(opts.Value())
    ensures !error && !terminate ==> Apply(old(opts.Value()), t) == Continue(opts.Value())
  {
    error, terminate := false, false;
    match t {
      case CoordsOpt(v) =>
        if |v| > 0 { opts.minX := v[0]; }
        if |v| > 1 { opts.minY := v[1]; }
        if |v| > 2 { opts.maxX := v[2]; }
        if |v| > 3 { opts.maxY := v[3]; }
        if |v| < 4 { error := true; }
      case DensityOpt(a) =>
        var r := ScanInt(a);
        if r.ret >= 1 { opts.colorDensity := r.values[0]; }
        if r.ret < 1 { error := true; }
      case GridOpt(a) =>
        var r := ScanIntPair(a);
        if r.ret >= 1 { opts.width := r.values[0]; }
        if r.ret >= 2 { opts.height := r.values[1]; }
        if r.ret < 2 { error := true; }
      case HelpOpt =>
        terminate := true;
      case IterationsOpt(a) =>
        var r := ScanInt(a);
        if r.ret >= 1 { opts.numIter := r.values[0]; }
        if r.ret < 1 { error := true; }
      case ResolutionOpt(a) =>
        var r := ScanIntPair(a);
        if r.ret >= 1 { opts.resX := r.values[0]; }
        if r.ret >= 2 { opts.resY := r.values[1]; }
        if r.ret < 2 { error := true; }
      case ColorsOpt(p) =>
        opts.colorsPath := Some(p);
      case Unrecognized =>
    }
  }

  /**
    `parse_options`: walks the options, overwriting the fields of `opts`,
    until the options run out or `error` or `terminate` is set; then
    requires a palette path. Returns `None` where the C function returns,
    `Some(status)` where it calls `exit(status)`.
   */
  method ParseOptions(opts: ProgOpts, args: seq<Token>) returns (exit: Option<int>)
    modifies opts
    ensures Run(old(opts.Value()), args) == if exit.None? then Configured(opts.Value()) else Exit(exit.value)
  {
    var error, terminate := false, false;
    var i := 0;
    while i < |args| && !error && !terminate
      invariant 0 <= i <= |args|
      invariant !(error && terminate)
      invariant !error && !terminate ==> Run(old(opts.Value()), args) == Run(opts.Value(), args[i..])
      invariant error ==> Run(old(opts.Value()), args) == Exit(1)
      invariant terminate ==> Run(old(opts.Value()), args) == Exit(0)
    {
      assert args[i..][0] == args[i] && args[i..][1..] == args[i + 1..];
      error, terminate := HandleOption(opts, args[i]);
      i := i + 1;
    }
    if !error && !terminate && opts.colorsPath.None? {
      error := true;
    }
    if error {
      exit := Some(1);
    } else if terminate {
      exit := Some(0);
    } else {
      exit := None;
    }
  }

  /**
    `main` as it stands: defaults, then `parse_options`, then `exit(0)`.
    The process status is 1 exactly when option processing fails.
   */
  method ProgramStatus(args: seq<Token>) returns (status: int)
    ensures status == 1 <==> Run(DefaultConfig(), args) == Exit(1)
    ensures status == 0 || status == 1
  {
    var opts := new ProgOpts.Default();
    var exit := ParseOptions(opts, args);
    status := if exit.Some? then exit.value else 0;
  }
}
