/** The standalone command: its command-line options, the check that the
    required ones are there, and the decisions `run` takes before and after
    rendering. */
module RegionRendererCommand {
  import opened Common
  import RenderSettings

  //// The command ////

  /** BoundingRect: INFINITE, or the region rectangle given to -region-limit-rect. */
  datatype LimitRect = Infinite | Bounded(minX: int, minY: int, maxX: int, maxY: int)

  /** The fields of a RegionRendererCommand. Files are their paths; Java's
      null is None, and a `Boolean` that may be null is an Option<bool>. */
  datatype Command = Command(
    outputDir: Option<string>,
    forceReRender: bool,
    debug: bool,
    printHelpAndExit: bool,
    colorMapFile: Option<string>,
    biomeMapFile: Option<string>,
    regionFiles: seq<string>,
    createTileHtml: Option<bool>,
    createImageTree: Option<bool>,
    createBigImage: bool,
    regionLimitRect: LimitRect,
    minHeight: int,
    maxHeight: int,
    shadingReferenceAltitude: int,
    minAltitudeShading: int,
    maxAltitudeShading: int,
    altitudeShadingFactor: int,
    mapScales: seq<int>,
    mapTitle: string,
    errorMessage: Option<string>)

  /** The field initialisers of a new command. */
  function Initial(): (m: Command)
    ensures m.outputDir.None? && m.regionFiles == [] && m.errorMessage.None?
    ensures !m.forceReRender && !m.debug && !m.printHelpAndExit && !m.createBigImage
    ensures m.createTileHtml.None? && m.createImageTree.None? && m.regionLimitRect.Infinite?
    ensures m.minHeight == INT_MIN && m.maxHeight == INT_MAX
    ensures m.shadingReferenceAltitude == 64 && m.altitudeShadingFactor == 36
    ensures m.minAltitudeShading == -20 && m.maxAltitudeShading == 20
    ensures m.mapScales == [1] && m.mapTitle == "Regions"
  {
    Command(None, false, false, false, None, None, [], None, None, false, Infinite,
            INT_MIN, INT_MAX, 64, -20, 20, 36, [1], "Regions", None)
  }

  /** The Java exceptions fromArguments lets escape: charAt(0) of an empty
      argument, an option value read past the end of the arguments, and
      Integer.parseInt of text that is not a number. */
  datatype Failure = EmptyArgument(index: nat) | MissingValue(index: nat) | NotANumber(text: string)

  //// Options, as a table ////

  datatype Flag =
    | Output | Force | Debug | MinHeight | MaxHeight | TileHtml | ImageTree | LimitRect
    | BigImage | ColorMap | BiomeMap | AltitudeShadingFactor | ShadingReferenceAltitude
    | MinAltitudeShading | MaxAltitudeShading | Help | Title | Scales

  /** The option an argument names, if any. */
  function OptionNamed(a: string): Option<Flag> {
    if a == "-o" then Some(Output)
    else if a == "-f" then Some(Force)
    else if a == "-debug" then Some(Debug)
    else if a == "-min-height" then Some(MinHeight)
    else if a == "-max-height" then Some(MaxHeight)
    else if a == "-create-tile-html" then Some(TileHtml)
    else if a == "-create-image-tree" then Some(ImageTree)
    else if a == "-region-limit-rect" then Some(LimitRect)
    else if a == "-create-big-image" then Some(BigImage)
    else if a == "-color-map" then Some(ColorMap)
    else if a == "-biome-map" then Some(BiomeMap)
    else if a == "-altitude-shading-factor" then Some(AltitudeShadingFactor)
    else if a == "-shading-reference-altitude" then Some(ShadingReferenceAltitude)
    else if a == "-min-altitude-shading" then Some(MinAltitudeShading)
    else if a == "-max-altitude-shading" then Some(MaxAltitudeShading)
    else if a == "-h" || a == "-?" || a == "--help" || a == "-help" then Some(Help)
    else if a == "-title" then Some(Title)
    else if a == "-scales" then Some(Scales)
    else None
  }

  /** What follows an option on the command line. */
  datatype Kind = NoValue | Text | Number | FourNumbers | ScaleList

  function KindOf(f: Flag): Kind {
    match f
    case Force | Debug | TileHtml | ImageTree | BigImage | Help => NoValue
    case Output | ColorMap | BiomeMap | Title => Text
    case MinHeight | MaxHeight | AltitudeShadingFactor | ShadingReferenceAltitude
      | MinAltitudeShading | MaxAltitudeShading => Number
    case LimitRect => FourNumbers
    case Scales => ScaleList
  }

  /** The effect of an option without a value. */
  function SetFlag(m: Command, f: Flag): Command {
    match f
    case Force => m.(forceReRender := true)
    case Debug => m.(debug := true)
    case TileHtml => m.(createTileHtml := Some(true))
    case ImageTree => m.(createImageTree := Some(true))
    case BigImage => m.(createBigImage := true)
    case Help => m.(printHelpAndExit := true)
    case _ => m
  }

  /** The effect of an option whose value is text. */
  function SetText(m: Command, f: Flag, t: string): Command {
    match f
    case Output => m.(outputDir := Some(t))
    case ColorMap => m.(colorMapFile := Some(t))
    case BiomeMap => m.(biomeMapFile := Some(t))
    case Title => m.(mapTitle := t)
    case _ => m
  }

  /** The effect of an option whose value is a number. */
  function SetNumber(m: Command, f: Flag, n: int): Command {
    match f
    case MinHeight => m.(minHeight := n)
    case MaxHeight => m.(maxHeight := n)
    case AltitudeShadingFactor => m.(altitudeShadingFactor := n)
    case ShadingReferenceAltitude => m.(shadingReferenceAltitude := n)
    case MinAltitudeShading => m.(minAltitudeShading := n)
    case MaxAltitudeShading => m.(maxAltitudeShading := n)
    case _ => m
  }

  //// Numbers and scales ////

  /** Integer.parseInt of the argument at `k`, which must exist. */
  function IntArg(args: seq<string>, k: nat): (r: Result<int, Failure>)
    ensures r.Ok? ==> k < |args| && IsInt32(r.value)
    ensures r.Err? && k >= |args| ==> r.error == MissingValue(k)
  {
    if k >= |args| then Err(MissingValue(k))
    else match ParseInt(args[k])
      case None => Err(NotANumber(args[k]))
      case Some(v) => Ok(v)
  }

  /** `count` numbers read one after another from `from` on; the first
      argument that is missing or not a number is the failure. */
  function IntArgs(args: seq<string>, from: nat, count: nat): (r: Result<seq<int>, Failure>)
    ensures r.Ok? ==> |r.value| == count && (count >= 1 ==> from + count <= |args|)
    ensures r.Ok? ==> forall j :: 0 <= j < count ==> IsInt32(r.value[j])
    decreases count
  {
    if count == 0 then Ok([])
    else match IntArg(args, from)
      case Err(e) => Err(e)
      case Ok(v) =>
        match IntArgs(args, from + 1, count - 1)
        case Err(e) => Err(e)
        case Ok(vs) => Ok([v] + vs)
  }

  /** String.split(",") as Java does it: the pieces between separators,
      with trailing empty pieces dropped; text without a separator is the
      single piece it is. */
  function JavaSplit(s: string, sep: char): (ps: seq<string>)
    ensures sep !in s ==> ps == [s]
    ensures sep in s ==> |ps| <= |SplitAll(s, sep)| && ps == SplitAll(s, sep)[..|ps|]
    ensures sep in s ==> ps == [] || ps[|ps| - 1] != ""
    ensures sep in s ==> forall k :: |ps| <= k < |SplitAll(s, sep)| ==> SplitAll(s, sep)[k] == ""
  {
    if sep !in s then [s] else DropTrailingEmpty(SplitAll(s, sep))
  }

  /** Every piece between separators, empty ones included. */
  function SplitAll(s: string, sep: char): (ps: seq<string>)
    ensures |ps| >= 1
    ensures forall j :: 0 <= j < |ps| ==> sep !in ps[j]
    ensures Join(ps, sep) == s
    ensures sep !in s ==> ps == [s]
    decreases |s|
  {
    if s == [] then [""]
    else if s[0] == sep then
      var ps := [""] + SplitAll(s[1..], sep);
      assert ps[1..] == SplitAll(s[1..], sep);
      assert s == [sep] + s[1..];
      ps
    else
      var rest := SplitAll(s[1..], sep);
      var ps := [[s[0]] + rest[0]] + rest[1..];
      assert s == [s[0]] + s[1..];
      assert |rest| > 1 ==> ps[1..] == rest[1..] && Join(rest, sep) == rest[0] + [sep] + Join(rest[1..], sep);
      ps
  }

  function DropTrailingEmpty(ps: seq<string>): (r: seq<string>)
    ensures |r| <= |ps| && r == ps[..|r|]
    ensures r != [] ==> r[|r| - 1] != ""
    ensures forall k :: |r| <= k < |ps| ==> ps[k] == ""
  {
    if ps != [] && ps[|ps| - 1] == "" then DropTrailingEmpty(ps[..|ps| - 1]) else ps
  }

  /** The pieces joined with `sep` between them. */
  function Join(ps: seq<string>, sep: char): string
    requires |ps| >= 1
  {
    if |ps| == 1 then ps[0] else ps[0] + [sep] + Join(ps[1..], sep)
  }

  /** How the pieces of a -scales value read. */
  datatype ScaleParse = ScaleValues(values: seq<int>) | InvalidScale(piece: string) | ScaleNotANumber(text: string)

  /** One piece: "1" is the scale 1, "1:n" the scale n, anything else invalid. */
  function ScaleOf(piece: string): (r: ScaleParse)
    ensures r.ScaleValues? ==> |r.values| == 1
  {
    if piece == "1" then ScaleValues([1])
    else if |piece| >= 2 && piece[..2] == "1:" then
      match ParseInt(piece[2..])
      case None => ScaleNotANumber(piece[2..])
      case Some(n) => ScaleValues([n])
    else InvalidScale(piece)
  }

  /** The pieces read left to right; the first one that is invalid or not a
      number stops the reading. */
  function ParseScales(ps: seq<string>): (r: ScaleParse)
    ensures r.ScaleValues? <==> forall j :: 0 <= j < |ps| ==> ScaleOf(ps[j]).ScaleValues?
    ensures r.ScaleValues? ==> |r.values| == |ps|
    ensures r.ScaleValues? ==> forall j :: 0 <= j < |ps| ==> ScaleOf(ps[j]) == ScaleValues([r.values[j]])
    ensures !r.ScaleValues? ==>
      exists j :: 0 <= j < |ps| && ScaleOf(ps[j]) == r && forall i :: 0 <= i < j ==> ScaleOf(ps[i]).ScaleValues?
  {
    if ps == [] then ScaleValues([])
    else match ScaleOf(ps[0])
      case ScaleValues(v) =>
        var rest := ParseScales(ps[1..]);
        assert forall j :: 1 <= j < |ps| ==> ps[j] == ps[1..][j - 1];
        if !rest.ScaleValues? then
          var j :| 0 <= j < |ps[1..]| && ScaleOf(ps[1..][j]) == rest &&
            forall i :: 0 <= i < j ==> ScaleOf(ps[1..][i]).ScaleValues?;
          assert ScaleOf(ps[j + 1]) == rest;
          Prepend(v, rest)
        else
          Prepend(v, rest)
      case other => other
  }

  function Prepend(vs: seq<int>, r: ScaleParse): (r': ScaleParse)
    ensures r'.ScaleValues? <==> r.ScaleValues?
    ensures r.ScaleValues? ==> r'.values == vs + r.values
  {
    match r
    case ScaleValues(ws) => ScaleValues(vs + ws)
    case other => other
  }

  function InvalidScaleMessage(piece: string): string {
    "Invalid scale: '" + piece + "'; must be of the form '1:n'"
  }

  function UnrecognisedMessage(arg: string): string {
    "Unrecognised argument: " + arg
  }

  //// Parsing ////

  /** What one argument does: go on at `next` with the command updated,
      stop parsing with an error message set, or throw. */
  datatype StepResult = Next(cmd: Command, next: nat) | Stop(cmd: Command) | Fail(failure: Failure)

  /** The argument at `i` and the values it consumes. */
  function Step(args: seq<string>, i: nat, m: Command): (s: StepResult)
    requires i < |args|
    ensures s.Next? ==> i < s.next <= |args|
    ensures s.Stop? ==> s.cmd.errorMessage.Some?
  {
    var a := args[i];
    if a == [] then Fail(EmptyArgument(i))
    else if a[0] != '-' then Next(m.(regionFiles := m.regionFiles + [a]), i + 1)
    else match OptionNamed(a)
      case None => Stop(m.(errorMessage := Some(UnrecognisedMessage(a))))
      case Some(f) =>
        match KindOf(f)
        case NoValue => Next(SetFlag(m, f), i + 1)
        case Text =>
          if i + 1 < |args| then Next(SetText(m, f, args[i + 1]), i + 2) else Fail(MissingValue(i + 1))
        case Number =>
          (match IntArg(args, i + 1)
           case Err(e) => Fail(e)
           case Ok(n) => Next(SetNumber(m, f, n), i + 2))
        case FourNumbers =>
          (match IntArgs(args, i + 1, 4)
           case Err(e) => Fail(e)
           case Ok(vs) => Next(m.(regionLimitRect := Bounded(vs[0], vs[1], vs[2], vs[3])), i + 5))
        case ScaleList =>
          if i + 1 >= |args| then Fail(MissingValue(i + 1))
          else match ParseScales(JavaSplit(args[i + 1], ','))
            case ScaleValues(vs) => Next(m.(mapScales := vs), i + 2)
            case InvalidScale(p) => Stop(m.(errorMessage := Some(InvalidScaleMessage(p))))
            case ScaleNotANumber(t) => Fail(NotANumber(t))
  }

  /** validateSettings: the region files are checked before the output directory. */
  function Validate(m: Command): (e: Option<string>)
    ensures e.None? <==> |m.regionFiles| >= 1 && m.outputDir.Some?
    ensures e == Some("No regions or directories specified.") <==> m.regionFiles == []
  {
    if |m.regionFiles| == 0 then Some("No regions or directories specified.")
    else if m.outputDir.None? then Some("Output directory unspecified.")
    else None
  }

  /** The arguments from `i` on, applied to `m`; at the end the command is
      validated. */
  function ParseFrom(args: seq<string>, i: nat, m: Command): Result<Command, Failure>
    requires i <= |args|
    decreases |args| - i
  {
    if i == |args| then Ok(m.(errorMessage := Validate(m)))
    else match Step(args, i, m)
      case Next(m', j) => ParseFrom(args, j, m')
      case Stop(m') => Ok(m')
      case Fail(f) => Err(f)
  }

  /** What fromArguments returns or throws for `args`. */
  function Parse(args: seq<string>): Result<Command, Failure> {
    ParseFrom(args, 0, Initial())
  }

  /** Reading from piece `j` on: piece `j`, then the rest. */
  lemma ParseScalesAt(ps: seq<string>, j: nat)
    requires j < |ps|
    ensures ParseScales(ps[j..]) ==
      match ScaleOf(ps[j])
      case ScaleValues(v) => Prepend(v, ParseScales(ps[j + 1..]))
      case other => other
  {
    assert ps[j..][0] == ps[j] && ps[j..][1..] == ps[j + 1..];
  }

  lemma PrependPrepend(vs: seq<int>, ws: seq<int>, r: ScaleParse)
    ensures Prepend(vs, Prepend(ws, r)) == Prepend(vs + ws, r)
  {
    if r.ScaleValues? {
      assert vs + (ws + r.values) == (vs + ws) + r.values;
    }
  }

  /** The -scales loop: each piece read in turn into the scale list. */
  method ReadScales(pieces: seq<string>) returns (r: ScaleParse)
    ensures r == ParseScales(pieces)
  {
    var vs: seq<int> := [];
    var j := 0;
    assert pieces[0..] == pieces;
    while j < |pieces|
      invariant 0 <= j <= |pieces|
      invariant ParseScales(pieces) == Prepend(vs, ParseScales(pieces[j..]))
    {
      var piece := pieces[j];
      ParseScalesAt(pieces, j);
      if piece == "1" {
        PrependPrepend(vs, [1], ParseScales(pieces[j + 1..]));
        vs := vs + [1];
      } else if |piece| >= 2 && piece[..2] == "1:" {
        var n := ParseInt(piece[2..]);
        if n.None? {
          return ScaleNotANumber(piece[2..]);
        }
        PrependPrepend(vs, [n.value], ParseScales(pieces[j + 1..]));
        vs := vs + [n.value];
      } else {
        return InvalidScale(piece);
      }
      j := j + 1;
    }
    r := ScaleValues(vs);
  }

  /** One turn of fromArguments' loop: the chain of option tests. */
  method ApplyArgument(args: seq<string>, i: nat, m: Command) returns (s: StepResult)
    requires i < |args|
    ensures s == Step(args, i, m)
  {
    var a := args[i];
    if a == [] {
      return Fail(EmptyArgument(i));
    }
    if a[0] != '-' {
      return Next(m.(regionFiles := m.regionFiles + [a]), i + 1);
    }
    var f := OptionNamed(a);
    if f.None? {
      return Stop(m.(errorMessage := Some(UnrecognisedMessage(a))));
    }
    var kind := KindOf(f.value);
    if kind == NoValue {
      s := Next(SetFlag(m, f.value), i + 1);
    } else if kind == Text {
      if i + 1 >= |args| {
        return Fail(MissingValue(i + 1));
      }
      s := Next(SetText(m, f.value, args[i + 1]), i + 2);
    } else if kind == Number {
      var n := IntArg(args, i + 1);
      if n.Err? {
        return Fail(n.error);
      }
      s := Next(SetNumber(m, f.value, n.value), i + 2);
    } else if kind == FourNumbers {
      var corners := IntArgs(args, i + 1, 4);
      if corners.Err? {
        return Fail(corners.error);
      }
      var vs := corners.value;
      s := Next(m.(regionLimitRect := Bounded(vs[0], vs[1], vs[2], vs[3])), i + 5);
    } else {
      if i + 1 >= |args| {
        return Fail(MissingValue(i + 1));
      }
      var scales := ReadScales(JavaSplit(args[i + 1], ','));
      if scales.InvalidScale? {
        return Stop(m.(errorMessage := Some(InvalidScaleMessage(scales.piece))));
      } else if scales.ScaleNotANumber? {
        return Fail(NotANumber(scales.text));
      }
      s := Next(m.(mapScales := scales.values), i + 2);
    }
  }

  /** fromArguments: the arguments in order, each one applied to a new
      command; an unknown option or an invalid scale stops with its error
      message and no validation, otherwise the command is validated. */
  method FromArguments(args: seq<string>) returns (r: Result<Command, Failure>)
    ensures r == Parse(args)
  {
    var m := Initial();
    var i := 0;
    while i < |args|
      invariant 0 <= i <= |args|
      invariant ParseFrom(args, i, m) == Parse(args)
      decreases |args| - i
    {
      var s := ApplyArgument(args, i, m);
      match s
      case Next(m', j) =>
        m, i := m', j;
      case Stop(m') =>
        return Ok(m');
      case Fail(f) =>
        return Err(f);
    }
    m := m.(errorMessage := Validate(m));
    r := Ok(m);
  }

  //// Properties of parsing ////

  /** A parse without an error message has region files and an output
      directory: every path that skips validation sets a message. */
  lemma {:induction false} ParsedIsValid(args: seq<string>, i: nat, m: Command)
    requires i <= |args|
    requires ParseFrom(args, i, m).Ok? && ParseFrom(args, i, m).value.errorMessage.None?
    ensures |ParseFrom(args, i, m).value.regionFiles| >= 1 && ParseFrom(args, i, m).value.outputDir.Some?
    decreases |args| - i
  {
    if i < |args| {
      var s := Step(args, i, m);
      if s.Next? {
        ParsedIsValid(args, s.next, s.cmd);
      }
    }
  }

  predicate Positional(a: string) {
    a != [] && a[0] != '-'
  }

  /** Positional arguments are appended to the region files in order;
      with -o and its directory after them the command is valid. */
  lemma {:induction false} FilesThenOutput(files: seq<string>, dir: string, i: nat, m: Command)
    requires forall k :: 0 <= k < |files| ==> Positional(files[k])
    requires i <= |files|
    ensures ParseFrom(files + ["-o", dir], i, m) ==
      Ok(m.(regionFiles := m.regionFiles + files[i..], outputDir := Some(dir),
            errorMessage := Validate(m.(regionFiles := m.regionFiles + files[i..], outputDir := Some(dir)))))
    decreases |files| - i
  {
    var args := files + ["-o", dir];
    if i < |files| {
      assert args[i] == files[i];
      var m' := m.(regionFiles := m.regionFiles + [files[i]]);
      assert Step(args, i, m) == Next(m', i + 1);
      FilesThenOutput(files, dir, i + 1, m');
      assert m'.regionFiles + files[i + 1..] == m.regionFiles + files[i..];
    } else {
      assert args[i] == "-o" && args[i + 1] == dir;
      assert OptionNamed("-o") == Some(Output);
      assert Step(args, i, m) == Next(m.(outputDir := Some(dir)), i + 2);
      assert files[i..] == [] && m.regionFiles + files[i..] == m.regionFiles;
    }
  }

  /** `files -o dir` parses to exactly those files and that directory, and
      passes validation when there is at least one file. */
  lemma FilesThenOutputValid(files: seq<string>, dir: string)
    requires |files| >= 1 && forall k :: 0 <= k < |files| ==> Positional(files[k])
    ensures Parse(files + ["-o", dir]) ==
      Ok(Initial().(regionFiles := files, outputDir := Some(dir)))
  {
    FilesThenOutput(files, dir, 0, Initial());
    assert Initial().regionFiles + files[0..] == files;
  }

  /** An argument starting with '-' that names no option stops the parse
      with its message, and validation does not run. */
  lemma UnrecognisedStops(args: seq<string>, i: nat, m: Command)
    requires i < |args| && args[i] != [] && args[i][0] == '-' && OptionNamed(args[i]).None?
    ensures ParseFrom(args, i, m) == Ok(m.(errorMessage := Some("Unrecognised argument: " + args[i])))
  {
  }

  /** A scale list written as "1:n,1:m,..." reads back as the same scales. */
  function ScaleText(n: int): string {
    "1:" + IntToString(n)
  }

  function ScaleTexts(ns: seq<int>): (ps: seq<string>)
    ensures |ps| == |ns|
    ensures forall j :: 0 <= j < |ns| ==> ps[j] == ScaleText(ns[j])
  {
    if ns == [] then [] else [ScaleText(ns[0])] + ScaleTexts(ns[1..])
  }

  lemma ScaleTextNoComma(n: int)
    ensures ',' !in ScaleText(n) && ScaleText(n) != ""
  {
    var d := NatToString(if n < 0 then -n else n);
    assert forall c :: c in d ==> IsDigit(c);
    assert ScaleText(n) == "1:" + (if n < 0 then "-" + d else d);
  }

  /** Splitting joined pieces that hold no separator gives the pieces back. */
  lemma {:induction false} SplitAllJoin(ps: seq<string>, sep: char)
    requires |ps| >= 1 && forall j :: 0 <= j < |ps| ==> sep !in ps[j]
    ensures SplitAll(Join(ps, sep), sep) == ps
    decreases |ps|, |ps[0]|
  {
    if |ps| == 1 {
      SplitAllPiece(ps[0], sep);
    } else {
      var rest := ps[1..];
      SplitAllJoin(rest, sep);
      SplitAllPrefix(ps[0], sep, Join(rest, sep));
      assert [ps[0]] + rest == ps;
    }
  }

  /** A piece without separator splits to itself. */
  lemma {:induction false} SplitAllPiece(p: string, sep: char)
    requires sep !in p
    ensures SplitAll(p, sep) == [p]
    decreases |p|
  {
    if p != [] {
      SplitAllPiece(p[1..], sep);
      assert [p[0]] + p[1..] == p;
    }
  }

  /** A piece without separator in front of a separator starts the split. */
  lemma {:induction false} SplitAllPrefix(p: string, sep: char, t: string)
    requires sep !in p
    ensures SplitAll(p + [sep] + t, sep) == [p] + SplitAll(t, sep)
    decreases |p|
  {
    var s := p + [sep] + t;
    if p == [] {
      assert s[0] == sep && s[1..] == t;
    } else {
      assert s[0] == p[0] && s[1..] == p[1..] + [sep] + t;
      SplitAllPrefix(p[1..], sep, t);
      assert [p[0]] + p[1..] == p;
    }
  }

  /** The piece "1:n" reads as the scale n. */
  lemma ScaleOfText(n: int)
    requires IsInt32(n)
    ensures ScaleOf(ScaleText(n)) == ScaleValues([n])
  {
    var t := ScaleText(n);
    ParseIntOfToString(n);
    assert t[..2] == "1:" && t[2..] == IntToString(n);
  }

  /** Reading scale pieces "1:n" gives the numbers n. */
  lemma {:induction false} ParseScaleTexts(ns: seq<int>)
    requires forall j :: 0 <= j < |ns| ==> IsInt32(ns[j])
    ensures ParseScales(ScaleTexts(ns)) == ScaleValues(ns)
    decreases |ns|
  {
    if ns != [] {
      var ps := ScaleTexts(ns);
      ScaleOfText(ns[0]);
      ParseScaleTexts(ns[1..]);
      assert ps[1..] == ScaleTexts(ns[1..]);
      assert ParseScales(ps) == Prepend([ns[0]], ParseScales(ps[1..]));
      assert [ns[0]] + ns[1..] == ns;
    }
  }

  /** A non-empty list of scales written out for -scales reads back as that
      list. */
  lemma ScalesRoundTrip(ns: seq<int>)
    requires |ns| >= 1 && forall j :: 0 <= j < |ns| ==> IsInt32(ns[j])
    ensures ParseScales(JavaSplit(Join(ScaleTexts(ns), ','), ',')) == ScaleValues(ns)
  {
    var ps := ScaleTexts(ns);
    forall j | 0 <= j < |ps|
      ensures ',' !in ps[j] && ps[j] != ""
    {
      ScaleTextNoComma(ns[j]);
    }
    SplitAllJoin(ps, ',');
    var s := Join(ps, ',');
    if ',' in s {
      assert DropTrailingEmpty(ps) == ps;
    } else {
      SplitAllPiece(s, ',');
    }
    ParseScaleTexts(ns);
  }

  //// Running ////

  /** getDefault: the explicit value when there is one. */
  function GetDefault(b: Option<bool>, defaultValue: bool): (r: bool)
    ensures b.Some? ==> r == b.value
    ensures b.None? ==> r == defaultValue
  {
    if b.Some? then b.value else defaultValue
  }

  /** shouldCreateTileHtml: the explicit flag, else whether the only input
      is a directory. `isDirectory` is the file system's answer. */
  function ShouldCreateTileHtml(m: Command, isDirectory: string -> bool): (r: bool)
    ensures r <==> (m.createTileHtml == Some(true) ||
      (m.createTileHtml.None? && |m.regionFiles| == 1 && isDirectory(m.regionFiles[0])))
  {
    GetDefault(m.createTileHtml, |m.regionFiles| == 1 && isDirectory(m.regionFiles[0]))
  }

  /** shouldCreateImageTree: only when asked for. */
  function ShouldCreateImageTree(m: Command): (r: bool)
    ensures r <==> m.createImageTree == Some(true)
  {
    GetDefault(m.createImageTree, false)
  }

  /** The render settings run builds from the command's fields. */
  function SettingsOf(m: Command): (s: RenderSettings.Settings)
    ensures s.colorMapFile == m.colorMapFile && s.biomeMapFile == m.biomeMapFile && s.debug == m.debug
    ensures s.minHeight == m.minHeight && s.maxHeight == m.maxHeight
    ensures s.shadingReferenceAltitude == m.shadingReferenceAltitude
    ensures s.minAltitudeShading == m.minAltitudeShading && s.maxAltitudeShading == m.maxAltitudeShading
    ensures s.altitudeShadingFactor == m.altitudeShadingFactor
    ensures s.mapTitle == m.mapTitle && s.mapScales == m.mapScales
  {
    RenderSettings.New(m.colorMapFile, m.biomeMapFile, m.debug, m.minHeight, m.maxHeight,
      m.shadingReferenceAltitude, m.minAltitudeShading, m.maxAltitudeShading, m.altitudeShadingFactor,
      m.mapTitle, m.mapScales)
  }

  /** The command's defaults are the render settings' defaults. */
  lemma DefaultsAgree()
    ensures SettingsOf(Initial()) == RenderSettings.Default()
  {
  }

  /** What run does: report the error with the usage text, print the usage,
      or render the regions and then write what was asked for. */
  datatype RunPlan =
    | ReportError(message: string)
    | PrintUsage
    | Render(settings: RenderSettings.Settings, regionFiles: seq<string>, limit: LimitRect,
             outputDir: Option<string>, force: bool, tileHtml: bool, imageTree: bool, bigImage: bool)

  /** The value run returns. */
  function ExitCode(p: RunPlan): (code: int)
    ensures code == 1 <==> p.ReportError?
    ensures code == 0 <==> !p.ReportError?
  {
    if p.ReportError? then 1 else 0
  }

  /** run: the error message comes first, then the help flag; otherwise the
      regions are rendered with the command's settings. */
  function Run(m: Command, isDirectory: string -> bool): (p: RunPlan)
    ensures p.ReportError? <==> m.errorMessage.Some?
    ensures p.ReportError? ==> p.message == m.errorMessage.value
    ensures p.PrintUsage? <==> m.errorMessage.None? && m.printHelpAndExit
    ensures p.Render? ==> p.settings == SettingsOf(m) && p.regionFiles == m.regionFiles
    ensures p.Render? ==> p.limit == m.regionLimitRect && p.outputDir == m.outputDir && p.force == m.forceReRender
    ensures p.Render? ==> p.tileHtml == ShouldCreateTileHtml(m, isDirectory)
    ensures p.Render? ==> p.imageTree == ShouldCreateImageTree(m) && p.bigImage == m.createBigImage
  {
    if m.errorMessage.Some? then ReportError(m.errorMessage.value)
    else if m.printHelpAndExit then PrintUsage
    else
      Render(SettingsOf(m), m.regionFiles, m.regionLimitRect, m.outputDir, m.forceReRender,
             ShouldCreateTileHtml(m, isDirectory), ShouldCreateImageTree(m), m.createBigImage)
  }

  /** Whatever the arguments, a parse that reaches run without an error
      renders with region files and an output directory. */
  lemma RunRendersValid(args: seq<string>, isDirectory: string -> bool)
    requires Parse(args).Ok? && !Parse(args).value.printHelpAndExit
    ensures Run(Parse(args).value, isDirectory).Render? ==>
      |Parse(args).value.regionFiles| >= 1 && Run(Parse(args).value, isDirectory).outputDir.Some?
  {
    if Parse(args).value.errorMessage.None? {
      ParsedIsValid(args, 0, Initial());
    }
  }

  /** "-h" on its own exits with 1: validation has set an error, and the
      error is reported before the help flag is looked at. */
  lemma HelpAloneFails(isDirectory: string -> bool)
    ensures Parse(["-h"]).Ok?
    ensures Parse(["-h"]).value.printHelpAndExit
    ensures Parse(["-h"]).value.errorMessage == Some("No regions or directories specified.")
    ensures ExitCode(Run(Parse(["-h"]).value, isDirectory)) == 1
  {
    var args := ["-h"];
    assert OptionNamed(args[0]) == Some(Help);
    assert Step(args, 0, Initial()) == Next(Initial().(printHelpAndExit := true), 1);
  }
}
