/** The biome colour table: per biome id a grass, a foliage and a water colour
    that tint the blocks they influence, with a shared default biome for ids
    the table does not list. The table is read from tab-separated lines. */
module BiomeColors {
  import opened Common

  /** An ARGB colour, as the bits of a Java `int`. */
  type Argb = bv32

  const WHITE: Argb := 0xFFFF_FFFF
  const MAGENTA: Argb := 0xFFFF_00FF

  /** Which biome colour tints a block (BlockColors.INF_*); `NoInfluence`
      stands for every code other than grass, foliage and water. */
  datatype Influence = NoInfluence | Grass | Foliage | Water

  datatype Biome = Biome(grassColor: Argb, foliageColor: Argb, waterColor: Argb, isDefault: bool)
  {
    /** The colour this biome multiplies into a block with the given
        influence; a block that no biome colour influences gets neutral white. */
    function GetMultiplier(influence: Influence): (c: Argb)
      ensures influence.Grass? ==> c == grassColor
      ensures influence.Foliage? ==> c == foliageColor
      ensures influence.Water? ==> c == waterColor
      ensures influence.NoInfluence? ==> c == WHITE
    {
      match influence
      case Grass => grassColor
      case Foliage => foliageColor
      case Water => waterColor
      case NoInfluence => WHITE
    }
  }

  /** INDEX_MASK + 1: the number of biome slots. */
  const SIZE: int := 0xFF + 1

  /** A loaded table: the slots (None for Java's null) and the default biome. */
  datatype BiomeTable = BiomeTable(biomes: seq<Option<Biome>>, defaultBiome: Biome)

  /** What `load` guarantees: 256 slots, listed biomes not marked default,
      and a default biome marked default. */
  predicate WellFormed(t: BiomeTable) {
    && |t.biomes| == SIZE
    && (forall i :: 0 <= i < |t.biomes| && t.biomes[i].Some? ==> !t.biomes[i].value.isDefault)
    && t.defaultBiome.isDefault
  }

  /** `getBiome`: the listed biome for an id inside the table, the default
      biome for any other id. */
  function GetBiome(t: BiomeTable, biomeId: int): (b: Biome)
    ensures 0 <= biomeId < |t.biomes| && t.biomes[biomeId].Some? ==> b == t.biomes[biomeId].value
    ensures !(0 <= biomeId < |t.biomes| && t.biomes[biomeId].Some?) ==> b == t.defaultBiome
  {
    if 0 <= biomeId < |t.biomes| && t.biomes[biomeId].Some? then t.biomes[biomeId].value
    else t.defaultBiome
  }

  /** In a loaded table the biome returned is marked default exactly when the
      id fell back to the default: it is outside 0..255 or its slot is empty. */
  lemma GetBiomeDefaultIff(t: BiomeTable, biomeId: int)
    requires WellFormed(t)
    ensures GetBiome(t, biomeId).isDefault <==> !(0 <= biomeId < SIZE && t.biomes[biomeId].Some?)
  {
  }

  //// Line syntax ////

  /** Java's String.trim: drops every leading and trailing char at or below ' '. */
  function TrimStart(s: string): (r: string)
    ensures |r| <= |s| && r == s[|s| - |r|..]
    ensures r == [] || r[0] > ' '
    ensures forall i :: 0 <= i < |s| - |r| ==> s[i] <= ' '
  {
    if s == [] || s[0] > ' ' then s else TrimStart(s[1..])
  }

  function TrimEnd(s: string): (r: string)
    ensures |r| <= |s| && r == s[..|r|]
    ensures r == [] || r[|r| - 1] > ' '
    ensures forall i :: |r| <= i < |s| ==> s[i] <= ' '
  {
    if s == [] || s[|s| - 1] > ' ' then s else TrimEnd(s[..|s| - 1])
  }

  function Trim(s: string): string {
    TrimEnd(TrimStart(s))
  }

  /** The index of the first `sep` in `s`, if any. */
  function IndexOf(s: string, sep: char): (r: Option<nat>)
    ensures r.Some? ==> r.value < |s| && s[r.value] == sep && sep !in s[..r.value]
    ensures r.None? ==> sep !in s
  {
    if s == [] then None
    else if s[0] == sep then Some(0)
    else match IndexOf(s[1..], sep)
      case None => None
      case Some(k) => assert s[1..][..k] == s[1..k + 1]; Some(k + 1)
  }

  /** Java's `s.split(sep, limit)` for a one-char separator and a positive
      limit: at most `limit` fields, the last holding the rest of the line. */
  function SplitLimit(s: string, sep: char, limit: nat): (fields: seq<string>)
    requires limit >= 1
    ensures 1 <= |fields| <= limit
    decreases limit
  {
    if limit == 1 then [s]
    else match IndexOf(s, sep)
      case None => [s]
      case Some(k) => [s[..k]] + SplitLimit(s[k + 1..], sep, limit - 1)
  }

  /** The fields joined back with the separator. */
  function Join(fields: seq<string>, sep: char): string
    requires |fields| >= 1
  {
    if |fields| == 1 then fields[0] else fields[0] + [sep] + Join(fields[1..], sep)
  }

  /** The number of `sep` chars in `s`. */
  function Count(s: string, sep: char): nat {
    if s == [] then 0 else (if s[0] == sep then 1 else 0) + Count(s[1..], sep)
  }

  lemma {:induction false} CountSplit(s: string, sep: char, k: nat)
    requires k < |s| && s[k] == sep && sep !in s[..k]
    ensures Count(s, sep) == 1 + Count(s[k + 1..], sep)
  {
    if k > 0 {
      assert s[0] != sep by { assert s[0] == s[..k][0]; }
      assert s[1..][k - 1] == sep;
      assert s[1..][..k - 1] == s[1..k];
      assert sep !in s[1..k] by {
        forall i | 0 <= i < k - 1 ensures s[1..k][i] != sep { assert s[1..k][i] == s[..k][i + 1]; }
      }
      CountSplit(s[1..], sep, k - 1);
      assert s[1..][k..] == s[k + 1..];
    }
  }

  lemma {:induction false} CountNone(s: string, sep: char)
    requires sep !in s
    ensures Count(s, sep) == 0
  {
    if s != [] {
      assert s[0] != sep;
      CountNone(s[1..], sep);
    }
  }

  lemma JoinCons(first: string, rest: seq<string>, sep: char)
    requires |rest| >= 1
    ensures Join([first] + rest, sep) == first + [sep] + Join(rest, sep)
  {
    assert ([first] + rest)[1..] == rest;
  }

  lemma SplitAt(s: string, k: nat, sep: char)
    requires k < |s| && s[k] == sep
    ensures s == s[..k] + [sep] + s[k + 1..]
  {
  }

  lemma SplitLimitStep(s: string, sep: char, limit: nat, k: nat)
    requires limit > 1 && IndexOf(s, sep) == Some(k)
    ensures k < |s| && SplitLimit(s, sep, limit) == [s[..k]] + SplitLimit(s[k + 1..], sep, limit - 1)
  {
  }

  /** Splitting loses nothing: joining the fields gives the line back. */
  lemma {:induction false} SplitLimitJoin(s: string, sep: char, limit: nat)
    requires limit >= 1
    ensures Join(SplitLimit(s, sep, limit), sep) == s
    decreases limit
  {
    var r := IndexOf(s, sep);
    if limit == 1 || r.None? {
      assert SplitLimit(s, sep, limit) == [s];
      assert Join([s], sep) == s;
    } else {
      var k := r.value;
      var rest := SplitLimit(s[k + 1..], sep, limit - 1);
      SplitLimitStep(s, sep, limit, k);
      SplitLimitJoin(s[k + 1..], sep, limit - 1);
      JoinCons(s[..k], rest, sep);
      SplitAt(s, k, sep);
      assert Join(SplitLimit(s, sep, limit), sep) == s[..k] + [sep] + s[k + 1..];
    }
  }

  /** There is one field more than there are separators, up to the limit. */
  lemma {:induction false} SplitLimitCount(s: string, sep: char, limit: nat)
    requires limit >= 1
    ensures |SplitLimit(s, sep, limit)| == if Count(s, sep) + 1 < limit then Count(s, sep) + 1 else limit
    decreases limit
  {
    if limit > 1 {
      match IndexOf(s, sep)
      case None =>
        CountNone(s, sep);
      case Some(k) =>
        SplitLimitStep(s, sep, limit, k);
        SplitLimitCount(s[k + 1..], sep, limit - 1);
        CountSplit(s, sep, k);
    }
  }

  /** Every field but the last is free of the separator. */
  lemma {:induction false} SplitLimitFields(s: string, sep: char, limit: nat)
    requires limit >= 1
    ensures forall i :: 0 <= i < |SplitLimit(s, sep, limit)| - 1 ==> sep !in SplitLimit(s, sep, limit)[i]
    decreases limit
  {
    if limit > 1 {
      match IndexOf(s, sep)
      case None =>
      case Some(k) =>
        var fields := SplitLimit(s, sep, limit);
        SplitLimitStep(s, sep, limit, k);
        SplitLimitFields(s[k + 1..], sep, limit - 1);
        assert fields[1..] == SplitLimit(s[k + 1..], sep, limit - 1);
        forall i | 0 <= i < |fields| - 1 ensures sep !in fields[i] {
          if i > 0 { assert fields[i] == fields[1..][i - 1]; }
        }
    }
  }

  //// Loading ////

  /** Line numbers are 1-based; a line that cannot be read as a biome is an error. */
  datatype LoadError =
    | NumberFormat(lineNum: nat)      // IDUtil.parseInt refused a field
    | IndexOutOfBounds(lineNum: nat)  // a biome id outside 0..255

  /** The loop state of `load`: the slots, the default biome seen so far,
      the number of lines read, and the lines reported as invalid. */
  datatype LoadState = LoadState(biomes: seq<Option<Biome>>, defaultBiome: Option<Biome>,
                                 lineNum: nat, invalidLines: seq<nat>)

  function InitialState(): LoadState {
    LoadState(seq(SIZE, _ => None), None, 0, [])
  }

  /** Lines that `load` passes over without a word: blank, or a comment. */
  predicate Ignored(line: string) {
    Trim(line) == [] || Trim(line)[0] == '#'
  }

  /** Lines with fewer than four tab-separated fields, reported and skipped. */
  predicate TooShort(line: string) {
    !Ignored(line) && |SplitLimit(line, '\t', 5)| < 4
  }

  /** What one line of the table says. */
  datatype LineKind =
    | Skip                                // blank or comment
    | Invalid                             // fewer than four fields
    | BadNumber                           // a field IDUtil.parseInt refuses
    | BadIndex                            // a biome id outside 0..255
    | DefaultLine(biome: Biome)           // keyed `default`
    | EntryLine(id: int, biome: Biome)    // keyed by a biome id

  /** Reads one line: the three colours are parsed first, then the key. */
  function ClassifyLine(line: string, parseInt: string -> Option<int>): (k: LineKind)
    ensures k.DefaultLine? ==> k.biome.isDefault
    ensures k.EntryLine? ==> !k.biome.isDefault && 0 <= k.id < SIZE
    ensures k.Skip? <==> Ignored(line)
    ensures k.Invalid? <==> TooShort(line)
    ensures k.DefaultLine? ==> IsDefaultLine(line)
  {
    if Ignored(line) then Skip
    else
      var v := SplitLimit(line, '\t', 5);
      if |v| < 4 then Invalid
      else
        var grass, foliage, water := parseInt(v[1]), parseInt(v[2]), parseInt(v[3]);
        if grass.None? || foliage.None? || water.None?
           || !(IsInt32(grass.value) && IsInt32(foliage.value) && IsInt32(water.value)) then BadNumber
        else
          var b := Biome(Bits(grass.value), Bits(foliage.value), Bits(water.value), false);
          if v[0] == "default" then DefaultLine(b.(isDefault := true))
          else
            var id := parseInt(v[0]);
            if id.None? then BadNumber
            else if !(0 <= id.value < SIZE) then BadIndex
            else EntryLine(id.value, b)
  }

  /** The loop's invariant: 256 slots, listed biomes not marked default,
      a default biome (once read) marked default. */
  predicate StateOk(st: LoadState) {
    && |st.biomes| == SIZE
    && (forall i :: 0 <= i < |st.biomes| && st.biomes[i].Some? ==> !st.biomes[i].value.isDefault)
    && (st.defaultBiome.Some? ==> st.defaultBiome.value.isDefault)
  }

  /** What one classified line does to the loop state: ignored and short
      lines only count (a short one is reported), a bad number or index
      ends the load, and a biome line fills the default or its slot. */
  function Apply(st: LoadState, k: LineKind): (r: Result<LoadState, LoadError>)
    requires |st.biomes| == SIZE
    requires k.EntryLine? ==> 0 <= k.id < SIZE
    ensures r.Ok? ==> r.value.lineNum == st.lineNum + 1 && |r.value.biomes| == SIZE
    ensures r.Ok? && StateOk(st) && (k.DefaultLine? ==> k.biome.isDefault) && (k.EntryLine? ==> !k.biome.isDefault)
            ==> StateOk(r.value)
    ensures r.Ok? && !k.DefaultLine? ==> r.value.defaultBiome == st.defaultBiome
    ensures r.Err? <==> k.BadNumber? || k.BadIndex?
  {
    var lineNum := st.lineNum + 1;
    match k
    case Skip => Ok(st.(lineNum := lineNum))
    case Invalid => Ok(st.(lineNum := lineNum, invalidLines := st.invalidLines + [lineNum]))
    case BadNumber => Err(NumberFormat(lineNum))
    case BadIndex => Err(IndexOutOfBounds(lineNum))
    case DefaultLine(b) => Ok(st.(lineNum := lineNum, defaultBiome := Some(b)))
    case EntryLine(id, b) => Ok(st.(lineNum := lineNum, biomes := st.biomes[id := Some(b)]))
  }

  /** One turn of the `load` loop. */
  function Step(st: LoadState, line: string, parseInt: string -> Option<int>): (r: Result<LoadState, LoadError>)
    requires |st.biomes| == SIZE
    ensures r.Ok? ==> r.value.lineNum == st.lineNum + 1 && |r.value.biomes| == SIZE
    ensures r.Ok? && StateOk(st) ==> StateOk(r.value)
    ensures r.Ok? && !IsDefaultLine(line) ==> r.value.defaultBiome == st.defaultBiome
  {
    Apply(st, ClassifyLine(line, parseInt))
  }

  /** The state after the loop has read every line of `lines`, or the first error. */
  function LoadLines(lines: seq<string>, parseInt: string -> Option<int>): (r: Result<LoadState, LoadError>)
    ensures r.Ok? ==> |r.value.biomes| == SIZE && r.value.lineNum == |lines|
  {
    if lines == [] then Ok(InitialState())
    else match LoadLines(lines[..|lines| - 1], parseInt)
      case Err(e) => Err(e)
      case Ok(st) => Step(st, lines[|lines| - 1], parseInt)
  }

  /** The table `load` returns from a finished loop: a missing default line
      leaves the magenta default. */
  function Finish(st: LoadState): BiomeTable {
    var d := match st.defaultBiome
      case Some(b) => b
      case None => Biome(MAGENTA, MAGENTA, MAGENTA, true);
    BiomeTable(st.biomes, d)
  }

  /** The body of the `load` loop for one classified line: the line
      counter advances, a short line is reported, a biome line fills the
      default or its slot, and a bad number or index is the error that
      ends the load. */
  method LoadLine(biomes: array<Option<Biome>>, defaultBiome: Option<Biome>, lineNum: nat, invalidLines: seq<nat>,
                  kind: LineKind)
    returns (err: Option<LoadError>, defaultBiome': Option<Biome>, lineNum': nat, invalidLines': seq<nat>)
    requires biomes.Length == SIZE && (kind.EntryLine? ==> 0 <= kind.id < SIZE)
    modifies biomes
    ensures var after := Apply(LoadState(old(biomes[..]), defaultBiome, lineNum, invalidLines), kind);
      && (after.Err? <==> err.Some?)
      && (after.Err? ==> after.error == err.value)
      && (after.Ok? ==> after.value == LoadState(biomes[..], defaultBiome', lineNum', invalidLines'))
  {
    defaultBiome', lineNum', invalidLines' := defaultBiome, lineNum + 1, invalidLines;
    err := None;
    match kind
    case Skip =>
    case Invalid =>
      invalidLines' := invalidLines' + [lineNum'];
    case BadNumber =>
      err := Some(NumberFormat(lineNum'));
    case BadIndex =>
      err := Some(IndexOutOfBounds(lineNum'));
    case DefaultLine(b) =>
      defaultBiome' := Some(b);
    case EntryLine(id, b) =>
      biomes[id] := Some(b);
  }

  /** `load(BufferedReader, String)`: reads the lines in order, skipping blank
      and comment lines, reporting and skipping short ones, and storing every
      other line either as the default biome or in its id's slot. */
  method Load(lines: seq<string>, parseInt: string -> Option<int>)
    returns (r: Result<BiomeTable, LoadError>, invalidLines: seq<nat>)
    ensures LoadLines(lines, parseInt).Err? <==> r.Err?
    ensures r.Err? ==> r.error == LoadLines(lines, parseInt).error
    ensures r.Ok? ==> r.value == Finish(LoadLines(lines, parseInt).value) && WellFormed(r.value)
    ensures r.Ok? ==> invalidLines == LoadLines(lines, parseInt).value.invalidLines
  {
    var biomes := new Option<Biome>[SIZE](_ => None);
    var defaultBiome: Option<Biome> := None;
    var lineNum := 0;
    invalidLines := [];
    var i := 0;
    assert biomes[..] == InitialState().biomes;
    while i < |lines|
      invariant 0 <= i <= |lines|
      invariant LoadLines(lines[..i], parseInt) == Ok(LoadState(biomes[..], defaultBiome, lineNum, invalidLines))
    {
      var line := lines[i];
      LoadLinesNext(lines, i, parseInt);
      var kind := ClassifyLine(line, parseInt);
      var err;
      err, defaultBiome, lineNum, invalidLines := LoadLine(biomes, defaultBiome, lineNum, invalidLines, kind);
      i := i + 1;
      if err.Some? {
        LoadLinesErrPersists(lines, i);
        return Err(err.value), invalidLines;
      }
    }
    assert lines[..i] == lines;
    LoadedWellFormed(lines, parseInt);
    r := Ok(Finish(LoadState(biomes[..], defaultBiome, lineNum, invalidLines)));
  }

  /** One more line of the input runs one more turn of the loop. */
  lemma LoadLinesNext(lines: seq<string>, i: nat, parseInt: string -> Option<int>)
    requires i < |lines|
    ensures LoadLines(lines[..i + 1], parseInt) ==
      match LoadLines(lines[..i], parseInt)
      case Err(e) => Err(e)
      case Ok(st) => Step(st, lines[i], parseInt)
  {
    assert lines[..i + 1][..i] == lines[..i];
  }

  /** Once a prefix of the input fails, the whole input fails with the same error. */
  lemma {:induction false} LoadLinesErrPersists(lines: seq<string>, k: nat)
    requires k <= |lines|
    ensures forall parseInt: string -> Option<int> :: LoadLines(lines[..k], parseInt).Err? ==>
      LoadLines(lines, parseInt) == LoadLines(lines[..k], parseInt)
    decreases |lines| - k
  {
    if k < |lines| {
      LoadLinesErrPersists(lines, k + 1);
      forall parseInt: string -> Option<int> | LoadLines(lines[..k], parseInt).Err?
        ensures LoadLines(lines[..k + 1], parseInt) == LoadLines(lines[..k], parseInt)
      {
        assert lines[..k + 1][..k] == lines[..k];
      }
    } else {
      assert lines[..k] == lines;
    }
  }

  /** Every state the loop reaches keeps the invariant. */
  lemma {:induction false} LoadedWellFormed(lines: seq<string>, parseInt: string -> Option<int>)
    ensures LoadLines(lines, parseInt).Ok? ==> StateOk(LoadLines(lines, parseInt).value)
  {
    if lines != [] {
      LoadedWellFormed(lines[..|lines| - 1], parseInt);
    }
  }

  /** Appending a line to the input runs one more turn of the loop. */
  lemma LoadLinesSnoc(lines: seq<string>, line: string, parseInt: string -> Option<int>)
    ensures LoadLines(lines + [line], parseInt) ==
      match LoadLines(lines, parseInt)
      case Err(e) => Err(e)
      case Ok(st) => Step(st, line, parseInt)
  {
    assert (lines + [line])[..|lines|] == lines;
  }

  /** A blank, comment or too-short line changes no slot and no default;
      a too-short one is reported with its line number. */
  lemma SkippedLineKeepsTable(lines: seq<string>, line: string, parseInt: string -> Option<int>)
    requires LoadLines(lines, parseInt).Ok?
    requires Ignored(line) || TooShort(line)
    ensures LoadLines(lines + [line], parseInt).Ok?
    ensures var before := LoadLines(lines, parseInt).value;
      var after := LoadLines(lines + [line], parseInt).value;
      && after.biomes == before.biomes
      && after.defaultBiome == before.defaultBiome
      && after.invalidLines == before.invalidLines + (if TooShort(line) then [|lines| + 1] else [])
  {
    LoadLinesSnoc(lines, line, parseInt);
    LoadedWellFormed(lines, parseInt);
    var kind := ClassifyLine(line, parseInt);
    assert kind.Skip? || kind.Invalid?;
  }

  /** A line keyed by an id stores that id's biome, replacing any earlier
      line for the same id, and leaves every other slot and the default as
      they were; a line keyed `default` replaces the default and leaves
      every slot as it was. */
  lemma LaterLineOverrides(lines: seq<string>, line: string, parseInt: string -> Option<int>)
    requires LoadLines(lines, parseInt).Ok?
    requires !Ignored(line) && !TooShort(line)
    requires LoadLines(lines + [line], parseInt).Ok?
    ensures var v := SplitLimit(line, '\t', 5);
      var after := LoadLines(lines + [line], parseInt).value;
      var grass, foliage, water := parseInt(v[1]), parseInt(v[2]), parseInt(v[3]);
      && grass.Some? && foliage.Some? && water.Some?
      && IsInt32(grass.value) && IsInt32(foliage.value) && IsInt32(water.value)
      && var colors := (Bits(grass.value), Bits(foliage.value), Bits(water.value));
      && var before := LoadLines(lines, parseInt).value;
      && (v[0] == "default" ==>
            && after.defaultBiome == Some(Biome(colors.0, colors.1, colors.2, true))
            && after.biomes == before.biomes)
      && (v[0] != "default" ==>
            && parseInt(v[0]).Some? && 0 <= parseInt(v[0]).value < SIZE
            && after.biomes == before.biomes[parseInt(v[0]).value := Some(Biome(colors.0, colors.1, colors.2, false))]
            && after.defaultBiome == before.defaultBiome)
  {
    LoadLinesSnoc(lines, line, parseInt);
    LoadedWellFormed(lines, parseInt);
  }

  /** A line that sets the default biome. */
  predicate IsDefaultLine(line: string) {
    !Ignored(line) && !TooShort(line) && SplitLimit(line, '\t', 5)[0] == "default"
  }

  /** With no `default` line the default biome is magenta in all three
      colours, marked default. */
  lemma {:induction false} NoDefaultLineMagenta(lines: seq<string>, parseInt: string -> Option<int>)
    requires forall i :: 0 <= i < |lines| ==> !IsDefaultLine(lines[i])
    requires LoadLines(lines, parseInt).Ok?
    ensures Finish(LoadLines(lines, parseInt).value).defaultBiome == Biome(MAGENTA, MAGENTA, MAGENTA, true)
  {
    NoDefaultLineKeepsNone(lines, parseInt);
  }

  lemma {:induction false} NoDefaultLineKeepsNone(lines: seq<string>, parseInt: string -> Option<int>)
    requires forall i :: 0 <= i < |lines| ==> !IsDefaultLine(lines[i])
    ensures LoadLines(lines, parseInt).Ok? ==> LoadLines(lines, parseInt).value.defaultBiome.None?
  {
    if lines != [] {
      var init := lines[..|lines| - 1];
      forall i | 0 <= i < |init| ensures !IsDefaultLine(init[i]) {
        assert init[i] == lines[i];
      }
      NoDefaultLineKeepsNone(init, parseInt);
      assert !IsDefaultLine(lines[|lines| - 1]);
    }
  }
}
