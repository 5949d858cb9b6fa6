/**
 * The extraction pass of the `rextractor` command (`App.call`): build the table
 * from field name to compiled patterns, write the header row, and for every input
 * line write one row of extracted values, copying the line to the not-found text
 * when some value is blank.
 *
 * The regular-expression engine is a parameter (`Engine`); reading the
 * configuration, the input file and writing the two output files are not modelled.
 */
module App {
  import opened Wrappers
  import opened Text

  /** A compiled `java.util.regex.Pattern`: its source text and its number of capturing groups. */
  datatype Pattern = Pattern(source: string, groups: nat)

  /**
   * The regular-expression engine.
   * `compile(s)` is None when `Pattern.compile(s)` throws, otherwise the pattern's group count.
   * `find(p, line)` is None when `p.matcher(line).find()` is false, otherwise what
   * `group(1)` then returns (`Null` when group 1 took no part in the match).
   */
  datatype Engine = Engine(compile: string -> Option<nat>, find: (Pattern, string) -> Option<JString>)

  /** The exceptions that abort the run before anything is written. */
  datatype Error =
    | InvalidPattern(field: string, pattern: string)  // Pattern.compile rejects the pattern
    | NoGroupOne(field: string, pattern: string)      // group(1) on a pattern without groups

  /** The two texts written at the end: the CSV-like output and the not-found lines. */
  datatype Output = Output(primary: string, notFound: string)

  /**
   * The entries of the configuration's `extract` object as `fields()` yields them,
   * in file order: field name and pattern strings. The JSON parser has already
   * merged repeated keys, so the names are distinct (`DistinctKeys`).
   */
  type Config = seq<(string, seq<string>)>

  /** The `extractors` HashMap: field name to its compiled patterns, in precedence order. */
  type Table = map<string, seq<Pattern>>

  function Keys(config: Config): set<string>
  {
    set i | 0 <= i < |config| :: config[i].0
  }

  /** No field name occurs in two entries, as in the fields of a parsed JSON object. */
  predicate DistinctKeys(config: Config)
  {
    forall i, j :: 0 <= i < j < |config| ==> config[i].0 != config[j].0
  }

  /** `headers` lists every key of the table once, in the (unspecified) key-set order. */
  predicate IsKeyOrder(headers: seq<string>, config: Config)
  {
    && (forall i, j :: 0 <= i < j < |headers| ==> headers[i] != headers[j])
    && (forall i :: 0 <= i < |headers| ==> headers[i] in Keys(config))
    && (forall k :: k in Keys(config) ==> k in headers)
  }

  predicate InTable(headers: seq<string>, table: Table)
  {
    forall i :: 0 <= i < |headers| ==> headers[i] in table
  }

  // ---------------------------------------------------------------------------
  // Building the table

  /** The compiled patterns of one field, or the first pattern the engine rejects. */
  function CompileAll(field: string, sources: seq<string>, compile: string -> Option<nat>): (r: Result<seq<Pattern>, Error>)
    ensures r.Ok? <==> forall i :: 0 <= i < |sources| ==> compile(sources[i]).Some?
    ensures r.Ok? ==> |r.value| == |sources|
    ensures r.Ok? ==> forall i :: 0 <= i < |sources| ==> r.value[i] == Pattern(sources[i], compile(sources[i]).value)
    ensures r.Err? ==> exists i :: 0 <= i < |sources| && compile(sources[i]).None?
                                   && (forall j :: 0 <= j < i ==> compile(sources[j]).Some?)
                                   && r.error == InvalidPattern(field, sources[i])
  {
    if |sources| == 0 then Ok([])
    else
      var init, last := sources[..|sources| - 1], sources[|sources| - 1];
      assert forall i :: 0 <= i < |init| ==> init[i] == sources[i];
      match CompileAll(field, init, compile)
      case Err(e) => Err(e)
      case Ok(ps) =>
        match compile(last)
        case None => Err(InvalidPattern(field, last))
        case Some(g) =>
          assert forall i :: 0 <= i < |ps| ==> (ps + [Pattern(last, g)])[i] == ps[i];
          Ok(ps + [Pattern(last, g)])
  }

  /** The table, or the first rejected pattern in file order. */
  function Compile(config: Config, compile: string -> Option<nat>): (r: Result<Table, Error>)
    requires DistinctKeys(config)
    ensures r.Ok? ==> r.value.Keys == Keys(config)
  {
    if |config| == 0 then Ok(map[])
    else
      var init, last := config[..|config| - 1], config[|config| - 1];
      match Compile(init, compile)
      case Err(e) => Err(e)
      case Ok(m) =>
        match CompileAll(last.0, last.1, compile)
        case Err(e) => Err(e)
        case Ok(ps) =>
          assert Keys(config) == Keys(init) + {last.0} by {
            assert forall i :: 0 <= i < |init| ==> init[i] == config[i];
          }
          Ok(m[last.0 := ps])
  }

  /** The table is built exactly when every pattern of every field compiles. */
  lemma {:induction false} CompileSucceeds(config: Config, compile: string -> Option<nat>)
    requires DistinctKeys(config)
    ensures Compile(config, compile).Ok? <==>
            forall i :: 0 <= i < |config| ==> CompileAll(config[i].0, config[i].1, compile).Ok?
  {
    if |config| > 0 {
      var init := config[..|config| - 1];
      CompileSucceeds(init, compile);
      assert forall i :: 0 <= i < |init| ==> init[i] == config[i];
    }
  }

  /** Each field keeps the compiled form of its configured patterns, in array order. */
  lemma {:induction false} CompileKeepsPatterns(config: Config, compile: string -> Option<nat>, i: nat)
    requires DistinctKeys(config) && i < |config|
    requires Compile(config, compile).Ok?
    ensures Ok(Compile(config, compile).value[config[i].0]) == CompileAll(config[i].0, config[i].1, compile)
  {
    var init := config[..|config| - 1];
    if i < |config| - 1 {
      assert init[i] == config[i];
      CompileKeepsPatterns(init, compile, i);
    }
  }

  /** A failed build reports the first field, in file order, holding a rejected pattern. */
  lemma {:induction false} CompileFirstError(config: Config, compile: string -> Option<nat>)
    requires DistinctKeys(config)
    requires Compile(config, compile).Err?
    ensures exists i :: 0 <= i < |config| && CompileAll(config[i].0, config[i].1, compile) == Err(Compile(config, compile).error)
                        && forall j :: 0 <= j < i ==> CompileAll(config[j].0, config[j].1, compile).Ok?
  {
    var init, last := config[..|config| - 1], config[|config| - 1];
    assert forall j :: 0 <= j < |init| ==> init[j] == config[j];
    if Compile(init, compile).Err? {
      CompileFirstError(init, compile);
    } else {
      CompileSucceeds(init, compile);
      assert CompileAll(last.0, last.1, compile) == Err(Compile(config, compile).error);
    }
  }

  /** Lines 38-54: fill the HashMap field by field, each list pattern by pattern. */
  method BuildExtractors(config: Config, compile: string -> Option<nat>) returns (r: Result<Table, Error>)
    requires DistinctKeys(config)
    ensures r == Compile(config, compile)
  {
    var extractors: Table := map[];
    var k := 0;
    while k < |config|
      invariant 0 <= k <= |config|
      invariant Compile(config[..k], compile) == Ok(extractors)
    {
      var (key, texts) := config[k];
      var patterns: seq<Pattern> := [];
      for i := 0 to |texts|
        invariant CompileAll(key, texts[..i], compile) == Ok(patterns)
      {
        var compiled := compile(texts[i]);
        if compiled.None? {
          assert texts[..i + 1][..i] == texts[..i];
          CompileAllPrefixErr(key, texts, i + 1, compile);
          assert config[..k + 1][..k] == config[..k];
          CompilePrefixErr(config, k + 1, compile);
          return Err(InvalidPattern(key, texts[i]));
        }
        assert texts[..i + 1][..i] == texts[..i];
        patterns := patterns + [Pattern(texts[i], compiled.value)];
      }
      assert texts[..|texts|] == texts;
      assert config[..k + 1][..k] == config[..k];
      extractors := extractors[key := patterns];
      k := k + 1;
    }
    assert config[..k] == config;
    r := Ok(extractors);
  }

  lemma {:induction false} CompileAllPrefixErr(field: string, sources: seq<string>, n: nat, compile: string -> Option<nat>)
    requires n <= |sources|
    requires CompileAll(field, sources[..n], compile).Err?
    ensures CompileAll(field, sources, compile) == CompileAll(field, sources[..n], compile)
  {
    if n < |sources| {
      var init := sources[..|sources| - 1];
      assert init[..n] == sources[..n];
      CompileAllPrefixErr(field, init, n, compile);
    } else {
      assert sources[..n] == sources;
    }
  }

  lemma {:induction false} CompilePrefixErr(config: Config, n: nat, compile: string -> Option<nat>)
    requires DistinctKeys(config) && n <= |config|
    requires Compile(config[..n], compile).Err?
    ensures Compile(config, compile) == Compile(config[..n], compile)
  {
    if n < |config| {
      var init := config[..|config| - 1];
      assert init[..n] == config[..n];
      CompilePrefixErr(init, n, compile);
    } else {
      assert config[..n] == config;
    }
  }

  // ---------------------------------------------------------------------------
  // The header row

  /** Lines 56-66: the field names separated by `;`, then a newline. */
  method HeaderLine(headers: seq<string>) returns (sb: string)
    ensures sb == Join(headers) + "\n"
  {
    sb := "";
    for i := 0 to |headers|
      invariant sb == Join(headers[..i])
    {
      if i > 0 {
        sb := sb + [Separator];
      }
      assert headers[..i + 1][..i] == headers[..i];
      sb := sb + headers[i];
    }
    assert headers[..|headers|] == headers;
    sb := sb + "\n";
  }

  // ---------------------------------------------------------------------------
  // One field of one line

  /** The value of a field: group 1 of the first pattern, in list order, that finds a match; "" when none does. */
  function FieldValue(field: string, patterns: seq<Pattern>, line: string, find: (Pattern, string) -> Option<JString>): Result<JString, Error>
  {
    if |patterns| == 0 then Ok(Str(""))
    else
      match find(patterns[0], line)
      case None => FieldValue(field, patterns[1..], line, find)
      case Some(g) => if patterns[0].groups == 0 then Err(NoGroupOne(field, patterns[0].source)) else Ok(g)
  }

  /** First match wins: the value comes from pattern k, the first that finds a match. */
  lemma {:induction false} FirstMatchWins(field: string, patterns: seq<Pattern>, line: string, find: (Pattern, string) -> Option<JString>, k: nat)
    requires k < |patterns| && find(patterns[k], line).Some?
    requires forall j :: 0 <= j < k ==> find(patterns[j], line).None?
    ensures FieldValue(field, patterns, line, find) ==
            if patterns[k].groups == 0 then Err(NoGroupOne(field, patterns[k].source))
            else Ok(find(patterns[k], line).value)
  {
    if k > 0 {
      FirstMatchWins(field, patterns[1..], line, find, k - 1);
    }
  }

  /** A field none of whose patterns finds a match has the empty value. */
  lemma {:induction false} NoMatchIsEmpty(field: string, patterns: seq<Pattern>, line: string, find: (Pattern, string) -> Option<JString>)
    requires forall j :: 0 <= j < |patterns| ==> find(patterns[j], line).None?
    ensures FieldValue(field, patterns, line, find) == Ok(Str(""))
  {
    if |patterns| > 0 {
      NoMatchIsEmpty(field, patterns[1..], line, find);
    }
  }

  /** Once a pattern has found a match, the patterns listed after it are never consulted. */
  lemma {:induction false} LaterPatternsIgnored(field: string, patterns: seq<Pattern>, later: seq<Pattern>, line: string, find: (Pattern, string) -> Option<JString>)
    requires exists j :: 0 <= j < |patterns| && find(patterns[j], line).Some?
    ensures FieldValue(field, patterns + later, line, find) == FieldValue(field, patterns, line, find)
  {
    if find(patterns[0], line).None? {
      assert (patterns + later)[1..] == patterns[1..] + later;
      LaterPatternsIgnored(field, patterns[1..], later, line, find);
    }
  }

  /** Lines 76-83: try the patterns in order and stop at the first that finds a match. */
  method ExtractField(field: string, patterns: seq<Pattern>, line: string, find: (Pattern, string) -> Option<JString>)
    returns (r: Result<JString, Error>)
    ensures r == FieldValue(field, patterns, line, find)
  {
    var extracted := Str("");
    for i := 0 to |patterns|
      invariant FieldValue(field, patterns, line, find) == FieldValue(field, patterns[i..], line, find)
    {
      var matcher := find(patterns[i], line);
      if matcher.Some? {
        if patterns[i].groups == 0 {
          return Err(NoGroupOne(field, patterns[i].source));
        }
        extracted := matcher.value;
        return Ok(extracted);
      }
      assert patterns[i..][1..] == patterns[i + 1..];
    }
    r := Ok(extracted);
  }

  // ---------------------------------------------------------------------------
  // One line

  function Value(table: Table, field: string, line: string, find: (Pattern, string) -> Option<JString>): Result<JString, Error>
    requires field in table
  {
    FieldValue(field, table[field], line, find)
  }

  /** The values of a line in `headers` order, or the error of the first field that raises one. */
  function RowValues(table: Table, headers: seq<string>, line: string, find: (Pattern, string) -> Option<JString>): (r: Result<seq<JString>, Error>)
    requires InTable(headers, table)
    ensures r.Ok? ==> |r.value| == |headers|
  {
    if |headers| == 0 then Ok([])
    else
      var init := headers[..|headers| - 1];
      match RowValues(table, init, line, find)
      case Err(e) => Err(e)
      case Ok(vs) =>
        match Value(table, headers[|headers| - 1], line, find)
        case Err(e) => Err(e)
        case Ok(v) => Ok(vs + [v])
  }

  /** Value i of a row is the value of field `headers[i]`; a failed row reports its first failing field. */
  lemma {:induction false} RowValuesSpec(table: Table, headers: seq<string>, line: string, find: (Pattern, string) -> Option<JString>)
    requires InTable(headers, table)
    ensures var r := RowValues(table, headers, line, find);
      && (r.Ok? <==> forall i :: 0 <= i < |headers| ==> Value(table, headers[i], line, find).Ok?)
      && (r.Ok? ==> forall i :: 0 <= i < |headers| ==> Value(table, headers[i], line, find) == Ok(r.value[i]))
      && (r.Err? ==> exists i :: 0 <= i < |headers| && Value(table, headers[i], line, find) == Err(r.error)
                                 && forall j :: 0 <= j < i ==> Value(table, headers[j], line, find).Ok?)
  {
    if |headers| > 0 {
      var init := headers[..|headers| - 1];
      RowValuesSpec(table, init, line, find);
      assert forall i :: 0 <= i < |init| ==> init[i] == headers[i];
    }
  }

  predicate FullyExtracted(values: seq<JString>)
  {
    forall i :: 0 <= i < |values| ==> !IsBlank(values[i])
  }

  /**
   * What one line contributes: its row, and its not-found entry (the line itself
   * and a newline when some value is blank, otherwise nothing).
   */
  function LineOutput(table: Table, headers: seq<string>, line: string, find: (Pattern, string) -> Option<JString>): Result<(string, string), Error>
    requires InTable(headers, table)
  {
    match RowValues(table, headers, line, find)
    case Err(e) => Err(e)
    case Ok(vs) => Ok((Join(Renders(vs)) + "\n", if FullyExtracted(vs) then "" else line + "\n"))
  }

  /**
   * A line's row holds the value of every field in `headers` order, joined by `;`;
   * the line goes to the not-found text, unchanged, exactly when some value is blank;
   * otherwise the first field, in `headers` order, whose lookup fails aborts the run.
   */
  lemma LineOutputSpec(table: Table, headers: seq<string>, line: string, find: (Pattern, string) -> Option<JString>)
    requires InTable(headers, table)
    ensures var r := LineOutput(table, headers, line, find);
      && (r.Ok? <==> forall i :: 0 <= i < |headers| ==> Value(table, headers[i], line, find).Ok?)
      && (r.Ok? ==> exists values: seq<JString> ::
                      && |values| == |headers|
                      && (forall i :: 0 <= i < |headers| ==> Value(table, headers[i], line, find) == Ok(values[i]))
                      && r.value.0 == Join(Renders(values)) + "\n")
      && (r.Ok? ==> (r.value.1 == line + "\n" <==> exists i :: 0 <= i < |headers| && IsBlank(Value(table, headers[i], line, find).value)))
      && (r.Ok? ==> (r.value.1 == "" <==> forall i :: 0 <= i < |headers| ==> !IsBlank(Value(table, headers[i], line, find).value)))
      && (r.Err? ==> exists i :: 0 <= i < |headers| && Value(table, headers[i], line, find) == Err(r.error)
                                 && forall j :: 0 <= j < i ==> Value(table, headers[j], line, find).Ok?)
  {
    RowValuesSpec(table, headers, line, find);
    var rv := RowValues(table, headers, line, find);
    if rv.Ok? {
      var values := rv.value;
      assert forall i :: 0 <= i < |headers| ==> Value(table, headers[i], line, find) == Ok(values[i]);
    }
  }

  // ---------------------------------------------------------------------------
  // All lines

  /** The rows and the not-found text of `lines`, or the first error met. */
  function Process(table: Table, headers: seq<string>, lines: seq<string>, find: (Pattern, string) -> Option<JString>): (r: Result<(string, string), Error>)
    requires InTable(headers, table)
  {
    if |lines| == 0 then Ok(("", ""))
    else
      var init := lines[..|lines| - 1];
      match Process(table, headers, init, find)
      case Err(e) => Err(e)
      case Ok((rows, notFound)) =>
        match LineOutput(table, headers, lines[|lines| - 1], find)
        case Err(e) => Err(e)
        case Ok((row, entry)) => Ok((rows + row, notFound + entry))
  }

  /** The outputs of two consecutive stretches of lines, one after the other; the first error wins. */
  function Combine(first: Result<(string, string), Error>, second: Result<(string, string), Error>): Result<(string, string), Error>
  {
    match first
    case Err(e) => Err(e)
    case Ok((rows, notFound)) =>
      match second
      case Err(e) => Err(e)
      case Ok((rows', notFound')) => Ok((rows + rows', notFound + notFound'))
  }

  /** Processing one more line appends its row and its not-found entry. */
  lemma ProcessSnoc(table: Table, headers: seq<string>, lines: seq<string>, line: string, find: (Pattern, string) -> Option<JString>)
    requires InTable(headers, table)
    ensures Process(table, headers, lines + [line], find) == Combine(Process(table, headers, lines, find), LineOutput(table, headers, line, find))
  {
    assert (lines + [line])[..|lines|] == lines;
  }

  lemma CombineAssoc(x: Result<(string, string), Error>, y: Result<(string, string), Error>, z: Result<(string, string), Error>)
    ensures Combine(Combine(x, y), z) == Combine(x, Combine(y, z))
  {
    if x.Ok? && y.Ok? && z.Ok? {
      assert (x.value.0 + y.value.0) + z.value.0 == x.value.0 + (y.value.0 + z.value.0);
      assert (x.value.1 + y.value.1) + z.value.1 == x.value.1 + (y.value.1 + z.value.1);
    }
  }

  /** No carry-over between lines: processing `a + b` is processing `a`, then `b`, and concatenating. */
  lemma {:induction false} ProcessAppend(table: Table, headers: seq<string>, a: seq<string>, b: seq<string>, find: (Pattern, string) -> Option<JString>)
    requires InTable(headers, table)
    ensures Process(table, headers, a + b, find) == Combine(Process(table, headers, a, find), Process(table, headers, b, find))
  {
    if |b| == 0 {
      assert a + b == a;
      var pa := Process(table, headers, a, find);
      if pa.Ok? {
        assert pa.value.0 + "" == pa.value.0 && pa.value.1 + "" == pa.value.1;
      }
    } else {
      var b', line := b[..|b| - 1], b[|b| - 1];
      assert b' + [line] == b;
      assert (a + b') + [line] == a + b;
      ProcessAppend(table, headers, a, b', find);
      ProcessSnoc(table, headers, a + b', line, find);
      ProcessSnoc(table, headers, b', line, find);
      CombineAssoc(Process(table, headers, a, find), Process(table, headers, b', find), LineOutput(table, headers, line, find));
    }
  }

  /** A single line yields exactly its own row and its own not-found entry. */
  lemma ProcessOne(table: Table, headers: seq<string>, line: string, find: (Pattern, string) -> Option<JString>)
    requires InTable(headers, table)
    ensures Process(table, headers, [line], find) == LineOutput(table, headers, line, find)
  {
    assert [line][..0] == [];
    match LineOutput(table, headers, line, find)
    case Err(_) =>
    case Ok((row, entry)) => assert "" + row == row && "" + entry == entry;
  }

  lemma {:induction false} ProcessPrefixErr(table: Table, headers: seq<string>, lines: seq<string>, n: nat, find: (Pattern, string) -> Option<JString>)
    requires InTable(headers, table)
    requires n <= |lines|
    requires Process(table, headers, lines[..n], find).Err?
    ensures Process(table, headers, lines, find) == Process(table, headers, lines[..n], find)
  {
    if n < |lines| {
      var init := lines[..|lines| - 1];
      assert init[..n] == lines[..n];
      ProcessPrefixErr(table, headers, init, n, find);
    } else {
      assert lines[..n] == lines;
    }
  }

  lemma {:induction false} RowValuesPrefixErr(table: Table, headers: seq<string>, line: string, n: nat, find: (Pattern, string) -> Option<JString>)
    requires InTable(headers, table)
    requires n <= |headers|
    requires RowValues(table, headers[..n], line, find).Err?
    ensures RowValues(table, headers, line, find) == RowValues(table, headers[..n], line, find)
  {
    if n < |headers| {
      var init := headers[..|headers| - 1];
      assert init[..n] == headers[..n];
      RowValuesPrefixErr(table, init, line, n, find);
    } else {
      assert headers[..n] == headers;
    }
  }

  /** A line's values joined by `;` and whether none is blank; or the first error. */
  function JoinedRow(table: Table, headers: seq<string>, line: string, find: (Pattern, string) -> Option<JString>): Result<(string, bool), Error>
    requires InTable(headers, table)
  {
    match RowValues(table, headers, line, find)
    case Err(e) => Err(e)
    case Ok(vs) => Ok((Join(Renders(vs)), FullyExtracted(vs)))
  }

  /**
   * Lines 71-88: for every field, a separator (except before the first) and the
   * field's value, clearing `isFullyExtracted` on a blank value.
   */
  method BuildRow(extractors: Table, headers: seq<string>, line: string, find: (Pattern, string) -> Option<JString>)
    returns (r: Result<(string, bool), Error>)
    requires InTable(headers, extractors)
    ensures r == JoinedRow(extractors, headers, line, find)
  {
    var row := "";
    ghost var values: seq<JString> := [];
    var isFullyExtracted := true;
    for i := 0 to |headers|
      invariant |values| == i
      invariant RowValues(extractors, headers[..i], line, find) == Ok(values)
      invariant row == Join(Renders(values))
      invariant isFullyExtracted == FullyExtracted(values)
    {
      if i > 0 {
        row := row + [Separator];
      }
      var patterns := extractors[headers[i]];
      var extracted := ExtractField(headers[i], patterns, line, find);
      RowValuesStep(extractors, headers, line, find, i, values);
      if extracted.Err? {
        RowValuesPrefixErr(extractors, headers, line, i + 1, find);
        return Err(extracted.error);
      }
      var v := extracted.value;
      JoinRendersSnoc(values, v);
      FullyExtractedSnoc(values, v);
      row := row + Render(v);
      if IsBlank(v) {
        isFullyExtracted := false;
      }
      values := values + [v];
    }
    assert headers[..|headers|] == headers;
    r := Ok((row, isFullyExtracted));
  }

  /**
   * Lines 68-94: for every line, append its row and a newline, and the line itself
   * to the not-found text when some value is blank.
   */
  method ExtractLines(extractors: Table, headers: seq<string>, lines: seq<string>, find: (Pattern, string) -> Option<JString>)
    returns (r: Result<(string, string), Error>)
    requires InTable(headers, extractors)
    ensures r == Process(extractors, headers, lines, find)
  {
    var sb, notFound := "", "";
    for k := 0 to |lines|
      invariant Process(extractors, headers, lines[..k], find) == Ok((sb, notFound))
    {
      var line := lines[k];
      assert lines[..k + 1] == lines[..k] + [line];
      ProcessSnoc(extractors, headers, lines[..k], line, find);
      var built := BuildRow(extractors, headers, line, find);
      if built.Err? {
        ProcessPrefixErr(extractors, headers, lines, k + 1, find);
        return Err(built.error);
      }
      ghost var rowStart, notFoundBefore := sb, notFound;
      var (row, isFullyExtracted) := built.value;
      sb := sb + row;
      if !isFullyExtracted {
        notFound := notFound + line + "\n";
        assert notFound == notFoundBefore + (line + "\n");
      } else {
        assert notFound == notFoundBefore + "";
      }
      sb := sb + "\n";
      assert sb == rowStart + (row + "\n");
    }
    assert lines[..|lines|] == lines;
    r := Ok((sb, notFound));
  }

  lemma RowValuesStep(table: Table, headers: seq<string>, line: string, find: (Pattern, string) -> Option<JString>, i: nat, values: seq<JString>)
    requires InTable(headers, table) && i < |headers|
    requires RowValues(table, headers[..i], line, find) == Ok(values)
    ensures RowValues(table, headers[..i + 1], line, find) ==
            match Value(table, headers[i], line, find)
            case Err(e) => Err(e)
            case Ok(v) => Ok(values + [v])
  {
    assert headers[..i + 1][..i] == headers[..i];
  }

  lemma FullyExtractedSnoc(values: seq<JString>, v: JString)
    ensures FullyExtracted(values + [v]) <==> FullyExtracted(values) && !IsBlank(v)
  {
    var vs := values + [v];
    assert vs[|values|] == v;
    assert forall i :: 0 <= i < |values| ==> vs[i] == values[i];
    if FullyExtracted(values) && !IsBlank(v) {
      forall i | 0 <= i < |vs| ensures !IsBlank(vs[i]) {
        if i < |values| { assert vs[i] == values[i]; } else { assert vs[i] == v; }
      }
    }
  }

  lemma JoinRendersSnoc(values: seq<JString>, v: JString)
    ensures Join(Renders(values + [v])) ==
            if |values| == 0 then Render(v) else Join(Renders(values)) + [Separator] + Render(v)
  {
    var rs := Renders(values + [v]);
    assert rs[..|values|] == Renders(values);
  }

  // ---------------------------------------------------------------------------
  // The whole pass

  /** The two output texts of a run, or the exception that aborts it before anything is written. */
  function Run(config: Config, headers: seq<string>, lines: seq<string>, engine: Engine): Result<Output, Error>
    requires DistinctKeys(config) && IsKeyOrder(headers, config)
  {
    match Compile(config, engine.compile)
    case Err(e) => Err(e)
    case Ok(table) =>
      match Process(table, headers, lines, engine.find)
      case Err(e) => Err(e)
      case Ok((rows, notFound)) => Ok(Output(Join(headers) + "\n" + rows, notFound))
  }

  /**
   * Lines 38-94 of `App.call`. `headers` is the key-set order of the HashMap,
   * which the caller fixes; `lines` is the input file's content.
   */
  method Call(config: Config, headers: seq<string>, lines: seq<string>, engine: Engine) returns (r: Result<Output, Error>)
    requires DistinctKeys(config) && IsKeyOrder(headers, config)
    ensures r == Run(config, headers, lines, engine)
  {
    var built := BuildExtractors(config, engine.compile);
    if built.Err? {
      return Err(built.error);
    }
    var extractors := built.value;
    var sb := HeaderLine(headers);
    var extracted := ExtractLines(extractors, headers, lines, engine.find);
    if extracted.Err? {
      return Err(extracted.error);
    }
    var (rows, notFound) := extracted.value;
    r := Ok(Output(sb + rows, notFound));
  }

  /** Processing one more input line appends exactly its row and its not-found entry to the two texts. */
  lemma RunAppendsLine(config: Config, headers: seq<string>, lines: seq<string>, line: string, engine: Engine)
    requires DistinctKeys(config) && IsKeyOrder(headers, config)
    requires Run(config, headers, lines, engine).Ok?
    ensures Compile(config, engine.compile).Ok?
    ensures var before, after := Run(config, headers, lines, engine), Run(config, headers, lines + [line], engine);
            var out := LineOutput(Compile(config, engine.compile).value, headers, line, engine.find);
            && (after.Ok? <==> out.Ok?)
            && (after.Ok? ==> after.value == Output(before.value.primary + out.value.0, before.value.notFound + out.value.1))
  {
    var table := Compile(config, engine.compile).value;
    assert InTable(headers, table);
    var header := Join(headers) + "\n";
    ProcessSnoc(table, headers, lines, line, engine.find);
    var (rows, notFound) := Process(table, headers, lines, engine.find).value;
    assert Run(config, headers, lines, engine) == Ok(Output(header + rows, notFound));
    var out := LineOutput(table, headers, line, engine.find);
    if out.Ok? {
      var (row, entry) := out.value;
      assert Process(table, headers, lines + [line], engine.find) == Ok((rows + row, notFound + entry));
      assert header + (rows + row) == (header + rows) + row;
      assert Run(config, headers, lines + [line], engine) == Ok(Output(header + (rows + row), notFound + entry));
    } else {
      assert Process(table, headers, lines + [line], engine.find).Err?;
    }
  }

  /** With no input lines the primary text is the header row alone and nothing is not-found. */
  lemma NoLines(config: Config, headers: seq<string>, engine: Engine)
    requires DistinctKeys(config) && IsKeyOrder(headers, config)
    ensures Run(config, headers, [], engine).Ok? <==> Compile(config, engine.compile).Ok?
    ensures Run(config, headers, [], engine).Ok? ==> Run(config, headers, [], engine).value == Output(Join(headers) + "\n", "")
  {
    var p := Join(headers) + "\n";
    assert p + "" == p;
  }

  /** `n` newline characters. */
  function Newlines(n: nat): string
  {
    seq(n, _ => '\n')
  }

  lemma {:induction false} ProcessNoFields(table: Table, lines: seq<string>, find: (Pattern, string) -> Option<JString>)
    ensures Process(table, [], lines, find) == Ok((Newlines(|lines|), ""))
  {
    if |lines| > 0 {
      var init := lines[..|lines| - 1];
      ProcessNoFields(table, init, find);
      assert RowValues(table, [], lines[|lines| - 1], find) == Ok([]);
      assert Renders([]) == [] && Join([]) == "" && FullyExtracted([]);
      assert "" + "\n" == "\n";
      assert LineOutput(table, [], lines[|lines| - 1], find) == Ok(("\n", ""));
      assert Newlines(|init|) + "\n" == Newlines(|lines|);
      assert "" + "" == "";
    }
  }

  /** With no fields the header and every row are empty lines and every line counts as fully extracted. */
  lemma NoFields(lines: seq<string>, engine: Engine)
    ensures Run([], [], lines, engine) == Ok(Output(Newlines(|lines| + 1), ""))
  {
    ProcessNoFields(map[], lines, engine.find);
    assert IsKeyOrder([], []);
    assert Compile([], engine.compile) == Ok(map[]);
    assert Join([]) + "\n" + Newlines(|lines|) == Newlines(|lines| + 1);
  }

  lemma {:induction false} DistinctCount(xs: seq<string>)
    requires forall i, j :: 0 <= i < j < |xs| ==> xs[i] != xs[j]
    ensures |set i | 0 <= i < |xs| :: xs[i]| == |xs|
  {
    if |xs| > 0 {
      var init := xs[..|xs| - 1];
      DistinctCount(init);
      var s, t := set i | 0 <= i < |init| :: init[i], set i | 0 <= i < |xs| :: xs[i];
      assert t == s + {xs[|xs| - 1]} by {
        forall x | x in t ensures x in s + {xs[|xs| - 1]} {
          var i :| 0 <= i < |xs| && xs[i] == x;
          if i < |init| { assert init[i] == x; }
        }
        forall x | x in s ensures x in t {
          var i :| 0 <= i < |init| && init[i] == x;
          assert xs[i] == x;
        }
      }
      assert xs[|xs| - 1] !in s;
    }
  }

  /** The header names every distinct configured field exactly once. */
  lemma HeaderCount(headers: seq<string>, config: Config)
    requires IsKeyOrder(headers, config)
    ensures |headers| == |Keys(config)|
  {
    DistinctCount(headers);
    var s := set i | 0 <= i < |headers| :: headers[i];
    assert s == Keys(config) by {
      forall k | k in Keys(config) ensures k in s {
        var i :| 0 <= i < |headers| && headers[i] == k;
      }
    }
  }

  /**
   * Read back with `;` as the separator, the header line (without its newline)
   * names every configured field exactly once, provided there is at least one
   * field and no field name contains `;`.
   */
  lemma HeaderReadsBack(headers: seq<string>, config: Config)
    requires IsKeyOrder(headers, config) && |config| >= 1
    requires forall i :: 0 <= i < |config| ==> NoSeparator(config[i].0)
    ensures var header := Join(headers) + "\n";
            var names := Split(header[..|header| - 1]);
            && |names| == |Keys(config)|
            && (forall k :: k in Keys(config) <==> k in names)
            && (forall i, j :: 0 <= i < j < |names| ==> names[i] != names[j])
  {
    HeaderCount(headers, config);
    assert config[0].0 in Keys(config);
    forall i | 0 <= i < |headers| ensures NoSeparator(headers[i]) {
      var j :| 0 <= j < |config| && config[j].0 == headers[i];
    }
    SplitJoin(headers);
    var header := Join(headers) + "\n";
    assert header[..|header| - 1] == Join(headers);
  }

  /**
   * Read back with `;` as the separator, a row gives exactly one piece per field,
   * the rendered values in `headers` order, provided no value contains `;`
   * (separators inside values are not escaped).
   */
  lemma RowReadsBack(table: Table, headers: seq<string>, line: string, find: (Pattern, string) -> Option<JString>)
    requires InTable(headers, table) && |headers| >= 1
    requires forall i :: 0 <= i < |headers| ==>
               Value(table, headers[i], line, find).Ok? && NoSeparator(Render(Value(table, headers[i], line, find).value))
    ensures LineOutput(table, headers, line, find).Ok?
    ensures var row := LineOutput(table, headers, line, find).value.0;
            && |row| >= 1 && row[|row| - 1] == '\n'
            && |Split(row[..|row| - 1])| == |headers|
            && forall i :: 0 <= i < |headers| ==> Split(row[..|row| - 1])[i] == Render(Value(table, headers[i], line, find).value)
  {
    RowValuesSpec(table, headers, line, find);
    var values := RowValues(table, headers, line, find).value;
    var rs := Renders(values);
    SplitJoin(rs);
    var row := Join(rs) + "\n";
    assert row[..|row| - 1] == Join(rs);
  }

  /**
   * A field whose group 1 took no part in the match is printed as the text `null`,
   * yet counts as blank: its line goes to the not-found text although its row shows a value.
   */
  lemma NullCapture(table: Table, headers: seq<string>, line: string, find: (Pattern, string) -> Option<JString>, i: nat)
    requires InTable(headers, table) && i < |headers|
    requires LineOutput(table, headers, line, find).Ok?
    requires Value(table, headers[i], line, find) == Ok(Null)
    ensures Renders(RowValues(table, headers, line, find).value)[i] == "null"
    ensures LineOutput(table, headers, line, find).value.1 == line + "\n"
  {
    RowValuesSpec(table, headers, line, find);
  }
}
