/** `write_cpp_op`: renders `<project>_op.cpp` from the main layer's template, one output chunk
    per template line. A line holding a marker is replaced by generated text; any other line is
    written as it is. The output file is modelled as the sequence of chunks written to it. */
module CppOpWriter {
  import opened Wrappers
  import opened PyStr
  import opened HlsModel
  import opened TypeRegistry
  import opened ConfigTypedef

  const DefinesSentinel := "//hls4ml insert defines"
  const ParametersSentinel := "//hls4ml insert parameters"
  const TypedefSentinel := "//hls4ml insert typedef-config"
  const IoTypeSentinel := "//hls4ml insert io-type"

  /** The branch of the dispatch chain that handles a template line. */
  datatype Marker = Defines | Parameters | TypedefConfig | IoType | Plain

  /** The first sentinel the line contains, in the order the chain tests them. */
  function MarkerOf(line: string): Marker
  {
    if Contains(line, DefinesSentinel) then Defines
    else if Contains(line, ParametersSentinel) then Parameters
    else if Contains(line, TypedefSentinel) then TypedefConfig
    else if Contains(line, IoTypeSentinel) then IoType
    else Plain
  }

  /** Every layer's `op_defines_cpp` that is not None, in graph order. */
  function OpDefines(layers: seq<Layer>): string
  {
    if layers == [] then ""
    else
      var last := layers[|layers| - 1];
      OpDefines(layers[..|layers| - 1]) + (if last.opDefines.Some? then last.opDefines.value else "")
  }

  /** The operator name: the project name as it is, then `_`, then the lower-cased Stamp. */
  function OpName(config: ModelConfig): string
  {
    config.projectName + "_" + Lower(config.stamp)
  }

  /** The text the defines marker is replaced with. */
  function DefinesBlock(m: Model): string
  {
    RenderAll(Registry(AllTypes(m.layers))) + OpDefines(m.layers) + NameLine(m.config)
  }

  /** The line that names the operator, after a blank line. */
  function NameLine(config: ModelConfig): string
  {
    "\n" + "#define NAME \"" + OpName(config) + "\"\n"
  }

  /** `if config:` on a layer's `config_cpp`: present and not empty. */
  predicate HasConfig(l: Layer)
  {
    l.configCpp.Some? && l.configCpp.value != ""
  }

  /** The index of the last layer with a non-empty config, if any. */
  function LastConfigured(layers: seq<Layer>): (k: Option<nat>)
    ensures k.Some? ==> k.value < |layers| && HasConfig(layers[k.value])
    ensures k.Some? ==> forall j :: k.value < j < |layers| ==> !HasConfig(layers[j])
    ensures k.None? ==> forall j :: 0 <= j < |layers| ==> !HasConfig(layers[j])
  {
    if layers == [] then None
    else if HasConfig(layers[|layers| - 1]) then Some(|layers| - 1)
    else LastConfigured(layers[..|layers| - 1])
  }

  /** The comment naming a layer followed by its config text. */
  function ParametersBlock(l: Layer): string
    requires HasConfig(l)
  {
    "// " + l.name + "\n" + l.configCpp.value
  }

  /** The numeric code for the IO type: 1 for `io_parallel`, 2 for anything else. */
  function IoTypeCode(ioType: string): char
  {
    if Lower(ioType) == "io_parallel" then '1' else '2'
  }

  /** The text the io-type marker is replaced with; it carries no line terminator. */
  function IoTypeLine(ioType: string): string
  {
    "#define IO_TYPE " + [IoTypeCode(ioType)] + " // == " + Lower(ioType)
  }

  /** The chunk written for one template line, given the chunk written for the line before
      (None before the first line, where `newline` is still unbound). */
  function Chunk(m: Model, line: string, prev: Option<string>): Result<string, Error>
    requires |m.layers| >= 2
  {
    match MarkerOf(line)
    case Defines => Success(DefinesBlock(m))
    case Parameters =>
      (match LastConfigured(m.layers)
       case Some(k) => Success(ParametersBlock(m.layers[k]))
       case None => if prev.Some? then Success(prev.value) else Failure(NewlineUnbound))
    case TypedefConfig => TypedefBlock(m.layers[1].configCpp)
    case IoType => Success(IoTypeLine(m.config.ioType))
    case Plain => Success(line)
  }

  /** What a run writes: the chunks, and the exception that stopped it, if any. */
  datatype Output = Output(written: seq<string>, error: Option<Error>)

  function Prefixed(w: seq<string>, o: Output): Output
  {
    Output(w + o.written, o.error)
  }

  /** Rendering the template lines in order, each chunk seeing the one before it. */
  function Render(m: Model, lines: seq<string>, prev: Option<string>): Output
    requires |m.layers| >= 2
    decreases |lines|
  {
    if lines == [] then Output([], None)
    else
      match Chunk(m, lines[0], prev)
      case Failure(e) => Output([], Some(e))
      case Success(c) => Prefixed([c], Render(m, lines[1..], Some(c)))
  }

  /** The whole of `write_cpp_op`: the main layer is the second one, and its lower-cased class
      name selects the template. */
  function CppOp(m: Model, templates: map<string, seq<string>>): Output
  {
    if |m.layers| < 2 then Output([], Some(NoMainLayer))
    else
      var key := Lower(m.layers[1].className);
      if key !in templates then Output([], Some(NoTemplate(key)))
      else Render(m, templates[key], None)
  }

  /** The chunk that precedes the next one: the last written, or `prev` if none was. */
  function PrevChunk(written: seq<string>, prev: Option<string>): Option<string>
  {
    if written == [] then prev else Some(written[|written| - 1])
  }

  /** Once a first chunk `c` is written, the chunk before position `i` is the one before
      position `i - 1` of the rest, seen from `c`. */
  lemma PrevChunkShift(c: string, w: seq<string>, i: nat, prev: Option<string>)
    requires 0 < i <= |w| + 1
    ensures PrevChunk(([c] + w)[..i], prev) == PrevChunk(w[..i - 1], Some(c))
  {
    if i > 1 {
      assert ([c] + w)[..i][i - 1] == w[..i - 1][i - 2];
    } else {
      assert ([c] + w)[..i] == [c];
    }
  }

  /** Rendering writes at most one chunk per template line, and all of them exactly when
      nothing raises. */
  lemma {:induction false} RenderLength(m: Model, lines: seq<string>, prev: Option<string>)
    requires |m.layers| >= 2
    ensures var o := Render(m, lines, prev);
      |o.written| <= |lines| && (o.error.None? <==> |o.written| == |lines|)
  {
    if lines != [] {
      var r := Chunk(m, lines[0], prev);
      if r.Success? {
        RenderLength(m, lines[1..], Some(r.value));
      }
    }
  }

  /** Each written chunk is the chunk of its line, given the chunk written before it. */
  lemma {:induction false} ChunkAt(m: Model, lines: seq<string>, prev: Option<string>, i: nat)
    requires |m.layers| >= 2
    requires i < |Render(m, lines, prev).written| && i < |lines|
    ensures var o := Render(m, lines, prev);
      Chunk(m, lines[i], PrevChunk(o.written[..i], prev)) == Success(o.written[i])
  {
    var r := Chunk(m, lines[0], prev);
    if r.Success? {
      var c := r.value;
      var rest := Render(m, lines[1..], Some(c));
      assert Render(m, lines, prev) == Output([c] + rest.written, rest.error);
      if i > 0 {
        ChunkAt(m, lines[1..], Some(c), i - 1);
        assert lines[1..][i - 1] == lines[i];
        PrevChunkShift(c, rest.written, i, prev);
      } else {
        assert ([c] + rest.written)[..0] == [];
      }
    }
  }

  /** A run that raises stops at a line whose chunk raises that error, given the chunk written
      before it. */
  lemma {:induction false} RenderStop(m: Model, lines: seq<string>, prev: Option<string>)
    requires |m.layers| >= 2
    requires Render(m, lines, prev).error.Some?
    ensures var o := Render(m, lines, prev);
      |o.written| < |lines| &&
      Chunk(m, lines[|o.written|], PrevChunk(o.written, prev)) == Failure(o.error.value)
  {
    var r := Chunk(m, lines[0], prev);
    if r.Success? {
      var c := r.value;
      var rest := Render(m, lines[1..], Some(c));
      assert Render(m, lines, prev) == Output([c] + rest.written, rest.error);
      RenderStop(m, lines[1..], Some(c));
      assert lines[1..][|rest.written|] == lines[|rest.written| + 1];
      PrevChunkShift(c, rest.written, |rest.written| + 1, prev);
      assert ([c] + rest.written)[..|rest.written| + 1] == [c] + rest.written;
    }
  }

  /** Rendering writes one chunk per template line, in order, each the chunk of its line given
      the previous chunk, and stops at the first line whose chunk raises. */
  lemma RenderChunks(m: Model, lines: seq<string>, prev: Option<string>)
    requires |m.layers| >= 2
    ensures var o := Render(m, lines, prev);
      |o.written| <= |lines| &&
      (o.error.None? <==> |o.written| == |lines|) &&
      (forall i :: 0 <= i < |o.written| ==>
        Chunk(m, lines[i], PrevChunk(o.written[..i], prev)) == Success(o.written[i])) &&
      (o.error.Some? ==> Chunk(m, lines[|o.written|], PrevChunk(o.written, prev)) == Failure(o.error.value))
  {
    var o := Render(m, lines, prev);
    RenderLength(m, lines, prev);
    forall i | 0 <= i < |o.written|
      ensures Chunk(m, lines[i], PrevChunk(o.written[..i], prev)) == Success(o.written[i])
    {
      ChunkAt(m, lines, prev, i);
    }
    if o.error.Some? {
      RenderStop(m, lines, prev);
    }
  }

  /** Lines holding no sentinel come out byte-identical, and a run that raises nothing writes
      exactly one chunk per template line. */
  lemma PlainLinesPassThrough(m: Model, lines: seq<string>, prev: Option<string>)
    requires |m.layers| >= 2
    ensures var o := Render(m, lines, prev);
      (o.error.None? ==> |o.written| == |lines|) &&
      forall i :: 0 <= i < |o.written| && i < |lines| && MarkerOf(lines[i]) == Plain ==> o.written[i] == lines[i]
  {
    var o := Render(m, lines, prev);
    RenderChunks(m, lines, prev);
    forall i | 0 <= i < |o.written| && i < |lines| && MarkerOf(lines[i]) == Plain
      ensures o.written[i] == lines[i]
    {
      assert Chunk(m, lines[i], PrevChunk(o.written[..i], prev)) == Success(o.written[i]);
    }
  }

  /** The parameters branch of the chain. */
  lemma ParametersChunk(m: Model, line: string, prev: Option<string>)
    requires |m.layers| >= 2 && MarkerOf(line) == Parameters
    ensures LastConfigured(m.layers).Some? ==>
      Chunk(m, line, prev) == Success(ParametersBlock(m.layers[LastConfigured(m.layers).value]))
    ensures LastConfigured(m.layers).None? && prev.Some? ==> Chunk(m, line, prev) == Success(prev.value)
  {
  }

  /** The last layer with config text is the one after which no layer has any. */
  lemma LastConfiguredIs(layers: seq<Layer>, k: nat)
    requires k < |layers| && HasConfig(layers[k])
    requires forall j :: k < j < |layers| ==> !HasConfig(layers[j])
    ensures LastConfigured(layers) == Some(k)
  {
  }

  /** With no layer carrying config text, a parameters marker after the first line repeats the
      chunk of the line before it. */
  lemma ParametersRepeatPrevious(m: Model, lines: seq<string>, prev: Option<string>, i: nat)
    requires |m.layers| >= 2
    requires forall j :: 0 <= j < |m.layers| ==> !HasConfig(m.layers[j])
    requires 0 < i < |Render(m, lines, prev).written| && i < |lines|
    requires MarkerOf(lines[i]) == Parameters
    ensures Render(m, lines, prev).written[i] == Render(m, lines, prev).written[i - 1]
  {
    var o := Render(m, lines, prev);
    ChunkAt(m, lines, prev, i);
    assert PrevChunk(o.written[..i], prev) == Some(o.written[i - 1]);
    assert LastConfigured(m.layers).None?;
    ParametersChunk(m, lines[i], Some(o.written[i - 1]));
  }

  /** With some layer carrying config text, every parameters marker becomes the block of the
      last such layer only. */
  lemma ParametersUseLastConfigured(m: Model, lines: seq<string>, prev: Option<string>, i: nat, k: nat)
    requires |m.layers| >= 2
    requires k < |m.layers| && HasConfig(m.layers[k])
    requires forall j :: k < j < |m.layers| ==> !HasConfig(m.layers[j])
    requires i < |Render(m, lines, prev).written| && i < |lines|
    requires MarkerOf(lines[i]) == Parameters
    ensures Render(m, lines, prev).written[i] == "// " + m.layers[k].name + "\n" + m.layers[k].configCpp.value
  {
    var o := Render(m, lines, prev);
    ChunkAt(m, lines, prev, i);
    LastConfiguredIs(m.layers, k);
    ParametersChunk(m, lines[i], PrevChunk(o.written[..i], prev));
  }

  /** The conditions under which a line's chunk raises: a typedef-config marker while the main
      layer has config text with no `struct ` line, or a parameters marker on the first line
      while no layer has config text. */
  predicate Raises(m: Model, line: string, atStart: bool)
    requires |m.layers| >= 2
  {
    var config := m.layers[1].configCpp;
    (MarkerOf(line) == TypedefConfig && config.Some? && !HasStructLine(Split(config.value, '\n'))) ||
    (MarkerOf(line) == Parameters && atStart && forall j :: 0 <= j < |m.layers| ==> !HasConfig(m.layers[j]))
  }

  lemma ChunkRaises(m: Model, line: string, prev: Option<string>)
    requires |m.layers| >= 2
    ensures Chunk(m, line, prev).Failure? <==> Raises(m, line, prev.None?)
  {
    TypedefOutcome(m.layers[1].configCpp);
  }

  /** A run over the template raises exactly when some line's chunk raises; only the first line
      can hit an unbound `newline`. */
  lemma {:induction false} RenderRaises(m: Model, lines: seq<string>, prev: Option<string>)
    requires |m.layers| >= 2
    ensures Render(m, lines, prev).error.Some? <==>
      exists i :: 0 <= i < |lines| && Raises(m, lines[i], i == 0 && prev.None?)
  {
    if lines != [] {
      ChunkRaises(m, lines[0], prev);
      match Chunk(m, lines[0], prev)
      case Failure(e) =>
        assert Raises(m, lines[0], 0 == 0 && prev.None?);
      case Success(c) =>
        RenderRaises(m, lines[1..], Some(c));
        if Render(m, lines, prev).error.Some? {
          var i :| 0 <= i < |lines[1..]| && Raises(m, lines[1..][i], i == 0 && Some(c).None?);
          assert Raises(m, lines[i + 1], i + 1 == 0 && prev.None?);
        }
        if exists i :: 0 <= i < |lines| && Raises(m, lines[i], i == 0 && prev.None?) {
          var i :| 0 <= i < |lines| && Raises(m, lines[i], i == 0 && prev.None?);
          assert i > 0;
          assert Raises(m, lines[1..][i - 1], i - 1 == 0 && Some(c).None?);
        }
    }
  }

  /** The io-type line: code 1 exactly for `io_parallel` (in any letter case), 2 otherwise, the
      lower-cased value as a trailing comment, and no line terminator of its own. */
  lemma IoTypeLineFormat(ioType: string)
    ensures var r := IoTypeLine(ioType);
      |r| == 24 + |ioType| &&
      r[..16] == "#define IO_TYPE " && r[17..24] == " // == " &&
      (r[16] == '1' <==> Lower(ioType) == "io_parallel") &&
      (r[16] == '2' <==> Lower(ioType) != "io_parallel") &&
      r[24..] == Lower(ioType) &&
      ('\n' !in ioType ==> '\n' !in r)
  {
    var r := IoTypeLine(ioType);
    var code := IoTypeCode(ioType);
    var head := "#define IO_TYPE " + [code] + " // == ";
    IoTypeHead(code);
    assert r == head + Lower(ioType);
    assert r[..24] == head && r[24..] == Lower(ioType);
    if '\n' !in ioType {
      forall i | 0 <= i < |ioType| ensures Lower(ioType)[i] != '\n' {
        assert ioType[i] != '\n';
      }
    }
  }

  /** The fixed text around the io-type code. */
  lemma IoTypeHead(code: char)
    requires code != '\n'
    ensures var h := "#define IO_TYPE " + [code] + " // == ";
      |h| == 24 && h[..16] == "#define IO_TYPE " && h[16] == code && h[17..24] == " // == " &&
      '\n' !in h
  {
  }

  /** The op defines of a graph split in two are those of the first part followed by those of
      the second: every layer's block appears once, in graph order. */
  lemma {:induction false} OpDefinesAppend(a: seq<Layer>, b: seq<Layer>)
    ensures OpDefines(a + b) == OpDefines(a) + OpDefines(b)
  {
    if b != [] {
      var init := b[..|b| - 1];
      OpDefinesAppend(a, init);
      assert (a + b)[..|a + b| - 1] == a + init;
    } else {
      assert a + b == a;
    }
  }

  /** The operator name keeps the project name as it is and lower-cases only the Stamp:
      the Stamp part has the Stamp's length and no upper-case ASCII letter. */
  lemma OpNameFormat(config: ModelConfig)
    ensures var r := OpName(config);
      var n := |config.projectName|;
      |r| == n + 1 + |config.stamp| && r[..n] == config.projectName && r[n] == '_' &&
      r[n + 1..] == Lower(config.stamp) &&
      forall i :: n + 1 <= i < |r| ==> !('A' <= r[i] <= 'Z')
  {
    var r := OpName(config);
    var n := |config.projectName|;
    assert r[..n] == config.projectName;
    forall i | n + 1 <= i < |r| ensures !('A' <= r[i] <= 'Z') {
      assert r[i] == Lower(config.stamp)[i - n - 1];
    }
  }

  /** The layers' types all appended to the end of the graph. */
  lemma AllTypesSnocLayer(layers: seq<Layer>, l: Layer)
    ensures AllTypes(layers + [l]) == AllTypes(layers) + l.precision
  {
    assert (layers + [l])[..|layers|] == layers;
  }

  /** A later layer that only reuses registered type names and has no op defines leaves the
      defines block unchanged: no duplicate definition, no clobbered type. */
  lemma DefinesIgnoreReusedTypes(m: Model, l: Layer)
    requires forall i :: 0 <= i < |l.precision| ==> l.precision[i].name in Names(AllTypes(m.layers))
    requires l.opDefines.None?
    ensures DefinesBlock(m.(layers := m.layers + [l])) == DefinesBlock(m)
  {
    AllTypesSnocLayer(m.layers, l);
    ReuseAllChangesNothing(AllTypes(m.layers), l.precision);
    assert (m.layers + [l])[..|m.layers|] == m.layers;
    assert OpDefines(m.layers + [l]) == OpDefines(m.layers);
  }

  /** The defines branch: type definitions, then op defines, then the NAME line. */
  method BuildDefines(m: Model) returns (text: string)
    ensures text == DefinesBlock(m)
  {
    var reg := BuildRegistry(m.layers);
    text := RenderRegistry(reg);
    text := AppendOpDefines(text, m.layers);
    var opName := m.config.projectName + "_" + Lower(m.config.stamp);
    var nameLine := "\n" + "#define NAME \"" + opName + "\"\n";
    assert nameLine == NameLine(m.config);
    text := text + nameLine;
  }

  /** The op-defines loop: each layer's `op_defines_cpp`, when set, appended in layer order. */
  method AppendOpDefines(head: string, layers: seq<Layer>) returns (text: string)
    ensures text == head + OpDefines(layers)
  {
    text := head;
    var i := 0;
    while i < |layers|
      invariant 0 <= i <= |layers|
      invariant text == head + OpDefines(layers[..i])
    {
      OpDefinesSnoc(layers, i);
      var defines := layers[i].opDefines;
      if defines.Some? {
        text := text + defines.value;
      }
      i := i + 1;
    }
    assert layers[..i] == layers;
  }

  /** The op defines of one more layer. */
  lemma OpDefinesSnoc(layers: seq<Layer>, i: nat)
    requires i < |layers|
    ensures OpDefines(layers[..i + 1]) ==
      OpDefines(layers[..i]) + (if layers[i].opDefines.Some? then layers[i].opDefines.value else "")
  {
    assert layers[..i + 1][..i] == layers[..i];
  }

  /** The parameters branch: every layer with config text overwrites `newline`, so the last
      one wins; with none, `newline` keeps the value it had. */
  method WriteParameters(layers: seq<Layer>, newline: Option<string>) returns (chunk: Option<string>)
    ensures chunk == match LastConfigured(layers)
      case Some(k) => Some(ParametersBlock(layers[k]))
      case None => newline
  {
    chunk := newline;
    var j := 0;
    while j < |layers|
      invariant 0 <= j <= |layers|
      invariant chunk == match LastConfigured(layers[..j])
        case Some(k) => Some(ParametersBlock(layers[k]))
        case None => newline
    {
      assert layers[..j + 1][..j] == layers[..j];
      var config := layers[j].configCpp;
      if config.Some? && config.value != "" {
        chunk := Some("// " + layers[j].name + "\n" + config.value);
      }
      j := j + 1;
    }
    assert layers[..j] == layers;
  }

  /** One step of the dispatch chain: the chunk for `line`, given the current `newline`. */
  method WriteChunk(m: Model, line: string, newline: Option<string>) returns (r: Result<string, Error>)
    requires |m.layers| >= 2
    ensures r == Chunk(m, line, newline)
  {
    var chunk: Option<string>;
    if Contains(line, DefinesSentinel) {
      assert MarkerOf(line) == Defines;
      var text := BuildDefines(m);
      chunk := Some(text);
    } else if Contains(line, ParametersSentinel) {
      assert MarkerOf(line) == Parameters;
      chunk := WriteParameters(m.layers, newline);
    } else if Contains(line, TypedefSentinel) {
      assert MarkerOf(line) == TypedefConfig;
      var config := m.layers[1].configCpp;
      if config.None? {
        return Success("");
      }
      var structs := StructLines(Split(config.value, '\n'));
      assert StructName(config.value) == LastStructName(Split(config.value, '\n'));
      if structs == [] {
        return Failure(NoStructLine);
      }
      return Success("typedef " + DeclaredName(structs[|structs| - 1]) + " hconfig;\n");
    } else if Contains(line, IoTypeSentinel) {
      assert MarkerOf(line) == IoType;
      chunk := Some(IoTypeLine(m.config.ioType));
    } else {
      assert MarkerOf(line) == Plain;
      chunk := Some(line);
    }
    if chunk.None? {
      return Failure(NewlineUnbound);
    }
    r := Success(chunk.value);
  }

  /** Rendering from line `i` on: a line that raises stops the run, and a line with a chunk
      is followed by the rendering of the remaining lines, which see that chunk. */
  lemma RenderFrom(m: Model, lines: seq<string>, i: nat, prev: Option<string>)
    requires |m.layers| >= 2 && i < |lines|
    ensures Chunk(m, lines[i], prev).Failure? ==>
      Render(m, lines[i..], prev) == Output([], Some(Chunk(m, lines[i], prev).error))
    ensures Chunk(m, lines[i], prev).Success? ==>
      var c := Chunk(m, lines[i], prev).value;
      Render(m, lines[i..], prev) == Prefixed([c], Render(m, lines[i + 1..], Some(c)))
  {
    assert lines[i..][0] == lines[i];
    assert lines[i..][1..] == lines[i + 1..];
  }

  /** Writing one more chunk after `written` is prefixing the rest with both. */
  lemma PrefixedSnoc(written: seq<string>, c: string, o: Output)
    ensures Prefixed(written, Prefixed([c], o)) == Prefixed(written + [c], o)
  {
    assert written + ([c] + o.written) == (written + [c]) + o.written;
  }

  /** Prefixing nothing changes nothing, and an empty rendering leaves just the prefix. */
  lemma PrefixedEmpty(written: seq<string>, error: Option<Error>)
    ensures Prefixed(written, Output([], error)) == Output(written, error)
  {
    assert written + [] == written;
  }

  /** `write_cpp_op`: walks the template once, keeping the last written chunk in `newline`. */
  method WriteCppOp(m: Model, templates: map<string, seq<string>>) returns (out: Output)
    ensures out == CppOp(m, templates)
  {
    if |m.layers| < 2 {
      return Output([], Some(NoMainLayer));
    }
    var layerClass := Lower(m.layers[1].className);
    if layerClass !in templates {
      return Output([], Some(NoTemplate(layerClass)));
    }
    var template := templates[layerClass];
    var fout: seq<string> := [];
    var newline: Option<string> := None;
    var i := 0;
    assert template[0..] == template;
    PrefixedEmpty([], None);
    while i < |template|
      invariant 0 <= i <= |template|
      invariant newline == PrevChunk(fout, None)
      invariant Render(m, template, None) == Prefixed(fout, Render(m, template[i..], newline))
    {
      var r := WriteChunk(m, template[i], newline);
      RenderFrom(m, template, i, newline);
      if r.Failure? {
        PrefixedEmpty(fout, Some(r.error));
        return Output(fout, Some(r.error));
      }
      PrefixedSnoc(fout, r.value, Render(m, template[i + 1..], Some(r.value)));
      newline := Some(r.value);
      fout := fout + [r.value];
      i := i + 1;
    }
    assert template[i..] == [];
    PrefixedEmpty(fout, None);
    out := Output(fout, None);
  }
}
