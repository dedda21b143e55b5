# hls4ml training-operator writer, in Dafny

This project models the template rewriting done by `VivadoTrainWriter` in hls4ml. The writer
turns a converted model into the C++ source of a TensorFlow custom operator and the shell script
that builds it. It has two rewriters, and both read a template line by line:

- `write_cpp_op` fills in `<project>_op.cpp`. Four marker lines are replaced: defines,
  parameters, typedef-config and io-type. Every other line is copied.
  - The defines block holds every precision type's definition once, in first-seen order. Then
    come the layers' op defines, then a `#define NAME` line.
  - The parameters block holds the config text of the last layer that has some.
  - The typedef block aliases the struct that the main layer's config text declares last.
  - The io-type line encodes the IO type as 1 or 2.
- `write_build_script` fills in `build_op.sh`. It rewrites the source, library and TensorFlow
  flag lines, and blanks the OpenMP flags when `Parallel` is off.

Modules:

- `Wrappers`: `Option` and `Result`.
- `PyStr`: the Python `str` operations the writer uses. These are `in`, `startswith`, `lower`,
  `split`, `join`, `replace` and `strip`, each with its Python semantics for one-character
  separators and non-empty patterns (`lower` for ASCII letters only). `join` with a
  one-character separator is the general `JoinWith`, so `split`, `join` and `replace` are all
  stated against the same join.
- `HlsModel`: what the writer reads. This is the ordered layers (class name, name, precision
  entries, optional `op_defines_cpp` and `config_cpp`), the configuration values, and the errors
  the writer can raise.
- `TypeRegistry`: the insertion-ordered precision registry of the defines branch.
- `ConfigTypedef`: the struct-name extractor of the typedef-config branch.
- `CppOpWriter`: the marker dispatch and the whole of `write_cpp_op`.
- `BuildScriptWriter`: `write_build_script`.

The output file is modelled as the sequence of chunks written to it.

- `CppOpWriter.WriteCppOp` is the loop of the source. It keeps the last chunk in `newline`, as
  the source does.
- It is proved equal to the function `CppOp`, which renders the template line by line.
- The lemmas about `Render`, `Chunk`, the registry and the extractor state what the writer
  promises.

An exception the source raises is modelled as an `Error` in the output, together with the chunks
written before it:

- fewer than two layers;
- no template for the main layer's class;
- a config text without a `struct ` line;
- `newline` used before it was assigned.

Where the writer's documented intent and its code differ, the model follows the code:

- The IO type gets code 1 only when its lower-cased value is exactly `io_parallel`. Every other
  value, including unknown ones, gets 2 and is not rejected.
- The struct name is cut only at the first `:`. A line such as `struct config2 {` therefore
  yields `config2 {`, brace included, and every `struct` inside the remaining text is deleted
  too. `ConfigTypedef.ColonlessDeclarationKeepsBody` and `ConfigTypedef.EveryStructInNameDeleted`
  state both effects.
- Only lines with no leading whitespace can be struct lines.
- A config text with no struct line raises. This includes an empty config text, which differs
  from a missing one.
- The parameters marker emits only the last configured layer's block. When no layer has config
  text, it repeats the previous chunk, and on the first template line it raises.
- The io-type text has no line terminator. Whatever the template has on the line after the
  marker therefore continues the `// ==` comment.

## Model

| member | source | states |
|---|---|---|
| PyStr.StartsWith | hls4ml/writer/vivado_train_writer.py:67 | `s.startswith(prefix)`: the prefix fits in `s` and equals its first characters |
| PyStr.Contains | hls4ml/writer/vivado_train_writer.py:31 | `sub in s`: `sub` starts at some position of `s` |
| PyStr.ContainsIffOccurs | hls4ml/writer/vivado_train_writer.py:31 | `sub in s` holds exactly when `sub` occurs at some position of `s` |
| PyStr.IsSpace | hls4ml/writer/vivado_train_writer.py:68 | the characters `strip()` removes, those for which `str.isspace()` holds |
| PyStr.Lower | hls4ml/writer/vivado_train_writer.py:23 | `lower()` keeps the length and lower-cases each character independently |
| PyStr.LeadingSpaces | hls4ml/writer/vivado_train_writer.py:68 | the count of leading whitespace characters: all of them are whitespace, and the next one is not |
| PyStr.TrailingSpaces | hls4ml/writer/vivado_train_writer.py:68 | the same for the trailing whitespace |
| PyStr.Strip | hls4ml/writer/vivado_train_writer.py:68 | `strip()` leaves no whitespace at either end, and is empty exactly when the text is all whitespace |
| PyStr.StripPadded | hls4ml/writer/vivado_train_writer.py:68 | stripping whitespace padding recovers the unpadded core |
| PyStr.Split | hls4ml/writer/vivado_train_writer.py:67-68 | `split(sep)` yields at least one part, and no part holds the separator |
| PyStr.Join | hls4ml/writer/vivado_train_writer.py:106-108 | `sep.join(parts)` for a one-character separator: `JoinWith` with that character as glue |
| PyStr.JoinSplit | hls4ml/writer/vivado_train_writer.py:106-108 | joining the parts of a split restores the text |
| PyStr.SplitAfterPrefix | hls4ml/writer/vivado_train_writer.py:68 | a prefix without the separator becomes the head of the first part |
| PyStr.SplitJoin | hls4ml/writer/vivado_train_writer.py:106-108 | splitting a join of separator-free parts restores the parts |
| PyStr.Replace | hls4ml/writer/vivado_train_writer.py:68 | `s.replace(pat, rep)`: every leftmost non-overlapping occurrence of `pat` replaced by `rep` |
| PyStr.JoinWith | hls4ml/writer/vivado_train_writer.py:68 | `glue.join(parts)` for any glue text, the reference against which `replace` is stated |
| PyStr.ReplaceAbsent | hls4ml/writer/vivado_train_writer.py:68 | `replace` leaves a text that does not contain the pattern unchanged |
| PyStr.ReplaceJoinWith | hls4ml/writer/vivado_train_writer.py:68 | for a pattern whose first character does not recur in it, replacing it in parts joined by it, none of which contains it, gives the parts joined by the replacement |
| TypeRegistry.Names | hls4ml/writer/vivado_train_writer.py:39 | the names of the entries, position by position |
| TypeRegistry.FirstIndex | hls4ml/writer/vivado_train_writer.py:39-40 | the position of the first entry carrying a name, and no earlier entry carries it |
| TypeRegistry.AllTypes | hls4ml/writer/vivado_train_writer.py:34-36 | every layer's precision entries, layer by layer in graph order, each layer's in its mapping's order: the order the nested loop offers them |
| TypeRegistry.Register | hls4ml/writer/vivado_train_writer.py:39-40 | one check-then-insert step: a new name is appended, a known one changes nothing |
| TypeRegistry.Registry | hls4ml/writer/vivado_train_writer.py:33-40 | the `OrderedDict` after every layer's entries were offered in order |
| TypeRegistry.RenderAll | hls4ml/writer/vivado_train_writer.py:41-42 | the registered definitions concatenated in registry order |
| TypeRegistry.RegistryNames | hls4ml/writer/vivado_train_writer.py:33-40 | a name is registered exactly when some layer's precision mentions it |
| TypeRegistry.RegistryNoDuplicates | hls4ml/writer/vivado_train_writer.py:33-40 | the registry holds each type name at most once |
| TypeRegistry.RegistryFirstSeen | hls4ml/writer/vivado_train_writer.py:36-40 | each registered type is the first entry, in layer order, carrying its name |
| TypeRegistry.RegistryOrder | hls4ml/writer/vivado_train_writer.py:33-42 | registry order is the order of first occurrence |
| TypeRegistry.ReuseChangesNothing | hls4ml/writer/vivado_train_writer.py:37-40 | a later entry with a registered name neither adds nor replaces a type |
| TypeRegistry.ReuseAllChangesNothing | hls4ml/writer/vivado_train_writer.py:37-40 | the same for any run of such entries |
| TypeRegistry.RegistryStep | hls4ml/writer/vivado_train_writer.py:36-40 | the next entry of a layer's mapping is one check-then-insert step after those before it |
| TypeRegistry.RenderAllAppend | hls4ml/writer/vivado_train_writer.py:41-42 | the definitions text of two runs of types is their texts in order |
| TypeRegistry.RenderAllAt | hls4ml/writer/vivado_train_writer.py:41-42 | each registered definition appears between those registered before and after it |
| TypeRegistry.RegisterLayer | hls4ml/writer/vivado_train_writer.py:36-40 | the inner loop extends the registry by one layer's mapping, appending only unregistered names |
| TypeRegistry.BuildRegistry | hls4ml/writer/vivado_train_writer.py:33-40 | the nested loop fills the registry in place with exactly the first-seen types |
| TypeRegistry.RenderRegistry | hls4ml/writer/vivado_train_writer.py:41-42 | the loop concatenates every registered definition in registry order |
| ConfigTypedef.StructLines | hls4ml/writer/vivado_train_writer.py:67 | the config lines that start with `struct `, in order |
| ConfigTypedef.DeclaredName | hls4ml/writer/vivado_train_writer.py:68 | the first colon field of a line, with `struct` deleted, stripped |
| ConfigTypedef.LastStructName | hls4ml/writer/vivado_train_writer.py:67-68 | the name from the last struct line, or none where `structs[-1]` raises `IndexError` |
| ConfigTypedef.StructName | hls4ml/writer/vivado_train_writer.py:67-68 | the config text split at newlines, then the name of its last struct line |
| ConfigTypedef.TypedefBlock | hls4ml/writer/vivado_train_writer.py:59-71 | the typedef-config chunk, or the error raised for a config without a struct line |
| ConfigTypedef.StructLinesEmpty | hls4ml/writer/vivado_train_writer.py:67 | the `struct ` filter is empty exactly when no line starts with `struct ` |
| ConfigTypedef.StructLinesLast | hls4ml/writer/vivado_train_writer.py:67-68 | `structs[-1]` is the last line starting with `struct ` |
| ConfigTypedef.LastStructNameSpec | hls4ml/writer/vivado_train_writer.py:67-68 | a name is found exactly when some line starts with `struct `, and it comes from the last such line |
| ConfigTypedef.TypedefOutcome | hls4ml/writer/vivado_train_writer.py:59-71 | no config gives empty text; a config raises exactly when no line starts with `struct `; otherwise it gives `typedef <name> hconfig;` with the last struct line's name |
| ConfigTypedef.NoStructAcrossSpace | hls4ml/writer/vivado_train_writer.py:68 | a space cannot be part of `struct`, so two texts without it joined at a space hold none |
| ConfigTypedef.ReplaceLeadingKeyword | hls4ml/writer/vivado_train_writer.py:68 | deleting `struct` from the keyword followed by text without it leaves that text |
| ConfigTypedef.FirstFieldWithoutColon | hls4ml/writer/vivado_train_writer.py:68 | the text before the first colon of a colon-free line is the whole line |
| ConfigTypedef.FirstFieldBeforeColon | hls4ml/writer/vivado_train_writer.py:68 | the first colon field of a line is everything before its first colon |
| ConfigTypedef.DeclaredNameOfDeclaration | hls4ml/writer/vivado_train_writer.py:68 | on `struct NAME : ...` the extractor yields exactly NAME, for an identifier not containing `struct` |
| ConfigTypedef.ColonlessDeclarationKeepsBody | hls4ml/writer/vivado_train_writer.py:68 | on `struct NAME BODY` without a colon, name and body without `struct`, the extractor keeps everything after the keyword, brace included |
| ConfigTypedef.EveryStructInNameDeleted | hls4ml/writer/vivado_train_writer.py:68 | every `struct` in the name is deleted, not only the keyword: parts joined by `struct` come out run together |
| CppOpWriter.MarkerOf | hls4ml/writer/vivado_train_writer.py:31-73 | the first marker the line contains, in the order the branches test them |
| CppOpWriter.DefinesBlock | hls4ml/writer/vivado_train_writer.py:31-50 | the type definitions, then the op defines, then the NAME line |
| CppOpWriter.OpDefines | hls4ml/writer/vivado_train_writer.py:44-47 | every set `op_defines_cpp`, in layer order |
| CppOpWriter.OpName | hls4ml/writer/vivado_train_writer.py:49 | the project name, `_`, the lower-cased Stamp |
| CppOpWriter.HasConfig | hls4ml/writer/vivado_train_writer.py:55 | `if config:` holds exactly for a present, non-empty config text |
| CppOpWriter.NameLine | hls4ml/writer/vivado_train_writer.py:50 | a blank line, then `#define NAME "<op name>"` |
| CppOpWriter.LastConfigured | hls4ml/writer/vivado_train_writer.py:53-57 | the index of the last layer with non-empty config text, or none when no layer has any |
| CppOpWriter.ParametersBlock | hls4ml/writer/vivado_train_writer.py:56-57 | `// <name>`, a line break, then the layer's config text |
| CppOpWriter.IoTypeCode | hls4ml/writer/vivado_train_writer.py:75 | `1` for `io_parallel`, `2` otherwise |
| CppOpWriter.IoTypeLine | hls4ml/writer/vivado_train_writer.py:76 | the formatted io-type line |
| CppOpWriter.Chunk | hls4ml/writer/vivado_train_writer.py:31-79 | the chunk each branch leaves in `newline`, or the error it raises |
| CppOpWriter.Render | hls4ml/writer/vivado_train_writer.py:29-80 | the chunks written for a run of template lines, up to the first error |
| CppOpWriter.CppOp | hls4ml/writer/vivado_train_writer.py:16-83 | the whole writer: fewer than two layers or a missing template raise, otherwise the rendering of the template |
| CppOpWriter.RenderChunks | hls4ml/writer/vivado_train_writer.py:29-80 | one chunk per template line in order, each the chunk of its line given the previous chunk, stopping at the first line that raises |
| CppOpWriter.PlainLinesPassThrough | hls4ml/writer/vivado_train_writer.py:78-80 | lines holding no marker are written unchanged |
| CppOpWriter.ParametersRepeatPrevious | hls4ml/writer/vivado_train_writer.py:52-57 | with no configured layer, a parameters marker writes the previous chunk again |
| CppOpWriter.ParametersUseLastConfigured | hls4ml/writer/vivado_train_writer.py:52-57 | otherwise every parameters marker writes `// <name>` and the config text of the last configured layer only |
| CppOpWriter.ChunkRaises | hls4ml/writer/vivado_train_writer.py:52-71 | a line raises exactly on a typedef marker whose config lacks a struct line, or on a first-line parameters marker with no configured layer |
| CppOpWriter.RenderRaises | hls4ml/writer/vivado_train_writer.py:29-80 | a run raises exactly when one of its lines does |
| CppOpWriter.IoTypeLineFormat | hls4ml/writer/vivado_train_writer.py:74-76 | the literal `#define IO_TYPE `, then `k`, then the literal ` // == `, then the lower-cased IO type, with `k` 1 exactly for `io_parallel` and 2 otherwise, and no line terminator |
| CppOpWriter.OpDefinesAppend | hls4ml/writer/vivado_train_writer.py:44-47 | every layer's op defines appear once, in layer order |
| CppOpWriter.OpNameFormat | hls4ml/writer/vivado_train_writer.py:49 | the operator name is the project name unchanged, `_`, then exactly the lower-cased Stamp, which holds no upper-case letter |
| CppOpWriter.DefinesIgnoreReusedTypes | hls4ml/writer/vivado_train_writer.py:33-50 | a later layer that only reuses registered types and has no op defines leaves the defines block unchanged |
| CppOpWriter.BuildDefines | hls4ml/writer/vivado_train_writer.py:31-50 | the defines branch writes the registered definitions, then the op defines, then the NAME line |
| CppOpWriter.AppendOpDefines | hls4ml/writer/vivado_train_writer.py:44-47 | the op-defines loop appends every set `op_defines_cpp` in layer order |
| CppOpWriter.WriteParameters | hls4ml/writer/vivado_train_writer.py:52-57 | the parameters loop leaves the last configured layer's block in `newline`, or leaves `newline` as it was |
| CppOpWriter.WriteChunk | hls4ml/writer/vivado_train_writer.py:31-79 | one pass of the dispatch chain computes the line's chunk or its error |
| CppOpWriter.WriteCppOp | hls4ml/writer/vivado_train_writer.py:16-83 | the writer's output is the rendering of the main layer's template, with the error that stopped it |
| BuildScriptWriter.ParallelSetting | hls4ml/writer/vivado_train_writer.py:95-98 | `Parallel` from the `Model` entry, true when the entry or the key is missing |
| BuildScriptWriter.BuildMarkerOf | hls4ml/writer/vivado_train_writer.py:101-112 | the first rule whose test the line passes |
| BuildScriptWriter.BuildLine | hls4ml/writer/vivado_train_writer.py:101-112 | the line each rule writes |
| BuildScriptWriter.OmpFlagsBlankedOnlyWhenParallelOff | hls4ml/writer/vivado_train_writer.py:95-110 | an `OMPFLAGS=` line is blanked exactly when `Parallel` is set to false, and kept when the section or key is missing |
| BuildScriptWriter.PlainBuildLinesPassThrough | hls4ml/writer/vivado_train_writer.py:111-112 | lines matching no rule are copied unchanged |
| BuildScriptWriter.CompileFlagsRecoverable | hls4ml/writer/vivado_train_writer.py:105-106 | the quoted `TF_CFLAGS` value splits at spaces back into the compile flags |
| BuildScriptWriter.LinkFlagsRecoverable | hls4ml/writer/vivado_train_writer.py:107-108 | the same for `TF_LFLAGS` and the link flags |
| BuildScriptWriter.WriteBuildScript | hls4ml/writer/vivado_train_writer.py:85-117 | one output line per template line, each rewritten by the first rule that applies |

## Left out

- `write_project_dir`, `write_nnet_utils` and `write_hls` create directories, copy files and
  call the writers in a fixed order. They are pure file-system work and are not modelled.
- Opening, reading and closing the template and output files is not modelled. The templates are
  a map from the lower-cased class name to their lines. The output is the sequence of written
  chunks.
- The TensorFlow compile and link flags are parameters of `BuildScriptWriter.WriteBuildScript`.
  They are reported by the TensorFlow installation, which is not part of this model.
- The layer objects, `get_layer_precision`, `definition_cpp()`, `get_attr` and the base writer
  class are not part of this model. Each precision type is its name and its definition text.
  The precision mapping of a layer is a sequence in the mapping's order.
- `PyStr.Lower` lower-cases ASCII letters only. Python's `lower()` also maps other Unicode
  letters, which do not occur in the configuration names this writer reads.
- `BuildScriptWriter.ParallelSetting` takes `Parallel` as a boolean. The source tests Python
  truthiness of whatever value the configuration holds.
- A configuration without an `HLSConfig` section raises a `KeyError` in the source. The model
  always has the section, possibly without a `Model` entry.
- `Stamp` and `IOType` are always strings here. A missing value would make `lower()` raise.
- The end-to-end test `test/pytest/test_upsampling.py` compiles and runs a model on random
  floating-point data. It involves an external toolchain and numerics, not this writer.
