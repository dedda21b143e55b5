/** What the writer reads from the converted model: the ordered layer list and the
    configuration values. Everything here is built by the graph builder before the writer
    runs and is only read by it. */
module HlsModel {
  import opened Wrappers

  /** One entry of a layer's precision mapping: the type's name and the text its
      `definition_cpp()` renders. */
  datatype TypeEntry = TypeEntry(name: string, definition: string)

  /** A layer as the writer sees it: its class name, its unique name, its precision mapping
      (in the mapping's iteration order) and the optional `op_defines_cpp` and `config_cpp`
      attributes. */
  datatype Layer = Layer(
    className: string,
    name: string,
    precision: seq<TypeEntry>,
    opDefines: Option<string>,
    configCpp: Option<string>)

  /** The configuration values the writer reads: the project name, the `Stamp`, the `IOType`
      and the optional `Model` section of `HLSConfig` (key to boolean). */
  datatype ModelConfig = ModelConfig(
    projectName: string,
    stamp: string,
    ioType: string,
    modelSection: Option<map<string, bool>>)

  datatype Model = Model(layers: seq<Layer>, config: ModelConfig)

  /** The exceptions the writer can raise. */
  datatype Error =
    | NoMainLayer               // `list(model.get_layers())[1]` on fewer than two layers
    | NoTemplate(key: string)   // no `<class>_op.cpp` template for the main layer's class
    | NoStructLine              // `structs[-1]` on a config with no `struct ` line
    | NewlineUnbound            // `fout.write(newline)` before `newline` was ever assigned
}
