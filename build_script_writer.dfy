/** `write_build_script`: renders `build_op.sh` from its template. Lines naming the operator
    source, the target library and the two TensorFlow flag variables are replaced; the OpenMP
    flag line is blanked when the model turns `Parallel` off; every other line is copied. */
module BuildScriptWriter {
  import opened Wrappers
  import opened PyStr
  import opened HlsModel

  /** `Parallel` from the `Model` section of `HLSConfig`; true when the section or the key is
      absent. */
  function ParallelSetting(config: ModelConfig): bool
  {
    match config.modelSection
    case None => true
    case Some(section) => if "Parallel" in section then section["Parallel"] else true
  }

  /** The branch of the dispatch chain that handles a build-script line. */
  datatype BuildMarker = OpSrc | TargetLib | TfCflags | TfLflags | OmpFlags | Plain

  /** The first rule that applies to the line, in the order the chain tests them. */
  function BuildMarkerOf(line: string, parallel: bool): BuildMarker
  {
    if Contains(line, "OP_SRC=") then OpSrc
    else if Contains(line, "TARGET_LIB=") then TargetLib
    else if Contains(line, "TF_CFLAGS=") then TfCflags
    else if Contains(line, "TF_LFLAGS=") then TfLflags
    else if Contains(line, "OMPFLAGS=") && !parallel then OmpFlags
    else Plain
  }

  /** The line written for one template line. The compile and link flags are the lists the
      TensorFlow installation reports. */
  function BuildLine(config: ModelConfig, line: string, parallel: bool,
                     cflags: seq<string>, lflags: seq<string>): string
  {
    match BuildMarkerOf(line, parallel)
    case OpSrc => "OP_SRC=" + config.projectName + "_op.cpp\n"
    case TargetLib => "TARGET_LIB=" + config.projectName + "_op-" + config.stamp + ".so\n"
    case TfCflags => "TF_CFLAGS=\"" + Join(cflags, ' ') + "\"\n"
    case TfLflags => "TF_LFLAGS=\"" + Join(lflags, ' ') + "\"\n"
    case OmpFlags => "OMPFLAGS=\n"
    case Plain => line
  }

  /** An `OMPFLAGS=` line that no earlier rule claims is blanked exactly when the model's
      `Model` section sets `Parallel` to false, and copied unchanged otherwise, including when
      the section or the key is missing. */
  lemma OmpFlagsBlankedOnlyWhenParallelOff(config: ModelConfig, line: string,
                                           cflags: seq<string>, lflags: seq<string>)
    requires Contains(line, "OMPFLAGS=")
    requires !Contains(line, "OP_SRC=") && !Contains(line, "TARGET_LIB=")
    requires !Contains(line, "TF_CFLAGS=") && !Contains(line, "TF_LFLAGS=")
    ensures var explicitlyOff := config.modelSection.Some? &&
        "Parallel" in config.modelSection.value && !config.modelSection.value["Parallel"];
      BuildLine(config, line, ParallelSetting(config), cflags, lflags) ==
        (if explicitlyOff then "OMPFLAGS=\n" else line)
  {
  }

  /** A line matching none of the rules is copied unchanged, whatever `Parallel` is. */
  lemma PlainBuildLinesPassThrough(config: ModelConfig, line: string, parallel: bool,
                                   cflags: seq<string>, lflags: seq<string>)
    requires !Contains(line, "OP_SRC=") && !Contains(line, "TARGET_LIB=")
    requires !Contains(line, "TF_CFLAGS=") && !Contains(line, "TF_LFLAGS=")
    requires !Contains(line, "OMPFLAGS=")
    ensures BuildLine(config, line, parallel, cflags, lflags) == line
  {
  }

  /** The quoted value of a `TF_CFLAGS=` line splits at spaces back into the reported compile
      flags, when there is at least one and none holds a space. */
  lemma CompileFlagsRecoverable(config: ModelConfig, line: string, parallel: bool,
                                cflags: seq<string>, lflags: seq<string>)
    requires BuildMarkerOf(line, parallel) == TfCflags
    requires |cflags| >= 1 && forall i :: 0 <= i < |cflags| ==> ' ' !in cflags[i]
    ensures var r := BuildLine(config, line, parallel, cflags, lflags);
      |r| >= 13 && r[..11] == "TF_CFLAGS=\"" && r[|r| - 2..] == "\"\n" &&
      Split(r[11..|r| - 2], ' ') == cflags
  {
    var j := Join(cflags, ' ');
    var r := BuildLine(config, line, parallel, cflags, lflags);
    assert r == "TF_CFLAGS=\"" + j + "\"\n";
    assert r[11..|r| - 2] == j;
    SplitJoin(cflags, ' ');
  }

  /** The same for the link flags of a `TF_LFLAGS=` line. */
  lemma LinkFlagsRecoverable(config: ModelConfig, line: string, parallel: bool,
                             cflags: seq<string>, lflags: seq<string>)
    requires BuildMarkerOf(line, parallel) == TfLflags
    requires |lflags| >= 1 && forall i :: 0 <= i < |lflags| ==> ' ' !in lflags[i]
    ensures var r := BuildLine(config, line, parallel, cflags, lflags);
      |r| >= 13 && r[..11] == "TF_LFLAGS=\"" && r[|r| - 2..] == "\"\n" &&
      Split(r[11..|r| - 2], ' ') == lflags
  {
    var j := Join(lflags, ' ');
    var r := BuildLine(config, line, parallel, cflags, lflags);
    assert r == "TF_LFLAGS=\"" + j + "\"\n";
    assert r[11..|r| - 2] == j;
    SplitJoin(lflags, ' ');
  }

  /** `write_build_script`: one output line per template line, each rewritten by the rules. */
  method WriteBuildScript(config: ModelConfig, template: seq<string>,
                          cflags: seq<string>, lflags: seq<string>) returns (written: seq<string>)
    ensures |written| == |template|
    ensures forall i :: 0 <= i < |template| ==>
      written[i] == BuildLine(config, template[i], ParallelSetting(config), cflags, lflags)
  {
    var parallel := true;
    var modelConfig := config.modelSection;
    if modelConfig.Some? {
      parallel := if "Parallel" in modelConfig.value then modelConfig.value["Parallel"] else true;
    }
    written := [];
    var i := 0;
    while i < |template|
      invariant 0 <= i <= |template|
      invariant |written| == i
      invariant forall k :: 0 <= k < i ==>
        written[k] == BuildLine(config, template[k], parallel, cflags, lflags)
    {
      var line := template[i];
      var newline;
      if Contains(line, "OP_SRC=") {
        newline := "OP_SRC=" + config.projectName + "_op.cpp\n";
      } else if Contains(line, "TARGET_LIB=") {
        newline := "TARGET_LIB=" + config.projectName + "_op-" + config.stamp + ".so\n";
      } else if Contains(line, "TF_CFLAGS=") {
        newline := "TF_CFLAGS=\"" + Join(cflags, ' ') + "\"\n";
      } else if Contains(line, "TF_LFLAGS=") {
        newline := "TF_LFLAGS=\"" + Join(lflags, ' ') + "\"\n";
      } else if Contains(line, "OMPFLAGS=") && !parallel {
        newline := "OMPFLAGS=\n";
      } else {
        newline := line;
      }
      written := written + [newline];
      i := i + 1;
    }
  }
}
