/**
 * The alignment pipeline of one cactus-align run: which stages run_cactus_align
 * chains one after another, and export_vg, the stage that turns the HAL file
 * into vg/GFA graphs with hal2vg, including its two-phase sizing rule and the
 * hal2vg command line it assembles from the configuration.
 */
module AlignStages {
  import opened Wrappers
  import opened Text
  import BatchPlan

  /** The stages run_cactus_align schedules. */
  datatype Stage =
    | PafToLastz(keepSecondaries: bool)
    | PrependUniqueIds(doRenaming: bool)
    | IngroupCoverage
    | SetupPhase
    | PrepareHalExport
    | HalExport
    | ExportVg(doVG: bool, doGFA: bool)

  /** Where a stage sits in the pipeline; the follow-on chain runs in increasing rank. */
  function Rank(s: Stage): nat {
    match s
    case PafToLastz(_) => 0
    case PrependUniqueIds(_) => 1
    case IngroupCoverage => 2
    case SetupPhase => 3
    case PrepareHalExport => 4
    case HalExport => 5
    case ExportVg(_, _) => 6
  }

  /** Each stage of the chain runs strictly after the ones before it. */
  predicate InPipelineOrder(chain: seq<Stage>) {
    forall i, j | 0 <= i < j < |chain| :: Rank(chain[i]) < Rank(chain[j])
  }

  /** An alignment file reference: the one given, or an output of the PAF conversion. */
  datatype AlignmentRef = Given(name: string) | PafOutput(index: nat)

  /** The alignment inputs of the workflow arguments. */
  datatype Alignments = Alignments(primary: AlignmentRef, secondary: Option<AlignmentRef>)

  /**
   * What run_cactus_align schedules: the children of the head job, the chain
   * of follow-ons after it, the alignments the chain reads, and whether the
   * returned vg and gfa results come from an export stage (otherwise None).
   */
  datatype AlignPlan = AlignPlan(
    headChildren: seq<Stage>,
    chain: seq<Stage>,
    alignments: Alignments,
    graphResults: bool)

  /** The follow-on chain run_cactus_align builds after the head job. */
  function FollowOnChain(doRenaming: bool, hasIngroupCoverage: bool, doVG: bool, doGFA: bool): seq<Stage> {
    [PrependUniqueIds(doRenaming)]
    + (if hasIngroupCoverage then [] else [IngroupCoverage])
    + [SetupPhase, PrepareHalExport, HalExport]
    + (if doVG || doGFA then [ExportVg(doVG, doGFA)] else [])
  }

  /**
   * The chain runs in pipeline order and starts with id prepending; ingroup
   * coverage is in it exactly when no coverage was supplied; setup, HAL
   * preparation and HAL export always are; the vg/GFA export is in it exactly
   * when vg or GFA output is asked for, and is then the last stage.
   */
  lemma FollowOnChainStages(doRenaming: bool, hasIngroupCoverage: bool, doVG: bool, doGFA: bool)
    ensures var chain := FollowOnChain(doRenaming, hasIngroupCoverage, doVG, doGFA);
      && InPipelineOrder(chain)
      && chain[0] == PrependUniqueIds(doRenaming)
      && (IngroupCoverage in chain <==> !hasIngroupCoverage)
      && SetupPhase in chain && PrepareHalExport in chain && HalExport in chain
      && ((exists s | s in chain :: s.ExportVg?) <==> doVG || doGFA)
      && (doVG || doGFA ==> chain[|chain| - 1] == ExportVg(doVG, doGFA))
  {
    var chain := FollowOnChain(doRenaming, hasIngroupCoverage, doVG, doGFA);
    var c := if hasIngroupCoverage then 0 else 1;
    assert chain[c + 1] == SetupPhase && chain[c + 2] == PrepareHalExport && chain[c + 3] == HalExport;
    assert forall i | 0 <= i < |chain| :: Rank(chain[i]) == (if i == 0 then 1 else i + 2 - c);
    if !(doVG || doGFA) {
      assert forall s | s in chain :: !s.ExportVg?;
    } else {
      assert chain[|chain| - 1] in chain;
    }
  }

  /**
   * run_cactus_align: PAF input is converted (its secondary output kept only
   * when asked); then ids are prepended, ingroup coverage recomputed when
   * none was supplied, then setup, HAL preparation and HAL export, and the
   * vg/GFA export only when one of the two is asked for.
   */
  method RunCactusAlign(alignments: Alignments, hasIngroupCoverage: bool, doRenaming: bool,
                        pafInput: bool, pafSecondaries: bool, doVG: bool, doGFA: bool)
    returns (plan: AlignPlan)
    ensures plan.headChildren == if pafInput then [PafToLastz(pafSecondaries)] else []
    ensures pafInput ==> plan.alignments.primary == PafOutput(0)
    ensures pafInput ==> (plan.alignments.secondary == if pafSecondaries then Some(PafOutput(1)) else None)
    ensures !pafInput ==> plan.alignments == alignments
    ensures plan.chain == FollowOnChain(doRenaming, hasIngroupCoverage, doVG, doGFA)
    ensures plan.graphResults <==> doVG || doGFA
  {
    var headChildren: seq<Stage> := [];
    var args := alignments;
    if pafInput {
      headChildren := headChildren + [PafToLastz(pafSecondaries)];
      args := Alignments(PafOutput(0), if pafSecondaries then Some(PafOutput(1)) else None);
    }
    var chain := [PrependUniqueIds(doRenaming)];
    var noIngroupCoverage := !hasIngroupCoverage;
    if noIngroupCoverage {
      chain := chain + [IngroupCoverage];
    }
    chain := chain + [SetupPhase];
    chain := chain + [PrepareHalExport];
    chain := chain + [HalExport];
    var graphResults := false;
    if doVG || doGFA {
      chain := chain + [ExportVg(doVG, doGFA)];
      graphResults := true;
    }
    plan := AlignPlan(headChildren, chain, args, graphResults);
  }

  /** The part of the configuration export_vg reads; None where the attribute is absent. */
  datatype VgConfig = VgConfig(
    assemblyName: Option<string>,
    hal2vgOptions: Option<string>,
    includeMinigraph: Option<bool>,
    includeAncestor: Option<bool>,
    prependGenomeNames: Option<bool>,
    internalNodePrefix: string)

  /** The minigraph event's name (graphmap's assemblyName, "_MINIGRAPH_" by default). */
  function GraphEvent(cfg: VgConfig): string {
    if cfg.assemblyName.Some? then cfg.assemblyName.value else "_MINIGRAPH_"
  }

  /** The root ancestor's name: the internal node prefix followed by 0. */
  function RootEvent(cfg: VgConfig): string {
    cfg.internalNodePrefix + "0"
  }

  function IncludeMinigraph(cfg: VgConfig): bool {
    cfg.includeMinigraph.Some? && cfg.includeMinigraph.value
  }

  function IncludeAncestor(cfg: VgConfig): bool {
    cfg.includeAncestor.Some? && cfg.includeAncestor.value
  }

  function PrependGenomeNames(cfg: VgConfig): bool {
    cfg.prependGenomeNames.None? || cfg.prependGenomeNames.value
  }

  /** The user's own hal2vg options: the configured string split on single spaces, none when it is empty. */
  function UserOptions(cfg: VgConfig): seq<string> {
    if cfg.hal2vgOptions.Some? && cfg.hal2vgOptions.value != [] then SplitOn(cfg.hal2vgOptions.value, ' ') else []
  }

  /** The user's options come from the configured string unchanged: joined back with spaces they give it again. */
  lemma UserOptionsRoundTrip(cfg: VgConfig)
    ensures cfg.hal2vgOptions.Some? ==> Join(UserOptions(cfg), " ") == cfg.hal2vgOptions.value
    ensures cfg.hal2vgOptions.None? ==> UserOptions(cfg) == []
  {
    if cfg.hal2vgOptions.Some? && cfg.hal2vgOptions.value != [] {
      JoinSplitOn(cfg.hal2vgOptions.value, ' ');
    }
  }

  /**
   * The genomes hal2vg is told to leave out: the minigraph event unless it is
   * to be included, then the root ancestor unless it is to be included.
   */
  function IgnoredEvents(cfg: VgConfig): (r: seq<string>)
    ensures !IncludeMinigraph(cfg) ==> GraphEvent(cfg) in r
    ensures !IncludeAncestor(cfg) ==> RootEvent(cfg) in r
    ensures forall e | e in r ::
      (e == GraphEvent(cfg) && !IncludeMinigraph(cfg)) || (e == RootEvent(cfg) && !IncludeAncestor(cfg))
    ensures r == [] <==> IncludeMinigraph(cfg) && IncludeAncestor(cfg)
  {
    (if IncludeMinigraph(cfg) then [] else [GraphEvent(cfg)])
    + (if IncludeAncestor(cfg) then [] else [RootEvent(cfg)])
  }

  /**
   * When no ignored name contains a comma, the `--ignoreGenomes` argument
   * splits back on commas into exactly the ignored events.
   */
  lemma IgnoreGenomesRoundTrip(cfg: VgConfig)
    requires IgnoredEvents(cfg) != []
    requires ',' !in GraphEvent(cfg) && ',' !in RootEvent(cfg)
    ensures SplitOn(Join(IgnoredEvents(cfg), ","), ',') == IgnoredEvents(cfg)
  {
    SplitOnJoin(IgnoredEvents(cfg), ',');
  }

  /**
   * The hal2vg options export_vg assembles: the user's options, then
   * `--ignoreGenomes <events joined by commas>` exactly when some genome is
   * ignored, then `--onlySequenceNames` exactly when genome names are not to
   * be prepended; nothing else.
   */
  function Hal2VgArgs(cfg: VgConfig): (r: seq<string>)
    ensures UserOptions(cfg) <= r
    ensures var extra := r[|UserOptions(cfg)|..];
      && |extra| == (if IgnoredEvents(cfg) != [] then 2 else 0) + (if PrependGenomeNames(cfg) then 0 else 1)
      && (IgnoredEvents(cfg) != [] ==> extra[..2] == ["--ignoreGenomes", Join(IgnoredEvents(cfg), ",")])
      && (!PrependGenomeNames(cfg) ==> extra[|extra| - 1] == "--onlySequenceNames")
  {
    var user := UserOptions(cfg);
    var ignore := if IgnoredEvents(cfg) != [] then ["--ignoreGenomes", Join(IgnoredEvents(cfg), ",")] else [];
    var names := if PrependGenomeNames(cfg) then [] else ["--onlySequenceNames"];
    assert (user + ignore + names)[|user|..] == ignore + names;
    user + ignore + names
  }

  /** export_vg's option assembly, appending to the ignore list and to the options in turn. */
  method Hal2VgOptions(cfg: VgConfig) returns (opts: seq<string>)
    ensures opts == Hal2VgArgs(cfg)
  {
    var graphEvent := GraphEvent(cfg);
    if cfg.hal2vgOptions.Some? && cfg.hal2vgOptions.value != [] {
      opts := SplitOn(cfg.hal2vgOptions.value, ' ');
    } else {
      opts := [];
    }
    var ignoreEvents: seq<string> := [];
    if !IncludeMinigraph(cfg) {
      ignoreEvents := ignoreEvents + [graphEvent];
    }
    if !IncludeAncestor(cfg) {
      ignoreEvents := ignoreEvents + [RootEvent(cfg)];
    }
    if ignoreEvents != [] {
      opts := opts + ["--ignoreGenomes", Join(ignoreEvents, ",")];
    }
    if !PrependGenomeNames(cfg) {
      opts := opts + ["--onlySequenceNames"];
    }
  }

  /** One export_vg job: the HAL file's size, what to produce, and its sizing. */
  datatype ExportVgCall = ExportVgCall(
    halSize: nat,
    doVG: bool,
    doGFA: bool,
    checkpointInfo: Option<BatchPlan.CheckpointInfo>,
    resourceSpec: bool,
    disk: Option<nat>,
    memory: Option<nat>)

  /** A write of a local file to checkpoint storage: (region, key, local path). */
  datatype CheckpointWrite = CheckpointWrite(region: string, key: string, localPath: string)

  /**
   * What one export_vg job does: resubmit itself as a sized child, or convert
   * (the hal2vg and, for GFA, vg view | gzip commands, the checkpoint writes,
   * and which of the vg/gfa results it returns).
   */
  datatype ExportVgAction =
    | Resubmit(child: ExportVgCall)
    | Convert(hal2vgCommand: seq<string>, gfaCommand: Option<seq<seq<string>>>,
              writes: seq<CheckpointWrite>, vgResult: bool, gfaResult: bool)

  /** The checkpoint key of a converted output: the checkpoint path with its extension replaced. */
  function CheckpointKey(info: BatchPlan.CheckpointInfo, ext: string): string {
    SplitExt(info.path).0 + ext
  }

  /**
   * export_vg. An unsized call resubmits itself once, sized from the HAL
   * file: three times its size of disk and ten times of memory, everything
   * else as it was. A sized call runs hal2vg on `<workDir>/out.hal`, builds
   * the GFA only when asked, writes the outputs to checkpoint storage when
   * there is checkpoint info, and returns a vg result exactly when vg was
   * asked for and a gfa result exactly when GFA was.
   */
  method ExportVgJob(call: ExportVgCall, cfg: VgConfig, workDir: string) returns (action: ExportVgAction)
    ensures !call.resourceSpec <==> action.Resubmit?
    ensures action.Resubmit? ==>
      && action.child.resourceSpec
      && action.child.disk == Some(3 * call.halSize)
      && action.child.memory == Some(10 * call.halSize)
      && action.child.(resourceSpec := false, disk := call.disk, memory := call.memory) == call
    ensures action.Convert? ==>
      && action.hal2vgCommand == ["hal2vg", PathJoin(workDir, "out.hal")] + Hal2VgArgs(cfg)
      && (action.gfaCommand.Some? <==> call.doGFA)
      && action.vgResult == call.doVG && action.gfaResult == call.doGFA
      && |action.writes| == (if call.checkpointInfo.None? then 0 else if call.doGFA then 2 else 1)
      && (call.checkpointInfo.Some? ==> forall w | w in action.writes :: w.region == call.checkpointInfo.value.region)
    ensures action.Convert? && call.checkpointInfo.Some? ==>
      var info := call.checkpointInfo.value;
      action.writes[0] == CheckpointWrite(info.region, CheckpointKey(info, ".vg"), PathJoin(workDir, "out.vg"))
    ensures action.Convert? && call.checkpointInfo.Some? && call.doGFA ==>
      var info := call.checkpointInfo.value;
      action.writes[1] == CheckpointWrite(info.region, CheckpointKey(info, ".gfa.gz"), PathJoin(workDir, "out.gfa.gz"))
  {
    if !call.resourceSpec {
      var child := call.(resourceSpec := true, disk := Some(call.halSize * 3), memory := Some(call.halSize * 10));
      return Resubmit(child);
    }
    var halPath := PathJoin(workDir, "out.hal");
    var opts := Hal2VgOptions(cfg);
    var vgPath := PathJoin(workDir, "out.vg");
    var cmd := ["hal2vg", halPath] + opts;
    var writes: seq<CheckpointWrite> := [];
    if call.checkpointInfo.Some? {
      writes := writes + [CheckpointWrite(call.checkpointInfo.value.region, CheckpointKey(call.checkpointInfo.value, ".vg"), vgPath)];
    }
    var gfaPath := PathJoin(workDir, "out.gfa.gz");
    var gfaCmd: Option<seq<seq<string>>> := None;
    if call.doGFA {
      gfaCmd := Some([["vg", "view", "-g", vgPath], ["gzip"]]);
      if call.checkpointInfo.Some? {
        writes := writes + [CheckpointWrite(call.checkpointInfo.value.region, CheckpointKey(call.checkpointInfo.value, ".gfa.gz"), gfaPath)];
      }
    }
    action := Convert(cmd, gfaCmd, writes, call.doVG, call.doGFA);
  }

  /**
   * When the checkpoint path's stem has a base name that is not all dots, the
   * vg checkpoint key has that same stem with the extension `.vg`.
   */
  lemma VgCheckpointKeyStem(info: BatchPlan.CheckpointInfo)
    requires BaseNameNotAllDots(SplitExt(info.path).0)
    ensures SplitExt(CheckpointKey(info, ".vg")) == (SplitExt(info.path).0, ".vg")
  {
    SplitExtOfAppended(SplitExt(info.path).0, ".vg");
  }
}
