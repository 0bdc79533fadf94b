/**
 * Batch planning in cactus-align: the chromfile becomes one align job per
 * chromosome, each with its own stagger delay and checkpoint location; the
 * batch root adds one child per job; cactus-align-batch resolves per-chromosome
 * core overrides.
 */
module BatchPlan {
  import opened Wrappers
  import opened Text

  /** Where results are checkpointed directly: (region, output path). */
  datatype CheckpointInfo = CheckpointInfo(region: string, path: string)

  /**
   * The part of the cactus-align options that batch planning reads or
   * overrides; the rest of the options bag is carried along unchanged and is
   * not modelled.
   */
  datatype AlignOptions = AlignOptions(
    batch: bool,
    seqFile: string,
    cigarsFile: seq<string>,
    stagger: int,
    checkpointInfo: Option<CheckpointInfo>)

  /** Key of the job table: a chromosome, or Python's None outside batch mode. */
  datatype ChromKey = NoChrom | Chrom(name: string)

  /** The chromfile line that does not have exactly three tokens (an AssertionError). */
  datatype PlanError = BadChromLine(line: string)

  /** Checkpoint info of one chromosome: the batch's info with `<chrom>.hal` joined onto its path. */
  function ChromCheckpoint(info: Option<CheckpointInfo>, chrom: string): Option<CheckpointInfo> {
    match info
    case None => None
    case Some(ci) => Some(CheckpointInfo(ci.region, PathJoin(ci.path, chrom + ".hal")))
  }

  /**
   * Absent checkpoint info stays absent; present info keeps its region and
   * gets the path `<prefix>/<chrom>.hal` (for a chromosome name that is not an
   * absolute path).
   */
  lemma ChromCheckpointPath(info: Option<CheckpointInfo>, chrom: string)
    ensures ChromCheckpoint(info, chrom).None? <==> info.None?
    ensures info.Some? ==> ChromCheckpoint(info, chrom).value.region == info.value.region
    ensures info.Some? && !(chrom != [] && chrom[0] == '/') ==>
      var path := ChromCheckpoint(info, chrom).value.path;
      && info.value.path <= path
      && EndsWith(path, chrom + ".hal")
      && (info.value.path != [] && info.value.path[|info.value.path| - 1] != '/' ==>
            path == info.value.path + "/" + chrom + ".hal")
  {
  }

  /** The tokens of one chromfile line, `line.strip().split()`. */
  function LineTokens(line: string): seq<string> {
    Tokens(Strip(line))
  }

  /** The tokens of the non-blank chromfile lines, in file order. */
  function Rows(lines: seq<string>): seq<seq<string>>
  {
    if lines == [] then []
    else
      var prev := Rows(lines[..|lines| - 1]);
      var toks := LineTokens(lines[|lines| - 1]);
      if toks == [] then prev else prev + [toks]
  }

  /** Blank lines are skipped: there are at most as many rows as lines, and no row is empty. */
  lemma {:induction false} RowsShape(lines: seq<string>)
    ensures |Rows(lines)| <= |lines|
    ensures forall k | 0 <= k < |Rows(lines)| :: Rows(lines)[k] != []
  {
    if lines != [] {
      RowsShape(lines[..|lines| - 1]);
    }
  }

  predicate WellFormedRows(rows: seq<seq<string>>) {
    forall k | 0 <= k < |rows| :: |rows[k]| == 3
  }

  /**
   * Options of one chromosome's job, `copy.deepcopy(options)` with overrides:
   * batch off, the row's seqfile and alignment file, the given delay and the
   * chromosome's checkpoint path.
   */
  function ChromOptions(options: AlignOptions, row: seq<string>, delay: int): AlignOptions
    requires |row| == 3
  {
    options.(
      batch := false,
      seqFile := row[1],
      cigarsFile := [row[2]],
      stagger := delay,
      checkpointInfo := ChromCheckpoint(options.checkpointInfo, row[0]))
  }

  /** The delay given to the k-th non-blank row: `stagger` added once per earlier row. */
  function StaggerDelay(stagger: int, k: nat): int {
    if k == 0 then 0 else StaggerDelay(stagger, k - 1) + stagger
  }

  /** The accumulated delay is k * stagger. */
  lemma {:induction false} StaggerDelayIsProduct(stagger: int, k: nat)
    ensures StaggerDelay(stagger, k) == k * stagger
  {
    if k > 0 {
      StaggerDelayIsProduct(stagger, k - 1);
    }
  }

  /** The job table built from the rows, a later row of a chromosome replacing an earlier one. */
  function JobsOf(options: AlignOptions, rows: seq<seq<string>>): map<ChromKey, AlignOptions>
    requires WellFormedRows(rows)
  {
    if rows == [] then map[]
    else
      var k := |rows| - 1;
      JobsOf(options, rows[..k])[Chrom(rows[k][0]) := ChromOptions(options, rows[k], StaggerDelay(options.stagger, k))]
  }

  /** make_batch_align_jobs: the options handed to make_align_job, keyed by chromosome. */
  method MakeBatchAlignJobs(options: AlignOptions, chromLines: seq<string>)
    returns (r: Result<map<ChromKey, AlignOptions>, PlanError>)
    ensures !options.batch ==> r == Ok(map[NoChrom := options])
    ensures options.batch ==> (r.Ok? <==> WellFormedRows(Rows(chromLines)))
    ensures options.batch && r.Ok? ==> r.value == JobsOf(options, Rows(chromLines))
    ensures r.Err? ==> r.error.line in chromLines && |LineTokens(r.error.line)| !in {0, 3}
  {
    if !options.batch {
      return Ok(map[NoChrom := options]);
    }
    var staggerDelay := 0;
    var result: map<ChromKey, AlignOptions> := map[];
    ghost var rows: seq<seq<string>> := [];
    var i := 0;
    while i < |chromLines|
      invariant 0 <= i <= |chromLines|
      invariant rows == Rows(chromLines[..i]) && WellFormedRows(rows)
      invariant staggerDelay == StaggerDelay(options.stagger, |rows|)
      invariant result == JobsOf(options, rows)
    {
      var line := chromLines[i];
      var toks := LineTokens(line);
      RowsStep(chromLines, i);
      if |toks| > 0 {
        if |toks| != 3 {
          RowOfLine(chromLines, i);
          return Err(BadChromLine(line));
        }
        var chromOptions := ChromOptions(options, toks, staggerDelay);
        JobsOfStep(options, rows, toks);
        result := result[Chrom(toks[0]) := chromOptions];
        assert StaggerDelay(options.stagger, |rows| + 1) == staggerDelay + options.stagger;
        rows := rows + [toks];
        staggerDelay := staggerDelay + options.stagger;
      }
      i := i + 1;
    }
    assert chromLines[..i] == chromLines;
    return Ok(result);
  }

  /** Reading one more line adds its tokens as a row, unless it is blank. */
  lemma RowsStep(lines: seq<string>, i: nat)
    requires i < |lines|
    ensures var toks := LineTokens(lines[i]);
      Rows(lines[..i + 1]) == if toks == [] then Rows(lines[..i]) else Rows(lines[..i]) + [toks]
  {
    assert lines[..i + 1][..i] == lines[..i];
  }

  /** Adding a row adds (or replaces) the job of its chromosome. */
  lemma JobsOfStep(options: AlignOptions, rows: seq<seq<string>>, row: seq<string>)
    requires WellFormedRows(rows) && |row| == 3
    ensures WellFormedRows(rows + [row])
    ensures JobsOf(options, rows + [row]) == JobsOf(options, rows)[Chrom(row[0]) := ChromOptions(options, row, StaggerDelay(options.stagger, |rows|))]
  {
    var extended := rows + [row];
    assert WellFormedRows(extended) by {
      forall k | 0 <= k < |extended|
        ensures |extended[k]| == 3
      {
        if k < |rows| {
          assert extended[k] == rows[k];
        }
      }
    }
    assert extended[..|rows|] == rows;
  }

  /** A non-blank line's tokens are the row that follows the rows of the lines before it. */
  lemma RowOfLine(lines: seq<string>, i: nat)
    requires i < |lines| && LineTokens(lines[i]) != []
    ensures |Rows(lines[..i])| < |Rows(lines)|
    ensures Rows(lines)[|Rows(lines[..i])|] == LineTokens(lines[i])
  {
    RowsStep(lines, i);
    RowsPrefix(lines, i + 1);
  }

  /** The rows of a prefix of the lines are a prefix of the rows. */
  lemma {:induction false} RowsPrefix(lines: seq<string>, n: nat)
    requires n <= |lines|
    ensures Rows(lines[..n]) <= Rows(lines)
    decreases |lines|
  {
    if n < |lines| {
      assert lines[..|lines| - 1][..n] == lines[..n];
      RowsPrefix(lines[..|lines| - 1], n);
    } else {
      assert lines[..n] == lines;
    }
  }

  /** Every chromosome named by a row has a job, and nothing else does. */
  lemma {:induction false} JobsOfKeys(options: AlignOptions, rows: seq<seq<string>>)
    requires WellFormedRows(rows)
    ensures JobsOf(options, rows).Keys == set k | 0 <= k < |rows| :: Chrom(rows[k][0])
  {
    if rows != [] {
      var k := |rows| - 1;
      assert forall row | row in rows[..k] :: row in rows;
      JobsOfKeys(options, rows[..k]);
      assert forall j | 0 <= j < k :: rows[..k][j] == rows[j];
    }
  }

  /**
   * A chromosome's job comes from its last row: its seqfile and alignment file,
   * a delay of (row position among the non-blank rows) * stagger, and its
   * checkpoint path.
   */
  lemma {:induction false} JobsOfLastRow(options: AlignOptions, rows: seq<seq<string>>, k: nat)
    requires WellFormedRows(rows)
    requires k < |rows|
    requires forall j | k < j < |rows| :: rows[j][0] != rows[k][0]
    ensures Chrom(rows[k][0]) in JobsOf(options, rows)
    ensures JobsOf(options, rows)[Chrom(rows[k][0])] == ChromOptions(options, rows[k], StaggerDelay(options.stagger, k))
  {
    var n := |rows| - 1;
    if k < n {
      assert forall row | row in rows[..n] :: row in rows;
      JobsOfLastRow(options, rows[..n], k);
    }
  }

  /**
   * With distinct chromosomes, the k-th job waits k * stagger seconds: the
   * first does not wait and each next one starts exactly `stagger` after the
   * previous one.
   */
  lemma StaggerSchedule(options: AlignOptions, rows: seq<seq<string>>)
    requires WellFormedRows(rows)
    requires forall i, j | 0 <= i < j < |rows| :: rows[i][0] != rows[j][0]
    ensures forall k | 0 <= k < |rows| ::
      Chrom(rows[k][0]) in JobsOf(options, rows) && JobsOf(options, rows)[Chrom(rows[k][0])].stagger == k * options.stagger
    ensures |rows| > 0 ==> JobsOf(options, rows)[Chrom(rows[0][0])].stagger == 0
    ensures forall i, j | 0 <= i && j == i + 1 && j < |rows| ::
      JobsOf(options, rows)[Chrom(rows[j][0])].stagger - JobsOf(options, rows)[Chrom(rows[i][0])].stagger == options.stagger
  {
    forall k | 0 <= k < |rows|
      ensures Chrom(rows[k][0]) in JobsOf(options, rows) && JobsOf(options, rows)[Chrom(rows[k][0])].stagger == k * options.stagger
    {
      JobsOfLastRow(options, rows, k);
      StaggerDelayIsProduct(options.stagger, k);
    }
  }

  /**
   * run_batch_align_jobs: one child of the batch root per job; the returned
   * table maps each key to the position of its child among the root's
   * children, no two keys sharing a child.
   */
  method RunBatchAlignJobs<K, Job>(jobs: map<K, Job>)
    returns (children: seq<Job>, rv: map<K, nat>)
    ensures rv.Keys == jobs.Keys
    ensures |children| == |jobs|
    ensures forall c | c in rv :: rv[c] < |children| && children[rv[c]] == jobs[c]
    ensures forall c, d | c in rv && d in rv && c != d :: rv[c] != rv[d]
  {
    children, rv := [], map[];
    ghost var order: seq<K> := [];
    var todo := jobs.Keys;
    while todo != {}
      invariant rv.Keys !! todo && rv.Keys + todo == jobs.Keys
      invariant |children| == |order| && |children| + |todo| == |jobs.Keys|
      invariant forall c | c in rv :: rv[c] < |children| && order[rv[c]] == c && children[rv[c]] == jobs[c]
      decreases todo
    {
      var chrom :| chrom in todo;
      rv := rv[chrom := |children|];
      children := children + [jobs[chrom]];
      order := order + [chrom];
      todo := todo - {chrom};
    }
  }

  /** One --alignCoresOverrides entry `chrom,cores`; None where the source raises RuntimeError. */
  function ParseCoresOverride(entry: string): (r: Option<(string, int)>)
    ensures r.Some? ==> ',' !in r.value.0
  {
    var parts := SplitOn(entry, ',');
    if |parts| != 2 then None
    else
      match ParseInt(parts[1])
      case None => None
      case Some(n) => Some((parts[0], n))
  }

  /** An accepted entry has exactly one comma: the chromosome before it, an integer after it. */
  lemma ParseCoresOverrideShape(entry: string)
    requires ParseCoresOverride(entry).Some?
    ensures exists rest ::
      && entry == ParseCoresOverride(entry).value.0 + "," + rest
      && ',' !in rest
      && ParseInt(rest) == Some(ParseCoresOverride(entry).value.1)
  {
    var parts := SplitOn(entry, ',');
    JoinSplitOn(entry, ',');
    assert Join(parts, ",") == parts[0] + "," + parts[1];
    assert parts[1] in parts;
  }

  /** `chrom,cores` written back out is read as the same pair. */
  lemma ParseCoresOverrideRoundTrip(chrom: string, cores: int)
    requires ',' !in chrom
    ensures ParseCoresOverride(chrom + "," + IntToString(cores)) == Some((chrom, cores))
  {
    var text := IntToString(cores);
    assert ',' !in text by {
      assert forall i | 0 <= i < |text| :: text[i] == '-' || IsDigit(text[i]);
    }
    SplitOnJoin([chrom, text], ',');
    assert Join([chrom, text], ",") == chrom + "," + text;
    ParseIntOfIntToString(cores);
  }

  /** Each --alignCoresOverrides entry, parsed on its own. */
  function ParseEach(entries: seq<string>): (r: seq<Option<(string, int)>>)
    ensures |r| == |entries|
    ensures forall k | 0 <= k < |entries| :: r[k] == ParseCoresOverride(entries[k])
  {
    seq(|entries|, k requires 0 <= k < |entries| => ParseCoresOverride(entries[k]))
  }

  /** All the values, when none is absent; None as soon as one is. */
  function Collect<T>(xs: seq<Option<T>>): Option<seq<T>> {
    if xs == [] then Some([])
    else
      match Collect(xs[..|xs| - 1])
      case None => None
      case Some(prev) =>
        match xs[|xs| - 1]
        case None => None
        case Some(x) => Some(prev + [x])
  }

  /** Collecting succeeds exactly when every value is present, and then keeps them in order. */
  lemma {:induction false} CollectEach<T>(xs: seq<Option<T>>)
    ensures Collect(xs).Some? <==> forall k | 0 <= k < |xs| :: xs[k].Some?
    ensures Collect(xs).Some? ==>
      && |Collect(xs).value| == |xs|
      && forall k | 0 <= k < |xs| :: Collect(xs).value[k] == xs[k].value
  {
    if xs != [] {
      var n := |xs| - 1;
      var prefix := xs[..n];
      CollectEach(prefix);
      assert forall k | 0 <= k < n :: prefix[k] == xs[k];
      if Collect(prefix).Some? && xs[n].Some? {
        var prev := Collect(prefix).value;
        assert Collect(xs).value == prev + [xs[n].value];
      }
    }
  }

  /** Once a prefix has an absent value, so does the whole sequence. */
  lemma {:induction false} CollectPrefixNone<T>(xs: seq<Option<T>>, n: nat)
    requires n <= |xs| && Collect(xs[..n]).None?
    ensures Collect(xs).None?
    decreases |xs|
  {
    if n < |xs| {
      assert xs[..|xs| - 1][..n] == xs[..n];
      CollectPrefixNone(xs[..|xs| - 1], n);
    } else {
      assert xs[..n] == xs;
    }
  }

  /** The override table, a later entry for a chromosome replacing an earlier one. */
  function OverrideTable(pairs: seq<(string, int)>): map<string, int> {
    if pairs == [] then map[]
    else
      var last := pairs[|pairs| - 1];
      OverrideTable(pairs[..|pairs| - 1])[last.0 := last.1]
  }

  /** main_batch: turns the --alignCoresOverrides entries into a table, or fails on the first bad entry. */
  method ParseCoresOverrides(entries: seq<string>) returns (r: Result<map<string, int>, string>)
    ensures r.Ok? <==> Collect(ParseEach(entries)).Some?
    ensures r.Ok? ==> r.value == OverrideTable(Collect(ParseEach(entries)).value)
    ensures r.Err? ==> r.error in entries && ParseCoresOverride(r.error).None?
  {
    var table: map<string, int> := map[];
    ghost var pairs: seq<(string, int)> := [];
    var i := 0;
    while i < |entries|
      invariant 0 <= i <= |entries|
      invariant Collect(ParseEach(entries)[..i]) == Some(pairs)
      invariant table == OverrideTable(pairs)
    {
      var o := entries[i];
      var parsed := ParseCoresOverride(o);
      CollectStep(ParseEach(entries), i, pairs);
      if parsed.None? {
        return Err(o);
      }
      OverrideTableStep(pairs, parsed.value);
      table := table[parsed.value.0 := parsed.value.1];
      pairs := pairs + [parsed.value];
      i := i + 1;
    }
    assert ParseEach(entries)[..i] == ParseEach(entries);
    return Ok(table);
  }

  /** Collecting one more value extends the collection, or fails the whole sequence. */
  lemma CollectStep<T>(xs: seq<Option<T>>, i: nat, prev: seq<T>)
    requires i < |xs| && Collect(xs[..i]) == Some(prev)
    ensures xs[i].None? ==> Collect(xs).None?
    ensures xs[i].Some? ==> Collect(xs[..i + 1]) == Some(prev + [xs[i].value])
  {
    assert xs[..i + 1][..i] == xs[..i];
    if xs[i].None? {
      CollectPrefixNone(xs, i + 1);
    }
  }

  /** A further pair adds (or replaces) the table entry of its chromosome. */
  lemma OverrideTableStep(pairs: seq<(string, int)>, pair: (string, int))
    ensures OverrideTable(pairs + [pair]) == OverrideTable(pairs)[pair.0 := pair.1]
  {
    assert (pairs + [pair])[..|pairs|] == pairs;
  }

  /** Cores asked for a chromosome's align job: its override if it has one, else --alignCores (possibly unset). */
  function CoresFor(overrides: map<string, int>, alignCores: Option<int>, chrom: string): Option<int> {
    if chrom in overrides then Some(overrides[chrom]) else alignCores
  }

  /** A chromosome whose last override entry says `c` cores gets `c` cores. */
  lemma {:induction false} CoresFromLastEntry(pairs: seq<(string, int)>, alignCores: Option<int>, k: nat)
    requires k < |pairs|
    requires forall j | k < j < |pairs| :: pairs[j].0 != pairs[k].0
    ensures CoresFor(OverrideTable(pairs), alignCores, pairs[k].0) == Some(pairs[k].1)
  {
    var n := |pairs| - 1;
    if k < n {
      assert forall j | 0 <= j < n :: pairs[..n][j] == pairs[j];
      CoresFromLastEntry(pairs[..n], alignCores, k);
    }
  }

  /** A chromosome without an override entry gets --alignCores. */
  lemma {:induction false} CoresWithoutEntry(pairs: seq<(string, int)>, alignCores: Option<int>, chrom: string)
    requires forall k | 0 <= k < |pairs| :: pairs[k].0 != chrom
    ensures CoresFor(OverrideTable(pairs), alignCores, chrom) == alignCores
  {
    if pairs != [] {
      var n := |pairs| - 1;
      assert forall j | 0 <= j < n :: pairs[..n][j] == pairs[j];
      CoresWithoutEntry(pairs[..n], alignCores, chrom);
    }
  }

  /**
   * main_batch's chromosome table: each row's chromosome maps to its imported
   * seqfile and alignment file (`importFile` stands for importing a path's
   * URL into the job store), a later row of a chromosome replacing an earlier one.
   */
  function ChromDictOf(rows: seq<seq<string>>, importFile: string -> string): map<string, (string, string)>
    requires WellFormedRows(rows)
  {
    if rows == [] then map[]
    else
      var k := |rows| - 1;
      ChromDictOf(rows[..k], importFile)[rows[k][0] := (importFile(rows[k][1]), importFile(rows[k][2]))]
  }

  /**
   * main_batch reading the chromfile: it succeeds exactly when every
   * non-blank line has three tokens, giving the table built from the rows;
   * a failure names a line with neither 0 nor 3 tokens.
   */
  method LoadChromDict(chromLines: seq<string>, importFile: string -> string)
    returns (r: Result<map<string, (string, string)>, PlanError>)
    ensures r.Ok? <==> WellFormedRows(Rows(chromLines))
    ensures r.Ok? ==> r.value == ChromDictOf(Rows(chromLines), importFile)
    ensures r.Err? ==> r.error.line in chromLines && |LineTokens(r.error.line)| !in {0, 3}
  {
    var chromDict: map<string, (string, string)> := map[];
    ghost var rows: seq<seq<string>> := [];
    for i := 0 to |chromLines|
      invariant rows == Rows(chromLines[..i]) && WellFormedRows(rows)
      invariant chromDict == ChromDictOf(rows, importFile)
    {
      var toks := LineTokens(chromLines[i]);
      RowsStep(chromLines, i);
      if |toks| > 0 {
        if |toks| != 3 {
          RowOfLine(chromLines, i);
          return Err(BadChromLine(chromLines[i]));
        }
        ChromDictStep(rows, toks, importFile);
        chromDict := chromDict[toks[0] := (importFile(toks[1]), importFile(toks[2]))];
        rows := rows + [toks];
      }
    }
    assert chromLines[..|chromLines|] == chromLines;
    return Ok(chromDict);
  }

  /** Adding a row adds (or replaces) the entry of its chromosome. */
  lemma ChromDictStep(rows: seq<seq<string>>, row: seq<string>, importFile: string -> string)
    requires WellFormedRows(rows) && |row| == 3
    ensures WellFormedRows(rows + [row])
    ensures ChromDictOf(rows + [row], importFile) == ChromDictOf(rows, importFile)[row[0] := (importFile(row[1]), importFile(row[2]))]
  {
    var extended := rows + [row];
    assert WellFormedRows(extended) by {
      forall k | 0 <= k < |extended|
        ensures |extended[k]| == 3
      {
        if k < |rows| {
          assert extended[k] == rows[k];
        }
      }
    }
    assert extended[..|rows|] == rows;
  }

  /** The chromosome table has exactly one entry per chromosome named in a row. */
  lemma {:induction false} ChromDictKeys(rows: seq<seq<string>>, importFile: string -> string)
    requires WellFormedRows(rows)
    ensures ChromDictOf(rows, importFile).Keys == set k | 0 <= k < |rows| :: rows[k][0]
  {
    if rows != [] {
      var k := |rows| - 1;
      assert forall row | row in rows[..k] :: row in rows;
      ChromDictKeys(rows[..k], importFile);
      assert forall j | 0 <= j < k :: rows[..k][j] == rows[j];
    }
  }

  /** A chromosome's entry holds the imported files of its last row. */
  lemma {:induction false} ChromDictLastRow(rows: seq<seq<string>>, importFile: string -> string, k: nat)
    requires WellFormedRows(rows)
    requires k < |rows|
    requires forall j | k < j < |rows| :: rows[j][0] != rows[k][0]
    ensures rows[k][0] in ChromDictOf(rows, importFile)
    ensures ChromDictOf(rows, importFile)[rows[k][0]] == (importFile(rows[k][1]), importFile(rows[k][2]))
  {
    var n := |rows| - 1;
    if k < n {
      assert forall row | row in rows[..n] :: row in rows;
      ChromDictLastRow(rows[..n], importFile, k);
    }
  }

  /** The align_toil child asked for one chromosome. */
  datatype AlignToilJob = AlignToilJob(chrom: string, seqFileId: string, pafFileId: string, cores: Option<int>)

  /** The align_toil child of one chromosome, its cores resolved through the overrides. */
  function AlignToilJobs(chromDict: map<string, (string, string)>, overrides: map<string, int>, alignCores: Option<int>)
    : (jobs: map<string, AlignToilJob>)
    ensures jobs.Keys == chromDict.Keys
    ensures forall c | c in jobs ::
      jobs[c] == AlignToilJob(c, chromDict[c].0, chromDict[c].1, CoresFor(overrides, alignCores, c))
  {
    map c | c in chromDict :: AlignToilJob(c, chromDict[c].0, chromDict[c].1, if c in overrides then Some(overrides[c]) else alignCores)
  }

  /**
   * align_toil_batch: one align_toil child per chromosome of the table; the
   * result maps each chromosome to its child's position.
   */
  method AlignToilBatch(chromDict: map<string, (string, string)>, overrides: map<string, int>, alignCores: Option<int>)
    returns (children: seq<AlignToilJob>, results: map<string, nat>)
    ensures results.Keys == chromDict.Keys
    ensures |children| == |chromDict|
    ensures forall c | c in results ::
      results[c] < |children| &&
      children[results[c]] == AlignToilJob(c, chromDict[c].0, chromDict[c].1, CoresFor(overrides, alignCores, c))
    ensures forall c, d | c in results && d in results && c != d :: results[c] != results[d]
  {
    var jobs := AlignToilJobs(chromDict, overrides, alignCores);
    children, results := RunBatchAlignJobs(jobs);
  }
}
