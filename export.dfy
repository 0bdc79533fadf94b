/**
 * export_split_data in cactus-graphmap-split: every reference contig's GFA,
 * PAF and per-event fastas are exported under `<out>/<contig>/`, each
 * contig gets a seqfile naming its fastas, and `chromfile.txt` names every
 * contig's seqfile. makeURL is a parameter; exports are recorded as
 * (file, URL) transfers and written files as their lines.
 */
module Export {
  import opened Wrappers
  import opened Text
  import opened SplitPlan
  import opened CigarIds
  import opened ContigSplit

  /** A manifest line: key and value separated by a tab (the newline is not part of the model). */
  function ManifestLine(key: string, value: string): string {
    key + "\t" + value
  }

  /** A manifest line splits back, on its tab, into its key and value when neither holds a tab. */
  lemma ManifestLineRoundTrip(key: string, value: string)
    requires '\t' !in key && '\t' !in value
    ensures SplitOn(ManifestLine(key, value), '\t') == [key, value]
  {
    SplitAfterFirst(key, '\t', value);
  }

  /** `<out>/<contig>/<contig><ext>`: the contig's GFA, PAF or seqfile. */
  function ContigFile(outDir: string, contig: string, ext: string): string {
    PathJoin(PathJoin(outDir, contig), contig + ext)
  }

  /** `<out>/<contig>/fasta/<event>_<contig>.fa`: an event's fasta for the contig. */
  function FastaFile(outDir: string, contig: string, event: string): string {
    PathJoin(PathJoin(PathJoin(outDir, contig), "fasta"), event + "_" + contig + ".fa")
  }

  /** Under a relative contig name, an event's fasta lies in the contig's `fasta` directory under the output directory. */
  lemma FastaFileShape(outDir: string, contig: string, event: string)
    requires outDir != [] && outDir[|outDir| - 1] != '/'
    requires contig != [] && contig[0] != '/' && contig[|contig| - 1] != '/'
    requires event == [] || event[0] != '/'
    ensures FastaFile(outDir, contig, event) == outDir + "/" + contig + "/fasta/" + event + "_" + contig + ".fa"
  {
    var d := outDir + "/" + contig;
    var f := d + "/" + "fasta";
    var name := event + "_" + contig + ".fa";
    calc {
      FastaFile(outDir, contig, event);
    ==
      PathJoin(PathJoin(PathJoin(outDir, contig), "fasta"), name);
    == { assert PathJoin(outDir, contig) == d; }
      PathJoin(PathJoin(d, "fasta"), name);
    == { assert d[|d| - 1] == contig[|contig| - 1]; }
      PathJoin(f, name);
    == { assert f[|f| - 1] == 'a';
         assert name[0] != '/' by {
           if event == [] {
             assert name[0] == '_';
           } else {
             assert name[0] == event[0];
           }
         }
       }
      f + "/" + name;
    ==
      outDir + "/" + contig + "/fasta/" + event + "_" + contig + ".fa";
    }
  }

  /** What is exported: a stored file, or an event's fasta for a contig. */
  datatype Blob = Stored(id: FileId) | Fasta(fa: ContigFasta)

  /** One toil.exportFile: the blob and the URL it goes to. */
  datatype Transfer = Transfer(blob: Blob, url: string)

  /** A contig without its `gfa`, `paf` or `fa` entry: the KeyError. */
  datatype ExportError = MissingEntry(contig: string, key: string)

  /** What one contig contributes: its transfers, its seqfile and its lines, and the seqfile's URL. */
  datatype ContigExport = ContigExport(contig: string, transfers: seq<Transfer>, seqFile: string, seqLines: seq<string>, seqFileUrl: string)

  /** Everything exported: the transfers in order, the seqfiles written, and chromfile.txt with its lines. */
  datatype ExportPlan = ExportPlan(transfers: seq<Transfer>, seqFiles: seq<(string, seq<string>)>, chromFile: string, chromLines: seq<string>)

  /** `events` lists the keys of a table, each once: the order its items are visited in. */
  ghost predicate Enumerates<V>(row: map<string, V>, events: seq<string>) {
    && row.Keys == (set e | e in events)
    && (forall i, j | 0 <= i < j < |events| :: events[i] != events[j])
  }

  /** Every contig's `fa` entry has exactly the events of `events` (gather_fas fills each entry with every event). */
  ghost predicate EventsOf(fa: map<string, map<string, ContigFasta>>, events: seq<string>) {
    forall c | c in fa :: Enumerates(fa[c], events)
  }

  /** The fasta exports of a contig, one per event in order. */
  function FastaTransfers(row: map<string, ContigFasta>, outDir: string, contig: string, events: seq<string>, url: string -> string): (r: seq<Transfer>)
    requires forall e | e in events :: e in row
    ensures |r| == |events|
  {
    seq(|events|, k requires 0 <= k < |events| => Transfer(Fasta(row[events[k]]), url(FastaFile(outDir, contig, events[k]))))
  }

  /** The seqfile lines of a contig: each event with the URL of its fasta. */
  function SeqLines(outDir: string, contig: string, events: seq<string>, url: string -> string): (r: seq<string>)
    ensures |r| == |events|
  {
    seq(|events|, k requires 0 <= k < |events| => ManifestLine(events[k], url(FastaFile(outDir, contig, events[k]))))
  }

  /**
   * When `events` lists the keys of a contig's `fa` entry once each, there is
   * one fasta export and one seqfile line per key, and every key has its own.
   */
  lemma RowCovered(row: map<string, ContigFasta>, outDir: string, contig: string, events: seq<string>, url: string -> string)
    requires Enumerates(row, events)
    ensures |FastaTransfers(row, outDir, contig, events, url)| == |row|
    ensures |SeqLines(outDir, contig, events, url)| == |row|
    ensures forall e | e in row :: Transfer(Fasta(row[e]), url(FastaFile(outDir, contig, e))) in FastaTransfers(row, outDir, contig, events, url)
    ensures forall e | e in row :: ManifestLine(e, url(FastaFile(outDir, contig, e))) in SeqLines(outDir, contig, events, url)
  {
    DistinctCount(events);
    assert row.Keys == set e | e in events;
    forall e | e in row
      ensures Transfer(Fasta(row[e]), url(FastaFile(outDir, contig, e))) in FastaTransfers(row, outDir, contig, events, url)
      ensures ManifestLine(e, url(FastaFile(outDir, contig, e))) in SeqLines(outDir, contig, events, url)
    {
      var k :| 0 <= k < |events| && events[k] == e;
      assert FastaTransfers(row, outDir, contig, events, url)[k] == Transfer(Fasta(row[e]), url(FastaFile(outDir, contig, e)));
      assert SeqLines(outDir, contig, events, url)[k] == ManifestLine(e, url(FastaFile(outDir, contig, e)));
    }
  }

  /** One contig's export, or the KeyError its first missing entry raises. */
  function ContigOutcome(files: map<string, map<string, FileId>>, fa: map<string, map<string, ContigFasta>>,
                         outDir: string, url: string -> string, events: seq<string>, contig: string): Result<ContigExport, ExportError>
    requires contig in files
    requires EventsOf(fa, events)
  {
    var entry := files[contig];
    if "gfa" !in entry then Err(MissingEntry(contig, "gfa"))
    else if "paf" !in entry then Err(MissingEntry(contig, "paf"))
    else if contig !in fa then Err(MissingEntry(contig, "fa"))
    else
      var seqFile := ContigFile(outDir, contig, ".seqfile");
      Ok(ContigExport(contig,
        [Transfer(Stored(entry["gfa"]), url(ContigFile(outDir, contig, ".gfa"))),
         Transfer(Stored(entry["paf"]), url(ContigFile(outDir, contig, ".paf")))]
        + FastaTransfers(fa[contig], outDir, contig, events, url),
        seqFile, SeqLines(outDir, contig, events, url), url(seqFile)))
  }

  /** Every contig's outcome, in the order the contigs are visited. */
  function Outcomes(files: map<string, map<string, FileId>>, fa: map<string, map<string, ContigFasta>>,
                    outDir: string, url: string -> string, contigs: seq<string>, events: seq<string>): (r: seq<Result<ContigExport, ExportError>>)
    requires forall c | c in contigs :: c in files
    requires EventsOf(fa, events)
    ensures |r| == |contigs|
  {
    seq(|contigs|, k requires 0 <= k < |contigs| => ContigOutcome(files, fa, outDir, url, events, contigs[k]))
  }

  /** The transfers of the contigs, in order. */
  function AllTransfers(done: seq<ContigExport>): seq<Transfer> {
    if done == [] then [] else AllTransfers(done[..|done| - 1]) + done[|done| - 1].transfers
  }

  /** The seqfiles of the contigs, with their lines. */
  function SeqFiles(done: seq<ContigExport>): (r: seq<(string, seq<string>)>)
    ensures |r| == |done|
  {
    seq(|done|, k requires 0 <= k < |done| => (done[k].seqFile, done[k].seqLines))
  }

  /** chromfile.txt's lines: each contig with the URL of its seqfile's URL. */
  function ChromLines(done: seq<ContigExport>, url: string -> string): (r: seq<string>)
    ensures |r| == |done|
  {
    seq(|done|, k requires 0 <= k < |done| => ManifestLine(done[k].contig, url(done[k].seqFileUrl)))
  }

  /** The export of the table: the first KeyError, or every contig's export put together. */
  function ExportOf(files: map<string, map<string, FileId>>, fa: map<string, map<string, ContigFasta>>,
                    outDir: string, url: string -> string, contigs: seq<string>, events: seq<string>): Result<ExportPlan, ExportError>
    requires forall c | c in contigs :: c in files
    requires EventsOf(fa, events)
  {
    var (done, err) := OkPrefix(Outcomes(files, fa, outDir, url, contigs, events));
    if err.Some? then Err(err.value)
    else Ok(ExportPlan(AllTransfers(done), SeqFiles(done), PathJoin(outDir, "chromfile.txt"), ChromLines(done, url)))
  }

  /**
   * The fasta exports and seqfile lines of one contig, event by event in
   * `events` order (the order of its `fa` entry's items): one of each per
   * event of the entry.
   */
  method ExportFastas(row: map<string, ContigFasta>, outDir: string, contig: string, events: seq<string>, url: string -> string)
    returns (transfers: seq<Transfer>, seqLines: seq<string>)
    requires Enumerates(row, events)
    ensures transfers == FastaTransfers(row, outDir, contig, events, url)
    ensures seqLines == SeqLines(outDir, contig, events, url)
    ensures |transfers| == |row| && forall e | e in row :: Transfer(Fasta(row[e]), url(FastaFile(outDir, contig, e))) in transfers
    ensures |seqLines| == |row| && forall e | e in row :: ManifestLine(e, url(FastaFile(outDir, contig, e))) in seqLines
  {
    var faBase := PathJoin(PathJoin(outDir, contig), "fasta");
    transfers := [];
    seqLines := [];
    for j := 0 to |events|
      invariant transfers == FastaTransfers(row, outDir, contig, events[..j], url)
      invariant seqLines == SeqLines(outDir, contig, events[..j], url)
    {
      var event := events[j];
      var faPath := url(PathJoin(faBase, event + "_" + contig + ".fa"));
      assert faPath == url(FastaFile(outDir, contig, event));
      assert FastaTransfers(row, outDir, contig, events[..j + 1], url)
        == FastaTransfers(row, outDir, contig, events[..j], url) + [Transfer(Fasta(row[event]), faPath)];
      assert SeqLines(outDir, contig, events[..j + 1], url) == SeqLines(outDir, contig, events[..j], url) + [event + "\t" + faPath];
      transfers := transfers + [Transfer(Fasta(row[event]), faPath)];
      seqLines := seqLines + [event + "\t" + faPath];
    }
    assert events[..|events|] == events;
    RowCovered(row, outDir, contig, events, url);
  }

  /**
   * A contig's export has its GFA and PAF, one fasta export and one seqfile
   * line per event of its `fa` entry, and the fasta of every such event.
   */
  ghost predicate CoversRow(row: map<string, ContigFasta>, outDir: string, contig: string, url: string -> string, x: ContigExport) {
    && |x.transfers| == 2 + |row|
    && |x.seqLines| == |row|
    && forall e | e in row :: Transfer(Fasta(row[e]), url(FastaFile(outDir, contig, e))) in x.transfers
  }

  /**
   * One contig of export_split_data: its GFA and PAF exports, then one fasta
   * export and one seqfile line per event of its `fa` entry; a missing entry
   * raises the KeyError.
   */
  method ExportContig(files: map<string, map<string, FileId>>, fa: map<string, map<string, ContigFasta>>,
                      outDir: string, url: string -> string, events: seq<string>, refContig: string)
    returns (res: Result<ContigExport, ExportError>)
    requires refContig in files
    requires EventsOf(fa, events)
    ensures res == ContigOutcome(files, fa, outDir, url, events, refContig)
    ensures res.Ok? ==> res.value.contig == refContig
    ensures res.Ok? ==> refContig in fa && CoversRow(fa[refContig], outDir, refContig, url, res.value)
  {
    var entry := files[refContig];
    if "gfa" !in entry {
      return Err(MissingEntry(refContig, "gfa"));
    }
    if "paf" !in entry {
      return Err(MissingEntry(refContig, "paf"));
    }
    var transfers := [Transfer(Stored(entry["gfa"]), url(ContigFile(outDir, refContig, ".gfa"))),
                      Transfer(Stored(entry["paf"]), url(ContigFile(outDir, refContig, ".paf")))];
    if refContig !in fa {
      return Err(MissingEntry(refContig, "fa"));
    }
    var faTransfers, seqLines := ExportFastas(fa[refContig], outDir, refContig, events, url);
    var seqFilePath := ContigFile(outDir, refContig, ".seqfile");
    return Ok(ContigExport(refContig, transfers + faTransfers, seqFilePath, seqLines, url(seqFilePath)));
  }

  /** chromfile.txt's lines, one per contig in `contigs` order (the order the seqfiles were recorded). */
  method ChromFileLines(chromFileMap: map<string, string>, contigs: seq<string>, url: string -> string) returns (lines: seq<string>)
    requires forall c | c in contigs :: c in chromFileMap
    ensures |lines| == |contigs|
    ensures forall k | 0 <= k < |contigs| :: lines[k] == ManifestLine(contigs[k], url(chromFileMap[contigs[k]]))
  {
    lines := [];
    for j := 0 to |contigs|
      invariant |lines| == j
      invariant forall k | 0 <= k < j :: lines[k] == ManifestLine(contigs[k], url(chromFileMap[contigs[k]]))
    {
      var refContig := contigs[j];
      lines := lines + [refContig + "\t" + url(chromFileMap[refContig])];
    }
  }

  /**
   * export_split_data: visits the contigs of the table in `contigs` order
   * (its keys, each once), each contig's events in `events` order (the keys
   * of every `fa` entry, as gather_fas inserted them). `url` is makeURL.
   * The result is the export of the table (see ExportSpec).
   */
  method ExportSplitData(files: map<string, map<string, FileId>>, fa: map<string, map<string, ContigFasta>>,
                         outDir: string, url: string -> string, contigs: seq<string>, events: seq<string>)
    returns (r: Result<ExportPlan, ExportError>)
    requires forall c :: c in contigs <==> c in files
    requires forall i, j | 0 <= i < j < |contigs| :: contigs[i] != contigs[j]
    requires EventsOf(fa, events)
    ensures r == ExportOf(files, fa, outDir, url, contigs, events)
  {
    ghost var outcomes := Outcomes(files, fa, outDir, url, contigs, events);
    ghost var done: seq<ContigExport> := [];
    var transfers: seq<Transfer> := [];
    var seqFiles: seq<(string, seq<string>)> := [];
    var chromFileMap: map<string, string> := map[];
    for i := 0 to |contigs|
      invariant OkPrefix(outcomes[..i]) == (done, None)
      invariant |done| == i
      invariant transfers == AllTransfers(done) && seqFiles == SeqFiles(done)
      invariant chromFileMap == ChromMap(done) && ContigsOf(done) == contigs[..i]
    {
      var refContig := contigs[i];
      OkPrefixStep(outcomes, i, done);
      var res := ExportContig(files, fa, outDir, url, events, refContig);
      assert res == outcomes[i];
      if res.Err? {
        ExportOfPrefix(files, fa, outDir, url, contigs, events, done, Some(res.error));
        return Err(res.error);
      }
      var out := res.value;
      transfers := transfers + out.transfers;
      seqFiles := seqFiles + [(out.seqFile, out.seqLines)];
      ExportStep(done, out);
      SliceStep(contigs, i);
      chromFileMap := chromFileMap[refContig := out.seqFileUrl];
      done := done + [out];
    }
    assert outcomes[..|contigs|] == outcomes;
    assert contigs[..|contigs|] == contigs;
    ExportOfPrefix(files, fa, outDir, url, contigs, events, done, None);
    ChromMapLookup(done, contigs);
    var chromLines := ChromFileLines(chromFileMap, contigs, url);
    assert chromLines == ChromLines(done, url);
    r := Ok(ExportPlan(transfers, seqFiles, PathJoin(outDir, "chromfile.txt"), chromLines));
  }

  /** The export is read off the contigs' outcomes up to the first KeyError. */
  lemma ExportOfPrefix(files: map<string, map<string, FileId>>, fa: map<string, map<string, ContigFasta>>,
                       outDir: string, url: string -> string, contigs: seq<string>, events: seq<string>,
                       done: seq<ContigExport>, err: Option<ExportError>)
    requires forall c | c in contigs :: c in files
    requires EventsOf(fa, events)
    requires OkPrefix(Outcomes(files, fa, outDir, url, contigs, events)) == (done, err)
    ensures err.Some? ==> ExportOf(files, fa, outDir, url, contigs, events) == Err(err.value)
    ensures err.None? ==>
      ExportOf(files, fa, outDir, url, contigs, events) == Ok(ExportPlan(AllTransfers(done), SeqFiles(done), PathJoin(outDir, "chromfile.txt"), ChromLines(done, url)))
  {
  }

  /** A prefix one longer is the prefix with the next element added. */
  lemma SliceStep<T>(s: seq<T>, i: nat)
    requires i < |s|
    ensures s[..i + 1] == s[..i] + [s[i]]
  {
  }

  /** The contigs of the exports made so far, in order. */
  function ContigsOf(done: seq<ContigExport>): (r: seq<string>)
    ensures |r| == |done|
  {
    seq(|done|, k requires 0 <= k < |done| => done[k].contig)
  }

  /** The seqfile URL recorded for each contig exported so far (chrom_file_map). */
  function ChromMap(done: seq<ContigExport>): map<string, string> {
    if done == [] then map[]
    else
      var last := done[|done| - 1];
      ChromMap(done[..|done| - 1])[last.contig := last.seqFileUrl]
  }

  /** With distinct contigs, each contig's recorded URL is its own seqfile's. */
  lemma {:induction false} ChromMapLookup(done: seq<ContigExport>, contigs: seq<string>)
    requires ContigsOf(done) == contigs
    requires forall i, j | 0 <= i < j < |contigs| :: contigs[i] != contigs[j]
    ensures forall k | 0 <= k < |done| :: contigs[k] in ChromMap(done) && ChromMap(done)[contigs[k]] == done[k].seqFileUrl
  {
    if done != [] {
      var n := |done| - 1;
      assert ContigsOf(done[..n]) == contigs[..n];
      ChromMapLookup(done[..n], contigs[..n]);
      forall k | 0 <= k < n
        ensures contigs[k] in ChromMap(done) && ChromMap(done)[contigs[k]] == done[k].seqFileUrl
      {
        assert contigs[..n][k] == contigs[k] && done[..n][k] == done[k];
        assert contigs[k] != contigs[n];
      }
    }
  }

  /** One more contig's export adds its transfers and its seqfile at the end. */
  lemma ExportStep(done: seq<ContigExport>, out: ContigExport)
    ensures AllTransfers(done + [out]) == AllTransfers(done) + out.transfers
    ensures SeqFiles(done + [out]) == SeqFiles(done) + [(out.seqFile, out.seqLines)]
    ensures ChromMap(done + [out]) == ChromMap(done)[out.contig := out.seqFileUrl]
    ensures ContigsOf(done + [out]) == ContigsOf(done) + [out.contig]
  {
    assert (done + [out])[..|done|] == done;
  }

  /** A contig can be exported: it has its GFA, its PAF and its `fa` entry. */
  predicate Exportable(files: map<string, map<string, FileId>>, fa: map<string, map<string, ContigFasta>>, contig: string)
    requires contig in files
  {
    "gfa" in files[contig] && "paf" in files[contig] && contig in fa
  }

  /**
   * One contig's export: it succeeds exactly when the contig is exportable,
   * with the GFA and PAF exports first, then one fasta export per event, and
   * the seqfile under the contig's directory; otherwise the KeyError names
   * the contig and the first entry it lacks.
   */
  lemma ContigOutcomeSpec(files: map<string, map<string, FileId>>, fa: map<string, map<string, ContigFasta>>,
                          outDir: string, url: string -> string, events: seq<string>, contig: string)
    requires contig in files
    requires EventsOf(fa, events)
    ensures var r := ContigOutcome(files, fa, outDir, url, events, contig);
      && (r.Ok? <==> Exportable(files, fa, contig))
      && (r.Err? ==> r.error == MissingEntry(contig, if "gfa" !in files[contig] then "gfa" else if "paf" !in files[contig] then "paf" else "fa"))
    ensures var r := ContigOutcome(files, fa, outDir, url, events, contig);
      r.Ok? ==>
        && r.value.contig == contig
        && r.value.seqFile == ContigFile(outDir, contig, ".seqfile")
        && r.value.seqFileUrl == url(r.value.seqFile)
        && r.value.seqLines == SeqLines(outDir, contig, events, url)
        && |r.value.transfers| == 2 + |fa[contig]|
        && |r.value.seqLines| == |fa[contig]|
        && (forall e | e in fa[contig] :: ManifestLine(e, url(FastaFile(outDir, contig, e))) in r.value.seqLines)
        && (forall e | e in fa[contig] :: Transfer(Fasta(fa[contig][e]), url(FastaFile(outDir, contig, e))) in r.value.transfers)
        && r.value.transfers[0] == Transfer(Stored(files[contig]["gfa"]), url(ContigFile(outDir, contig, ".gfa")))
        && r.value.transfers[1] == Transfer(Stored(files[contig]["paf"]), url(ContigFile(outDir, contig, ".paf")))
        && r.value.transfers[2..] == FastaTransfers(fa[contig], outDir, contig, events, url)
  {
    if contig in fa {
      RowCovered(fa[contig], outDir, contig, events, url);
    }
  }

  /** Every transfer of every contig is among the transfers put together. */
  lemma {:induction false} AllTransfersHas(done: seq<ContigExport>, k: nat, t: Transfer)
    requires k < |done| && t in done[k].transfers
    ensures t in AllTransfers(done)
  {
    var n := |done| - 1;
    if k < n {
      AllTransfersHas(done[..n], k, t);
    }
  }

  /** The export succeeds exactly when every contig is exportable; a failure is the KeyError of one that is not. */
  lemma ExportSucceeds(files: map<string, map<string, FileId>>, fa: map<string, map<string, ContigFasta>>,
                       outDir: string, url: string -> string, contigs: seq<string>, events: seq<string>)
    requires forall c :: c in contigs <==> c in files
    requires EventsOf(fa, events)
    ensures var r := ExportOf(files, fa, outDir, url, contigs, events);
      && (r.Ok? <==> forall c | c in files :: Exportable(files, fa, c))
      && (r.Err? ==> r.error.contig in files && !Exportable(files, fa, r.error.contig))
  {
    var outcomes := Outcomes(files, fa, outDir, url, contigs, events);
    OkPrefixSpec(outcomes);
    forall k | 0 <= k < |contigs|
      ensures outcomes[k].Ok? <==> Exportable(files, fa, contigs[k])
      ensures outcomes[k].Err? ==> outcomes[k].error.contig == contigs[k] && !Exportable(files, fa, contigs[k])
    {
      ContigOutcomeSpec(files, fa, outDir, url, events, contigs[k]);
    }
    forall c | c in files
      ensures exists k | 0 <= k < |contigs| :: contigs[k] == c
    {
      assert c in contigs;
    }
  }

  /** After a successful export, the k-th contig's export is the k-th contig's outcome. */
  lemma ExportedContig(files: map<string, map<string, FileId>>, fa: map<string, map<string, ContigFasta>>,
                       outDir: string, url: string -> string, contigs: seq<string>, events: seq<string>, k: nat)
    requires forall c | c in contigs :: c in files
    requires EventsOf(fa, events)
    requires OkPrefix(Outcomes(files, fa, outDir, url, contigs, events)).1.None? && k < |contigs|
    ensures var done := OkPrefix(Outcomes(files, fa, outDir, url, contigs, events)).0;
      |done| == |contigs| && Ok(done[k]) == ContigOutcome(files, fa, outDir, url, events, contigs[k])
  {
    OkPrefixSpec(Outcomes(files, fa, outDir, url, contigs, events));
  }

  /**
   * A successful export writes one seqfile per contig, in order, holding one
   * line per event of the contig's `fa` entry with the URL of that event's
   * fasta; and chromfile.txt,
   * with one line per contig giving its seqfile's URL (makeURL applied twice).
   */
  lemma ExportManifests(files: map<string, map<string, FileId>>, fa: map<string, map<string, ContigFasta>>,
                        outDir: string, url: string -> string, contigs: seq<string>, events: seq<string>)
    requires forall c | c in contigs :: c in files
    requires EventsOf(fa, events)
    ensures var r := ExportOf(files, fa, outDir, url, contigs, events);
      r.Ok? ==>
        && r.value.chromFile == PathJoin(outDir, "chromfile.txt")
        && |r.value.seqFiles| == |contigs| == |r.value.chromLines|
        && (forall k | 0 <= k < |contigs| ::
              r.value.seqFiles[k] == (ContigFile(outDir, contigs[k], ".seqfile"), SeqLines(outDir, contigs[k], events, url)))
        && (forall k | 0 <= k < |contigs| ::
              r.value.chromLines[k] == ManifestLine(contigs[k], url(url(ContigFile(outDir, contigs[k], ".seqfile")))))
        && (forall k | 0 <= k < |contigs| ::
              && contigs[k] in fa
              && |r.value.seqFiles[k].1| == |fa[contigs[k]]|
              && forall e | e in fa[contigs[k]] :: ManifestLine(e, url(FastaFile(outDir, contigs[k], e))) in r.value.seqFiles[k].1)
  {
    var (done, err) := OkPrefix(Outcomes(files, fa, outDir, url, contigs, events));
    if err.None? {
      forall k | 0 <= k < |contigs|
        ensures |done| == |contigs|
        ensures done[k].seqFile == ContigFile(outDir, contigs[k], ".seqfile") && done[k].seqLines == SeqLines(outDir, contigs[k], events, url)
        ensures done[k].contig == contigs[k] && done[k].seqFileUrl == url(ContigFile(outDir, contigs[k], ".seqfile"))
        ensures contigs[k] in fa
      {
        ExportedContig(files, fa, outDir, url, contigs, events, k);
        ContigOutcomeSpec(files, fa, outDir, url, events, contigs[k]);
      }
      OkPrefixSpec(Outcomes(files, fa, outDir, url, contigs, events));
      var r := ExportOf(files, fa, outDir, url, contigs, events);
      forall k | 0 <= k < |contigs|
        ensures |r.value.seqFiles[k].1| == |fa[contigs[k]]|
        ensures forall e | e in fa[contigs[k]] :: ManifestLine(e, url(FastaFile(outDir, contigs[k], e))) in r.value.seqFiles[k].1
      {
        RowCovered(fa[contigs[k]], outDir, contigs[k], events, url);
      }
    }
  }

  /** A successful export transfers every contig's GFA, PAF and the fasta of every event of its `fa` entry to their URLs. */
  lemma ExportTransfers(files: map<string, map<string, FileId>>, fa: map<string, map<string, ContigFasta>>,
                        outDir: string, url: string -> string, contigs: seq<string>, events: seq<string>)
    requires forall c | c in contigs :: c in files
    requires EventsOf(fa, events)
    ensures var r := ExportOf(files, fa, outDir, url, contigs, events);
      r.Ok? ==> forall k | 0 <= k < |contigs| ::
        && Exportable(files, fa, contigs[k])
        && Transfer(Stored(files[contigs[k]]["gfa"]), url(ContigFile(outDir, contigs[k], ".gfa"))) in r.value.transfers
        && Transfer(Stored(files[contigs[k]]["paf"]), url(ContigFile(outDir, contigs[k], ".paf"))) in r.value.transfers
        && forall e | e in fa[contigs[k]] :: Transfer(Fasta(fa[contigs[k]][e]), url(FastaFile(outDir, contigs[k], e))) in r.value.transfers
  {
    var (done, err) := OkPrefix(Outcomes(files, fa, outDir, url, contigs, events));
    if err.None? {
      forall k | 0 <= k < |contigs|
        ensures "gfa" in files[contigs[k]] && "paf" in files[contigs[k]] && contigs[k] in fa
        ensures Transfer(Stored(files[contigs[k]]["gfa"]), url(ContigFile(outDir, contigs[k], ".gfa"))) in AllTransfers(done)
        ensures Transfer(Stored(files[contigs[k]]["paf"]), url(ContigFile(outDir, contigs[k], ".paf"))) in AllTransfers(done)
        ensures forall e | e in fa[contigs[k]] :: Transfer(Fasta(fa[contigs[k]][e]), url(FastaFile(outDir, contigs[k], e))) in AllTransfers(done)
      {
        ExportedContig(files, fa, outDir, url, contigs, events, k);
        ContigOutcomeSpec(files, fa, outDir, url, events, contigs[k]);
        var ts := done[k].transfers;
        AllTransfersHas(done, k, ts[0]);
        AllTransfersHas(done, k, ts[1]);
        RowCovered(fa[contigs[k]], outDir, contigs[k], events, url);
        forall e | e in fa[contigs[k]]
          ensures Transfer(Fasta(fa[contigs[k]][e]), url(FastaFile(outDir, contigs[k], e))) in AllTransfers(done)
        {
          var t := Transfer(Fasta(fa[contigs[k]][e]), url(FastaFile(outDir, contigs[k], e)));
          assert t in ts[2..];
          AllTransfersHas(done, k, t);
        }
      }
    }
  }
}
