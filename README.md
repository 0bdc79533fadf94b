# cactus-align and cactus-graphmap-split, modelled in Dafny

This project models two parts of the Cactus whole-genome aligner's Python
driver scripts.

**cactus-align** (`src/cactus/setup/cactus_align.py`):
- how a batch chromfile becomes one align job per chromosome, each with its
  stagger delay and checkpoint path;
- how the batch root adds one child per job;
- how `get_input_path` picks an alignment file for a lookup suffix;
- the chain of stages `run_cactus_align` schedules;
- how `prepend_cigar_ids` renames the two sequence tokens of every cigar line;
- `export_vg`, with its two-phase resource sizing and the hal2vg command line
  it builds from the configuration;
- how cactus-align-batch parses `--alignCoresOverrides` and resolves each
  chromosome's cores.

**cactus-graphmap-split** (`src/cactus/refmap/cactus_graphmap_split.py`):
- the set of reference contigs;
- the disk sizing of the split workflow;
- the rgfa-split command and the grouping of its outputs by contig (`split_gfa`);
- the cactus ids given to events in sorted name order, and one job per event
  (`split_fas`);
- the per-contig extraction of an event's fasta from the `id=N|`-tagged
  contig lists (`split_fa_into_contigs`);
- the transposition of the per-event tables into the per-contig table,
  updated in place (`gather_fas`);
- the exports, seqfiles and `chromfile.txt` that `export_split_data`
  produces.

Modules, in dependency order:

| module | file | what it holds |
|---|---|---|
| `Wrappers` | wrappers.dfy | `Option`, `Result` |
| `Text` | text.dfy | Python's `str.split()`, `str.strip()`, `str.split(sep)`, `sep.join`, `os.path.join`, `os.path.basename`, `os.path.splitext`, `int()`, `'{}'.format(n)`, with their laws |
| `BatchPlan` | batch_plan.dfy | `make_batch_align_jobs`, `run_batch_align_jobs`, the core overrides of `main_batch`, `align_toil_batch` |
| `InputPath` | input_path.dfy | `get_input_path` |
| `CigarIds` | cigar_ids.dfy | `prepend_cigar_ids` |
| `AlignStages` | align_stages.dfy | `run_cactus_align`, `export_vg` |
| `SplitPlan` | split_plan.dfy | reference contigs, `graphmap_split_workflow` sizing, `split_gfa` |
| `CactusIds` | cactus_ids.dfy | Python's string order, `sorted(set(...))`, `split_fas` |
| `ContigSplit` | contig_split.dfy | `split_fa_into_contigs` |
| `Gather` | gather.dfy | `gather_fas`, as a class whose `fa` table is updated in place |
| `Export` | export.dfy | `export_split_data` |

Loops in the source become methods with loop invariants, each proved against
a specification function. The properties the source promises are lemmas
about those functions. Some things are parameters rather than being modelled:
- the file store, as `read` and `store` functions;
- `makeURL`, as `url`;
- the iteration order of dictionaries, as explicit key sequences.

## Model

| member | source | states |
|---|---|---|
| BatchPlan.ChromCheckpointPath | src/cactus/setup/cactus_align.py:222-224 | absent checkpoint info stays absent; present info keeps its region and gets `<path>/<chrom>.hal` |
| BatchPlan.RowsShape | src/cactus/setup/cactus_align.py:211-214 | blank chromfile lines are skipped: no more rows than lines, and no row is empty |
| BatchPlan.StaggerDelayIsProduct | src/cactus/setup/cactus_align.py:207-227 | the delay accumulated over k rows is k * stagger |
| BatchPlan.MakeBatchAlignJobs | src/cactus/setup/cactus_align.py:204-231 | outside batch mode, the single job keyed None with the options unchanged; in batch mode it succeeds exactly when every non-blank line has three tokens, and the table is then the one built from the rows; a failure names a chromfile line with neither 0 nor 3 tokens |
| BatchPlan.JobsOfKeys | src/cactus/setup/cactus_align.py:212-226 | the job table has exactly one key per chromosome named in a row |
| BatchPlan.JobsOfLastRow | src/cactus/setup/cactus_align.py:215-227 | a chromosome's job comes from its last row: that row's seqfile and alignment file, batch off, the delay of that row's position, and its checkpoint path |
| BatchPlan.StaggerSchedule | src/cactus/setup/cactus_align.py:207-227 | with distinct chromosomes, the k-th job waits k * stagger: the first waits 0, and each starts `stagger` after the one before |
| BatchPlan.RunBatchAlignJobs | src/cactus/setup/cactus_align.py:197-202 | one child per job; the result has exactly the jobs' keys, each mapped to the position of a child running its own job, no two keys sharing a child |
| BatchPlan.ParseCoresOverride | src/cactus/setup/cactus_align.py:661-662 | an accepted entry's chromosome has no comma |
| BatchPlan.ParseCoresOverrideShape | src/cactus/setup/cactus_align.py:659-664 | an accepted entry is `chrom,rest`, with exactly one comma and `rest` parsing as the cores |
| BatchPlan.ParseCoresOverrideRoundTrip | src/cactus/setup/cactus_align.py:661-662 | `chrom,<cores>` written out is read back as the same pair, for a comma-free chromosome |
| BatchPlan.CollectEach | src/cactus/setup/cactus_align.py:658-664 | collecting the parsed entries succeeds exactly when each entry parses, keeping every value in order |
| BatchPlan.ParseCoresOverrides | src/cactus/setup/cactus_align.py:657-665 | the table exists exactly when every entry parses, and is then built from the pairs in order, a later entry overriding an earlier one; a failure names an entry that does not parse |
| BatchPlan.CoresFromLastEntry | src/cactus/setup/cactus_align.py:657-665 | a chromosome's cores come from its last override entry |
| BatchPlan.CoresWithoutEntry | src/cactus/setup/cactus_align.py:709 | a chromosome with no override entry gets `--alignCores` |
| BatchPlan.LoadChromDict | src/cactus/setup/cactus_align.py:674-682 | reading the chromfile succeeds exactly when every non-blank line has three tokens, and the table is then the one built from the rows; a failure names a line with neither 0 nor 3 tokens |
| BatchPlan.ChromDictKeys | src/cactus/setup/cactus_align.py:677-682 | the chromosome table has exactly one entry per chromosome named in a row |
| BatchPlan.ChromDictLastRow | src/cactus/setup/cactus_align.py:679-682 | a chromosome's entry holds the imported seqfile and alignment file of its last row |
| BatchPlan.AlignToilJobs | src/cactus/setup/cactus_align.py:706-709 | one align_toil job per chromosome of the table, with its seqfile and PAF ids and its resolved cores |
| BatchPlan.AlignToilBatch | src/cactus/setup/cactus_align.py:702-712 | one child per chromosome; each chromosome maps to the position of a child running its own align_toil job, no two sharing a child |
| InputPath.GetInputPath | src/cactus/setup/cactus_align.py:304-311 | the loop's result is the scan that starts from the first file, or None (IndexError) without files |
| InputPath.ScanFirstMatch | src/cactus/setup/cactus_align.py:306-308 | a non-empty suffix that some file ends with returns the first such file |
| InputPath.ScanNoMatch | src/cactus/setup/cactus_align.py:309-311 | with an empty suffix, or one no file ends with, the result is the final base path with the suffix appended |
| InputPath.FinalBaseMinimal | src/cactus/setup/cactus_align.py:309-310 | the final base is the start or one of the files; its base name is a prefix of the start's; no file has a base name that is a strict prefix of it |
| InputPath.InputPathMatch | src/cactus/setup/cactus_align.py:304-308 | get_input_path with a suffix some file ends with returns the first such file |
| InputPath.InputPathFallback | src/cactus/setup/cactus_align.py:304-311 | otherwise it returns one of the files plus the suffix; that file's base name is a prefix of the first file's and is minimal among the files |
| AlignStages.FollowOnChainStages | src/cactus/setup/cactus_align.py:437-464 | the chain runs in pipeline order and starts with id prepending; ingroup coverage is in it exactly when none was supplied; setup, HAL preparation and HAL export always are; the vg/GFA export is in it exactly when vg or GFA is asked for, and is then last |
| AlignStages.RunCactusAlign | src/cactus/setup/cactus_align.py:420-469 | PAF input adds a conversion child whose outputs replace the alignments, the secondary one only when asked; the follow-on chain is the one above; vg/gfa results exist exactly when vg or GFA is asked for |
| AlignStages.UserOptionsRoundTrip | src/cactus/setup/cactus_align.py:584-588 | the user's hal2vg options, joined back with spaces, give the configured string; none are given when it is absent or empty |
| AlignStages.IgnoredEvents | src/cactus/setup/cactus_align.py:589-593 | the minigraph event is ignored unless included, as is the root ancestor; nothing else is ignored; the list is empty exactly when both are included |
| AlignStages.IgnoreGenomesRoundTrip | src/cactus/setup/cactus_align.py:594-595 | the `--ignoreGenomes` value splits back on commas into the ignored events, when no event name holds a comma |
| AlignStages.Hal2VgArgs | src/cactus/setup/cactus_align.py:584-597 | the options are the user's, then `--ignoreGenomes` with the events exactly when some genome is ignored, then `--onlySequenceNames` exactly when names are not prepended |
| AlignStages.Hal2VgOptions | src/cactus/setup/cactus_align.py:584-597 | the option-assembling code gives exactly those options |
| AlignStages.ExportVgJob | src/cactus/setup/cactus_align.py:568-618 | an unsized call resubmits itself with 3x the HAL size of disk and 10x of memory; a sized call runs hal2vg, builds the GFA only when asked, writes checkpoints with the extension replaced when there is checkpoint info, and returns a vg result exactly when vg is asked for and a gfa result exactly when GFA is |
| AlignStages.VgCheckpointKeyStem | src/cactus/setup/cactus_align.py:604-605 | the vg checkpoint key has the checkpoint path's stem with extension `.vg` |
| CigarIds.RewriteTokens | src/cactus/setup/cactus_align.py:479-485 | renaming succeeds exactly when there are at least six tokens and tokens 1 and 5 are in the id map; it then changes only those two; an index error or the first unknown id otherwise, in the source's order of checks |
| CigarIds.RewriteTokensInverse | src/cactus/setup/cactus_align.py:484-485 | renaming back through an inverse map restores the tokens |
| CigarIds.RewriteLineTokens | src/cactus/setup/cactus_align.py:479-486 | when the new names are non-empty and free of whitespace, the written line splits into the renamed tokens |
| CigarIds.OkPrefixSpec | src/cactus/setup/cactus_align.py:478-486 | the lines written are the rewrites before the first failing line, whose error is the one raised; with no error every line's rewrite is written |
| CigarIds.RewriteCigarLines | src/cactus/setup/cactus_align.py:477-486 | the per-file loop writes exactly those lines and raises that error |
| CigarIds.WriteEachSpec | src/cactus/setup/cactus_align.py:474-488 | the returned paths are the first files in order, each rewritten without error; writing stops at the first file with an error, which is raised; the error is absent exactly when every file completes |
| CigarIds.WriteEachCompleted | src/cactus/setup/cactus_align.py:475-487 | a completed file whose output path no later file reuses holds its own rewrite |
| CigarIds.PrependCigarIds | src/cactus/setup/cactus_align.py:471-488 | the paths returned, the files written and the error raised are those of writing each file's rewrite in turn |
| SplitPlan.FirstWord | src/cactus/refmap/cactus_graphmap_split.py:107-108 | the first word of a non-blank line is non-empty and has no whitespace |
| SplitPlan.FirstWordsMembers | src/cactus/refmap/cactus_graphmap_split.py:104-108 | a word is added exactly when some non-blank line starts with it |
| SplitPlan.RefContigs | src/cactus/refmap/cactus_graphmap_split.py:102-108 | the contigs given, plus the first words of the contigs file's non-blank lines when there is one |
| SplitPlan.WorkflowSizing | src/cactus/refmap/cactus_graphmap_split.py:150-163 | a gzipped GFA or PAF gets an unzip child with 10x its size of disk; the split job gets 5x the sum of the effective sizes |
| SplitPlan.SplitDiskBounds | src/cactus/refmap/cactus_graphmap_split.py:155-163 | the split disk is between 5x and 50x the stored sizes, 50x when both inputs are gzipped |
| SplitPlan.RgfaSplitCommand | src/cactus/refmap/cactus_graphmap_split.py:187-189 | `rgfa-split -g <gfa> -p <paf> -b <out>/`, then one `-c <contig>` pair per reference contig of the set, in the order the set is iterated |
| SplitPlan.GroupSpec | src/cactus/refmap/cactus_graphmap_split.py:193-199 | every kept output is in the table under its name and extension; every entry is a kept output's, holding its stored id |
| SplitPlan.SplitGfaTable | src/cactus/refmap/cactus_graphmap_split.py:193-201 | the loop builds exactly the grouping of the split names |
| SplitPlan.SplitGfaTableSpec | src/cactus/refmap/cactus_graphmap_split.py:193-201 | exactly the `.gfa`, `.paf` and `.fa_contigs` outputs are in the table, under base name and extension without the dot, each holding its id |
| CactusIds.LessTotal | src/cactus/refmap/cactus_graphmap_split.py:211 | Python's string order is total |
| CactusIds.LessTransitive | src/cactus/refmap/cactus_graphmap_split.py:211 | and transitive |
| CactusIds.InsertSorted | src/cactus/refmap/cactus_graphmap_split.py:211 | inserting keeps names strictly sorted and adds exactly the new name |
| CactusIds.SortedDistinctSpec | src/cactus/refmap/cactus_graphmap_split.py:211 | `sorted(set(names))` is strictly sorted and holds exactly the names |
| CactusIds.StrictlySortedUnique | src/cactus/refmap/cactus_graphmap_split.py:211 | two strictly sorted sequences with the same members are equal |
| CactusIds.SortedDistinctOrderFree | src/cactus/refmap/cactus_graphmap_split.py:211 | the sorted names do not depend on the order or repeats of the keys |
| CactusIds.CactusIdMap | src/cactus/refmap/cactus_graphmap_split.py:210-212 | every event gets an id; the i-th name in sorted order gets i; the ids are below the number of events and follow name order both ways |
| CactusIds.SplitFas | src/cactus/refmap/cactus_graphmap_split.py:203-223 | one job per event, with its fasta, its id (its position in sorted order) and 3x the fasta size of disk |
| ContigSplit.IdPrefixUnique | src/cactus/refmap/cactus_graphmap_split.py:239-252 | no line starts with the tags of two different cactus ids |
| ContigSplit.KeptSpec | src/cactus/refmap/cactus_graphmap_split.py:249-256 | the clean list holds, with the tag removed, exactly the stripped lines that start with the tag, and is empty exactly when none do |
| ContigSplit.FilterContigList | src/cactus/refmap/cactus_graphmap_split.py:248-256 | the loop writes exactly that clean list, and its count is the list's length |
| ContigSplit.LocalFastaGunzip | src/cactus/refmap/cactus_graphmap_split.py:231-237 | a gzipped fasta is used without its `.gz` suffix; a plain one is used where it was downloaded |
| ContigSplit.TabulateSpec | src/cactus/refmap/cactus_graphmap_split.py:241-267 | over distinct contigs the table exists exactly when no contig fails, and then holds each contig's own outcome; otherwise the error is the first failure |
| ContigSplit.ContigOutcomeSpec | src/cactus/refmap/cactus_graphmap_split.py:243-265 | a contig succeeds exactly when it has a contig list and the event has contigs there or is the minigraph event; the result is the samtools extraction when there are contigs, else the whole fasta |
| ContigSplit.SplitFaIntoContigs | src/cactus/refmap/cactus_graphmap_split.py:225-267 | the loop gives the first contig's failure, or the table of every contig's outcome |
| ContigSplit.SplitFaIntoContigsSpec | src/cactus/refmap/cactus_graphmap_split.py:225-267 | the split succeeds exactly when every contig is splittable, then covers exactly the contigs with their expected fastas; a failure is some contig's KeyError or failed assertion |
| Gather.TransposeSpec | src/cactus/refmap/cactus_graphmap_split.py:273-276 | the transpose has one entry per contig, each with one entry per event, holding that event's fasta for the contig |
| Gather.TransposeRoundTrip | src/cactus/refmap/cactus_graphmap_split.py:273-276 | when every event has exactly the same contigs, transposing back gives the per-event tables |
| Gather.GatherRow | src/cactus/refmap/cactus_graphmap_split.py:274-276 | a contig's row is complete exactly when every event has the contig, and is then every event's fasta for it; otherwise a missing event is named |
| Gather.SplitTable.constructor | src/cactus/refmap/cactus_graphmap_split.py:169 | the table gather_fas receives: split_gfa's stored files, with no `fa` entries yet |
| Gather.SplitTable.GatherFas | src/cactus/refmap/cactus_graphmap_split.py:269-278 | stored files are untouched; it succeeds exactly when every event has every contig, and the `fa` entries are then the transpose; otherwise the KeyError names an event lacking a contig |
| Export.ManifestLineRoundTrip | src/cactus/refmap/cactus_graphmap_split.py:306-317 | a seqfile or chromfile line splits on its tab into key and value |
| Export.FastaFileShape | src/cactus/refmap/cactus_graphmap_split.py:297-302 | an event's fasta goes to `<out>/<contig>/fasta/<event>_<contig>.fa` |
| Export.RowCovered | src/cactus/refmap/cactus_graphmap_split.py:297-309 | one fasta export and one seqfile line per key of a contig's `fa` entry, every key having its own |
| Export.ExportFastas | src/cactus/refmap/cactus_graphmap_split.py:297-309 | one fasta export and one seqfile line per key of the contig's `fa` entry, in the entry's order, every key having its own |
| Export.ExportContig | src/cactus/refmap/cactus_graphmap_split.py:285-312 | one contig's exports: GFA, PAF, then one fasta per key of its `fa` entry, and its seqfile; or the KeyError for the first missing entry |
| Export.ChromFileLines | src/cactus/refmap/cactus_graphmap_split.py:315-317 | one chromfile line per contig in recorded order, with makeURL applied to the recorded URL |
| Export.ChromMapLookup | src/cactus/refmap/cactus_graphmap_split.py:283-312 | with distinct contigs, the recorded map gives every exported contig the URL of its own seqfile |
| Export.ExportSplitData | src/cactus/refmap/cactus_graphmap_split.py:280-317 | the export is that of the contigs in order (each with one fasta per key of its `fa` entry), stopping at the first KeyError |
| Export.ContigOutcomeSpec | src/cactus/refmap/cactus_graphmap_split.py:285-309 | a contig exports exactly when it has `gfa`, `paf` and `fa`; it then makes 2 + one per key of its `fa` entry exports, in this order, every key's fasta among them, plus a seqfile with one line per key; otherwise the KeyError names the first missing entry |
| Export.ExportSucceeds | src/cactus/refmap/cactus_graphmap_split.py:280-317 | the export succeeds exactly when every contig is exportable; a failure names a contig that is not |
| Export.ExportedContig | src/cactus/refmap/cactus_graphmap_split.py:285-312 | after a successful export, each contig's part is its own outcome |
| Export.ExportManifests | src/cactus/refmap/cactus_graphmap_split.py:306-317 | one seqfile per contig, with one line per key of the contig's `fa` entry giving that event's fasta URL; `chromfile.txt` lists each contig with its seqfile URL, makeURL applied twice |
| Export.ExportTransfers | src/cactus/refmap/cactus_graphmap_split.py:291-303 | a successful export transfers every contig's GFA and PAF, and the fasta of every key of its `fa` entry, to their URLs |
| Text.TokensShape | src/cactus/setup/cactus_align.py:213 | `str.split()` gives non-empty whitespace-free tokens, and none exactly for all-whitespace text |
| Text.TokensOfJoin | src/cactus/setup/cactus_align.py:486 | non-empty whitespace-free words joined with single spaces split back into the words |
| Text.StripTrims | src/cactus/setup/cactus_align.py:213 | `str.strip()` is empty exactly for all-whitespace text, and otherwise starts and ends with non-whitespace |
| Text.JoinSplitOn | src/cactus/setup/cactus_align.py:661 | `str.split(sep)` joined back with `sep` gives the string |
| Text.SplitOnJoin | src/cactus/setup/cactus_align.py:595 | parts free of `sep` joined with `sep` split back into the parts |
| Text.PathJoinShape | src/cactus/refmap/cactus_graphmap_split.py:286 | `os.path.join` replaces with an absolute second part, and otherwise puts exactly one `/` between the parts |
| Text.BasenameIsLastComponent | src/cactus/setup/cactus_align.py:476 | `os.path.basename` is the slash-free tail after the last `/` |
| Text.SplitExtParts | src/cactus/refmap/cactus_graphmap_split.py:195 | `os.path.splitext`'s parts concatenate to the path; a non-empty extension is one dot and then neither dot nor slash |
| Text.SplitExtOfAppended | src/cactus/refmap/cactus_graphmap_split.py:195 | appending such an extension to a stem that is not all dots splits back into stem and extension |
| Text.DigitsValueOfNatToString | src/cactus/refmap/cactus_graphmap_split.py:239 | the decimal digits of n read back as n |
| Text.ParseIntOfIntToString | src/cactus/setup/cactus_align.py:662 | `int()` of a formatted integer gives it back |

## Left out

- Toil itself is not modelled: job scheduling, promises (`rv()`), the job store, `importFile`, `exportFile`, `writeGlobalFile`, local temp dirs. Jobs appear as records, stored files as opaque `FileId`s, exports as transfer records, and reads and writes as functions and line sequences.
- External tools are not modelled: `rgfa-split`, `samtools faidx`, `gzip`, `hal2vg`, `vg view`, paf_to_lastz, the Cactus setup checkpoint, `exportHal`. Only the commands and arguments handed to them are modelled.
- The outputs of `os.listdir`, the ordering of Python dicts and sets, and `makeURL` are parameters.
- `make_align_job`, `run_prepend_unique_ids`, `run_ingroup_coverage`, `run_setup_phase`, `run_prepare_hal_export`, `align_toil`, `unzip_gz` and `runCactusGraphMapSplit`'s seqfile loading: their work is Toil, XML and file I/O. They enter the model only as stages or jobs.
- Both scripts' `main`/`main_batch` argument parsing: the CPU and `--maxCores` checks, the s3 checks, the `CACTUS_EVENT_NAME_AS_UNIQUE_ID` environment logic, `toil.restart()`, and the final export loops. The override parsing, the chromfile reading of `main_batch` (BatchPlan.LoadChromDict) and the alignment-file lookup inside them are modelled.
- `time.sleep(delay)` in run_cactus_align is not modelled; the delay is only recorded in each job's options.
- `getOptionalAttrib` and the XML configuration: config attributes are `Option` values with the call sites' defaults.
- Text.ParseInt: accepts an optional sign and decimal digits only. Python's `int()` also allows underscores and non-ASCII digits.
- Text.IsSpace: the whitespace set of `str.isspace()` is written out. Unicode normalisation and case are not modelled.
- Gzip decompression is modelled only as the renaming of the local fasta path.
- Lines read and written are modelled without their trailing newline.
- Gather.SplitTable.GatherFas: when an event lacks a contig, the KeyError is returned with that contig's partly filled `fa` entry in place, as in the source. The contract names the error but does not state the partial entry.
- Export.ExportSplitData: exports made before a KeyError are not part of the result. The source has already performed them when it raises.
- runCactusGraphMapSplit's `assert graph_event in seqIDMap` is not modelled; split_fa_into_contigs's own check against the minigraph event name is.
- The seqfile of a contig is modelled as the lines it holds, not as a file write.
- `chromfile.txt` applies makeURL to a value that is already a URL, as the source does. The model keeps this double application (`url(url(...))`) rather than correcting it.
