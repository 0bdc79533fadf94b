/**
 * split_fa_into_contigs in cactus-graphmap-split: for one event, read every
 * reference contig's `.fa_contigs` list from rgfa-split, keep the lines
 * tagged with the event's `id=<cactus id>|` prefix (without the prefix), and
 * extract those sequences from the event's fasta; a contig with no line for
 * the event falls back to the whole fasta, which only the minigraph
 * pseudo-event may do.
 */
module ContigSplit {
  import opened Wrappers
  import opened Text
  import opened SplitPlan
  import opened CigarIds

  /** The event name that may have no sequence on a reference contig. */
  const MinigraphEvent: string := "__MINIGRAPH_SEQUENCES__"

  /** The tag rgfa-split puts in front of the contigs of the event with this cactus id. */
  function IdPrefix(cactusId: nat): string {
    "id=" + NatToString(cactusId) + "|"
  }

  /** No line starts with the tags of two different cactus ids: a listed contig belongs to one event. */
  lemma IdPrefixUnique(i: nat, j: nat, line: string)
    requires IdPrefix(i) <= line && IdPrefix(j) <= line
    ensures i == j
  {
    var di, dj := NatToString(i), NatToString(j);
    var a, b := IdPrefix(i), IdPrefix(j);
    assert a == line[..|a|] && b == line[..|b|];
    assert line[3 + |di|] == a[3 + |di|] == '|' && line[3 + |dj|] == b[3 + |dj|] == '|';
    if |di| == |dj| {
      assert di == a[3..3 + |di|] == line[3..3 + |di|] == b[3..3 + |dj|] == dj;
      DigitsValueOfNatToString(i);
      DigitsValueOfNatToString(j);
    }
  }

  /** Every line stripped of surrounding whitespace, as line.strip() gives it. */
  function StripAll(lines: seq<string>): (r: seq<string>)
    ensures |r| == |lines|
  {
    seq(|lines|, k requires 0 <= k < |lines| => Strip(lines[k]))
  }

  /** The (stripped) lines that start with `prefix`, in order, with the prefix removed. */
  function Kept(stripped: seq<string>, prefix: string): seq<string> {
    if stripped == [] then []
    else
      var q := stripped[|stripped| - 1];
      Kept(stripped[..|stripped| - 1], prefix) + (if prefix <= q then [q[|prefix|..]] else [])
  }

  /**
   * The kept entries are the tagged lines with the prefix removed: each comes
   * from a tagged line, every tagged line gives one, and there are none
   * exactly when no line carries the prefix.
   */
  lemma {:induction false} KeptSpec(stripped: seq<string>, prefix: string)
    ensures |Kept(stripped, prefix)| <= |stripped|
    ensures forall x | x in Kept(stripped, prefix) :: prefix + x in stripped
    ensures forall k | 0 <= k < |stripped| && prefix <= stripped[k] :: stripped[k][|prefix|..] in Kept(stripped, prefix)
    ensures Kept(stripped, prefix) == [] <==> forall k | 0 <= k < |stripped| :: !(prefix <= stripped[k])
  {
    if stripped != [] {
      var n := |stripped| - 1;
      var q := stripped[n];
      KeptSpec(stripped[..n], prefix);
      forall k | 0 <= k < n
        ensures stripped[..n][k] == stripped[k]
      {
      }
      assert forall y | y in stripped[..n] :: y in stripped;
      if prefix <= q {
        assert prefix + q[|prefix|..] == q;
      }
    }
  }

  /**
   * The clean contig list and its count: the contigs of the list tagged
   * with `prefix`, untagged, and how many there are.
   */
  method FilterContigList(lines: seq<string>, prefix: string) returns (clean: seq<string>, count: nat)
    ensures clean == Kept(StripAll(lines), prefix)
    ensures count == |clean|
  {
    ghost var stripped := StripAll(lines);
    clean := [];
    count := 0;
    for i := 0 to |lines|
      invariant clean == Kept(stripped[..i], prefix)
      invariant count == |clean|
    {
      assert stripped[..i + 1][..i] == stripped[..i];
      var queryContig := Strip(lines[i]);
      if prefix <= queryContig {
        queryContig := queryContig[|prefix|..];
        clean := clean + [queryContig];
        count := count + 1;
      }
    }
    assert stripped[..|lines|] == stripped;
  }

  /** The local copy of the event's fasta, without `.gz` once it is unzipped. */
  function LocalFasta(workDir: string, faPath: string): (r: string) {
    var p := PathJoin(workDir, Basename(faPath));
    if EndsWith(p, ".gz") then p[..|p| - 3] else p
  }

  /** gzip -d removes exactly the `.gz` suffix, and a plain fasta is used where it lies. */
  lemma LocalFastaGunzip(workDir: string, faPath: string)
    ensures var p := PathJoin(workDir, Basename(faPath));
      && (EndsWith(p, ".gz") ==> LocalFasta(workDir, faPath) + ".gz" == p)
      && (!EndsWith(p, ".gz") ==> LocalFasta(workDir, faPath) == p)
  {
    var p := PathJoin(workDir, Basename(faPath));
    if EndsWith(p, ".gz") {
      assert p[..|p| - 3] + p[|p| - 3..] == p;
    }
  }

  /**
   * What one event holds for one reference contig: the sequences samtools
   * faidx extracts (the clean list written to `regionFile`, the command and
   * its output file), or the event's whole fasta.
   */
  datatype ContigFasta =
    | Extracted(regions: seq<string>, faidx: seq<string>, outFile: string)
    | Original(fa: FileId)

  /** A missing `fa_contigs` entry (KeyError), or the failed assertion for an event other than the minigraph one. */
  datatype SplitError = MissingContigList(contig: string) | NoContigsForEvent(event: string, contig: string)

  /** The event's outcome for one reference contig, given its split table entry. */
  function ContigOutcome(event: string, fa: FileId, localFa: string, cactusId: nat, workDir: string,
                         contig: string, entry: map<string, FileId>, read: FileId -> seq<string>): Result<ContigFasta, SplitError>
  {
    if "fa_contigs" !in entry then Err(MissingContigList(contig))
    else
      var clean := Kept(StripAll(read(entry["fa_contigs"])), IdPrefix(cactusId));
      if |clean| > 0 then
        var regionFile := PathJoin(workDir, contig + ".fa_contigs.clean");
        Ok(Extracted(clean, ["samtools", "faidx", localFa, "--region-file", regionFile], PathJoin(workDir, event + "_" + contig + ".fa")))
      else if event == MinigraphEvent then Ok(Original(fa))
      else Err(NoContigsForEvent(event, contig))
  }

  /** Every contig's outcome, in the order the contigs are visited. */
  function Outcomes(event: string, fa: FileId, localFa: string, cactusId: nat, workDir: string,
                    splitIdMap: map<string, map<string, FileId>>, contigs: seq<string>, read: FileId -> seq<string>): (r: seq<Result<ContigFasta, SplitError>>)
    requires forall c | c in contigs :: c in splitIdMap
    ensures |r| == |contigs|
  {
    seq(|contigs|, k requires 0 <= k < |contigs| => ContigOutcome(event, fa, localFa, cactusId, workDir, contigs[k], splitIdMap[contigs[k]], read))
  }

  /** The contigs visited in turn: the first failure is raised, otherwise each contig gets its outcome. */
  function Tabulate<K(==), V, E>(keys: seq<K>, outcomes: seq<Result<V, E>>): Result<map<K, V>, E>
    requires |keys| == |outcomes|
  {
    var (vals, err) := OkPrefix(outcomes);
    OkPrefixSpec(outcomes);
    if err.Some? then Err(err.value) else Ok(Overwrite(keys, vals, |vals|))
  }

  /**
   * Over distinct keys: the table is built exactly when no outcome failed,
   * and then holds every key with its own value; otherwise the error is the
   * first failed outcome's.
   */
  lemma TabulateSpec<K, V, E>(keys: seq<K>, outcomes: seq<Result<V, E>>)
    requires |keys| == |outcomes|
    requires forall i, j | 0 <= i < j < |keys| :: keys[i] != keys[j]
    ensures Tabulate(keys, outcomes).Ok? <==> forall k | 0 <= k < |outcomes| :: outcomes[k].Ok?
    ensures Tabulate(keys, outcomes).Ok? ==>
      && Tabulate(keys, outcomes).value.Keys == (set k | k in keys)
      && forall k | 0 <= k < |keys| :: Tabulate(keys, outcomes).value[keys[k]] == outcomes[k].value
    ensures Tabulate(keys, outcomes).Err? ==>
      exists j | 0 <= j < |outcomes| :: outcomes[j] == Err(Tabulate(keys, outcomes).error) && forall k | 0 <= k < j :: outcomes[k].Ok?
  {
    OkPrefixSpec(outcomes);
    var (vals, err) := OkPrefix(outcomes);
    if err.None? {
      OverwriteLastWrite(keys, vals, |vals|);
      assert (set k | 0 <= k < |keys| :: keys[k]) == (set k | k in keys);
    } else {
      var j := |vals|;
      assert outcomes[j] == Err(err.value);
    }
  }

  /** One more visited contig extends the table, or raises its error. */
  lemma TabulateStep<K, V, E>(keys: seq<K>, outcomes: seq<Result<V, E>>, i: nat, vals: seq<V>)
    requires i < |keys| == |outcomes| && OkPrefix(outcomes[..i]) == (vals, None) && |vals| == i
    ensures outcomes[i].Ok? ==> OkPrefix(outcomes[..i + 1]) == (vals + [outcomes[i].value], None)
    ensures outcomes[i].Ok? ==> Overwrite(keys, vals + [outcomes[i].value], i + 1) == Overwrite(keys, vals, i)[keys[i] := outcomes[i].value]
    ensures outcomes[i].Err? ==> Tabulate(keys, outcomes) == Err(outcomes[i].error)
  {
    OkPrefixStep(outcomes, i, vals);
    if outcomes[i].Ok? {
      OverwritePrefix(keys, vals + [outcomes[i].value], keys, vals, i);
    }
  }

  /**
   * split_fa_into_contigs for one event: visits the reference contigs of the
   * split table in `contigs` order (its keys, each once). `read` gives the
   * lines of a stored file. The result is the first failure, or a table
   * giving every contig the event's outcome for it (see SplitFaIntoContigsSpec).
   */
  method SplitFaIntoContigs(event: string, fa: FileId, faPath: string, cactusId: nat, workDir: string,
                            splitIdMap: map<string, map<string, FileId>>, contigs: seq<string>, read: FileId -> seq<string>)
    returns (r: Result<map<string, ContigFasta>, SplitError>)
    requires forall c :: c in contigs <==> c in splitIdMap
    ensures r == Tabulate(contigs, Outcomes(event, fa, LocalFasta(workDir, faPath), cactusId, workDir, splitIdMap, contigs, read))
  {
    var localFa := LocalFasta(workDir, faPath);
    var uniqueId := IdPrefix(cactusId);
    ghost var outcomes := Outcomes(event, fa, localFa, cactusId, workDir, splitIdMap, contigs, read);
    ghost var vals: seq<ContigFasta> := [];
    var contigFaDict := map[];
    for i := 0 to |contigs|
      invariant |vals| == i && OkPrefix(outcomes[..i]) == (vals, None)
      invariant contigFaDict == Overwrite(contigs, vals, i)
    {
      var refContig := contigs[i];
      var entry := splitIdMap[refContig];
      TabulateStep(contigs, outcomes, i, vals);
      if "fa_contigs" !in entry {
        return Err(MissingContigList(refContig));
      }
      var clean, contigCount := FilterContigList(read(entry["fa_contigs"]), uniqueId);
      var contigFasta;
      if contigCount > 0 {
        var regionFile := PathJoin(workDir, refContig + ".fa_contigs.clean");
        contigFasta := Extracted(clean, ["samtools", "faidx", localFa, "--region-file", regionFile], PathJoin(workDir, event + "_" + refContig + ".fa"));
      } else if event == MinigraphEvent {
        contigFasta := Original(fa);
      } else {
        return Err(NoContigsForEvent(event, refContig));
      }
      contigFaDict := contigFaDict[refContig := contigFasta];
      vals := vals + [contigFasta];
    }
    assert outcomes[..|contigs|] == outcomes;
    r := Ok(contigFaDict);
  }

  /** The clean contig list of a split table entry for the event with this cactus id. */
  function CleanList(entry: map<string, FileId>, cactusId: nat, read: FileId -> seq<string>): seq<string>
    requires "fa_contigs" in entry
  {
    Kept(StripAll(read(entry["fa_contigs"])), IdPrefix(cactusId))
  }

  /** The event may go ahead on a contig: it has a contig list, and the event has contigs there or is the minigraph one. */
  predicate Splittable(event: string, entry: map<string, FileId>, cactusId: nat, read: FileId -> seq<string>) {
    "fa_contigs" in entry && (event == MinigraphEvent || CleanList(entry, cactusId, read) != [])
  }

  /** The fasta a contig gets: the extraction of its tagged contigs when there are any, else the whole fasta. */
  predicate Expected(v: ContigFasta, fa: FileId, entry: map<string, FileId>, cactusId: nat, read: FileId -> seq<string>)
    requires "fa_contigs" in entry
  {
    && (v.Extracted? <==> CleanList(entry, cactusId, read) != [])
    && (v.Extracted? ==> v.regions == CleanList(entry, cactusId, read))
    && (v.Original? ==> v.fa == fa)
  }

  /** One contig's outcome: success exactly when splittable, with the expected fasta; otherwise that contig's error. */
  lemma ContigOutcomeSpec(event: string, fa: FileId, localFa: string, cactusId: nat, workDir: string,
                          contig: string, entry: map<string, FileId>, read: FileId -> seq<string>)
    ensures var r := ContigOutcome(event, fa, localFa, cactusId, workDir, contig, entry, read);
      && (r.Ok? <==> Splittable(event, entry, cactusId, read))
      && (r.Ok? ==> Expected(r.value, fa, entry, cactusId, read))
      && (r.Err? ==> r.error == MissingContigList(contig) || r.error == NoContigsForEvent(event, contig))
  {
  }

  /**
   * The event's split succeeds exactly when every reference contig is
   * splittable. It then covers every reference contig, each with its
   * expected fasta. A failure is some contig's, after only successes.
   */
  lemma SplitFaIntoContigsSpec(event: string, fa: FileId, faPath: string, cactusId: nat, workDir: string,
                               splitIdMap: map<string, map<string, FileId>>, contigs: seq<string>, read: FileId -> seq<string>)
    requires forall c :: c in contigs <==> c in splitIdMap
    requires forall i, j | 0 <= i < j < |contigs| :: contigs[i] != contigs[j]
    ensures var r := Tabulate(contigs, Outcomes(event, fa, LocalFasta(workDir, faPath), cactusId, workDir, splitIdMap, contigs, read));
      && (r.Ok? <==> forall c | c in splitIdMap :: Splittable(event, splitIdMap[c], cactusId, read))
      && (r.Ok? ==> r.value.Keys == splitIdMap.Keys)
      && (r.Ok? ==> forall c | c in r.value :: "fa_contigs" in splitIdMap[c] && Expected(r.value[c], fa, splitIdMap[c], cactusId, read))
      && (r.Err? ==> exists c | c in splitIdMap :: r.error == MissingContigList(c) || r.error == NoContigsForEvent(event, c))
  {
    var localFa := LocalFasta(workDir, faPath);
    var outcomes := Outcomes(event, fa, localFa, cactusId, workDir, splitIdMap, contigs, read);
    TabulateSpec(contigs, outcomes);
    var r := Tabulate(contigs, outcomes);
    forall k | 0 <= k < |contigs|
      ensures && (outcomes[k].Ok? <==> Splittable(event, splitIdMap[contigs[k]], cactusId, read))
              && (outcomes[k].Ok? ==> Expected(outcomes[k].value, fa, splitIdMap[contigs[k]], cactusId, read))
              && (outcomes[k].Err? ==> outcomes[k].error == MissingContigList(contigs[k]) || outcomes[k].error == NoContigsForEvent(event, contigs[k]))
    {
      ContigOutcomeSpec(event, fa, localFa, cactusId, workDir, contigs[k], splitIdMap[contigs[k]], read);
    }
    forall c | c in splitIdMap
      ensures exists k | 0 <= k < |contigs| :: contigs[k] == c
    {
      assert c in contigs;
    }
    if r.Err? {
      var j :| 0 <= j < |outcomes| && outcomes[j] == Err(r.error) && forall k | 0 <= k < j :: outcomes[k].Ok?;
      assert contigs[j] in splitIdMap;
    }
  }
}
