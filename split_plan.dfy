/**
 * The first half of cactus-graphmap-split: the set of reference contigs to
 * split on, the disk sizes the split workflow asks for, the rgfa-split
 * command line, and the grouping of rgfa-split's output files by contig.
 */
module SplitPlan {
  import opened Wrappers
  import opened Text

  /** A file in the job store: an opaque name and its size in bytes. */
  datatype FileId = FileId(name: string, size: nat)

  /** The first whitespace-separated word of a line that is not blank. */
  function FirstWord(line: string): (w: string)
    requires Strip(line) != []
    ensures w != [] && NoSpace(w)
  {
    StripTrims(line);
    assert !AllSpace(Strip(line)) by { assert IsSpace(Strip(line)[0]) ==> false; }
    Tokens(Strip(line))[0]
  }

  /** The first words of the non-blank lines of a contigs file. */
  function FirstWords(lines: seq<string>): set<string> {
    if lines == [] then {}
    else
      var last := lines[|lines| - 1];
      FirstWords(lines[..|lines| - 1]) + (if Strip(last) != [] then {FirstWord(last)} else {})
  }

  /** A word is among the first words exactly when some non-blank line starts with it. */
  lemma {:induction false} FirstWordsMembers(lines: seq<string>, w: string)
    ensures w in FirstWords(lines) <==> exists k | 0 <= k < |lines| :: Strip(lines[k]) != [] && FirstWord(lines[k]) == w
  {
    if lines != [] {
      var n := |lines| - 1;
      FirstWordsMembers(lines[..n], w);
      if exists k | 0 <= k < |lines| :: Strip(lines[k]) != [] && FirstWord(lines[k]) == w {
        var k :| 0 <= k < |lines| && Strip(lines[k]) != [] && FirstWord(lines[k]) == w;
        if k < n {
          assert lines[..n][k] == lines[k];
        }
      }
      if w in FirstWords(lines[..n]) {
        var k :| 0 <= k < n && Strip(lines[..n][k]) != [] && FirstWord(lines[..n][k]) == w;
        assert lines[k] == lines[..n][k];
      }
    }
  }

  /**
   * The reference contigs: those given on the command line, plus the first
   * word of every non-blank line of the contigs file when there is one.
   */
  method RefContigs(refContigs: seq<string>, contigsFile: Option<seq<string>>) returns (r: set<string>)
    ensures contigsFile.None? ==> r == set c | c in refContigs
    ensures contigsFile.Some? ==> r == (set c | c in refContigs) + FirstWords(contigsFile.value)
  {
    r := set c | c in refContigs;
    if contigsFile.Some? {
      var lines := contigsFile.value;
      for i := 0 to |lines|
        invariant r == (set c | c in refContigs) + FirstWords(lines[..i])
      {
        assert lines[..i + 1][..i] == lines[..i];
        if |Strip(lines[i])| > 0 {
          r := r + {Tokens(Strip(lines[i]))[0]};
        }
      }
      assert lines[..|lines|] == lines;
    }
  }

  /** The unzip child for a gzipped input: the input's path and the disk it asks for. */
  datatype UnzipJob = UnzipJob(path: string, disk: nat)

  /** The jobs graphmap_split_workflow schedules before splitting, and the split job's disk. */
  datatype SplitSizing = SplitSizing(unzips: seq<UnzipJob>, splitDisk: nat)

  /** An input's size as the split job sees it: ten times the file's size when it is gzipped. */
  function EffectiveSize(path: string, size: nat): nat {
    if EndsWith(path, ".gz") then 10 * size else size
  }

  /**
   * graphmap_split_workflow's sizing: a gzipped GFA or PAF gets an unzip child
   * with ten times its size of disk, and the split job gets five times the sum
   * of the two effective sizes.
   */
  method WorkflowSizing(gfaPath: string, gfa: FileId, pafPath: string, paf: FileId) returns (r: SplitSizing)
    ensures r.splitDisk == 5 * (EffectiveSize(gfaPath, gfa.size) + EffectiveSize(pafPath, paf.size))
    ensures |r.unzips| == (if EndsWith(gfaPath, ".gz") then 1 else 0) + (if EndsWith(pafPath, ".gz") then 1 else 0)
    ensures EndsWith(gfaPath, ".gz") ==> r.unzips[0] == UnzipJob(gfaPath, 10 * gfa.size)
    ensures EndsWith(pafPath, ".gz") ==> r.unzips[|r.unzips| - 1] == UnzipJob(pafPath, 10 * paf.size)
  {
    var gfaSize := gfa.size;
    var pafSize := paf.size;
    var unzips: seq<UnzipJob> := [];
    if EndsWith(gfaPath, ".gz") {
      unzips := unzips + [UnzipJob(gfaPath, gfa.size * 10)];
      gfaSize := gfaSize * 10;
    }
    if EndsWith(pafPath, ".gz") {
      unzips := unzips + [UnzipJob(pafPath, paf.size * 10)];
      pafSize := pafSize * 10;
    }
    r := SplitSizing(unzips, (gfaSize + pafSize) * 5);
  }

  /** The split job's disk lies between five and fifty times the stored sizes, the upper end reached when both inputs are gzipped. */
  lemma SplitDiskBounds(gfaPath: string, gfaSize: nat, pafPath: string, pafSize: nat)
    ensures var disk := 5 * (EffectiveSize(gfaPath, gfaSize) + EffectiveSize(pafPath, pafSize));
      && 5 * (gfaSize + pafSize) <= disk <= 50 * (gfaSize + pafSize)
      && (EndsWith(gfaPath, ".gz") && EndsWith(pafPath, ".gz") ==> disk == 50 * (gfaSize + pafSize))
      && (!EndsWith(gfaPath, ".gz") && !EndsWith(pafPath, ".gz") ==> disk == 5 * (gfaSize + pafSize))
  {
  }

  /**
   * split_gfa's rgfa-split command: the GFA, the PAF and the output prefix,
   * then `-c <contig>` once for every reference contig (the set RefContigs
   * gives), in the order `contigs` lists them.
   */
  method RgfaSplitCommand(gfaPath: string, pafPath: string, outPath: string, refContigs: set<string>, contigs: seq<string>)
    returns (cmd: seq<string>)
    requires forall c :: c in contigs <==> c in refContigs
    requires forall i, j | 0 <= i < j < |contigs| :: contigs[i] != contigs[j]
    ensures |cmd| == 7 + 2 * |refContigs|
    ensures |cmd| == 7 + 2 * |contigs|
    ensures cmd[..7] == ["rgfa-split", "-g", gfaPath, "-p", pafPath, "-b", outPath + "/"]
    ensures forall k | 0 <= k < |contigs| :: cmd[7 + 2 * k] == "-c" && cmd[8 + 2 * k] == contigs[k]
  {
    cmd := ["rgfa-split", "-g", gfaPath, "-p", pafPath, "-b", outPath + "/"];
    for i := 0 to |contigs|
      invariant |cmd| == 7 + 2 * i
      invariant cmd[..7] == ["rgfa-split", "-g", gfaPath, "-p", pafPath, "-b", outPath + "/"]
      invariant forall k | 0 <= k < i :: cmd[7 + 2 * k] == "-c" && cmd[8 + 2 * k] == contigs[k]
    {
      cmd := cmd + ["-c", contigs[i]];
    }
    DistinctCount(contigs);
    assert refContigs == set c | c in contigs;
  }

  /** A sequence without repeats has as many elements as its set of elements. */
  lemma {:induction false} DistinctCount<T>(s: seq<T>)
    requires forall i, j | 0 <= i < j < |s| :: s[i] != s[j]
    ensures |set x | x in s| == |s|
  {
    if s != [] {
      var n := |s| - 1;
      DistinctCount(s[..n]);
      assert (set x | x in s) == (set x | x in s[..n]) + {s[n]};
      assert s[n] !in s[..n];
    }
  }

  /** rgfa-split outputs that split_gfa keeps. */
  predicate KeptExtension(ext: string) {
    ext == ".gfa" || ext == ".paf" || ext == ".fa_contigs"
  }

  /** The (base name, extension) of each output file, as os.path.splitext gives them. */
  function SplitParts(outNames: seq<string>): (r: seq<(string, string)>)
    ensures |r| == |outNames|
  {
    seq(|outNames|, k requires 0 <= k < |outNames| => SplitExt(outNames[k]))
  }

  /**
   * The table built from split names in turn: a kept file goes under its base
   * name and its extension without the dot, with the id `store` gives its
   * full name.
   */
  function Group(parts: seq<(string, string)>, store: string -> FileId): map<string, map<string, FileId>> {
    if parts == [] then map[]
    else
      var table := Group(parts[..|parts| - 1], store);
      var (name, ext) := parts[|parts| - 1];
      if KeptExtension(ext) then
        table[name := (if name in table then table[name] else map[])[ext[1..] := store(name + ext)]]
      else table
  }

  /**
   * Every kept file is in the table under its base name and extension, and
   * every entry of the table is a kept file's, holding that file's id.
   */
  lemma {:induction false} GroupSpec(parts: seq<(string, string)>, store: string -> FileId)
    ensures forall k | 0 <= k < |parts| && KeptExtension(parts[k].1) ::
      parts[k].0 in Group(parts, store) && parts[k].1[1..] in Group(parts, store)[parts[k].0]
    ensures forall name, key | name in Group(parts, store) && key in Group(parts, store)[name] ::
      && KeptExtension("." + key)
      && (name, "." + key) in parts
      && Group(parts, store)[name][key] == store(name + "." + key)
  {
    if parts != [] {
      var n := |parts| - 1;
      GroupSpec(parts[..n], store);
      var prev := Group(parts[..n], store);
      var table := Group(parts, store);
      var (name, ext) := parts[n];
      forall k | 0 <= k < n
        ensures parts[k] == parts[..n][k]
      {
      }
      forall p | p in parts[..n]
        ensures p in parts
      {
      }
      if KeptExtension(ext) {
        assert "." + ext[1..] == ext;
        assert parts[n] in parts;
        forall nm, key | nm in table && key in table[nm]
          ensures KeptExtension("." + key) && (nm, "." + key) in parts && table[nm][key] == store(nm + "." + key)
        {
          if nm == name && key == ext[1..] {
            assert nm + "." + key == name + ext;
          } else {
            assert nm in prev && key in prev[nm] && table[nm][key] == prev[nm][key];
          }
        }
      }
    }
  }

  /**
   * split_gfa's table: the rgfa-split output files, split by os.path.splitext,
   * grouped by base name. `store` gives the id a file gets when written to the
   * job store.
   */
  method SplitGfaTable(outNames: seq<string>, store: string -> FileId) returns (table: map<string, map<string, FileId>>)
    ensures table == Group(SplitParts(outNames), store)
  {
    ghost var parts := SplitParts(outNames);
    table := map[];
    for i := 0 to |outNames|
      invariant table == Group(parts[..i], store)
    {
      var outName := outNames[i];
      var (name, ext) := SplitExt(outName);
      assert parts[..i + 1][..i] == parts[..i] && parts[..i + 1][i] == (name, ext);
      if ext in [".gfa", ".paf", ".fa_contigs"] {
        if name !in table {
          table := table[name := map[]];
        }
        assert name + ext == outName;
        table := table[name := table[name][ext[1..] := store(outName)]];
      }
    }
    assert parts[..|outNames|] == parts;
  }

  /**
   * split_gfa keeps exactly the `.gfa`, `.paf` and `.fa_contigs` outputs: each
   * is in the table under its base name and its extension without the dot,
   * and every entry is such an output, holding its id.
   */
  lemma SplitGfaTableSpec(outNames: seq<string>, store: string -> FileId)
    ensures var table := Group(SplitParts(outNames), store);
      && (forall n | n in outNames && KeptExtension(SplitExt(n).1) ::
            SplitExt(n).0 in table && SplitExt(n).1[1..] in table[SplitExt(n).0])
      && (forall name, key | name in table && key in table[name] ::
            KeptExtension("." + key) && name + "." + key in outNames && table[name][key] == store(name + "." + key))
  {
    var parts := SplitParts(outNames);
    var table := Group(parts, store);
    GroupSpec(parts, store);
    forall n | n in outNames && KeptExtension(SplitExt(n).1)
      ensures SplitExt(n).0 in table && SplitExt(n).1[1..] in table[SplitExt(n).0]
    {
      var k :| 0 <= k < |outNames| && outNames[k] == n;
      assert parts[k] == SplitExt(n);
    }
    forall name, key | name in table && key in table[name]
      ensures name + "." + key in outNames
    {
      assert (name, "." + key) in parts;
      var k :| 0 <= k < |parts| && parts[k] == (name, "." + key);
      SplitExtParts(outNames[k]);
      assert name + "." + key == name + ("." + key) == outNames[k];
    }
  }
}
