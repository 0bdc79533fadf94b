/**
 * get_input_path in cactus-align: picks, among the alignment files given on
 * the command line, the one that serves a lookup suffix (an outgroup fragment
 * file, say). Failing that, the suffix is appended to the file reached by
 * scanning the list and moving to each file whose base name is a prefix of
 * the current one's: a file of the list whose base name prefixes the first
 * file's, and that no file's base name strictly prefixes.
 */
module InputPath {
  import opened Wrappers
  import opened Text

  /** The file whose base name starts with the new file's base name is replaced by it. */
  function Adopt(base: string, file: string): string {
    if Basename(file) <= Basename(base) then file else base
  }

  /** What the scan returns after starting from `base` and reading `files`. */
  function Scan(files: seq<string>, base: string, suffix: string): string {
    if files == [] then base + suffix
    else if suffix != [] && EndsWith(files[0], suffix) then files[0]
    else Scan(files[1..], Adopt(base, files[0]), suffix)
  }

  /** get_input_path(suffix) over the given files; None where the source raises IndexError (no files). */
  function InputPathOf(files: seq<string>, suffix: string): Option<string> {
    if files == [] then None else Some(Scan(files, files[0], suffix))
  }

  /** get_input_path: the loop that updates `base_path` file by file. */
  method GetInputPath(files: seq<string>, suffix: string) returns (r: Option<string>)
    ensures r == InputPathOf(files, suffix)
  {
    if files == [] {
      return None;
    }
    var basePath := files[0];
    for i := 0 to |files|
      invariant Scan(files[i..], basePath, suffix) == Scan(files, files[0], suffix)
    {
      assert files[i..][1..] == files[i + 1..];
      var inputPath := files[i];
      if suffix != [] && EndsWith(inputPath, suffix) {
        return Some(inputPath);
      }
      if Basename(inputPath) <= Basename(basePath) {
        basePath := inputPath;
      }
    }
    return Some(basePath + suffix);
  }

  /** The base the scan ends with when no file serves the suffix. */
  function FinalBase(files: seq<string>, base: string): string {
    if files == [] then base else FinalBase(files[1..], Adopt(base, files[0]))
  }

  /** A non-empty suffix that some file ends with selects the first such file. */
  lemma {:induction false} ScanFirstMatch(files: seq<string>, base: string, suffix: string, k: nat)
    requires suffix != [] && k < |files| && EndsWith(files[k], suffix)
    requires forall j | 0 <= j < k :: !EndsWith(files[j], suffix)
    ensures Scan(files, base, suffix) == files[k]
  {
    if k > 0 {
      assert forall j | 0 <= j < k - 1 :: files[1..][j] == files[j + 1];
      ScanFirstMatch(files[1..], Adopt(base, files[0]), suffix, k - 1);
    }
  }

  /** Without a file that serves the suffix, the result is the final base with the suffix appended. */
  lemma {:induction false} ScanNoMatch(files: seq<string>, base: string, suffix: string)
    requires suffix == [] || forall j | 0 <= j < |files| :: !EndsWith(files[j], suffix)
    ensures Scan(files, base, suffix) == FinalBase(files, base) + suffix
  {
    if files != [] {
      assert forall j | 0 <= j < |files| - 1 :: files[1..][j] == files[j + 1];
      ScanNoMatch(files[1..], Adopt(base, files[0]), suffix);
    }
  }

  /**
   * The final base is the start or one of the files; its base name is a prefix
   * of the start's; and no file has a base name that is a strict prefix of it.
   */
  lemma {:induction false} FinalBaseMinimal(files: seq<string>, base: string)
    ensures FinalBase(files, base) == base || FinalBase(files, base) in files
    ensures Basename(FinalBase(files, base)) <= Basename(base)
    ensures forall j | 0 <= j < |files| && Basename(files[j]) <= Basename(FinalBase(files, base)) ::
      Basename(files[j]) == Basename(FinalBase(files, base))
  {
    if files != [] {
      var next := Adopt(base, files[0]);
      FinalBaseMinimal(files[1..], next);
      var fb := FinalBase(files, base);
      assert fb == FinalBase(files[1..], next);
      var name0, nameNext, nameFb := Basename(files[0]), Basename(next), Basename(fb);
      PrefixTransitive(nameFb, nameNext, Basename(base));
      if name0 <= nameFb {
        PrefixTransitive(name0, nameFb, nameNext);
        PrefixAntisymmetric(name0, nameFb);
      }
      forall j | 1 <= j < |files| && Basename(files[j]) <= nameFb
        ensures Basename(files[j]) == nameFb
      {
        assert files[j] == files[1..][j - 1];
      }
    }
  }

  lemma PrefixTransitive(a: string, b: string, c: string)
    requires a <= b && b <= c
    ensures a <= c
  {
    assert c[..|b|][..|a|] == c[..|a|];
  }

  lemma PrefixAntisymmetric(a: string, b: string)
    requires a <= b && b <= a
    ensures a == b
  {
  }

  /** get_input_path with a suffix some file ends with: the first such file. */
  lemma InputPathMatch(files: seq<string>, suffix: string, k: nat)
    requires suffix != [] && k < |files| && EndsWith(files[k], suffix)
    requires forall j | 0 <= j < k :: !EndsWith(files[j], suffix)
    ensures InputPathOf(files, suffix) == Some(files[k])
  {
    ScanFirstMatch(files, files[0], suffix, k);
  }

  /**
   * get_input_path with an empty suffix, or one no file ends with: one of the
   * files with the suffix appended, whose base name is a prefix of the first
   * file's and minimal (no file's base name is a strict prefix of it).
   */
  lemma InputPathFallback(files: seq<string>, suffix: string)
    requires files != []
    requires suffix == [] || forall j | 0 <= j < |files| :: !EndsWith(files[j], suffix)
    ensures exists base | base in files ::
      && InputPathOf(files, suffix) == Some(base + suffix)
      && Basename(base) <= Basename(files[0])
      && forall j | 0 <= j < |files| && Basename(files[j]) <= Basename(base) :: Basename(files[j]) == Basename(base)
  {
    ScanNoMatch(files, files[0], suffix);
    FinalBaseMinimal(files, files[0]);
    var base := FinalBase(files, files[0]);
    assert base in files;
  }
}
