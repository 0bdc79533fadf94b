/**
 * prepend_cigar_ids in cactus-align: every line of every alignment (cigar)
 * file gets its two sequence names (tokens 1 and 5) renamed through the id
 * map that gave each fasta sequence its `id=N|` prefix, and is written, joined
 * with single spaces, to a file of the same base name in the output directory.
 */
module CigarIds {
  import opened Wrappers
  import opened Text

  /** Why a line cannot be rewritten: it is too short (IndexError) or names a sequence missing from the map (RuntimeError). */
  datatype CigarError = IndexOutOfRange | UnknownId(id: string)

  /**
   * The tokens with tokens 1 and 5 renamed, checked in the source's order:
   * token 1 exists, is mapped, token 5 exists, is mapped.
   */
  function RewriteTokens(toks: seq<string>, idMap: map<string, string>): (r: Result<seq<string>, CigarError>)
    ensures r.Ok? <==> |toks| >= 6 && toks[1] in idMap && toks[5] in idMap
    ensures r.Ok? ==>
      && |r.value| == |toks|
      && r.value[1] == idMap[toks[1]] && r.value[5] == idMap[toks[5]]
      && forall k | 0 <= k < |toks| && k != 1 && k != 5 :: r.value[k] == toks[k]
    ensures r == Err(IndexOutOfRange) <==> |toks| < 2 || (toks[1] in idMap && |toks| < 6)
    ensures r.Err? && r.error.UnknownId? ==>
      || (r.error.id == toks[1] && toks[1] !in idMap)
      || (toks[1] in idMap && r.error.id == toks[5] && toks[5] !in idMap)
  {
    if |toks| < 2 then Err(IndexOutOfRange)
    else if toks[1] !in idMap then Err(UnknownId(toks[1]))
    else if |toks| < 6 then Err(IndexOutOfRange)
    else if toks[5] !in idMap then Err(UnknownId(toks[5]))
    else Ok(toks[1 := idMap[toks[1]]][5 := idMap[toks[5]]])
  }

  /** Renaming back through a map that undoes the renaming restores the original tokens. */
  lemma RewriteTokensInverse(toks: seq<string>, idMap: map<string, string>, back: map<string, string>)
    requires RewriteTokens(toks, idMap).Ok?
    requires idMap[toks[1]] in back && back[idMap[toks[1]]] == toks[1]
    requires idMap[toks[5]] in back && back[idMap[toks[5]]] == toks[5]
    ensures RewriteTokens(RewriteTokens(toks, idMap).value, back) == Ok(toks)
  {
    var renamed := RewriteTokens(toks, idMap).value;
    assert renamed[1 := back[renamed[1]]][5 := back[renamed[5]]] == toks;
  }

  /** One rewritten output line (without its newline): the renamed tokens joined with single spaces. */
  function RewriteLine(line: string, idMap: map<string, string>): Result<string, CigarError> {
    match RewriteTokens(Tokens(line), idMap)
    case Ok(toks) => Ok(Join(toks, " "))
    case Err(e) => Err(e)
  }

  /**
   * When the new names are non-empty and free of whitespace, the output line
   * reads back as the input's tokens with tokens 1 and 5 renamed.
   */
  lemma RewriteLineTokens(line: string, idMap: map<string, string>)
    requires RewriteLine(line, idMap).Ok?
    requires forall id | id in idMap.Values :: id != [] && NoSpace(id)
    ensures RewriteTokens(Tokens(line), idMap).Ok?
    ensures Tokens(RewriteLine(line, idMap).value) == RewriteTokens(Tokens(line), idMap).value
  {
    var toks := Tokens(line);
    TokensShape(line);
    var renamed := RewriteTokens(toks, idMap).value;
    assert idMap[toks[1]] in idMap.Values && idMap[toks[5]] in idMap.Values;
    forall w | w in renamed
      ensures w != [] && NoSpace(w)
    {
      var k :| 0 <= k < |renamed| && renamed[k] == w;
      if k != 1 && k != 5 {
        assert toks[k] in toks;
      }
    }
    TokensOfJoin(renamed);
  }

  /** The results of a sequence of steps, up to and including the first error. */
  function OkPrefix<T, E>(rs: seq<Result<T, E>>): (seq<T>, Option<E>) {
    if rs == [] then ([], None)
    else
      var (prev, err) := OkPrefix(rs[..|rs| - 1]);
      if err.Some? then (prev, err)
      else
        match rs[|rs| - 1]
        case Ok(x) => (prev + [x], None)
        case Err(e) => (prev, Some(e))
  }

  /**
   * The prefix holds the values of the steps before the first error, and the
   * error is that step's; without an error every step's value is there.
   */
  lemma {:induction false} OkPrefixSpec<T, E>(rs: seq<Result<T, E>>)
    ensures var (out, err) := OkPrefix(rs);
      && |out| <= |rs|
      && (forall k | 0 <= k < |out| :: rs[k] == Ok(out[k]))
      && (err.None? <==> |out| == |rs|)
      && (err.Some? ==> rs[|out|] == Err(err.value))
  {
    if rs != [] {
      var n := |rs| - 1;
      OkPrefixSpec(rs[..n]);
      assert forall k | 0 <= k < n :: rs[..n][k] == rs[k];
    }
  }

  /** A step's outcome does not change once an earlier step has failed. */
  lemma {:induction false} OkPrefixAfterError<T, E>(rs: seq<Result<T, E>>, n: nat)
    requires n <= |rs| && OkPrefix(rs[..n]).1.Some?
    ensures OkPrefix(rs) == OkPrefix(rs[..n])
    decreases |rs|
  {
    if n < |rs| {
      assert rs[..|rs| - 1][..n] == rs[..n];
      OkPrefixAfterError(rs[..|rs| - 1], n);
    } else {
      assert rs[..n] == rs;
    }
  }

  /** One more step extends the prefix, or records the first error. */
  lemma OkPrefixStep<T, E>(rs: seq<Result<T, E>>, i: nat, prev: seq<T>)
    requires i < |rs| && OkPrefix(rs[..i]) == (prev, None)
    ensures rs[i].Ok? ==> OkPrefix(rs[..i + 1]) == (prev + [rs[i].value], None)
    ensures rs[i].Err? ==> OkPrefix(rs) == (prev, Some(rs[i].error))
  {
    assert rs[..i + 1][..i] == rs[..i];
    if rs[i].Err? {
      OkPrefixAfterError(rs, i + 1);
    }
  }

  /** The rewrite of every line of a file, on its own. */
  function RewriteEach(lines: seq<string>, idMap: map<string, string>): (r: seq<Result<string, CigarError>>)
    ensures |r| == |lines|
  {
    seq(|lines|, k requires 0 <= k < |lines| => RewriteLine(lines[k], idMap))
  }

  /** What one cigar file's output holds, and the error that stopped it, if any. */
  function FileRewrite(lines: seq<string>, idMap: map<string, string>): (seq<string>, Option<CigarError>) {
    OkPrefix(RewriteEach(lines, idMap))
  }

  /**
   * The loop over one file's lines: each line is rewritten and written in
   * turn; the first line that cannot be rewritten stops the file, the lines
   * before it having been written.
   */
  method RewriteCigarLines(lines: seq<string>, idMap: map<string, string>) returns (out: seq<string>, err: Option<CigarError>)
    ensures (out, err) == FileRewrite(lines, idMap)
  {
    ghost var rs := RewriteEach(lines, idMap);
    out := [];
    for i := 0 to |lines|
      invariant OkPrefix(rs[..i]) == (out, None)
    {
      OkPrefixStep(rs, i, out);
      var toks := Tokens(lines[i]);
      if |toks| < 2 {
        return out, Some(IndexOutOfRange);
      }
      if toks[1] !in idMap {
        return out, Some(UnknownId(toks[1]));
      }
      if |toks| < 6 {
        return out, Some(IndexOutOfRange);
      }
      if toks[5] !in idMap {
        return out, Some(UnknownId(toks[5]));
      }
      toks := toks[1 := idMap[toks[1]]];
      toks := toks[5 := idMap[toks[5]]];
      out := out + [Join(toks, " ")];
    }
    assert rs[..|lines|] == rs;
    err := None;
  }

  /** The output file of one cigar file: its base name inside the output directory. */
  function OutPath(outputDir: string, cigar: string): string {
    PathJoin(outputDir, Basename(cigar))
  }

  /** The output path of each cigar file, in order. */
  function OutPathList(outputDir: string, cigars: seq<string>): (r: seq<string>)
    ensures |r| == |cigars|
  {
    seq(|cigars|, k requires 0 <= k < |cigars| => OutPath(outputDir, cigars[k]))
  }

  /** What rewriting each cigar file gives, in order: the lines written and the error that stopped it, if any. */
  function Outcomes(cigars: seq<string>, idMap: map<string, string>, read: string -> seq<string>): (r: seq<(seq<string>, Option<CigarError>)>)
    ensures |r| == |cigars|
  {
    seq(|cigars|, k requires 0 <= k < |cigars| => FileRewrite(read(cigars[k]), idMap))
  }

  /**
   * Writing one output per key in turn, stopping after the first output that
   * carries an error: the keys completed, the table of what was written under
   * each key (a later write replacing an earlier one), and the error.
   */
  function WriteEach<K(==), V, E>(keys: seq<K>, outcomes: seq<(V, Option<E>)>): (seq<K>, map<K, V>, Option<E>)
    requires |keys| == |outcomes|
  {
    if keys == [] then ([], map[], None)
    else
      var n := |keys| - 1;
      var (done, table, err) := WriteEach(keys[..n], outcomes[..n]);
      if err.Some? then (done, table, err)
      else
        var table' := table[keys[n] := outcomes[n].0];
        if outcomes[n].1.Some? then (done, table', outcomes[n].1) else (done + [keys[n]], table', None)
  }

  /** What stops the writes does not change once an output has failed. */
  lemma {:induction false} WriteEachAfterError<K, V, E>(keys: seq<K>, outcomes: seq<(V, Option<E>)>, n: nat)
    requires n <= |keys| == |outcomes| && WriteEach(keys[..n], outcomes[..n]).2.Some?
    ensures WriteEach(keys, outcomes) == WriteEach(keys[..n], outcomes[..n])
    decreases |keys|
  {
    if n < |keys| {
      var m := |keys| - 1;
      assert keys[..m][..n] == keys[..n] && outcomes[..m][..n] == outcomes[..n];
      WriteEachAfterError(keys[..m], outcomes[..m], n);
    } else {
      assert keys[..n] == keys && outcomes[..n] == outcomes;
    }
  }

  /** One more output is written; it either completes its key or stops the writes. */
  lemma WriteEachStep<K, V, E>(keys: seq<K>, outcomes: seq<(V, Option<E>)>, i: nat, done: seq<K>, table: map<K, V>)
    requires i < |keys| == |outcomes| && WriteEach(keys[..i], outcomes[..i]) == (done, table, None)
    ensures outcomes[i].1.None? ==>
      WriteEach(keys[..i + 1], outcomes[..i + 1]) == (done + [keys[i]], table[keys[i] := outcomes[i].0], None)
    ensures outcomes[i].1.Some? ==>
      WriteEach(keys, outcomes) == (done, table[keys[i] := outcomes[i].0], outcomes[i].1)
  {
    assert keys[..i + 1][..i] == keys[..i] && outcomes[..i + 1][..i] == outcomes[..i];
    if outcomes[i].1.Some? {
      WriteEachAfterError(keys, outcomes, i + 1);
    }
  }

  /** The table after writing vals[k] under keys[k] for k < n in turn, a later write replacing an earlier one. */
  function Overwrite<K(==), V>(keys: seq<K>, vals: seq<V>, n: nat): map<K, V>
    requires n <= |keys| && n <= |vals|
  {
    if n == 0 then map[] else Overwrite(keys, vals, n - 1)[keys[n - 1] := vals[n - 1]]
  }

  /** Write k is the last of the first n writes to its key. */
  predicate LastWrite<K(==)>(keys: seq<K>, n: nat, k: nat)
    requires k < n <= |keys|
  {
    forall j | k < j < n :: keys[j] != keys[k]
  }

  /** Exactly the keys written are present, and each holds the value of the last write to it. */
  lemma {:induction false} OverwriteLastWrite<K, V>(keys: seq<K>, vals: seq<V>, n: nat)
    requires n <= |keys| && n <= |vals|
    ensures Overwrite(keys, vals, n).Keys == set k | 0 <= k < n :: keys[k]
    ensures forall k | 0 <= k < n && LastWrite(keys, n, k) :: Overwrite(keys, vals, n)[keys[k]] == vals[k]
  {
    if n > 0 {
      OverwriteLastWrite(keys, vals, n - 1);
      assert (set k | 0 <= k < n :: keys[k]) == (set k | 0 <= k < n - 1 :: keys[k]) + {keys[n - 1]};
      forall k | 0 <= k < n - 1 && LastWrite(keys, n, k)
        ensures LastWrite(keys, n - 1, k)
      {
      }
    }
  }

  /** The value part of each outcome. */
  function Values<V, E>(outcomes: seq<(V, Option<E>)>): (r: seq<V>)
    ensures |r| == |outcomes|
  {
    seq(|outcomes|, k requires 0 <= k < |outcomes| => outcomes[k].0)
  }

  /**
   * The keys completed are the first keys in order, each with an error-free
   * output; the writes stop at the first output with an error, which is the
   * one returned, and there is none exactly when every key completed. The
   * table holds the writes made up to and including the failed one.
   */
  lemma {:induction false} WriteEachSpec<K, V, E>(keys: seq<K>, outcomes: seq<(V, Option<E>)>)
    requires |keys| == |outcomes|
    ensures var (done, table, err) := WriteEach(keys, outcomes);
      && |done| <= |keys| && done == keys[..|done|]
      && (forall k | 0 <= k < |done| :: outcomes[k].1.None?)
      && (err.None? <==> |done| == |keys|)
      && (err.Some? ==> outcomes[|done|].1 == err)
      && table == Overwrite(keys, Values(outcomes), if err.Some? then |done| + 1 else |done|)
  {
    if keys != [] {
      var n := |keys| - 1;
      WriteEachSpec(keys[..n], outcomes[..n]);
      var (done, table, err) := WriteEach(keys[..n], outcomes[..n]);
      assert forall k | 0 <= k < n :: outcomes[..n][k] == outcomes[k];
      assert keys[..n][..|done|] == keys[..|done|];
      OverwritePrefix(keys, Values(outcomes), keys[..n], Values(outcomes[..n]), if err.Some? then |done| + 1 else |done|);
      if err.None? {
        assert keys[..n + 1] == keys;
      }
    }
  }

  /** Overwrite reads only the first n keys and values. */
  lemma {:induction false} OverwritePrefix<K, V>(keys: seq<K>, vals: seq<V>, keys': seq<K>, vals': seq<V>, n: nat)
    requires n <= |keys| && n <= |vals| && n <= |keys'| && n <= |vals'|
    requires keys[..n] == keys'[..n] && vals[..n] == vals'[..n]
    ensures Overwrite(keys, vals, n) == Overwrite(keys', vals', n)
  {
    if n > 0 {
      assert keys[..n - 1] == keys'[..n - 1] && vals[..n - 1] == vals'[..n - 1];
      assert keys[n - 1] == keys[..n][n - 1] && keys'[n - 1] == keys'[..n][n - 1];
      assert vals[n - 1] == vals[..n][n - 1] && vals'[n - 1] == vals'[..n][n - 1];
      OverwritePrefix(keys, vals, keys', vals', n - 1);
    }
  }

  /**
   * A completed key that no later key repeats holds its own output, which is
   * error-free.
   */
  lemma WriteEachCompleted<K, V, E>(keys: seq<K>, outcomes: seq<(V, Option<E>)>, i: nat)
    requires i < |keys| == |outcomes| && i < |WriteEach(keys, outcomes).0|
    requires forall j | i < j < |keys| :: keys[j] != keys[i]
    ensures outcomes[i].1.None?
    ensures keys[i] in WriteEach(keys, outcomes).1 && WriteEach(keys, outcomes).1[keys[i]] == outcomes[i].0
  {
    WriteEachSpec(keys, outcomes);
    var (done, table, err) := WriteEach(keys, outcomes);
    assert i < |done| && outcomes[i].1.None?;
    var n := if err.Some? then |done| + 1 else |done|;
    OverwriteLastWrite(keys, Values(outcomes), n);
    assert LastWrite(keys, n, i);
  }

  /**
   * prepend_cigar_ids: rewrites the cigar files in order, each to the file of
   * the same base name in the output directory. `read` gives a file's lines;
   * `written` maps each output path to the lines written there. The returned
   * paths, the files written and the error are those of writing each file's
   * rewrite in turn (see WriteEachSpec).
   */
  method PrependCigarIds(cigars: seq<string>, outputDir: string, idMap: map<string, string>, read: string -> seq<string>)
    returns (ret: seq<string>, written: map<string, seq<string>>, err: Option<CigarError>)
    ensures (ret, written, err) == WriteEach(OutPathList(outputDir, cigars), Outcomes(cigars, idMap, read))
  {
    ghost var paths, outcomes := OutPathList(outputDir, cigars), Outcomes(cigars, idMap, read);
    ret, written := [], map[];
    for i := 0 to |cigars|
      invariant WriteEach(paths[..i], outcomes[..i]) == (ret, written, None)
    {
      WriteEachStep(paths, outcomes, i, ret, written);
      var outPath := OutPath(outputDir, cigars[i]);
      var out, fileErr := RewriteCigarLines(read(cigars[i]), idMap);
      assert paths[i] == outPath && outcomes[i] == (out, fileErr);
      written := written[outPath := out];
      if fileErr.Some? {
        return ret, written, fileErr;
      }
      ret := ret + [outPath];
    }
    assert paths[..|cigars|] == paths && outcomes[..|cigars|] == outcomes;
    err := None;
  }
}
