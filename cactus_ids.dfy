/**
 * split_fas in cactus-graphmap-split: every event gets the cactus id it will
 * have in the alignment (its position among the event names in sorted
 * order), and one fasta-splitting job sized from its fasta file.
 */
module CactusIds {
  import opened SplitPlan

  /** Python's `<` on str: lexicographic by code point, a proper prefix first. */
  predicate Less(a: string, b: string) {
    if a == [] then b != []
    else if b == [] then false
    else if a[0] != b[0] then a[0] < b[0]
    else Less(a[1..], b[1..])
  }

  lemma {:induction false} LessIrreflexive(a: string)
    ensures !Less(a, a)
  {
    if a != [] {
      LessIrreflexive(a[1..]);
    }
  }

  lemma {:induction false} LessTransitive(a: string, b: string, c: string)
    requires Less(a, b) && Less(b, c)
    ensures Less(a, c)
  {
    if a != [] && b != [] && c != [] && a[0] == b[0] && b[0] == c[0] {
      LessTransitive(a[1..], b[1..], c[1..]);
    }
  }

  lemma {:induction false} LessTotal(a: string, b: string)
    ensures a == b || Less(a, b) || Less(b, a)
  {
    if a != [] && b != [] && a[0] == b[0] {
      LessTotal(a[1..], b[1..]);
      if a[1..] == b[1..] {
        assert a == [a[0]] + a[1..] && b == [b[0]] + b[1..];
      }
    }
  }

  lemma LessAsymmetric(a: string, b: string)
    requires Less(a, b)
    ensures !Less(b, a)
  {
    if Less(b, a) {
      LessTransitive(a, b, a);
      LessIrreflexive(a);
    }
  }

  /** Each name comes strictly before the next: sorted, without repeats. */
  predicate StrictlySorted(s: seq<string>) {
    forall i, j | 0 <= i < j < |s| :: Less(s[i], s[j])
  }

  /** Puts x in its place in a strictly sorted sequence, unless it is already there. */
  function Insert(x: string, s: seq<string>): seq<string> {
    if s == [] then [x]
    else if x == s[0] then s
    else if Less(x, s[0]) then [x] + s
    else [s[0]] + Insert(x, s[1..])
  }

  /** Inserting keeps the sequence strictly sorted and adds exactly x to its elements. */
  lemma {:induction false} InsertSorted(x: string, s: seq<string>)
    requires StrictlySorted(s)
    ensures StrictlySorted(Insert(x, s))
    ensures forall y :: y in Insert(x, s) <==> y == x || y in s
  {
    if s != [] && x != s[0] {
      if Less(x, s[0]) {
        var r := [x] + s;
        forall i, j | 0 <= i < j < |r|
          ensures Less(r[i], r[j])
        {
          if i == 0 && j > 1 {
            LessTransitive(x, s[0], s[j - 1]);
          }
        }
      } else {
        LessTotal(x, s[0]);
        InsertSorted(x, s[1..]);
        var t := Insert(x, s[1..]);
        var r := [s[0]] + t;
        forall i, j | 0 <= i < j < |r|
          ensures Less(r[i], r[j])
        {
          if i == 0 {
            assert r[j] in t;
            if r[j] != x {
              var k :| 0 <= k < |s[1..]| && s[1..][k] == r[j];
              assert s[k + 1] == r[j];
            }
          }
        }
        forall y
          ensures y in r <==> y == x || y in s
        {
          assert s == [s[0]] + s[1..];
        }
      }
    }
  }

  /** `sorted(set(names))`: the distinct names in increasing order. */
  function SortedDistinct(names: seq<string>): seq<string> {
    if names == [] then [] else Insert(names[|names| - 1], SortedDistinct(names[..|names| - 1]))
  }

  /** The result is strictly sorted and holds exactly the given names. */
  lemma {:induction false} SortedDistinctSpec(names: seq<string>)
    ensures StrictlySorted(SortedDistinct(names))
    ensures forall y :: y in SortedDistinct(names) <==> y in names
  {
    if names != [] {
      var n := |names| - 1;
      SortedDistinctSpec(names[..n]);
      InsertSorted(names[n], SortedDistinct(names[..n]));
      forall y
        ensures y in names <==> y == names[n] || y in names[..n]
      {
        assert names == names[..n] + [names[n]];
      }
    }
  }

  /** A name in the tail of a strictly sorted sequence comes after its head, so it is not the head. */
  lemma TailAfterHead(s: seq<string>, y: string)
    requires StrictlySorted(s) && s != [] && y in s[1..]
    ensures y in s && Less(s[0], y) && y != s[0]
  {
    var k :| 0 <= k < |s| - 1 && s[1..][k] == y;
    assert s[k + 1] == y;
    LessIrreflexive(y);
  }

  /** A member of a non-empty sequence is its head or in its tail. */
  lemma InTailOrHead(s: seq<string>, y: string)
    requires s != [] && y in s && y != s[0]
    ensures y in s[1..]
  {
    assert s == [s[0]] + s[1..];
  }

  /** A non-empty sequence has its head among its members. */
  lemma HeadIsMember(s: seq<string>)
    ensures s != [] ==> s[0] in s
  {
  }

  /** Two strictly sorted sequences with the same elements are the same sequence. */
  lemma {:induction false} StrictlySortedUnique(s: seq<string>, t: seq<string>)
    requires StrictlySorted(s) && StrictlySorted(t)
    requires forall y :: y in s <==> y in t
    ensures s == t
  {
    if s != [] && t != [] {
      assert s[0] in t && t[0] in s;
      var i :| 0 <= i < |t| && t[i] == s[0];
      var j :| 0 <= j < |s| && s[j] == t[0];
      if s[0] != t[0] {
        assert i > 0 && j > 0;
        assert Less(t[0], t[i]) && Less(s[0], s[j]);
        LessAsymmetric(t[0], s[0]);
      }
      assert s[0] == t[0];
      forall y
        ensures y in s[1..] <==> y in t[1..]
      {
        if y in s[1..] {
          TailAfterHead(s, y);
          assert y in t && y != t[0];
          InTailOrHead(t, y);
        }
        if y in t[1..] {
          TailAfterHead(t, y);
          assert y in s && y != s[0];
          InTailOrHead(s, y);
        }
      }
      StrictlySortedUnique(s[1..], t[1..]);
      assert s == [s[0]] + s[1..] && t == [t[0]] + t[1..];
    } else {
      HeadIsMember(s);
      HeadIsMember(t);
    }
  }

  /** The sorted names depend only on which names there are, not on their order or repeats. */
  lemma SortedDistinctOrderFree(names: seq<string>, others: seq<string>)
    requires forall y :: y in names <==> y in others
    ensures SortedDistinct(names) == SortedDistinct(others)
  {
    SortedDistinctSpec(names);
    SortedDistinctSpec(others);
    StrictlySortedUnique(SortedDistinct(names), SortedDistinct(others));
  }

  /**
   * split_fas's cactus id map: the i-th name in sorted order gets id i. The
   * ids are the positions 0..n-1 of the n distinct names, one per name, and
   * they follow the names' order.
   */
  method CactusIdMap(events: seq<string>) returns (ids: map<string, nat>)
    ensures ids.Keys == set e | e in events
    ensures forall i | 0 <= i < |SortedDistinct(events)| :: SortedDistinct(events)[i] in ids && ids[SortedDistinct(events)[i]] == i
    ensures forall e | e in ids :: ids[e] < |SortedDistinct(events)|
    ensures forall a, b | a in ids && b in ids :: Less(a, b) <==> ids[a] < ids[b]
  {
    var sorted := SortedDistinct(events);
    SortedDistinctSpec(events);
    ids := map[];
    for i := 0 to |sorted|
      invariant ids.Keys == set k | 0 <= k < i :: sorted[k]
      invariant forall k | 0 <= k < i :: ids[sorted[k]] == k
    {
      forall k | 0 <= k < i
        ensures sorted[k] != sorted[i]
      {
        LessIrreflexive(sorted[i]);
      }
      ids := ids[sorted[i] := i];
    }
    assert forall e :: e in ids <==> e in sorted;
    forall e | e in ids
      ensures ids[e] < |sorted| && sorted[ids[e]] == e
    {
      var k :| 0 <= k < |sorted| && sorted[k] == e;
    }
    forall a, b | a in ids && b in ids
      ensures Less(a, b) <==> ids[a] < ids[b]
    {
      if ids[b] < ids[a] {
        LessAsymmetric(b, a);
      } else if ids[a] == ids[b] {
        LessIrreflexive(a);
      }
    }
  }

  /** One split_fa_into_contigs job: the event, its fasta, its cactus id and its disk. */
  datatype SplitFaJob = SplitFaJob(event: string, faPath: string, fa: FileId, cactusId: nat, disk: nat)

  /**
   * split_fas: one job per event, with the event's cactus id and three times
   * its fasta's size of disk. `events` lists the keys of the sequence map in
   * its iteration order; the ids do not depend on that order.
   */
  method SplitFas(seqIdMap: map<string, (string, FileId)>, events: seq<string>) returns (jobs: map<string, SplitFaJob>)
    requires forall e :: e in events <==> e in seqIdMap
    ensures jobs.Keys == seqIdMap.Keys
    ensures forall e | e in jobs ::
      && jobs[e].event == e
      && (jobs[e].faPath, jobs[e].fa) == seqIdMap[e]
      && jobs[e].disk == 3 * seqIdMap[e].1.size
      && jobs[e].cactusId < |SortedDistinct(events)|
      && SortedDistinct(events)[jobs[e].cactusId] == e
  {
    var ids := CactusIdMap(events);
    SortedDistinctSpec(events);
    forall e | e in ids
      ensures SortedDistinct(events)[ids[e]] == e
    {
      var k :| 0 <= k < |SortedDistinct(events)| && SortedDistinct(events)[k] == e;
    }
    assert forall e | e in seqIdMap :: e in ids;
    jobs := map e | e in seqIdMap :: SplitFaJob(e, seqIdMap[e].0, seqIdMap[e].1, ids[e], seqIdMap[e].1.size * 3);
  }
}
