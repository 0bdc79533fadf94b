/**
 * gather_fas in cactus-graphmap-split: the per-event tables of contig
 * fastas that split_fas produces are turned into the per-contig table of
 * split_gfa, under each contig's `fa` entry, in place.
 */
module Gather {
  import opened Wrappers
  import opened SplitPlan
  import opened ContigSplit

  /** Every event's table has every one of the contigs. */
  predicate Covers<V>(byEvent: map<string, map<string, V>>, contigs: set<string>) {
    forall e, c | e in byEvent && c in contigs :: c in byEvent[e]
  }

  /** The value each event has for one contig. */
  function Row<V>(byEvent: map<string, map<string, V>>, contig: string): map<string, V>
    requires forall e | e in byEvent :: contig in byEvent[e]
  {
    map e | e in byEvent :: byEvent[e][contig]
  }

  /** The same values indexed by contig, then by event. */
  function Transpose<V>(byEvent: map<string, map<string, V>>, contigs: set<string>): map<string, map<string, V>>
    requires Covers(byEvent, contigs)
  {
    map c | c in contigs :: Row(byEvent, c)
  }

  /**
   * When every event has exactly the same contigs, transposing back gives
   * the original tables: the transpose loses and invents nothing.
   */
  lemma TransposeRoundTrip<V>(byEvent: map<string, map<string, V>>, contigs: set<string>)
    requires forall e | e in byEvent :: byEvent[e].Keys == contigs
    ensures Covers(Transpose(byEvent, contigs), byEvent.Keys)
    ensures Transpose(Transpose(byEvent, contigs), byEvent.Keys) == byEvent
  {
    var t := Transpose(byEvent, contigs);
    TransposeSpec(byEvent, contigs);
    var back := Transpose(t, byEvent.Keys);
    forall e | e in byEvent
      ensures back[e] == byEvent[e]
    {
      RowOfTranspose(byEvent, contigs, e);
    }
  }

  /** An event's row of the transpose is that event's own table, when it has exactly the contigs. */
  lemma RowOfTranspose<V>(byEvent: map<string, map<string, V>>, contigs: set<string>, e: string)
    requires Covers(byEvent, contigs) && e in byEvent && byEvent[e].Keys == contigs
    ensures forall c | c in Transpose(byEvent, contigs) :: e in Transpose(byEvent, contigs)[c]
    ensures Row(Transpose(byEvent, contigs), e) == byEvent[e]
  {
    TransposeSpec(byEvent, contigs);
    var r := Row(Transpose(byEvent, contigs), e);
    assert r.Keys == byEvent[e].Keys;
  }

  /** The transpose has one entry per contig, each with one entry per event, holding that event's value for the contig. */
  lemma TransposeSpec<V>(byEvent: map<string, map<string, V>>, contigs: set<string>)
    requires Covers(byEvent, contigs)
    ensures Transpose(byEvent, contigs).Keys == contigs
    ensures forall c | c in contigs :: Transpose(byEvent, contigs)[c].Keys == byEvent.Keys
    ensures forall c, e | c in contigs && e in byEvent :: Transpose(byEvent, contigs)[c][e] == byEvent[e][c]
  {
  }

  /** The KeyError raised when an event has no fasta for a contig. */
  datatype GatherError = MissingContig(event: string, contig: string)

  /**
   * split_gfa's table, keyed by reference contig: the stored `gfa`, `paf`
   * and `fa_contigs` files of each contig, and the `fa` entry gather_fas
   * adds, mapping each event to its fasta for the contig.
   */
  class SplitTable {
    var files: map<string, map<string, FileId>>
    var fa: map<string, map<string, ContigFasta>>

    /** Only contigs of the table have an `fa` entry. */
    predicate Valid()
      reads this
    {
      fa.Keys <= files.Keys
    }

    /** The table split_gfa returns, before gather_fas. */
    constructor (files: map<string, map<string, FileId>>)
      ensures Valid()
      ensures this.files == files && fa == map[]
    {
      this.files := files;
      fa := map[];
    }

    /**
     * gather_fas: for every contig of the table (in `contigs` order), sets
     * its `fa` entry to each event's fasta for it (events in `events`
     * order). The stored files are untouched. It succeeds exactly when every
     * event has every contig, and the `fa` entries are then the transpose of
     * the per-event tables; otherwise the KeyError names an event and a
     * contig it lacks.
     */
    method GatherFas(contigFaMap: map<string, map<string, ContigFasta>>, contigs: seq<string>, events: seq<string>)
      returns (err: Option<GatherError>)
      requires Valid()
      requires forall c :: c in contigs <==> c in files
      requires forall e :: e in events <==> e in contigFaMap
      modifies this
      ensures Valid()
      ensures files == old(files)
      ensures err.None? <==> Covers(contigFaMap, files.Keys)
      ensures err.None? ==> fa == Transpose(contigFaMap, files.Keys)
      ensures err.Some? ==>
        var MissingContig(e, c) := err.value;
        e in contigFaMap && c in files && c !in contigFaMap[e]
    {
      ghost var seen: set<string> := {};
      for i := 0 to |contigs|
        invariant Valid() && files == old(files)
        invariant seen == set k | 0 <= k < i :: contigs[k]
        invariant Covers(contigFaMap, seen)
        invariant fa == old(fa) + Transpose(contigFaMap, seen)
      {
        var refContig := contigs[i];
        var row, missing := GatherRow(contigFaMap, refContig, events);
        if missing.Some? {
          fa := fa[refContig := row];
          assert refContig in files;
          return Some(MissingContig(missing.value, refContig));
        }
        TransposeAdd(contigFaMap, seen, refContig);
        MergeUpdate(old(fa), Transpose(contigFaMap, seen), refContig, row);
        fa := fa[refContig := row];
        seen := seen + {refContig};
      }
      assert seen == files.Keys by {
        forall c | c in files
          ensures exists k | 0 <= k < |contigs| :: contigs[k] == c
        {
          assert c in contigs;
        }
      }
      TransposeSpec(contigFaMap, files.Keys);
      MergeCovered(old(fa), Transpose(contigFaMap, files.Keys));
      return None;
    }
  }

  /** Updating a merged map updates its second part. */
  lemma MergeUpdate<K, V>(a: map<K, V>, b: map<K, V>, k: K, v: V)
    ensures (a + b)[k := v] == a + b[k := v]
  {
  }

  /** Merging a map whose keys the second already has gives the second. */
  lemma MergeCovered<K, V>(a: map<K, V>, b: map<K, V>)
    requires a.Keys <= b.Keys
    ensures a + b == b
  {
  }

  /** Adding a contig every event has adds its row to the transpose. */
  lemma TransposeAdd<V>(byEvent: map<string, map<string, V>>, contigs: set<string>, contig: string)
    requires Covers(byEvent, contigs) && forall e | e in byEvent :: contig in byEvent[e]
    ensures Covers(byEvent, contigs + {contig})
    ensures Transpose(byEvent, contigs + {contig}) == Transpose(byEvent, contigs)[contig := Row(byEvent, contig)]
  {
  }

  /**
   * One contig's `fa` entry, filled event by event in `events` order: every
   * event's fasta for the contig, or, at the first event without one, the
   * entry so far and that event.
   */
  method GatherRow(contigFaMap: map<string, map<string, ContigFasta>>, contig: string, events: seq<string>)
    returns (row: map<string, ContigFasta>, missing: Option<string>)
    requires forall e :: e in events <==> e in contigFaMap
    ensures missing.None? <==> forall e | e in contigFaMap :: contig in contigFaMap[e]
    ensures missing.None? ==> row == Row(contigFaMap, contig)
    ensures missing.Some? ==> missing.value in contigFaMap && contig !in contigFaMap[missing.value]
  {
    row := map[];
    for j := 0 to |events|
      invariant forall k | 0 <= k < j :: contig in contigFaMap[events[k]]
      invariant row.Keys == set k | 0 <= k < j :: events[k]
      invariant forall k | 0 <= k < j :: row[events[k]] == contigFaMap[events[k]][contig]
    {
      var event := events[j];
      if contig !in contigFaMap[event] {
        return row, Some(event);
      }
      row := row[event := contigFaMap[event][contig]];
    }
    forall e | e in contigFaMap
      ensures exists k | 0 <= k < |events| :: events[k] == e
    {
      assert e in events;
    }
    return row, None;
  }
}
