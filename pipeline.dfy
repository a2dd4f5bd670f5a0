/**
 * How the stages fit together. A batch name chosen by the fetcher is routed
 * by the normalizer to the session it names and to the transformed folder,
 * the weekly job files it under the partition of the very date the fetcher
 * put in the name, and the aggregator's selector reads back the partition
 * values of its own local date.
 */
module Pipeline {
  import opened Wrappers
  import opened Text
  import opened Records
  import opened Calendar
  import Fetcher
  import Normalizer
  import Partitioner
  import Ranking

  /** Lower-casing a string whose characters are not upper-case letters changes nothing. */
  lemma LowerUnchanged(s: string)
    requires forall i | 0 <= i < |s| :: !('A' <= s[i] <= 'Z')
    ensures ToLower(s) == s
  {
  }

  /** Lower-casing commutes with slicing. */
  lemma LowerSlice(s: string, i: int, j: int)
    requires 0 <= i <= j <= |s|
    ensures ToLower(s)[i..j] == ToLower(s[i..j])
  {
  }

  /** Lower-casing makes a 'p' only out of a 'p' or a 'P'. */
  lemma LowerNoP(s: string)
    requires 'p' !in s && 'P' !in s
    ensures 'p' !in ToLower(s)
  {
    var r := ToLower(s);
    forall i | 0 <= i < |r|
      ensures r[i] != 'p'
    {
      assert s[i] != 'p' && s[i] != 'P';
    }
  }

  /** The pieces of a batch name: the folder, the stem and the extension. */
  lemma BatchKeyParts(now: int)
    requires Fetcher.FileName(now).Some?
    ensures var d := DateOfInstant(now - Fetcher.EASTERN_SHIFT).value;
      && ValidDate(d)
      && Fetcher.FileName(now).value == Fetcher.FOLDER + Fetcher.BatchStem(d, Fetcher.SlotOf(now)) + ".json"
  {
  }

  /** The slot word sits in the name right after the date, the weekday and two underscores. */
  lemma SlotWordAt(d: Date, slot: Phase)
    requires ValidDate(d)
    ensures var key, w := Fetcher.FOLDER + Fetcher.BatchStem(d, slot) + ".json", slot.Text();
      key[23..23 + |w|] == w
  {
    var stem := Fetcher.BatchStem(d, slot);
    Fetcher.BatchStemFields(d, slot);
    Fetcher.Framed(Fetcher.FOLDER, stem, ".json");
    assert stem[15..|stem|] == slot.Text();
  }

  /** A closing batch key holds no 'p' and no 'P' anywhere. */
  lemma ClosingKeyNoP(d: Date)
    requires ValidDate(d)
    ensures var key := Fetcher.FOLDER + Fetcher.BatchStem(d, Closing) + ".json";
      'p' !in key && 'P' !in key
  {
    var stem := Fetcher.BatchStem(d, Closing);
    var key := Fetcher.FOLDER + stem + ".json";
    Fetcher.BatchStemChars(d, Closing);
    Fetcher.Framed(Fetcher.FOLDER, stem, ".json");
    forall i | 0 <= i < |key|
      ensures key[i] != 'p' && key[i] != 'P'
    {
      if i < 8 {
        assert key[i] == Fetcher.FOLDER[i];
      } else if i < 8 + |stem| {
        assert key[i] == stem[i - 8];
      } else {
        assert key[i] == ".json"[i - 8 - |stem|];
      }
    }
  }

  /** The lower-cased batch key holds the slot word right after the date and weekday. */
  lemma SlotWordInLowered(d: Date, slot: Phase)
    requires ValidDate(d)
    ensures var key := Fetcher.FOLDER + Fetcher.BatchStem(d, slot) + ".json";
      OccursAt(ToLower(key), slot.Text(), 23)
  {
    var key := Fetcher.FOLDER + Fetcher.BatchStem(d, slot) + ".json";
    var w := slot.Text();
    SlotWordAt(d, slot);
    LowerSlice(key, 23, 23 + |w|);
    forall i | 0 <= i < |w|
      ensures !('A' <= w[i] <= 'Z')
    {
      Fetcher.PhaseTextChars(slot, w[i]);
    }
    LowerUnchanged(w);
  }

  /** The price type the normalizer detects in a batch key of a known slot is that slot. */
  lemma PriceTypeOfKey(d: Date, slot: Phase)
    requires ValidDate(d) && slot != Unknown
    ensures Normalizer.PriceTypeOf(Fetcher.FOLDER + Fetcher.BatchStem(d, slot) + ".json") == slot
  {
    var key := Fetcher.FOLDER + Fetcher.BatchStem(d, slot) + ".json";
    SlotWordInLowered(d, slot);
    if slot == Closing {
      ClosingKeyNoP(d);
      LowerNoP(key);
      MissingCharNotContained(ToLower(key), "opening", 'p');
    }
  }

  /**
   * The normalizer reads back the session the fetcher named: the price type
   * it detects in a batch key is the batch's slot.
   */
  lemma PriceTypeOfBatch(now: int)
    requires Fetcher.FileName(now).Some?
    ensures Normalizer.PriceTypeOf(Fetcher.FileName(now).value) == Fetcher.SlotOf(now)
  {
    var d := DateOfInstant(now - Fetcher.EASTERN_SHIFT).value;
    BatchKeyParts(now);
    Fetcher.SlotRule(now);
    PriceTypeOfKey(d, Fetcher.SlotOf(now));
  }

  /** A batch key holds "inbound/" only as its folder, so the rewrite keeps the name after it. */
  lemma DestinationOfBatch(now: int)
    requires Fetcher.FileName(now).Some?
    ensures var d := DateOfInstant(now - Fetcher.EASTERN_SHIFT).value;
      Normalizer.DestinationKey(Fetcher.FileName(now).value)
        == Normalizer.DEST_FOLDER + (Fetcher.BatchStem(d, Fetcher.SlotOf(now)) + ".json")
  {
    var d := DateOfInstant(now - Fetcher.EASTERN_SHIFT).value;
    var stem := Fetcher.BatchStem(d, Fetcher.SlotOf(now));
    var key := Fetcher.FileName(now).value;
    var rest := stem + ".json";
    BatchKeyParts(now);
    Fetcher.Framed(Fetcher.FOLDER, stem, ".json");
    assert key[8..] == rest;
    Fetcher.BatchStemChars(d, Fetcher.SlotOf(now));
    assert '/' !in rest by {
      forall i | 0 <= i < |rest|
        ensures rest[i] != '/'
      {
        if i < |stem| {
          assert rest[i] == stem[i];
        } else {
          assert rest[i] == ".json"[i - |stem|];
        }
      }
    }
    MissingCharNotContained(rest, Normalizer.SOURCE_FOLDER, '/');
    Normalizer.DestinationKeyKeepsName(key);
  }

  /**
   * Round trip: the weekly job reads back from a batch name exactly the date
   * the fetcher wrote into it, the civil date of the shifted instant.
   */
  lemma BatchDateRoundTrip(now: int)
    requires Fetcher.FileName(now).Some?
    ensures Partitioner.ExtractDate(Basename(Fetcher.FileName(now).value)) == DateOfInstant(now - Fetcher.EASTERN_SHIFT)
  {
    var d := DateOfInstant(now - Fetcher.EASTERN_SHIFT).value;
    var stem := Fetcher.BatchStem(d, Fetcher.SlotOf(now));
    BatchKeyParts(now);
    Fetcher.BatchStemChars(d, Fetcher.SlotOf(now));
    Fetcher.BatchStemFields(d, Fetcher.SlotOf(now));
    Partitioner.StemName("inbound", stem);
    assert Fetcher.FileName(now).value == "inbound" + "/" + stem + ".json";
    var name := stem + ".json";
    assert StartsWith(name, DateText(d)) by {
      assert name[..10] == stem[..10];
    }
    Partitioner.ExtractDateOfText(name, d);
  }

  /** The weekly job files a transformed batch under its date's partition, as ".parquet". */
  lemma ParquetKeyOfBatch(d: Date, slot: Phase)
    requires ValidDate(d)
    ensures var stem := Fetcher.BatchStem(d, slot);
      var moved := Normalizer.DEST_FOLDER + (stem + ".json");
      && EndsWith(moved, ".json")
      && Partitioner.ParquetKey(moved) == Some(Partitioner.PartitionPath(d) + (stem + ".parquet"))
  {
    var stem := Fetcher.BatchStem(d, slot);
    Fetcher.BatchStemChars(d, slot);
    Fetcher.BatchStemFields(d, slot);
    assert StartsWith(stem, DateText(d));
    TransformedKeySplit(stem);
    Partitioner.ParquetKeyOfStem("transformed", stem, d);
  }

  /** A name in the transformed folder is the folder's name, a slash and the name. */
  lemma TransformedKeySplit(stem: string)
    ensures Normalizer.DEST_FOLDER + (stem + ".json") == "transformed" + "/" + stem + ".json"
    ensures EndsWith(Normalizer.DEST_FOLDER + (stem + ".json"), ".json")
  {
    assert Normalizer.DEST_FOLDER == "transformed" + "/";
    var key := Normalizer.DEST_FOLDER + (stem + ".json");
    assert key[|key| - 5..] == ".json";
  }

  /**
   * End to end: a batch fetched at `now` is normalized into the transformed
   * folder under the same name, and the weekly job writes it to the partition
   * of the fetcher's date with the name's extension made ".parquet".
   */
  lemma BatchParquetKey(now: int)
    requires Fetcher.FileName(now).Some?
    ensures var d := DateOfInstant(now - Fetcher.EASTERN_SHIFT).value;
      var stem := Fetcher.BatchStem(d, Fetcher.SlotOf(now));
      var moved := Normalizer.DestinationKey(Fetcher.FileName(now).value);
      && EndsWith(moved, ".json")
      && Partitioner.ParquetKey(moved) == Some(Partitioner.PartitionPath(d) + (stem + ".parquet"))
  {
    var d := DateOfInstant(now - Fetcher.EASTERN_SHIFT).value;
    BatchKeyParts(now);
    DestinationOfBatch(now);
    ParquetKeyOfBatch(d, Fetcher.SlotOf(now));
  }

  /**
   * The aggregator's selector for a local date holds the year, month and week
   * of that date's partition, so it reads the batches the weekly job filed
   * for its own date.
   */
  lemma SelectorMatchesPartition(local: Date)
    requires ValidDate(local)
    ensures var sel := Ranking.SelectorOf(local);
      Partitioner.PartitionPath(local) == Partitioner.PathOf(sel.year, sel.month, sel.week, local.day)
  {
  }

  /**
   * Two dates fall in the same selection exactly when their partitions agree
   * on year, month and week; in particular days of one ISO week that lie in
   * different months are never selected together.
   */
  lemma SameSelection(d1: Date, d2: Date)
    requires ValidDate(d1) && ValidDate(d2)
    ensures Ranking.SelectorOf(d1) == Ranking.SelectorOf(d2)
      <==> d1.year == d2.year && d1.month == d2.month && IsoWeek(d1) == IsoWeek(d2)
    ensures d1.month != d2.month ==> Ranking.SelectorOf(d1) != Ranking.SelectorOf(d2)
  {
  }
}
