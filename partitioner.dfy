/**
 * The weekly partitioning job: it lists the normalized batches, and for each
 * one reads it as a table, renames the `exchange` column, takes the date from
 * the start of the file name, and writes the table under
 * parquet/year=Y/month=M/week=W/day=D/, where W is the ISO 8601 week number.
 *
 * The bucket is a parameter: `source` maps each readable key to the table read
 * from it, and `putOk(k)` says whether the write to key k succeeds. The
 * columnar encoding itself is not modelled; a written object is its key and
 * its table.
 */
module Partitioner {
  import opened Wrappers
  import opened Text
  import opened Records
  import opened Calendar

  const SOURCE_PREFIX := "transformed/"
  const DESTINATION_PREFIX := "parquet/"

  // Listing.

  /** list_s3_files: the listed keys that end in ".json", in listing order. */
  function JsonKeys(listing: seq<string>): (keys: seq<string>)
    ensures |keys| <= |listing|
  {
    if listing == [] then []
    else
      var rest := JsonKeys(listing[1..]);
      if EndsWith(listing[0], ".json") then [listing[0]] + rest else rest
  }

  /** Exactly the ".json" keys are kept. */
  lemma {:induction false} JsonKeysMembers(listing: seq<string>, k: string)
    ensures k in JsonKeys(listing) <==> k in listing && EndsWith(k, ".json")
  {
    if listing != [] {
      JsonKeysMembers(listing[1..], k);
      assert listing == [listing[0]] + listing[1..];
    }
  }

  /** Filtering a concatenated listing filters each part: listing order is kept. */
  lemma {:induction false} JsonKeysAppend(a: seq<string>, b: seq<string>)
    ensures JsonKeys(a + b) == JsonKeys(a) + JsonKeys(b)
  {
    if a == [] {
      assert a + b == b;
    } else {
      assert (a + b)[0] == a[0] && (a + b)[1..] == a[1..] + b;
      JsonKeysAppend(a[1..], b);
    }
  }

  // Dates in file names.

  /** The first ten characters have the shape DDDD-DD-DD (ASCII digits). */
  predicate DatePattern(name: string)
  {
    |name| >= 10 && AllDigits(name[..4]) && name[4] == '-' && AllDigits(name[5..7])
    && name[7] == '-' && AllDigits(name[8..10])
  }

  /**
   * extract_date_from_filename: the date written at the very start of the
   * name, or None when the name does not start with DDDD-DD-DD or those digits
   * are not a calendar date of years 1..9999.
   */
  function ExtractDate(name: string): (r: Option<Date>)
    ensures r.Some? ==> ValidDate(r.value) && DatePattern(name)
  {
    if !DatePattern(name) then None
    else
      var d := Date(ValueOf(name[..4]), ValueOf(name[5..7]), ValueOf(name[8..10]));
      if ValidDate(d) then Some(d) else None
  }

  /** The first ten characters of a name that has the date shape, regrouped around the dashes. */
  lemma DatePrefix(name: string)
    requires DatePattern(name)
    ensures name[..10] == name[..4] + "-" + name[5..7] + "-" + name[8..10]
  {
    var t := name[..4] + "-" + name[5..7] + "-" + name[8..10];
    assert forall i | 0 <= i < 10 :: name[..10][i] == t[i];
  }

  /** A parsed date is spelled by the first ten characters of the name. */
  lemma ExtractDateSpelled(name: string, d: Date)
    requires ExtractDate(name) == Some(d)
    ensures StartsWith(name, DateText(d))
  {
    DatePrefix(name);
    PaddedValueOf(name[..4]);
    PaddedValueOf(name[5..7]);
    PaddedValueOf(name[8..10]);
    assert DateText(d) == Padded(d.year, 4) + "-" + Padded(d.month, 2) + "-" + Padded(d.day, 2);
  }

  /** A name that starts with a date's text parses back to that date. */
  lemma ExtractDateOfText(name: string, d: Date)
    requires ValidDate(d) && StartsWith(name, DateText(d))
    ensures ExtractDate(name) == Some(d)
  {
    var s := DateText(d);
    assert s == Padded(d.year, 4) + "-" + Padded(d.month, 2) + "-" + Padded(d.day, 2);
    DashedFields(Padded(d.year, 4), Padded(d.month, 2), Padded(d.day, 2));
    assert name[..10] == s;
    assert name[..4] == s[..4] && name[5..7] == s[5..7] && name[8..10] == s[8..];
    ValueOfPadded(d.year, 4);
    ValueOfPadded(d.month, 2);
    ValueOfPadded(d.day, 2);
  }

  /** Parsing inverts the date text: a name yields d exactly when it starts with d's text. */
  lemma ExtractDateText(name: string, d: Date)
    ensures ExtractDate(name) == Some(d) <==> ValidDate(d) && StartsWith(name, DateText(d))
  {
    if ExtractDate(name) == Some(d) {
      ExtractDateSpelled(name, d);
    }
    if ValidDate(d) && StartsWith(name, DateText(d)) {
      ExtractDateOfText(name, d);
    }
  }

  /** A well-shaped prefix that is not a calendar date, February 30, gives None. */
  lemma ExtractDateFebruary30(name: string)
    requires name == "2024-02-30_FRI_opening.json"
    ensures ExtractDate(name) == None
  {
    assert name[5] == '0' && name[6] == '2' && name[8] == '3' && name[9] == '0';
    var month, day := name[5..7], name[8..10];
    TwoDigitValue(month);
    TwoDigitValue(day);
  }

  /** The value of two digits. */
  lemma TwoDigitValue(s: string)
    requires |s| == 2 && AllDigits(s)
    ensures ValueOf(s) == 10 * DigitValue(s[0]) + DigitValue(s[1])
  {
    assert s[..1][..0] == [];
  }

  /** The match is anchored at the start: a leading character defeats it. */
  lemma ExtractDateAnchored(name: string)
    requires name == "x2024-01-01_MON_opening.json"
    ensures ExtractDate(name) == None
  {
    assert !IsDigit(name[..4][0]);
  }

  // Partition paths and keys.

  /** The ISO week of a valid date, as a natural number. */
  function WeekOf(d: Date): (w: nat)
    requires ValidDate(d)
    ensures 1 <= w <= 53 && w == IsoWeek(d)
  {
    IsoWeekRange(d);
    IsoWeek(d)
  }

  /** One "tag=value" segment of a partition folder followed by the rest of the folder. */
  function Field(tag: string, v: nat, rest: string): string
  {
    tag + Decimal(v) + rest
  }

  /** The partition folder for year, month, week and day, each written without padding. */
  function PathOf(year: nat, month: nat, week: nat, day: nat): string
  {
    DESTINATION_PREFIX + Field("year=", year, Field("/month=", month, Field("/week=", week, Field("/day=", day, "/"))))
  }

  /** The partition folder of a date: its calendar year, month and day with its ISO week. */
  function PartitionPath(d: Date): string
    requires ValidDate(d)
  {
    PathOf(d.year, d.month, WeekOf(d), d.day)
  }

  /** Two strings of digits followed by tails that start with a non-digit split the same way. */
  lemma DigitsSplit(a1: string, r1: string, a2: string, r2: string)
    requires AllDigits(a1) && AllDigits(a2) && a1 + r1 == a2 + r2
    requires |r1| > 0 && |r2| > 0 && !IsDigit(r1[0]) && !IsDigit(r2[0])
    ensures a1 == a2 && r1 == r2
  {
    var k := if |a1| < |a2| then |a1| else |a2|;
    assert IsDigit((a1 + r1)[k]) <==> k < |a1|;
    assert IsDigit((a2 + r2)[k]) <==> k < |a2|;
    assert a1 == (a1 + r1)[..|a1|] && a2 == (a2 + r2)[..|a2|];
    assert r1 == (a1 + r1)[|a1|..] && r2 == (a2 + r2)[|a2|..];
  }

  /** Equal segments whose rests start with '/' have equal values and equal rests. */
  lemma FieldInjective(tag: string, v1: nat, r1: string, v2: nat, r2: string)
    requires |r1| > 0 && |r2| > 0 && r1[0] == '/' && r2[0] == '/'
    requires Field(tag, v1, r1) == Field(tag, v2, r2)
    ensures v1 == v2 && r1 == r2
  {
    var s1, s2 := Field(tag, v1, r1), Field(tag, v2, r2);
    assert s1[|tag|..] == Decimal(v1) + r1;
    assert s2[|tag|..] == Decimal(v2) + r2;
    DigitsSplit(Decimal(v1), r1, Decimal(v2), r2);
    DecimalInjective(v1, v2);
  }

  /** Every segment starts with its tag. */
  lemma FieldStart(tag: string, v: nat, rest: string)
    requires |tag| > 0
    ensures Field(tag, v, rest)[0] == tag[0]
  {
  }

  /** A partition folder determines the four numbers it was built from. */
  lemma PathOfInjective(y1: nat, m1: nat, w1: nat, d1: nat, y2: nat, m2: nat, w2: nat, d2: nat)
    requires PathOf(y1, m1, w1, d1) == PathOf(y2, m2, w2, d2)
    ensures y1 == y2 && m1 == m2 && w1 == w2 && d1 == d2
  {
    var a1, a2 := Field("/day=", d1, "/"), Field("/day=", d2, "/");
    var b1, b2 := Field("/week=", w1, a1), Field("/week=", w2, a2);
    var c1, c2 := Field("/month=", m1, b1), Field("/month=", m2, b2);
    var p1, p2 := Field("year=", y1, c1), Field("year=", y2, c2);
    assert p1 == PathOf(y1, m1, w1, d1)[|DESTINATION_PREFIX|..];
    assert p2 == PathOf(y2, m2, w2, d2)[|DESTINATION_PREFIX|..];
    FieldStart("/month=", m1, b1);
    FieldStart("/month=", m2, b2);
    FieldInjective("year=", y1, c1, y2, c2);
    FieldStart("/week=", w1, a1);
    FieldStart("/week=", w2, a2);
    FieldInjective("/month=", m1, b1, m2, b2);
    FieldStart("/day=", d1, "/");
    FieldStart("/day=", d2, "/");
    FieldInjective("/week=", w1, a1, w2, a2);
    FieldInjective("/day=", d1, "/", d2, "/");
  }

  /** The partition path determines the date: distinct dates never share a partition. */
  lemma PartitionPathInjective(d1: Date, d2: Date)
    requires ValidDate(d1) && ValidDate(d2) && PartitionPath(d1) == PartitionPath(d2)
    ensures d1 == d2
  {
    PathOfInjective(d1.year, d1.month, WeekOf(d1), d1.day, d2.year, d2.month, WeekOf(d2), d2.day);
  }

  /** Worked example: 2024-01-01 is in week 1 of its own year. */
  lemma PartitionNewYear2024(d: Date)
    requires d == Date(2024, 1, 1)
    ensures ValidDate(d) && PartitionPath(d) == PathOf(2024, 1, 1, 1)
  {
    IsoWeekNewYear2024(d);
  }

  /** Worked example: 2024-12-30 pairs calendar year 2024 and month 12 with ISO week 1. */
  lemma PartitionEndOf2024(d: Date)
    requires d == Date(2024, 12, 30)
    ensures ValidDate(d) && PartitionPath(d) == PathOf(2024, 12, 1, 30)
  {
    IsoWeekEndOf2024(d);
  }

  /** Worked example: 2021-01-01 pairs calendar year 2021 with ISO week 53 of 2020. */
  lemma PartitionNewYear2021(d: Date)
    requires d == Date(2021, 1, 1)
    ensures ValidDate(d) && PartitionPath(d) == PathOf(2021, 1, 53, 1)
  {
    IsoWeekNewYear2021(d);
  }

  /** The output file name: every ".json" in the name becomes ".parquet". */
  function ParquetName(filename: string): string
  {
    ReplaceAll(filename, ".json", ".parquet")
  }

  /**
   * The output key of a listed key: the partition of the date its file name
   * starts with, then the renamed file name. None when the file name carries
   * no date (the file is skipped).
   */
  function ParquetKey(key: string): (r: Option<string>)
    ensures r.Some? <==> ExtractDate(Basename(key)).Some?
  {
    var filename := Basename(key);
    match ExtractDate(filename)
    case None => None
    case Some(d) => Some(PartitionPath(d) + ParquetName(filename))
  }

  /** Every output key lies under the destination prefix. */
  lemma ParquetKeyPrefix(key: string)
    requires ParquetKey(key).Some?
    ensures StartsWith(ParquetKey(key).value, DESTINATION_PREFIX)
  {
    var name := Basename(key);
    var d := ExtractDate(name).value;
    ParquetKeyOfName(key, name, d);
    PartitionPathPrefix(d, ParquetName(name));
  }

  /** Whatever follows a date's partition folder, the whole starts with the destination prefix. */
  lemma PartitionPathPrefix(d: Date, rest: string)
    requires ValidDate(d)
    ensures StartsWith(PartitionPath(d) + rest, DESTINATION_PREFIX)
  {
    PathOfPrefix(d.year, d.month, WeekOf(d), d.day, rest);
  }

  /** Whatever follows a partition folder, the whole starts with the destination prefix. */
  lemma PathOfPrefix(y: nat, m: nat, w: nat, d: nat, rest: string)
    ensures StartsWith(PathOf(y, m, w, d) + rest, DESTINATION_PREFIX)
  {
    var f := Field("year=", y, Field("/month=", m, Field("/week=", w, Field("/day=", d, "/"))));
    assert PathOf(y, m, w, d) + rest == DESTINATION_PREFIX + (f + rest);
  }

  /** A file name that is a stem without '/' or '.' followed by ".json". */
  lemma StemName(dir: string, stem: string)
    requires '/' !in stem && '.' !in stem
    ensures Basename(dir + "/" + stem + ".json") == stem + ".json"
    ensures ParquetName(stem + ".json") == stem + ".parquet"
  {
    var name := stem + ".json";
    assert '/' !in name by {
      assert forall i | 0 <= i < |name| :: name[i] == if i < |stem| then stem[i] else ".json"[i - |stem|];
    }
    assert dir + "/" + stem + ".json" == dir + "/" + name;
    BasenameAfterSlash(dir, name);
    ReplaceAllAtEnd(stem, ".json", ".parquet");
  }

  /**
   * For a key whose file name is a dotless stem plus ".json" and starts with
   * d's text, the output key is d's partition, the stem and ".parquet".
   */
  lemma ParquetKeyOfStem(dir: string, stem: string, d: Date)
    requires '/' !in stem && '.' !in stem && ValidDate(d) && StartsWith(stem, DateText(d))
    ensures ParquetKey(dir + "/" + stem + ".json") == Some(PartitionPath(d) + (stem + ".parquet"))
  {
    var name := stem + ".json";
    StemName(dir, stem);
    assert StartsWith(name, DateText(d)) by {
      assert name[..|DateText(d)|] == stem[..|DateText(d)|];
    }
    ExtractDateOfText(name, d);
    ParquetKeyOfName(dir + "/" + stem + ".json", name, d);
  }

  /** The output key of a key whose file name parses to d. */
  lemma ParquetKeyOfName(key: string, name: string, d: Date)
    requires Basename(key) == name && ExtractDate(name) == Some(d)
    ensures ParquetKey(key) == Some(PartitionPath(d) + ParquetName(name))
  {
  }

  // Tables.

  /** A table as read from a batch: column labels and rows of cells, one per column. */
  datatype Table = Table(columns: seq<string>, rows: seq<seq<Value>>)

  /** The label a column carries after the rename. */
  function RenamedLabel(c: string): string
  {
    if c == "exchange" then "stock_exchange" else c
  }

  /** The column labels after renaming "exchange" to "stock_exchange". */
  function RenamedColumns(columns: seq<string>): (r: seq<string>)
    ensures |r| == |columns| && forall i | 0 <= i < |columns| :: r[i] == RenamedLabel(columns[i])
  {
    seq(|columns|, i => if 0 <= i < |columns| then RenamedLabel(columns[i]) else "")
  }

  /** After the rename no column is called "exchange"; the column that was, is now "stock_exchange". */
  lemma RenamedColumnsNoExchange(columns: seq<string>)
    ensures "exchange" !in RenamedColumns(columns)
    ensures forall i | 0 <= i < |columns| && columns[i] == "exchange" :: RenamedColumns(columns)[i] == "stock_exchange"
  {
    var r := RenamedColumns(columns);
    assert forall i | 0 <= i < |r| :: r[i] != "exchange";
  }

  /** With no "exchange" column the rename changes nothing. */
  lemma RenamedColumnsAbsent(columns: seq<string>)
    requires "exchange" !in columns
    ensures RenamedColumns(columns) == columns
  {
  }

  /** A table held in memory and changed in place. */
  class Frame {
    var columns: seq<string>
    var rows: seq<seq<Value>>

    constructor (t: Table)
      ensures columns == t.columns && rows == t.rows
    {
      columns := t.columns;
      rows := t.rows;
    }

    function Contents(): Table
      reads this
    {
      Table(columns, rows)
    }

    /** Renames the "exchange" column, when there is one, in place; the rows are untouched. */
    method RenameExchange()
      modifies this
      ensures columns == RenamedColumns(old(columns))
      ensures rows == old(rows)
    {
      if "exchange" in columns {
        columns := RenamedColumns(columns);
      } else {
        RenamedColumnsAbsent(columns);
      }
    }
  }

  /** The table as written: the read table with its columns renamed. */
  function Renamed(t: Table): (r: Table)
    ensures r.rows == t.rows && |r.columns| == |t.columns|
    ensures "exchange" !in r.columns
  {
    RenamedColumnsNoExchange(t.columns);
    Table(RenamedColumns(t.columns), t.rows)
  }

  // The conversion loop.

  /** One object written by the job. */
  datatype Put = Put(key: string, table: Table)

  /** What the job did: the objects written in order, and whether it stopped on an error. */
  datatype Run = Run(puts: seq<Put>, aborted: bool)

  /**
   * The conversion loop over `files`, with `keyOf` giving each file's output
   * key (ParquetKey in the job): a key that cannot be read, or a write that
   * fails, raises out of the loop (earlier writes stay); a file without an
   * output key is skipped and the loop goes on.
   */
  function Convert(files: seq<string>, source: map<string, Table>, putOk: string -> bool,
                   keyOf: string -> Option<string>): (r: Run)
    ensures |r.puts| <= |files|
  {
    if files == [] then Run([], false)
    else
      var f := files[0];
      if f !in source then Run([], true)
      else match keyOf(f)
        case None => Convert(files[1..], source, putOk, keyOf)
        case Some(k) =>
          if !putOk(k) then Run([], true)
          else
            var rest := Convert(files[1..], source, putOk, keyOf);
            Run([Put(k, Renamed(source[f]))] + rest.puts, rest.aborted)
  }

  /** Loop invariant: the writes so far, followed by what the remaining files produce, is the whole run. */
  predicate ConvertFrom(files: seq<string>, i: int, source: map<string, Table>, putOk: string -> bool,
                        keyOf: string -> Option<string>, done: seq<Put>)
    requires 0 <= i <= |files|
  {
    var rest := Convert(files[i..], source, putOk, keyOf);
    Convert(files, source, putOk, keyOf) == Run(done + rest.puts, rest.aborted)
  }

  /** convert_to_parquet: the loop over the listed files, renaming each frame in place before writing it. */
  method ConvertToParquet(files: seq<string>, source: map<string, Table>, putOk: string -> bool)
    returns (puts: seq<Put>, aborted: bool)
    ensures Run(puts, aborted) == Convert(files, source, putOk, ParquetKey)
  {
    puts := [];
    var i := 0;
    assert files[0..] == files;
    while i < |files|
      invariant 0 <= i <= |files|
      invariant ConvertFrom(files, i, source, putOk, ParquetKey, puts)
    {
      var file := files[i];
      assert files[i..][0] == file && files[i..][1..] == files[i + 1..];
      if file !in source {
        return puts, true;
      }
      var frame := new Frame(source[file]);
      frame.RenameExchange();
      var key := ParquetKey(file);
      if key.None? {
        i := i + 1;
        continue;
      }
      if !putOk(key.value) {
        return puts, true;
      }
      puts := puts + [Put(key.value, frame.Contents())];
      i := i + 1;
    }
    aborted := false;
  }

  /** Files are processed in order: a run over a + b is a's run, then b's unless a's stopped. */
  lemma {:induction false} ConvertAppend(a: seq<string>, b: seq<string>, source: map<string, Table>,
                                         putOk: string -> bool, keyOf: string -> Option<string>)
    ensures var ra, rb := Convert(a, source, putOk, keyOf), Convert(b, source, putOk, keyOf);
      Convert(a + b, source, putOk, keyOf) == if ra.aborted then ra else Run(ra.puts + rb.puts, rb.aborted)
  {
    if a == [] {
      assert a + b == b;
    } else {
      assert (a + b)[0] == a[0] && (a + b)[1..] == a[1..] + b;
      ConvertAppend(a[1..], b, source, putOk, keyOf);
      var f := a[0];
      if f in source && keyOf(f).Some? && putOk(keyOf(f).value) {
        var head := [Put(keyOf(f).value, Renamed(source[f]))];
        var ra', rb := Convert(a[1..], source, putOk, keyOf), Convert(b, source, putOk, keyOf);
        assert head + (ra'.puts + rb.puts) == (head + ra'.puts) + rb.puts;
      }
    }
  }

  /** Every write goes to the output key of some listed, readable file and holds that file's renamed table. */
  lemma {:induction false} ConvertWrites(files: seq<string>, source: map<string, Table>, putOk: string -> bool,
                                         keyOf: string -> Option<string>, p: Put)
    requires p in Convert(files, source, putOk, keyOf).puts
    ensures exists f | f in files :: f in source && keyOf(f) == Some(p.key) && p.table == Renamed(source[f])
    ensures putOk(p.key)
  {
    var f := files[0];
    var rest := Convert(files[1..], source, putOk, keyOf);
    if keyOf(f).None? || p != Put(keyOf(f).value, Renamed(source[f])) {
      ConvertWrites(files[1..], source, putOk, keyOf, p);
      var g :| g in files[1..] && g in source && keyOf(g) == Some(p.key) && p.table == Renamed(source[g]);
      assert g in files;
    }
  }

  /** When every file is readable and every write succeeds, nothing aborts and each keyed file is written once. */
  lemma {:induction false} ConvertAllSucceed(files: seq<string>, source: map<string, Table>, putOk: string -> bool,
                                             keyOf: string -> Option<string>)
    requires forall f | f in files :: f in source
    requires forall k :: putOk(k)
    ensures !Convert(files, source, putOk, keyOf).aborted
    ensures |Convert(files, source, putOk, keyOf).puts| == |Keyed(files, keyOf)|
  {
    if files != [] {
      assert forall f | f in files[1..] :: f in files;
      ConvertAllSucceed(files[1..], source, putOk, keyOf);
    }
  }

  /** The files that have an output key. */
  function Keyed(files: seq<string>, keyOf: string -> Option<string>): (r: seq<string>)
    ensures forall f | f in r :: f in files && keyOf(f).Some?
  {
    if files == [] then []
    else if keyOf(files[0]).Some? then [files[0]] + Keyed(files[1..], keyOf)
    else Keyed(files[1..], keyOf)
  }

  /** main: list the ".json" batches and convert them; with none listed nothing is written. */
  function RunJob(listing: seq<string>, source: map<string, Table>, putOk: string -> bool): (r: Run)
    ensures JsonKeys(listing) == [] ==> r == Run([], false)
  {
    var files := JsonKeys(listing);
    if files == [] then Run([], false) else Convert(files, source, putOk, ParquetKey)
  }

  /** Every object the job writes comes from a ".json" key of the listing and lies under "parquet/". */
  lemma RunJobSources(listing: seq<string>, source: map<string, Table>, putOk: string -> bool, p: Put)
    requires p in RunJob(listing, source, putOk).puts
    ensures exists f | f in listing :: EndsWith(f, ".json") && f in source && ParquetKey(f) == Some(p.key)
    ensures StartsWith(p.key, DESTINATION_PREFIX)
  {
    var files := JsonKeys(listing);
    ConvertWrites(files, source, putOk, ParquetKey, p);
    var f :| f in files && f in source && ParquetKey(f) == Some(p.key) && p.table == Renamed(source[f]);
    JsonKeysMembers(listing, f);
    ParquetKeyPrefix(f);
  }
}
