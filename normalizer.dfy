/**
 * The normalizing stage: triggered by a new object in the bucket, it ignores
 * keys outside "inbound/", reads the batch, rewrites every record (the
 * `updated` instant becomes a UTC date text, the market cap becomes a scaled
 * figure with a unit letter, and a `price_type` field names the session) and
 * writes the result under "transformed/".
 *
 * Reading and writing the bucket are parameters: `body` is the sequence of
 * records that iterating the parsed object yields, and `putOk` whether the
 * write succeeded. A JSON value that iterates to nothing (`[]`, `{}` or `""`)
 * reads as Some([]) and is written back as an empty batch. `body` is None when
 * the read or the parse fails, when the value cannot be iterated, or when an
 * item it yields is not an object (a dictionary key, a character, a nested
 * list): the rewrite then raises on that item.
 */
module Normalizer {
  import opened Wrappers
  import opened Text
  import opened Records
  import opened Calendar

  const SOURCE_FOLDER := "inbound/"
  const DEST_FOLDER := "transformed/"

  // Market caps.

  const MILLION: real := 1_000_000.0
  const BILLION: real := 1_000_000_000.0
  const TRILLION: real := 1_000_000_000_000.0

  /** The number a JSON value stands for in arithmetic: ints, floats, and booleans as 0 or 1. */
  function Numeric(v: Value): Option<real>
  {
    match v
    case Int(i) => Some(i as real)
    case Real(r) => Some(r)
    case Bool(b) => Some(if b then 1.0 else 0.0)
    case _ => None
  }

  /** The divisor each unit letter stands for; no letter means the value itself. */
  function UnitScale(suffix: string): real
  {
    if suffix == "T" then TRILLION
    else if suffix == "B" then BILLION
    else if suffix == "M" then MILLION
    else 1.0
  }

  /**
   * format_market_cap: the largest unit not exceeding the value, and the value
   * divided by it. A value that is not a number (a string such as 'N/A', or
   * null) makes the comparison raise: None.
   */
  function FormatMarketCap(v: Value): (r: Option<Value>)
    ensures r.Some? <==> Numeric(v).Some?
    ensures r.Some? ==> r.value.Fixed2? && r.value.scaled * UnitScale(r.value.suffix) == Numeric(v).value
  {
    match Numeric(v)
    case None => None
    case Some(x) =>
      if x >= TRILLION then Some(Fixed2(x / TRILLION, "T"))
      else if x >= BILLION then Some(Fixed2(x / BILLION, "B"))
      else if x >= MILLION then Some(Fixed2(x / MILLION, "M"))
      else Some(Fixed2(x, ""))
  }

  /** Unit selection with inclusive lower bounds, each letter exactly on its band. */
  lemma MarketCapUnit(v: Value)
    requires Numeric(v).Some?
    ensures var x, s := Numeric(v).value, FormatMarketCap(v).value.suffix;
      && (s == "T" <==> x >= TRILLION)
      && (s == "B" <==> BILLION <= x < TRILLION)
      && (s == "M" <==> MILLION <= x < BILLION)
      && (s == "" <==> x < MILLION)
  {
  }

  /** Exactly one billion is reported as 1 B, not 1000 M. */
  lemma MarketCapBillionBoundary(v: Value)
    requires v == Int(1_000_000_000)
    ensures FormatMarketCap(v) == Some(Fixed2(1.0, "B"))
  {
  }

  // Timestamps.

  /**
   * The whole second a JSON timestamp names: ints as they are, booleans as 0
   * or 1, floats rounded down; None for other values, where the conversion raises.
   */
  function InstantOf(v: Value): (t: Option<int>)
    ensures v.Real? ==> t == Some(v.r.Floor)
    ensures v.Int? ==> t == Some(v.i)
  {
    match v
    case Int(i) => Some(i)
    case Real(r) => Some(r.Floor)
    case Bool(b) => Some(if b then 1 else 0)
    case _ => None
  }

  /** convert_unix_to_date: the UTC date of the instant, as YYYY-MM-DD text. */
  function ConvertUnixToDate(v: Value): (r: Option<Value>)
    ensures r.Some? <==> InstantOf(v).Some? && DateOfInstant(InstantOf(v).value).Some?
    ensures r.Some? ==> r.value.Str? && |r.value.s| == 10
  {
    match InstantOf(v)
    case None => None
    case Some(t) =>
      match DateOfInstant(t)
      case None => None
      case Some(d) => Some(Str(DateText(d)))
  }

  /** The text is d's exactly when the instant lies within d's UTC day. */
  lemma ConvertUnixToDateDay(v: Value, d: Date)
    requires ValidDate(d)
    ensures ConvertUnixToDate(v) == Some(Str(DateText(d))) <==>
      && InstantOf(v).Some?
      && DayStart(d) <= InstantOf(v).value < DayStart(d) + SECONDS_PER_DAY
  {
    if InstantOf(v).Some? {
      var t := InstantOf(v).value;
      DateOfInstantContains(t, d);
      if ConvertUnixToDate(v) == Some(Str(DateText(d))) {
        var e := DateOfInstant(t).value;
        DateTextOrder(e, d);
      }
    }
  }

  /** The epoch is 1970-01-01. */
  lemma ConvertEpoch(v: Value)
    requires v == Int(0)
    ensures ConvertUnixToDate(v) == Some(Str("1970-01-01"))
  {
    EpochDate(0);
    EpochText(Date(EPOCH_YEAR, 1, 1));
  }

  lemma EpochText(d: Date)
    requires d == Date(EPOCH_YEAR, 1, 1)
    ensures ValidDate(d) && DateText(d) == "1970-01-01"
  {
  }

  /** A later timestamp never yields an earlier date, compared as the stored text. */
  lemma ConvertMonotone(v1: Value, v2: Value)
    requires ConvertUnixToDate(v1).Some? && ConvertUnixToDate(v2).Some?
    requires InstantOf(v1).value <= InstantOf(v2).value
    ensures StrLe(ConvertUnixToDate(v1).value.s, ConvertUnixToDate(v2).value.s)
  {
    var t1, t2 := InstantOf(v1).value, InstantOf(v2).value;
    DateOfInstantMonotone(t1, t2);
    DateTextOrder(DateOfInstant(t1).value, DateOfInstant(t2).value);
  }

  // Record rewriting.

  /**
   * One record of transform_data: a copy with `updated` and `market_cap`
   * converted and `price_type` set. None when a field is missing (KeyError) or
   * a conversion raises.
   */
  function TransformItem(item: Record, phase: Phase): (r: Option<Record>)
    ensures r.Some? <==>
      && "updated" in item && ConvertUnixToDate(item["updated"]).Some?
      && "market_cap" in item && FormatMarketCap(item["market_cap"]).Some?
  {
    if "updated" !in item then None
    else match ConvertUnixToDate(item["updated"])
      case None => None
      case Some(u) =>
        if "market_cap" !in item then None
        else match FormatMarketCap(item["market_cap"])
          case None => None
          case Some(c) => Some(item["updated" := u]["market_cap" := c]["price_type" := Str(phase.Text())])
  }

  /**
   * A rewritten record has the input's keys plus `price_type`: the two
   * converted fields, the session, and every other field as it was.
   */
  lemma TransformItemFields(item: Record, phase: Phase)
    requires TransformItem(item, phase).Some?
    ensures var r := TransformItem(item, phase).value;
      && r.Keys == item.Keys + {"price_type"}
      && r["updated"] == ConvertUnixToDate(item["updated"]).value
      && r["market_cap"] == FormatMarketCap(item["market_cap"]).value
      && r["price_type"] == Str(phase.Text())
      && forall k | k in item && k != "updated" && k != "market_cap" && k != "price_type" :: r[k] == item[k]
  {
  }

  /** The per-record step for one session. */
  function Rewrite(phase: Phase): Record -> Option<Record>
  {
    item => TransformItem(item, phase)
  }

  /** transform_data as a whole: every record rewritten in order, or None when any one fails. */
  function TransformAll(items: seq<Record>, phase: Phase): Option<seq<Record>>
  {
    MapAll(Rewrite(phase), items)
  }

  /** transform_data: the loop that copies, rewrites and appends each record. */
  method TransformData(items: seq<Record>, phase: Phase) returns (out: Option<seq<Record>>)
    ensures out == TransformAll(items, phase)
  {
    var rewrite := Rewrite(phase);
    var acc: seq<Record> := [];
    var i := 0;
    while i < |items|
      invariant 0 <= i <= |items|
      invariant MapAll(rewrite, items[..i]) == Some(acc)
    {
      var t := rewrite(items[i]);
      MapAllSnoc(rewrite, items, i);
      if t.None? {
        return None;
      }
      acc := acc + [t.value];
      i := i + 1;
    }
    assert items[..i] == items;
    out := Some(acc);
  }

  /**
   * The batch fails exactly when some record fails; otherwise output i is
   * input i rewritten, every one tagged with the same session.
   */
  lemma TransformAllPointwise(items: seq<Record>, phase: Phase, i: int)
    requires 0 <= i < |items|
    ensures TransformAll(items, phase).None? <==> exists j | 0 <= j < |items| :: TransformItem(items[j], phase).None?
    ensures TransformAll(items, phase).Some? ==>
      |TransformAll(items, phase).value| == |items| && Some(TransformAll(items, phase).value[i]) == TransformItem(items[i], phase)
  {
    var f := Rewrite(phase);
    assert forall j | 0 <= j < |items| :: f(items[j]) == TransformItem(items[j], phase);
  }

  /** A record whose market cap the fetcher left as 'N/A' fails the whole batch. */
  lemma NotAvailableFailsBatch(items: seq<Record>, phase: Phase, i: int)
    requires 0 <= i < |items| && "market_cap" in items[i] && items[i]["market_cap"] == Str("N/A")
    ensures TransformAll(items, phase).None?
  {
    assert Rewrite(phase)(items[i]).None?;
  }

  /** Rewriting distributes over concatenation of batches. */
  lemma TransformAllAppend(a: seq<Record>, b: seq<Record>, phase: Phase)
    ensures TransformAll(a + b, phase) ==
      if TransformAll(a, phase).Some? && TransformAll(b, phase).Some?
      then Some(TransformAll(a, phase).value + TransformAll(b, phase).value)
      else None
  {
    MapAllAppend(Rewrite(phase), a, b);
  }

  // Routing.

  /** The session named in a key: "opening" is looked for first, then "closing", ignoring ASCII case. */
  function PriceTypeOf(key: string): (p: Phase)
    ensures p == Opening <==> Contains(ToLower(key), "opening")
    ensures p == Closing <==> !Contains(ToLower(key), "opening") && Contains(ToLower(key), "closing")
  {
    var lower := ToLower(key);
    if Contains(lower, "opening") then Opening
    else if Contains(lower, "closing") then Closing
    else Unknown
  }

  /** Lower-casing the key first changes nothing: detection already ignores case. */
  lemma PriceTypeIgnoresCase(key: string)
    ensures PriceTypeOf(ToLower(key)) == PriceTypeOf(key)
  {
    assert ToLower(ToLower(key)) == ToLower(key);
  }

  /** The key of the rewritten batch: every "inbound/" replaced by "transformed/", so none is left. */
  function DestinationKey(key: string): (r: string)
    ensures !Contains(r, SOURCE_FOLDER)
  {
    ReplaceAllRemovesAll(key, SOURCE_FOLDER, DEST_FOLDER);
    ReplaceAll(key, SOURCE_FOLDER, DEST_FOLDER)
  }

  /** A key in the source folder lands in the destination folder, the rest rewritten likewise. */
  lemma DestinationKeyFolder(key: string)
    requires StartsWith(key, SOURCE_FOLDER)
    ensures DestinationKey(key) == DEST_FOLDER + DestinationKey(key[|SOURCE_FOLDER|..])
    ensures StartsWith(DestinationKey(key), DEST_FOLDER)
  {
  }

  /** When "inbound/" occurs only as the folder, the name after it is kept as it is. */
  lemma DestinationKeyKeepsName(key: string)
    requires StartsWith(key, SOURCE_FOLDER) && !Contains(key[|SOURCE_FOLDER|..], SOURCE_FOLDER)
    ensures DestinationKey(key) == DEST_FOLDER + key[|SOURCE_FOLDER|..]
  {
    DestinationKeyFolder(key);
    ReplaceAllAbsent(key[|SOURCE_FOLDER|..], SOURCE_FOLDER, DEST_FOLDER);
  }

  // The handler.

  /** One entry of the notification: the bucket name and object key, each possibly absent. */
  datatype ObjectRef = ObjectRef(bucket: Option<string>, key: Option<string>)

  /** The triggering event; `records` is None when the event lacks "Records". */
  datatype Event = Event(records: Option<seq<ObjectRef>>)

  /** The handler's result: a file outside the folder is ignored, a batch written, or a failure. */
  datatype Outcome = Ignored(key: string) | Written(batch: StoredObject) | Failure
  {
    function Status(): int
    {
      if Failure? then 500 else 200
    }
  }

  /** A bucket name or key that Python treats as missing: absent or empty. */
  predicate Blank(s: Option<string>)
  {
    s.None? || s.value == ""
  }

  /** lambda_handler: validate the event, route on the folder, rewrite the batch, write it. */
  function NormalizeHandler(event: Event, body: Option<seq<Record>>, putOk: bool): Outcome
  {
    if event.records.None? || event.records.value == [] then Failure
    else
      var first := event.records.value[0];
      if Blank(first.bucket) || Blank(first.key) then Failure
      else
        var key := first.key.value;
        if !StartsWith(key, SOURCE_FOLDER) then Ignored(key)
        else if body.None? then Failure
        else match TransformAll(body.value, PriceTypeOf(key))
          case None => Failure
          case Some(out) => if putOk then Written(StoredObject(DestinationKey(key), out)) else Failure
  }

  /**
   * Status 500 exactly when the event lacks its first record's bucket or key,
   * or when a key in the folder cannot be read, rewritten or written. A key
   * outside the folder is answered 200 and nothing is written.
   */
  lemma NormalizeHandlerStatus(event: Event, body: Option<seq<Record>>, putOk: bool)
    ensures var o := NormalizeHandler(event, body, putOk);
      var valid := event.records.Some? && event.records.value != []
                   && !Blank(event.records.value[0].bucket) && !Blank(event.records.value[0].key);
      && (o.Status() == 500 <==>
            !valid
            || (StartsWith(event.records.value[0].key.value, SOURCE_FOLDER)
                && (body.None? || TransformAll(body.value, PriceTypeOf(event.records.value[0].key.value)).None? || !putOk)))
      && (o.Ignored? <==> valid && !StartsWith(event.records.value[0].key.value, SOURCE_FOLDER))
  {
  }

  /** What is written: the batch rewritten with the key's session, under the rewritten key in "transformed/". */
  lemma NormalizeHandlerWrites(event: Event, body: Option<seq<Record>>, putOk: bool)
    requires NormalizeHandler(event, body, putOk).Written?
    ensures var batch := NormalizeHandler(event, body, putOk).batch;
      var key := event.records.value[0].key.value;
      && StartsWith(key, SOURCE_FOLDER) && body.Some?
      && Some(batch.records) == TransformAll(body.value, PriceTypeOf(key))
      && batch.key == DestinationKey(key) && StartsWith(batch.key, DEST_FOLDER)
  {
    DestinationKeyFolder(event.records.value[0].key.value);
  }

  /** An object that iterates to nothing is written back as an empty batch, with status 200. */
  lemma NormalizeEmptyBatch(event: Event, putOk: bool)
    requires event.records.Some? && event.records.value != []
    requires !Blank(event.records.value[0].bucket) && !Blank(event.records.value[0].key)
    requires StartsWith(event.records.value[0].key.value, SOURCE_FOLDER) && putOk
    ensures NormalizeHandler(event, Some([]), putOk)
      == Written(StoredObject(DestinationKey(event.records.value[0].key.value), []))
  {
    assert TransformAll([], PriceTypeOf(event.records.value[0].key.value)) == Some([]);
  }
}
