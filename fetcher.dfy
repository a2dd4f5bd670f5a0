/**
 * The ingest stage: for a fixed list of tickers it asks a quote service for a
 * price and a market cap, assembles one record per ticker, and uploads the
 * list under a name built from the current instant, shifted to US Eastern
 * standard time (a fixed five hours, no daylight saving).
 *
 * The HTTP service is a pair of parameters: `prices(t)` and `caps(t)` are the
 * replies the two requests for ticker t receive.
 */
module Fetcher {
  import opened Wrappers
  import opened Text
  import opened Records
  import opened Calendar

  const FOLDER := "inbound/"

  /** The tickers queried, in request order. */
  const SYMBOLS: seq<string> := [
    "AAPL", "NVDA", "MSFT", "AMZN", "GOOGL", "META", "TSLA", "AVGO", "ADBE", "NFLX",
    "IBM", "ORCL", "CRM", "ACN", "SAP", "TSM", "TXN", "QCOM", "SONY", "BABA"]

  /** The fixed shift from UTC to the batch clock: five hours. */
  const EASTERN_SHIFT := 5 * 3600

  // Batch names.

  /** The hour of the (UTC-style) day holding instant t. */
  function HourOf(t: int): (h: int)
    ensures 0 <= h < 24
  {
    (t % SECONDS_PER_DAY) / 3600
  }

  /** The session a batch taken at `now` belongs to: opening before noon on the shifted clock. */
  function SlotOf(now: int): Phase
  {
    if HourOf(now - EASTERN_SHIFT) < 12 then Opening else Closing
  }

  /** The slot rule in seconds: opening exactly in the first half of the shifted day. */
  lemma SlotRule(now: int)
    ensures SlotOf(now) == Opening <==> (now - EASTERN_SHIFT) % SECONDS_PER_DAY < 43200
    ensures SlotOf(now) != Unknown
  {
  }

  /**
   * get_file_name(): "inbound/" + date + "_" + DAY + "_" + slot + ".json" for
   * the civil date of the shifted instant; None where that date is outside
   * years 1..9999 and the subtraction would raise.
   */
  function FileName(now: int): (r: Option<string>)
    ensures r.Some? <==> DateOfInstant(now - EASTERN_SHIFT).Some?
  {
    match DateOfInstant(now - EASTERN_SHIFT)
    case None => None
    case Some(d) => Some(FOLDER + BatchStem(d, SlotOf(now)) + ".json")
  }

  /** The part of a batch name between the folder and the extension. */
  function BatchStem(d: Date, slot: Phase): (s: string)
    requires ValidDate(d)
    ensures |s| == 15 + |slot.Text()|
  {
    DateText(d) + "_" + DAY_NAMES[Weekday(d)] + "_" + slot.Text()
  }

  /** The weekday abbreviations are upper-case letters, none of them 'P'. */
  lemma DayNameChars(k: int, c: char)
    requires 0 <= k < 7 && c in DAY_NAMES[k]
    ensures 'A' <= c <= 'Z' && c != 'P'
  {
  }

  /** The slot words are lower-case letters; only "opening" holds a 'p'. */
  lemma PhaseTextChars(slot: Phase, c: char)
    requires c in slot.Text()
    ensures 'a' <= c <= 'z'
    ensures slot != Opening ==> c != 'p'
  {
  }

  /** A batch stem holds no '/', no '.', no 'P', and no 'p' unless its slot is opening. */
  lemma BatchStemChars(d: Date, slot: Phase)
    requires ValidDate(d)
    ensures '/' !in BatchStem(d, slot) && '.' !in BatchStem(d, slot) && 'P' !in BatchStem(d, slot)
    ensures slot != Opening ==> 'p' !in BatchStem(d, slot)
  {
    var date := DateText(d);
    var day := DAY_NAMES[Weekday(d)];
    var word := slot.Text();
    var s := BatchStem(d, slot);
    assert s == date + "_" + day + "_" + word;
    forall i | 0 <= i < |s|
      ensures s[i] != '/' && s[i] != '.' && s[i] != 'P' && (slot != Opening ==> s[i] != 'p')
    {
      if i < 10 {
        assert s[i] == date[i];
        DateTextChars(d, date[i]);
      } else if 11 <= i < 14 {
        assert s[i] == day[i - 11];
        DayNameChars(Weekday(d), day[i - 11]);
      } else if 15 <= i {
        assert s[i] == word[i - 15];
        PhaseTextChars(slot, word[i - 15]);
      }
    }
  }

  /** The stem's fields sit at fixed positions. */
  lemma BatchStemFields(d: Date, slot: Phase)
    requires ValidDate(d)
    ensures var s := BatchStem(d, slot);
      && s[..10] == DateText(d) && s[10] == '_' && s[11..14] == DAY_NAMES[Weekday(d)]
      && s[14] == '_' && s[15..] == slot.Text()
  {
    var s := BatchStem(d, slot);
    assert s == DateText(d) + "_" + DAY_NAMES[Weekday(d)] + "_" + slot.Text();
  }

  /**
   * Every batch name has the documented shape: the folder, the shifted date,
   * the upper-case day, the slot, ".json", and no '/' after the folder.
   */
  lemma FileNameShape(now: int)
    requires FileName(now).Some?
    ensures var name := FileName(now).value;
      var d := DateOfInstant(now - EASTERN_SHIFT).value;
      && StartsWith(name, FOLDER) && EndsWith(name, ".json")
      && name[|FOLDER|..|FOLDER| + 10] == DateText(d)
      && name[|FOLDER| + 10] == '_' && name[|FOLDER| + 11..|FOLDER| + 14] == DAY_NAMES[Weekday(d)]
      && name[|FOLDER| + 14] == '_'
      && '/' !in name[|FOLDER|..]
  {
    var d := DateOfInstant(now - EASTERN_SHIFT).value;
    var stem := BatchStem(d, SlotOf(now));
    var name := FileName(now).value;
    BatchStemChars(d, SlotOf(now));
    BatchStemFields(d, SlotOf(now));
    Framed(FOLDER, stem, ".json");
  }

  /** Slicing a three-part concatenation. */
  lemma Framed(a: string, b: string, c: string)
    ensures var s := a + b + c;
      && s[..|a|] == a && s[|a|..] == b + c && s[|a| + |b|..] == c
      && (forall i, j | 0 <= i <= j <= |b| :: s[|a| + i..|a| + j] == b[i..j])
      && (forall i | 0 <= i < |b| :: s[|a| + i] == b[i])
  {
    var s := a + b + c;
    forall i, j | 0 <= i <= j <= |b|
      ensures s[|a| + i..|a| + j] == b[i..j]
    {
      assert s[|a|..|a| + |b|] == b;
    }
  }

  /** Worked example: 2024-03-05 03:00 UTC is 22:00 on Monday 2024-03-04 on the batch clock. */
  lemma FileNameExample(now: int, d: Date)
    requires now == 1709607600 && d == Date(2024, 3, 4)
    ensures DateOfInstant(now - EASTERN_SHIFT) == Some(d)
    ensures FileName(now) == Some("inbound/2024-03-04_MON_closing.json")
  {
    MondayMarch4(d);
    DateOfInstantContains(now - EASTERN_SHIFT, d);
    assert SlotOf(now) == Closing;
    DateTextExample(d);
    assert DAY_NAMES[Weekday(d)] == "MON";
    assert FileName(now) == Some(FOLDER + BatchStem(d, Closing) + ".json");
    assert BatchStem(d, Closing) == "2024-03-04" + "_" + "MON" + "_" + "closing";
    ExampleNameParts();
  }

  lemma ExampleNameParts()
    ensures FOLDER + ("2024-03-04" + "_" + "MON" + "_" + "closing") + ".json" == "inbound/2024-03-04_MON_closing.json"
  {
  }

  lemma DateTextExample(d: Date)
    requires d == Date(2024, 3, 4)
    ensures DateText(d) == "2024-03-04"
  {
  }

  // Replies and record assembly.

  /** A JSON document: an object, or any other value, known only by its truthiness. */
  datatype Payload = Object(fields: Record) | Other(truthy: bool)

  /** The fate of one HTTP request: it raised, or it got a status and a body (None: not JSON). */
  datatype Reply = Raised | Answered(status: int, body: Option<Payload>)

  /** What `r.json() if r.status_code == 200 else None` yields, or Failed when it raises. */
  datatype Decoded = Failed | Data(value: Option<Payload>)

  function Decode(r: Reply): (d: Decoded)
    ensures d.Data? && d.value.Some? <==> r.Answered? && r.status == 200 && r.body.Some?
    ensures d.Failed? <==> r.Raised? || (r.status == 200 && r.body.None?)
    ensures r.Answered? && r.status == 200 && r.body.Some? ==> d == Data(r.body)
    ensures r.Answered? && r.status != 200 ==> d == Data(None)
  {
    match r
    case Raised => Failed
    case Answered(status, body) =>
      if status != 200 then Data(None)
      else if body.None? then Failed
      else Data(body)
  }

  /** Python truthiness of a decoded body: None and empty objects are false. */
  predicate Truthy(p: Option<Payload>)
  {
    match p
    case None => false
    case Some(Object(fields)) => |fields| > 0
    case Some(Other(t)) => t
  }

  /**
   * The value stored under "market_cap": the cap body's own field, or 'N/A'
   * when the body is falsy or lacks the field; None when the body is a truthy
   * non-object, whose `.get` raises.
   */
  function MarketCapOf(cap: Option<Payload>): (v: Option<Value>)
    ensures v.None? <==> Truthy(cap) && cap.value.Other?
    ensures !Truthy(cap) ==> v == Some(Str("N/A"))
    ensures Truthy(cap) && cap.value.Object? ==>
              v == Some(if "market_cap" in cap.value.fields then cap.value.fields["market_cap"] else Str("N/A"))
  {
    if !Truthy(cap) then Some(Str("N/A"))
    else match cap.value
      case Object(fields) => Some(if "market_cap" in fields then fields["market_cap"] else Str("N/A"))
      case Other(_) => None
  }

  /**
   * One pass of the ticker loop: the price object with "market_cap" set, or
   * None when the ticker is skipped (a request or decode raised, the price
   * body is falsy, or a body has the wrong shape).
   */
  function SymbolRecord(price: Reply, cap: Reply): (r: Option<Record>)
    ensures r.Some? <==>
      && price.Answered? && price.status == 200 && price.body.Some?
      && price.body.value.Object? && |price.body.value.fields| > 0
      && !Decode(cap).Failed? && MarketCapOf(Decode(cap).value).Some?
    ensures r.Some? ==>
      && r.value == price.body.value.fields["market_cap" := MarketCapOf(Decode(cap).value).value]
      && r.value.Keys == price.body.value.fields.Keys + {"market_cap"}
  {
    match Decode(price)
    case Failed => None
    case Data(p) =>
      match Decode(cap)
      case Failed => None
      case Data(c) =>
        if !Truthy(p) then None
        else match p.value
          case Other(_) => None
          case Object(fields) =>
            match MarketCapOf(c)
            case None => None
            case Some(v) => Some(fields["market_cap" := v])
  }

  /** The records the loop collects over `symbols`, in order, skipped tickers left out. */
  function Assembled(symbols: seq<string>, prices: string -> Reply, caps: string -> Reply): seq<Record>
  {
    if symbols == [] then []
    else
      var last := symbols[|symbols| - 1];
      var rest := Assembled(symbols[..|symbols| - 1], prices, caps);
      match SymbolRecord(prices(last), caps(last))
      case None => rest
      case Some(r) => rest + [r]
  }

  /** fetch_stock_data: query every ticker in order and keep the records that assemble. */
  method FetchStockData(prices: string -> Reply, caps: string -> Reply) returns (data: seq<Record>)
    ensures data == Assembled(SYMBOLS, prices, caps)
  {
    data := [];
    var i := 0;
    while i < |SYMBOLS|
      invariant 0 <= i <= |SYMBOLS|
      invariant data == Assembled(SYMBOLS[..i], prices, caps)
    {
      var symbol := SYMBOLS[i];
      var r := SymbolRecord(prices(symbol), caps(symbol));
      AssembledStep(SYMBOLS, i, prices, caps);
      if r.Some? {
        data := data + [r.value];
      }
      i := i + 1;
    }
    assert SYMBOLS[..|SYMBOLS|] == SYMBOLS;
  }

  /** One more ticker adds its record, if it yields one, at the end. */
  lemma AssembledStep(s: seq<string>, i: int, prices: string -> Reply, caps: string -> Reply)
    requires 0 <= i < |s|
    ensures SymbolRecord(prices(s[i]), caps(s[i])).None? ==>
      Assembled(s[..i + 1], prices, caps) == Assembled(s[..i], prices, caps)
    ensures SymbolRecord(prices(s[i]), caps(s[i])).Some? ==>
      Assembled(s[..i + 1], prices, caps) == Assembled(s[..i], prices, caps) + [SymbolRecord(prices(s[i]), caps(s[i])).value]
  {
    assert s[..i + 1][..i] == s[..i];
  }

  /** Assembly distributes over concatenation: records come out in ticker order. */
  lemma {:induction false} AssembledAppend(s: seq<string>, t: seq<string>, prices: string -> Reply, caps: string -> Reply)
    ensures Assembled(s + t, prices, caps) == Assembled(s, prices, caps) + Assembled(t, prices, caps)
    decreases |t|
  {
    if t == [] {
      assert s + t == s;
    } else {
      var t' := t[..|t| - 1];
      assert (s + t)[..|s + t| - 1] == s + t';
      AssembledAppend(s, t', prices, caps);
    }
  }

  /** A record is assembled exactly when some ticker's replies yield it; at most one per ticker. */
  lemma {:induction false} AssembledMembers(s: seq<string>, prices: string -> Reply, caps: string -> Reply, rec: Record)
    ensures rec in Assembled(s, prices, caps) <==>
              exists i :: 0 <= i < |s| && SymbolRecord(prices(s[i]), caps(s[i])) == Some(rec)
    ensures |Assembled(s, prices, caps)| <= |s|
    decreases |s|
  {
    if s != [] {
      var init := s[..|s| - 1];
      AssembledMembers(init, prices, caps, rec);
      if rec in Assembled(s, prices, caps) && rec !in Assembled(init, prices, caps) {
        assert SymbolRecord(prices(s[|s| - 1]), caps(s[|s| - 1])) == Some(rec);
      }
      if exists i :: 0 <= i < |s| && SymbolRecord(prices(s[i]), caps(s[i])) == Some(rec) {
        var i :| 0 <= i < |s| && SymbolRecord(prices(s[i]), caps(s[i])) == Some(rec);
        if i < |s| - 1 {
          assert init[i] == s[i];
        }
      }
    }
  }

  /** Every assembled record carries a "market_cap" field. */
  lemma {:induction false} AssembledHaveMarketCap(s: seq<string>, prices: string -> Reply, caps: string -> Reply)
    ensures forall r | r in Assembled(s, prices, caps) :: "market_cap" in r
    decreases |s|
  {
    if s != [] {
      AssembledHaveMarketCap(s[..|s| - 1], prices, caps);
    }
  }

  /** No ticker with a 200 price object means nothing to upload. */
  lemma {:induction false} AssembledEmpty(s: seq<string>, prices: string -> Reply, caps: string -> Reply)
    requires forall i | 0 <= i < |s| :: !(prices(s[i]).Answered? && prices(s[i]).status == 200)
    ensures Assembled(s, prices, caps) == []
    decreases |s|
  {
    if s != [] {
      assert forall i | 0 <= i < |s| - 1 :: s[..|s| - 1][i] == s[i];
      AssembledEmpty(s[..|s| - 1], prices, caps);
    }
  }

  // The handler.

  /** The handler's result: the uploaded batch (status 200) or a failure (status 500). */
  datatype Outcome = Uploaded(batch: StoredObject) | Failure
  {
    function Status(): int
    {
      if Uploaded? then 200 else 500
    }
  }

  /**
   * lambda_handler: the API key must be present and non-empty, at least one
   * record must assemble, the name must be computable, and the put must
   * succeed (`putOk`); any other path returns status 500.
   */
  function FetchHandler(apiKey: Option<string>, prices: string -> Reply, caps: string -> Reply,
                        now: int, putOk: bool): (o: Outcome)
    ensures o.Uploaded? ==> o.batch.records == Assembled(SYMBOLS, prices, caps) && Some(o.batch.key) == FileName(now)
  {
    if apiKey.None? || apiKey.value == "" then Failure
    else
      var data := Assembled(SYMBOLS, prices, caps);
      if data == [] then Failure
      else match FileName(now)
        case None => Failure
        case Some(name) => if putOk then Uploaded(StoredObject(name, data)) else Failure
  }

  /** Status 200 exactly when every step succeeds; the uploaded list is never empty. */
  lemma FetchHandlerStatus(apiKey: Option<string>, prices: string -> Reply, caps: string -> Reply, now: int, putOk: bool)
    ensures var o := FetchHandler(apiKey, prices, caps, now, putOk);
      && (o.Status() == 200 <==>
            apiKey.Some? && apiKey.value != "" && Assembled(SYMBOLS, prices, caps) != []
            && FileName(now).Some? && putOk)
      && (o.Uploaded? ==>
            |o.batch.records| >= 1 && StartsWith(o.batch.key, FOLDER) && EndsWith(o.batch.key, ".json"))
  {
    var o := FetchHandler(apiKey, prices, caps, now, putOk);
    if o.Uploaded? {
      FileNameShape(now);
    }
  }
}
