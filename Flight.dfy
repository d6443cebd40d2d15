/** The value records of models/Flight.py and the logic on them: the cheapest
    alternative of a route, the output file name, and building itineraries
    from decoded JSON records. */
module Flight {
  import opened Wrappers
  import opened Text
  import opened Calendar
  import opened PyFormat

  /** A requested search. The dates are texts as given, or `None`: an
      itinerary built from a price-calendar row copies that row's dates, and a
      row whose date could not be parsed carries `None`. */
  datatype Itinerario = Itinerario(
    origin: string,
    destination: string,
    departureDate: Option<string>,
    returnDate: Option<string>)

  /** One bookable flight card: time range, carrier, stops text, price, source link. */
  datatype FlightOption = FlightOption(departure: string, carrier: string, escalas: string, price: int, link: string)

  /** One cell of the price calendar: a departure date, a return date, a price. */
  datatype FlightAlternative = FlightAlternative(departureDate: Option<string>, returnDate: Option<string>, price: int)

  /** An itinerary with the options and the alternatives scraped for it. */
  datatype FlightRoute = FlightRoute(itinerario: Itinerario, options: seq<FlightOption>, alternatives: seq<FlightAlternative>)

  /** `str(v)` for a text or `None`. */
  function PyStr(v: Option<string>): string {
    match v
    case None => "None"
    case Some(s) => s
  }

  /** Python truthiness of a text or `None`: present and non-empty. */
  predicate Truthy(v: Option<string>) {
    v.Some? && v.value != ""
  }

  /** `FlightRoute(itinerario)`: the list fields default to empty lists. */
  function NewRoute(iti: Itinerario): (route: FlightRoute)
    ensures route.itinerario == iti
    ensures route.options == [] && route.alternatives == []
  {
    FlightRoute(iti, [], [])
  }

  // ---------------------------------------------------------------------------
  // min(alternatives, key=lambda x: x.price)

  /** The index `min` settles on: it scans left to right and replaces its
      candidate only by a strictly cheaper one, so the first cheapest wins. */
  function BestIndex(alts: seq<FlightAlternative>): (k: nat)
    requires |alts| > 0
    ensures k < |alts|
    ensures forall j :: 0 <= j < |alts| ==> alts[k].price <= alts[j].price
    ensures forall j :: 0 <= j < k ==> alts[j].price > alts[k].price
  {
    if |alts| == 1 then 0
    else
      var k := BestIndex(alts[..|alts| - 1]);
      if alts[|alts| - 1].price < alts[k].price then |alts| - 1 else k
  }

  /** The two properties of `BestIndex` single out one index. */
  lemma BestIndexUnique(alts: seq<FlightAlternative>, k: nat)
    requires k < |alts|
    requires forall j :: 0 <= j < |alts| ==> alts[k].price <= alts[j].price
    requires forall j :: 0 <= j < k ==> alts[j].price > alts[k].price
    ensures BestIndex(alts) == k
  {
  }

  /** `route.get_best_alterantive()`: the first alternative of least price;
      `min` of an empty list raises ValueError. */
  function GetBestAlternative(route: FlightRoute): (r: Result<FlightAlternative>)
    ensures r.Failure? <==> route.alternatives == []
    ensures r.Failure? ==> r.error == ValueError
    ensures r.Success? ==> forall j :: 0 <= j < |route.alternatives| ==> r.value.price <= route.alternatives[j].price
    ensures r.Success? ==> exists k :: 0 <= k < |route.alternatives| && route.alternatives[k] == r.value
                                     && forall j :: 0 <= j < k ==> route.alternatives[j].price > r.value.price
  {
    if route.alternatives == [] then Failure(ValueError)
    else Success(route.alternatives[BestIndex(route.alternatives)])
  }

  // ---------------------------------------------------------------------------
  // Itinerario.file_name

  /** `f"{now.month}-{now.day}_{origin}_{destination}_{departure_date}_{return_date}.json"`. */
  function FileName(iti: Itinerario, now: Now): (name: string)
    requires now.Valid()
    ensures ShowNat(now.month) + "-" + ShowNat(now.day) + "_" <= name
    ensures EndsWith(name, "_" + PyStr(iti.returnDate) + ".json")
  {
    var head := ShowNat(now.month) + "-" + ShowNat(now.day) + "_" + iti.origin + "_" + iti.destination
      + "_" + PyStr(iti.departureDate);
    var name := head + "_" + PyStr(iti.returnDate) + ".json";
    assert name == head + ("_" + PyStr(iti.returnDate) + ".json");
    EndsWithAppend(head, "_" + PyStr(iti.returnDate) + ".json");
    name
  }

  /** An itinerary without a return date is saved under a name that ends
      in `_None.json`. */
  lemma FileNameWithoutReturn(iti: Itinerario, now: Now)
    requires now.Valid() && iti.returnDate.None?
    ensures EndsWith(FileName(iti, now), "_None.json")
  {
    assert "_" + PyStr(iti.returnDate) + ".json" == "_None.json";
  }

  /** The shape of the `file_name` f-string, over any six field names. */
  function FileNameShape(n: seq<string>): string
    requires |n| == 6
  {
    Field(n[0]) + "-" + Field(n[1]) + "_" + Field(n[2]) + "_" + Field(n[3]) + "_"
    + Field(n[4]) + "_" + Field(n[5]) + ".json"
  }

  /** The f-string of `file_name` read as a `str.format` template. */
  const FileNameFields: seq<string> :=
    ["month", "day", "origin", "destination", "departure_date", "return_date"]
  const FileNameTemplate: string := FileNameShape(FileNameFields)

  /** Formatting the shape replaces each field by its argument. */
  lemma FormatFileNameShape(n: seq<string>, args: map<string, string>)
    requires |n| == 6
    requires forall i :: 0 <= i < 6 ==> FieldName(n[i]) && n[i] in args
    ensures Format(FileNameShape(n), args) == Success(
      args[n[0]] + "-" + args[n[1]] + "_" + args[n[2]] + "_" + args[n[3]] + "_"
      + args[n[4]] + "_" + args[n[5]] + ".json")
  {
    assert NoBraces("-") && NoBraces("_") && NoBraces(".json");
    FormatPlain("-", args);
    FormatPlain("_", args);
    FormatPlain(".json", args);
    var p := Field(n[0]);
    FormatOneField(n[0], args);
    FormatConcat(p, "-", args);
    p := p + "-";
    FormatOneField(n[1], args);
    FormatConcat(p, Field(n[1]), args);
    p := p + Field(n[1]);
    FormatConcat(p, "_", args);
    p := p + "_";
    FormatOneField(n[2], args);
    FormatConcat(p, Field(n[2]), args);
    p := p + Field(n[2]);
    FormatConcat(p, "_", args);
    p := p + "_";
    FormatOneField(n[3], args);
    FormatConcat(p, Field(n[3]), args);
    p := p + Field(n[3]);
    FormatConcat(p, "_", args);
    p := p + "_";
    FormatOneField(n[4], args);
    FormatConcat(p, Field(n[4]), args);
    p := p + Field(n[4]);
    FormatConcat(p, "_", args);
    p := p + "_";
    FormatOneField(n[5], args);
    FormatConcat(p, Field(n[5]), args);
    p := p + Field(n[5]);
    FormatConcat(p, ".json", args);
  }

  /** The values the f-string interpolates, each as `str` renders it. */
  function FileNameArgs(iti: Itinerario, now: Now): map<string, string>
    requires now.Valid()
  {
    map["month" := ShowNat(now.month), "day" := ShowNat(now.day),
        "origin" := iti.origin, "destination" := iti.destination,
        "departure_date" := PyStr(iti.departureDate), "return_date" := PyStr(iti.returnDate)]
  }

  /** The six field names are plain field names. */
  lemma FileNameFieldsAreNames()
    ensures forall i :: 0 <= i < 6 ==> FieldName(FileNameFields[i])
  {
    var n := FileNameFields;
    assert !IsDigit(n[0][0]) && !IsDigit(n[1][0]) && !IsDigit(n[2][0]);
    assert !IsDigit(n[3][0]) && !IsDigit(n[4][0]) && !IsDigit(n[5][0]);
    assert forall i :: 0 <= i < 6 ==> NoBraces(n[i]);
  }

  /** Each field name looks up its own value. */
  lemma FileNameArgsLookup(iti: Itinerario, now: Now)
    requires now.Valid()
    ensures forall i :: 0 <= i < 6 ==> FileNameFields[i] in FileNameArgs(iti, now)
    ensures var args, n := FileNameArgs(iti, now), FileNameFields;
      args[n[0]] == ShowNat(now.month) && args[n[1]] == ShowNat(now.day) &&
      args[n[2]] == iti.origin && args[n[3]] == iti.destination &&
      args[n[4]] == PyStr(iti.departureDate) && args[n[5]] == PyStr(iti.returnDate)
  {
    var n := FileNameFields;
    assert n[5][0] != n[3][0];
  }

  /** The file name is the template with each field replaced by `str` of its
      value: month and day unpadded, a missing date as `None`. */
  lemma FileNameIsTemplate(iti: Itinerario, now: Now)
    requires now.Valid()
    ensures Format(FileNameTemplate, FileNameArgs(iti, now)) == Success(FileName(iti, now))
  {
    FileNameFieldsAreNames();
    FileNameArgsLookup(iti, now);
    FormatFileNameShape(FileNameFields, FileNameArgs(iti, now));
  }

  /** The leading stamp reads back as the month and the day. */
  lemma FileNameStamp(now: Now)
    requires now.Valid()
    ensures DecimalValue(ShowNat(now.month)) == now.month
    ensures DecimalValue(ShowNat(now.day)) == now.day
    ensures (now.month < 10 <==> |ShowNat(now.month)| == 1) && (now.day < 10 <==> |ShowNat(now.day)| == 1)
  {
    ValueOfShow(now.month);
    ValueOfShow(now.day);
    ValueBelow(ShowNat(now.month));
    ValueBelow(ShowNat(now.day));
    if |ShowNat(now.month)| > 1 { ValuePositive(ShowNat(now.month)); }
    if |ShowNat(now.day)| > 1 { ValuePositive(ShowNat(now.day)); }
    if now.month < 10 { ShowLength(now.month, 1); }
    if now.day < 10 { ShowLength(now.day, 1); }
  }

  // ---------------------------------------------------------------------------
  // load_itinerarios_from_json, after the file is decoded

  const ItinerarioFields: set<string> := {"origin", "destination", "departure_date", "return_date"}
  const RequiredFields: set<string> := {"origin", "destination", "departure_date"}

  /** `Itinerario(**record)`: an unknown keyword or a missing required one
      raises TypeError; otherwise each field takes the value of its key, and
      `return_date` defaults to `None`. */
  function ItinerarioFromRecord(record: map<string, string>): (r: Result<Itinerario>)
    ensures r.Failure? <==> !(record.Keys <= ItinerarioFields) || !(RequiredFields <= record.Keys)
    ensures r.Failure? ==> r.error == TypeError
    ensures r.Success? ==> r.value.departureDate.Some? && AsRecord(r.value) == record
    ensures r.Success? ==> (r.value.returnDate.None? <==> "return_date" !in record)
  {
    if !(record.Keys <= ItinerarioFields) || !(RequiredFields <= record.Keys) then Failure(TypeError)
    else Success(Itinerario(
      record["origin"], record["destination"], Some(record["departure_date"]),
      if "return_date" in record then Some(record["return_date"]) else None))
  }

  /** A JSON record that builds this itinerary: its four fields under their
      own keys, with the `return_date` key left out when there is no return
      date, so that the constructor's default supplies `None`. */
  function AsRecord(iti: Itinerario): map<string, string>
    requires iti.departureDate.Some?
  {
    var base := map["origin" := iti.origin, "destination" := iti.destination, "departure_date" := iti.departureDate.value];
    if iti.returnDate.Some? then base["return_date" := iti.returnDate.value] else base
  }

  /** Building an itinerary from its own record gives it back. */
  lemma RecordRoundTrip(iti: Itinerario)
    requires iti.departureDate.Some?
    ensures ItinerarioFromRecord(AsRecord(iti)) == Success(iti)
  {
  }

  /** `[Itinerario(**r) for r in records]`: one itinerary per record, in order;
      the first record that raises makes the whole load raise. */
  function LoadItinerarios(records: seq<map<string, string>>): (r: Result<seq<Itinerario>>)
    ensures r.Success? <==> forall i :: 0 <= i < |records| ==> ItinerarioFromRecord(records[i]).Success?
    ensures r.Success? ==> |r.value| == |records|
    ensures r.Success? ==> forall i :: 0 <= i < |records| ==> ItinerarioFromRecord(records[i]) == Success(r.value[i])
    ensures r.Failure? ==> r.error == TypeError
  {
    if records == [] then Success([])
    else match ItinerarioFromRecord(records[0])
      case Failure(e) => Failure(e)
      case Success(iti) =>
        match LoadItinerarios(records[1..])
        case Failure(e) => Failure(e)
        case Success(rest) => Success([iti] + rest)
  }
}
