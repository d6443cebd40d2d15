/** `__parse_tabla_precios` of flight_scraper.py: the price calendar's cells
    are sorted into date texts and prices, the first `DAYS` dates are the
    departure column and the rest the return rows, and price `i` is paired
    with departure `i % DAYS` and return `i / DAYS`. */
module PriceTable {
  import opened Wrappers
  import opened Calendar
  import opened Params
  import opened Flight
  import opened FlightScraper

  /** The date texts among the cells' texts, in order (`fechas`). */
  function Dates(cells: seq<string>): (ds: seq<string>)
    ensures |ds| <= |cells|
  {
    if cells == [] then []
    else
      var rest := Dates(cells[..|cells| - 1]);
      match Classify(cells[|cells| - 1])
      case DateCell(t) => rest + [t]
      case _ => rest
  }

  /** The prices among the cells' texts, in order (`prices`). */
  function Prices(cells: seq<string>): (ps: seq<nat>)
    ensures |ps| <= |cells|
  {
    if cells == [] then []
    else
      var rest := Prices(cells[..|cells| - 1]);
      match Classify(cells[|cells| - 1])
      case PriceCell(p) => rest + [p]
      case _ => rest
  }

  /** Cells that are all date texts are all recorded as dates, in order, and
      none as a price. */
  lemma {:induction false} DateCellsAreRecorded(cells: seq<string>)
    requires AllDateTexts(cells)
    ensures Dates(cells) == cells && Prices(cells) == []
  {
    if cells != [] {
      var init, last := cells[..|cells| - 1], cells[|cells| - 1];
      assert AllDateTexts(init) by {
        assert forall i :: 0 <= i < |init| ==> init[i] == cells[i];
      }
      DateCellsAreRecorded(init);
      DateTextIsRecorded(last);
      LastSplit(cells);
    }
  }

  /** A non-empty sequence is its prefix followed by its last element. */
  lemma LastSplit<T>(xs: seq<T>)
    requires xs != []
    ensures xs[..|xs| - 1] + [xs[|xs| - 1]] == xs
  {
  }

  /** Every recorded date is a text one of the two date patterns matched. */
  lemma {:induction false} DatesAreDateTexts(cells: seq<string>)
    ensures AllDateTexts(Dates(cells))
  {
    if cells != [] {
      DatesAreDateTexts(cells[..|cells| - 1]);
    }
  }

  predicate AllDateTexts(ts: seq<string>) {
    forall i :: 0 <= i < |ts| ==> IsDateText(ts[i])
  }

  /** Where `fechas[:DAYS]` and `fechas[DAYS:]` cut the dates. */
  function Cut(fechas: seq<string>): (k: nat)
    ensures k <= |fechas| && k <= DAYS
    ensures k == DAYS || k == |fechas|
  {
    if |fechas| < DAYS then |fechas| else DAYS
  }

  /** `fechas[:DAYS]`: the departure dates. */
  function Departures(fechas: seq<string>): (dep: seq<string>)
    ensures dep <= fechas && |dep| <= DAYS
    ensures |fechas| >= DAYS ==> |dep| == DAYS
    ensures |fechas| < DAYS ==> dep == fechas
  {
    fechas[..Cut(fechas)]
  }

  /** `fechas[DAYS:]`: the return dates, empty for a short list. */
  function Returns(fechas: seq<string>): (ret: seq<string>)
    ensures Departures(fechas) + ret == fechas
    ensures |fechas| <= DAYS ==> ret == []
  {
    assert fechas[..Cut(fechas)] + fechas[Cut(fechas)..] == fechas;
    fechas[Cut(fechas)..]
  }

  /** One turn of the second loop: the alternative for price `i`, or `None`
      when the `try` block raises (an index past the end of either list, or a
      conversion that raises) and the loop continues. */
  function PairAt(i: nat, price: nat, dep: seq<string>, ret: seq<string>, now: Now): (r: Option<FlightAlternative>)
    requires now.Valid()
    ensures r.Some? ==> i % DAYS < |dep| && i / DAYS < |ret| && r.value.price == price
    ensures r.Some? ==>
      MonthDayToDate(dep[i % DAYS], now) == Success(r.value.departureDate) &&
      MonthDayToDate(ret[i / DAYS], now) == Success(r.value.returnDate)
    ensures r.None? && i % DAYS < |dep| && i / DAYS < |ret| ==>
      MonthDayToDate(dep[i % DAYS], now).Failure? || MonthDayToDate(ret[i / DAYS], now).Failure?
  {
    if i % DAYS >= |dep| then None
    else
      match MonthDayToDate(dep[i % DAYS], now)
      case Failure(_) => None
      case Success(initDay) =>
        if i / DAYS >= |ret| then None
        else
          match MonthDayToDate(ret[i / DAYS], now)
          case Failure(_) => None
          case Success(returnDay) => Some(FlightAlternative(initDay, returnDay, price))
  }

  /** The alternatives the second loop has appended after the given prices. */
  function Pairs(prices: seq<nat>, dep: seq<string>, ret: seq<string>, now: Now): (rs: seq<FlightAlternative>)
    requires now.Valid()
    ensures |rs| <= |prices|
  {
    if prices == [] then []
    else
      var i := |prices| - 1;
      var rest := Pairs(prices[..i], dep, ret, now);
      match PairAt(i, prices[i], dep, ret, now)
      case Some(a) => rest + [a]
      case None => rest
  }

  /** What `__parse_tabla_precios` returns for the cells' texts. */
  function TablaPrecios(cells: seq<string>, now: Now): (rs: seq<FlightAlternative>)
    requires now.Valid()
    ensures |rs| <= |Prices(cells)|
  {
    var fechas := Dates(cells);
    Pairs(Prices(cells), Departures(fechas), Returns(fechas), now)
  }

  /** One more cell adds its date text or its price, or nothing. */
  lemma CellStep(cells: seq<string>, k: nat)
    requires k < |cells|
    ensures Dates(cells[..k + 1]) ==
      Dates(cells[..k]) + (if Classify(cells[k]).DateCell? then [Classify(cells[k]).text] else [])
    ensures Prices(cells[..k + 1]) ==
      Prices(cells[..k]) + (if Classify(cells[k]).PriceCell? then [Classify(cells[k]).amount] else [])
  {
    assert cells[..k + 1][..k] == cells[..k];
  }

  /** One more price adds its alternative, or nothing when its turn raises. */
  lemma PairStep(prices: seq<nat>, i: nat, dep: seq<string>, ret: seq<string>, now: Now)
    requires now.Valid() && i < |prices|
    ensures Pairs(prices[..i + 1], dep, ret, now) ==
      Pairs(prices[..i], dep, ret, now) +
      (if PairAt(i, prices[i], dep, ret, now).Some? then [PairAt(i, prices[i], dep, ret, now).value] else [])
  {
    assert prices[..i + 1][..i] == prices[..i];
  }

  /** The first loop of `__parse_tabla_precios`: each cell's text goes to the
      dates, to the prices, or nowhere. */
  method SortCells(cells: seq<string>) returns (fechas: seq<string>, prices: seq<nat>)
    ensures fechas == Dates(cells) && prices == Prices(cells)
  {
    fechas, prices := [], [];
    for k := 0 to |cells|
      invariant fechas == Dates(cells[..k])
      invariant prices == Prices(cells[..k])
    {
      CellStep(cells, k);
      match Classify(cells[k])
      case DateCell(t) =>
        fechas := fechas + [t];
      case PriceCell(p) =>
        prices := prices + [p];
      case OtherCell =>
    }
    assert cells[..|cells|] == cells;
  }

  /** `__parse_tabla_precios`, over the texts of the cells. */
  method ParseTablaPrecios(cells: seq<string>, now: Now) returns (results: seq<FlightAlternative>)
    requires now.Valid()
    ensures results == TablaPrecios(cells, now)
    ensures |results| <= |Prices(cells)|
  {
    var fechas, prices := SortCells(cells);

    var cut := if |fechas| < DAYS then |fechas| else DAYS;
    var departureDate := fechas[..cut];
    var returnDate := fechas[cut..];

    results := [];
    for i := 0 to |prices|
      invariant results == Pairs(prices[..i], departureDate, returnDate, now)
    {
      PairStep(prices, i, departureDate, returnDate, now);
      // the `try` block; a turn that raises appends nothing and continues
      var row := PairAt(i, prices[i], departureDate, returnDate, now);
      if row.Some? {
        results := results + [row.value];
      }
    }
    assert prices[..|prices|] == prices;
  }

  // ---------------------------------------------------------------------------
  // Which prices are kept

  /** The price indices below `n` whose departure index `i % DAYS` and return
      index `i / DAYS` are inside lists of `nd` and `nr` dates, in order. */
  function Kept(n: nat, nd: nat, nr: nat): (ks: seq<nat>)
    ensures |ks| <= n
    ensures forall j :: 0 <= j < |ks| ==> ks[j] < n && ks[j] % DAYS < nd && ks[j] / DAYS < nr
    ensures forall j, k :: 0 <= j < k < |ks| ==> ks[j] < ks[k]
    ensures forall i :: 0 <= i < n && i % DAYS < nd && i / DAYS < nr ==> i in ks
  {
    if n == 0 then []
    else
      var rest := Kept(n - 1, nd, nr);
      if (n - 1) % DAYS < nd && (n - 1) / DAYS < nr then rest + [n - 1] else rest
  }

  /** The date a recorded date text converts to; it never raises. */
  function DateOf(t: string, now: Now): Option<string>
    requires now.Valid() && IsDateText(t)
  {
    DateTextNeverRaises(t, now);
    MonthDayToDate(t, now).value
  }

  /** `rs` holds one alternative per index of `ks`: the price at that index
      with the dates of its departure and its return. */
  predicate LinedUp(rs: seq<FlightAlternative>, ks: seq<nat>, prices: seq<nat>, dep: seq<string>, ret: seq<string>, now: Now)
    requires now.Valid() && AllDateTexts(dep) && AllDateTexts(ret)
  {
    |rs| == |ks| &&
    forall j :: 0 <= j < |rs| ==>
      ks[j] < |prices| && ks[j] % DAYS < |dep| && ks[j] / DAYS < |ret| &&
      rs[j] == FlightAlternative(DateOf(dep[ks[j] % DAYS], now), DateOf(ret[ks[j] / DAYS], now), prices[ks[j]])
  }

  /** One more kept index and its alternative keep the lists lined up. */
  lemma LinedUpAppend(rs: seq<FlightAlternative>, ks: seq<nat>, prices: seq<nat>, i: nat,
                      dep: seq<string>, ret: seq<string>, now: Now)
    requires now.Valid() && AllDateTexts(dep) && AllDateTexts(ret)
    requires i < |prices| && i % DAYS < |dep| && i / DAYS < |ret|
    requires LinedUp(rs, ks, prices, dep, ret, now)
    ensures LinedUp(rs + [FlightAlternative(DateOf(dep[i % DAYS], now), DateOf(ret[i / DAYS], now), prices[i])],
                    ks + [i], prices, dep, ret, now)
  {
  }

  /** The turn of a price whose indices are in range never raises, and one
      whose indices are not does. */
  lemma PairAtRow(i: nat, price: nat, dep: seq<string>, ret: seq<string>, now: Now)
    requires now.Valid() && AllDateTexts(dep) && AllDateTexts(ret)
    ensures i % DAYS < |dep| && i / DAYS < |ret| ==>
      PairAt(i, price, dep, ret, now) ==
        Some(FlightAlternative(DateOf(dep[i % DAYS], now), DateOf(ret[i / DAYS], now), price))
    ensures !(i % DAYS < |dep| && i / DAYS < |ret|) ==> PairAt(i, price, dep, ret, now) == None
  {
    if i % DAYS < |dep| && i / DAYS < |ret| {
      DateTextNeverRaises(dep[i % DAYS], now);
      DateTextNeverRaises(ret[i / DAYS], now);
    }
  }

  /** One more price lengthens the kept indices by that index exactly when
      both of its indices are in range. */
  lemma KeptStep(n: nat, nd: nat, nr: nat)
    ensures Kept(n + 1, nd, nr) == Kept(n, nd, nr) + (if n % DAYS < nd && n / DAYS < nr then [n] else [])
  {
  }

  /** One more price appends, to the alternatives, its own row exactly when
      both of its indices are in range. */
  lemma PairsStepRow(prices: seq<nat>, i: nat, dep: seq<string>, ret: seq<string>, now: Now)
    requires now.Valid() && AllDateTexts(dep) && AllDateTexts(ret) && i < |prices|
    ensures i % DAYS < |dep| && i / DAYS < |ret| ==>
      Pairs(prices[..i + 1], dep, ret, now) == Pairs(prices[..i], dep, ret, now) +
        [FlightAlternative(DateOf(dep[i % DAYS], now), DateOf(ret[i / DAYS], now), prices[i])]
    ensures !(i % DAYS < |dep| && i / DAYS < |ret|) ==>
      Pairs(prices[..i + 1], dep, ret, now) == Pairs(prices[..i], dep, ret, now)
  {
    PairStep(prices, i, dep, ret, now);
    PairAtRow(i, prices[i], dep, ret, now);
  }

  /** The alternatives of the first `n` prices line up with the kept indices
      below `n`. */
  lemma {:induction false} PairsPrefixShape(prices: seq<nat>, n: nat, dep: seq<string>, ret: seq<string>, now: Now)
    requires now.Valid() && AllDateTexts(dep) && AllDateTexts(ret) && n <= |prices|
    ensures LinedUp(Pairs(prices[..n], dep, ret, now), Kept(n, |dep|, |ret|), prices, dep, ret, now)
  {
    if n > 0 {
      var i := n - 1;
      PairsPrefixShape(prices, i, dep, ret, now);
      PairsStepRow(prices, i, dep, ret, now);
      KeptStep(i, |dep|, |ret|);
      if i % DAYS < |dep| && i / DAYS < |ret| {
        LinedUpAppend(Pairs(prices[..i], dep, ret, now), Kept(i, |dep|, |ret|), prices, i, dep, ret, now);
      }
    }
  }

  /** When every date is a recorded date text, the alternatives are exactly
      the kept prices, in order, each with its departure and return date. */
  lemma PairsShape(prices: seq<nat>, dep: seq<string>, ret: seq<string>, now: Now)
    requires now.Valid() && AllDateTexts(dep) && AllDateTexts(ret)
    ensures LinedUp(Pairs(prices, dep, ret, now), Kept(|prices|, |dep|, |ret|), prices, dep, ret, now)
  {
    PairsPrefixShape(prices, |prices|, dep, ret, now);
    assert prices[..|prices|] == prices;
  }

  /** The shape of the whole result: one alternative per kept price, with the
      dates its indices select. */
  lemma TablaPreciosShape(cells: seq<string>, now: Now)
    requires now.Valid()
    ensures
      var fechas := Dates(cells);
      var dep, ret, ps := Departures(fechas), Returns(fechas), Prices(cells);
      AllDateTexts(dep) && AllDateTexts(ret) &&
      LinedUp(TablaPrecios(cells, now), Kept(|ps|, |dep|, |ret|), ps, dep, ret, now)
  {
    var fechas := Dates(cells);
    DatesAreDateTexts(cells);
    var dep, ret := Departures(fechas), Returns(fechas);
    assert forall i :: 0 <= i < |dep| ==> dep[i] == fechas[i];
    assert forall i :: 0 <= i < |ret| ==> ret[i] == fechas[|dep| + i];
    PairsShape(Prices(cells), dep, ret, now);
  }

  /** A calendar that shows its dates day first yields alternatives whose
      dates are all `None`: the conversion handles every such text softly. */
  lemma DayFirstCalendarHasNoDates(cells: seq<string>, now: Now)
    requires now.Valid()
    requires forall i :: 0 <= i < |Dates(cells)| ==> IsDayFirstText(Dates(cells)[i])
    ensures forall j :: 0 <= j < |TablaPrecios(cells, now)| ==>
      TablaPrecios(cells, now)[j].departureDate == None && TablaPrecios(cells, now)[j].returnDate == None
  {
    var fechas := Dates(cells);
    DatesAreDateTexts(cells);
    var dep, ret := Departures(fechas), Returns(fechas);
    assert forall i :: 0 <= i < |dep| ==> dep[i] == fechas[i];
    assert forall i :: 0 <= i < |ret| ==> ret[i] == fechas[|dep| + i];
    TablaPreciosShape(cells, now);
    forall t | t in fechas
      ensures IsDateText(t) && DateOf(t, now) == None
    {
      DayFirstDateIsNone(t, now);
    }
  }

  /** A row `i` below `DAYS * nr` has a return row. */
  lemma RowInRange(i: nat, nr: nat)
    requires i < DAYS * nr
    ensures i / DAYS < nr
  {
  }

  /** With a full departure column and enough return rows for every price, no
      price is dropped. */
  lemma {:induction false} FullGridKeepsEveryPrice(n: nat, nd: nat, nr: nat)
    requires nd >= DAYS && n <= DAYS * nr
    ensures |Kept(n, nd, nr)| == n
  {
    if n > 0 {
      FullGridKeepsEveryPrice(n - 1, nd, nr);
      RowInRange(n - 1, nr);
    }
  }
}
