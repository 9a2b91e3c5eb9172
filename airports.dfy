/**
 * Airport (one LED per airport and its flight-category state machine) and
 * AirportManager (the airports in configuration order, loaded from the
 * configuration lines and updated in that order).
 */
module Airports {
  import opened Wrappers
  import opened Palette
  import opened Categories
  import opened Text
  import opened Metar
  import opened Devices
  import opened Registry

  /** Why from_config_line raises: a missing field (IndexError), a field that
      is not a number (ValueError), a controller index out of range
      (IndexError in get_board), or no board at the address (get_board
      returns None and the RGBLED constructor calls get_pin on it). */
  datatype ConfigError = MissingField | BadNumber | NoSuchController | NoSuchBoard

  /** What a configuration line resolves to. */
  datatype AirportConfig = AirportConfig(
    code: string, board: DriverBoard, red: int, green: int, blue: int, alternate: string)

  /** `int(fields[k], base)`. */
  function IntField(fields: seq<string>, k: nat, base: nat): (r: Result<int, ConfigError>)
    requires base == 10 || base == 16
    ensures r.Ok? <==> k < |fields| && ParseInt(fields[k], base).Some?
    ensures r.Ok? ==> r.value == ParseInt(fields[k], base).value
    ensures r.Err? ==> (r.error == MissingField <==> k >= |fields|) && r.error in {MissingField, BadNumber}
  {
    if k >= |fields| then Err(MissingField)
    else match ParseInt(fields[k], base)
      case None => Err(BadNumber)
      case Some(v) => Ok(v)
  }

  /** from_config_line on the fields of a line, raising at the first failing
      step in Python's order of evaluation. */
  function ParseFields(fields: seq<string>, boards: seq<DriverBoard>, controllers: seq<Controller>)
    : Result<AirportConfig, ConfigError>
  {
    var controllerIndex :- IntField(fields, 1, 10);
    var addr :- IntField(fields, 2, 16);
    var host := BoardFor(boards, controllers, controllerIndex, addr);
    if host.BadIndex? then Err(NoSuchController)
    else
      var red :- IntField(fields, 3, 10);
      var green :- IntField(fields, 4, 10);
      var blue :- IntField(fields, 5, 10);
      if |fields| < 7 then Err(MissingField)
      else if host.NotFound? then Err(NoSuchBoard)
      else Ok(AirportConfig(fields[0], host.board, red, green, blue, fields[6]))
  }

  /** A line with fewer than seven fields raises; a line that loads takes
      its code, alternate and pin numbers from the fields and its board from
      get_board. */
  lemma ParseFieldsSpec(fields: seq<string>, boards: seq<DriverBoard>, controllers: seq<Controller>)
    ensures var r := ParseFields(fields, boards, controllers);
      && (|fields| < 7 ==> r.Err?)
      && (r.Ok? ==> r.value.code == fields[0] && r.value.alternate == fields[6])
      && (r.Ok? ==> (Some(r.value.red) == ParseInt(fields[3], 10)
            && Some(r.value.green) == ParseInt(fields[4], 10) && Some(r.value.blue) == ParseInt(fields[5], 10)))
      && (r.Ok? ==> (ParseInt(fields[1], 10).Some? && ParseInt(fields[2], 16).Some?
            && BoardFor(boards, controllers, ParseInt(fields[1], 10).value, ParseInt(fields[2], 16).value)
               == Found(r.value.board)))
  {
    var r := ParseFields(fields, boards, controllers);
    if r.Ok? {
      var controllerIndex, addr := IntField(fields, 1, 10), IntField(fields, 2, 16);
      assert controllerIndex.Ok? && addr.Ok?;
      var host := BoardFor(boards, controllers, controllerIndex.value, addr.value);
      assert host == Found(r.value.board);
      assert IntField(fields, 3, 10).Ok? && IntField(fields, 4, 10).Ok? && IntField(fields, 5, 10).Ok?;
    }
  }

  /** Airport.from_config_line on one line of the configuration file. */
  function ParseLine(line: string, boards: seq<DriverBoard>, controllers: seq<Controller>)
    : Result<AirportConfig, ConfigError>
  {
    ParseFields(Fields(line), boards, controllers)
  }

  /** Only the first seven fields are read. */
  lemma ExtraFieldsIgnored(fields: seq<string>, boards: seq<DriverBoard>, controllers: seq<Controller>)
    requires |fields| >= 7
    ensures ParseFields(fields, boards, controllers) == ParseFields(fields[..7], boards, controllers)
  {
    var f7 := fields[..7];
    assert forall k :: 0 <= k < 7 ==> fields[k] == f7[k];
    assert IntField(fields, 1, 10) == IntField(f7, 1, 10);
    assert IntField(fields, 2, 16) == IntField(f7, 2, 16);
    assert IntField(fields, 3, 10) == IntField(f7, 3, 10);
    assert IntField(fields, 4, 10) == IntField(f7, 4, 10);
    assert IntField(fields, 5, 10) == IntField(f7, 5, 10);
  }

  /** Appending further fields to a complete line changes nothing. */
  lemma ExtraFieldsInLine(line: string, extra: string, boards: seq<DriverBoard>, controllers: seq<Controller>)
    requires |Fields(line)| >= 7
    ensures ParseLine(line + " " + extra, boards, controllers) == ParseLine(line, boards, controllers)
  {
    FieldsSplitAt(line, ' ', extra);
    assert line + [' '] + extra == line + " " + extra;
    var all := Fields(line) + Fields(extra);
    assert all[..7] == Fields(line)[..7];
    ExtraFieldsIgnored(all, boards, controllers);
    ExtraFieldsIgnored(Fields(line), boards, controllers);
  }

  /** A blank line (as `readlines` returns it, with its newline) raises. */
  lemma BlankLineRaises(boards: seq<DriverBoard>, controllers: seq<Controller>)
    ensures ParseLine("\n", boards, controllers) == Err(MissingField)
  {
    assert IsSpace('\n');
    assert Fields("\n") == Fields("\n"[1..]);
    assert "\n"[1..] == [];
  }

  /** Conversely, seven or more fields whose numbers parse and whose
      controller index and address name a registered board load. */
  lemma ParseFieldsOk(fields: seq<string>, boards: seq<DriverBoard>, controllers: seq<Controller>,
                      board: DriverBoard)
    requires |fields| >= 7
    requires ParseInt(fields[1], 10).Some? && ParseInt(fields[2], 16).Some?
    requires ParseInt(fields[3], 10).Some? && ParseInt(fields[4], 10).Some? && ParseInt(fields[5], 10).Some?
    requires BoardFor(boards, controllers, ParseInt(fields[1], 10).value, ParseInt(fields[2], 16).value)
             == Found(board)
    ensures ParseFields(fields, boards, controllers)
         == Ok(AirportConfig(fields[0], board, ParseInt(fields[3], 10).value, ParseInt(fields[4], 10).value,
                             ParseInt(fields[5], 10).value, fields[6]))
  {
  }

  /** A line with the fields of the example loads as the example says. */
  lemma ExampleConfig(line: string, boards: seq<DriverBoard>, controllers: seq<Controller>, board: DriverBoard)
    requires Fields(line) == EXAMPLE_FIELDS
    requires |controllers| > 0 && |boards| > 0
    requires FirstMatch(boards, controllers[0], 0x58) == Found(board)
    ensures ParseLine(line, boards, controllers) == Ok(AirportConfig("KJFK", board, 0, 1, 2, "KLGA"))
  {
    var fs := EXAMPLE_FIELDS;
    HexExample();
    assert fs[1] == "0" && fs[2] == "58" && fs[3] == "0" && fs[4] == "1" && fs[5] == "2";
    assert BoardFor(boards, controllers, 0, 0x58) == Found(board);
    ParseFieldsOk(fs, boards, controllers, board);
  }

  /** The example line `KJFK 0 58 0 1 2 KLGA` with a board at address 0x58
      on controller 0: pins 0, 1, 2 on that board, KLGA as alternate. */
  lemma ExampleLine(boards: seq<DriverBoard>, controllers: seq<Controller>, board: DriverBoard)
    requires |controllers| > 0 && |boards| > 0
    requires FirstMatch(boards, controllers[0], 0x58) == Found(board)
    ensures ParseLine("KJFK 0 58 0 1 2 KLGA", boards, controllers)
         == Ok(AirportConfig("KJFK", board, 0, 1, 2, "KLGA"))
  {
    ExampleText();
    ExampleFields();
    ExampleConfig("KJFK 0 58 0 1 2 KLGA", boards, controllers, board);
  }

  /** The state of one airport, as the specification functions see it. */
  datatype Snapshot = Snapshot(code: string, alternate: string, led: RgbLed, category: Category)

  /** What one update does: the category it settles on, its effects in
      order, and how many requests it makes. */
  datatype Outcome = Outcome(category: Category, events: seq<Event>, requests: nat)

  /** The way one update goes through update_flight_category: whether the
      alternate is tried, whether each request returned a response, and
      whether the alternate's answer failed to give a category. */
  datatype Path = Path(fallback: bool, primaryBody: bool, alternateFails: bool, alternateBody: bool)

  function PathOf(primary: Fetch, alt: Fetch): Path
  {
    Path(NeedsAlternate(primary), primary.Body?, Read(alt).None?, alt.Body?)
  }

  /** The paths the answers can produce: a primary answer good enough to
      keep came with a body, and an alternate request that raised gives no
      category. */
  predicate Possible(p: Path)
  {
    (!p.fallback ==> p.primaryBody) && (!p.alternateBody ==> p.alternateFails)
  }

  lemma PathOfPossible(primary: Fetch, alt: Fetch)
    ensures Possible(PathOf(primary, alt))
  {
  }

  /** One event if `b` holds, none otherwise. */
  function Opt(b: bool, e: Event): seq<Event>
  {
    if b then [e] else []
  }

  /** The effects of the fetch part of update_flight_category, its first
      request having serial number `n`. A response is closed where the source
      calls `resp.close()`: before the alternate is tried, and in the
      `finally` on whatever response `resp` then holds (the alternate's if it
      answered, else still the primary's). */
  function FetchEvents(code: string, alternate: string, n: nat, p: Path): seq<Event>
  {
    [Request(MetarUrl(code))]
    + Opt(!p.fallback || p.primaryBody, Close(n))
    + Opt(p.fallback, TryingAlternate(code, alternate))
    + Opt(p.fallback, Request(MetarUrl(alternate)))
    + Opt(p.fallback && p.alternateFails, UpdateError(code))
    + Opt(p.fallback && (p.alternateBody || p.primaryBody), Close(if p.alternateBody then n + 1 else n))
  }

  /** The effects of a path that keeps the primary answer. */
  lemma KeepEvents(code: string, alternate: string, n: nat, p: Path, t0: seq<Event>)
    requires !p.fallback
    ensures t0 + FetchEvents(code, alternate, n, p) == t0 + [Request(MetarUrl(code))] + [Close(n)]
  {
  }

  /** The effects of a path that tries the alternate, in the order the source makes them. */
  lemma FallbackEvents(code: string, alternate: string, n: nat, p: Path, t0: seq<Event>)
    requires p.fallback
    ensures t0 + FetchEvents(code, alternate, n, p)
      == t0 + [Request(MetarUrl(code))] + Opt(p.primaryBody, Close(n))
         + [TryingAlternate(code, alternate), Request(MetarUrl(alternate))]
         + Opt(p.alternateFails, UpdateError(code))
         + Opt(p.alternateBody || p.primaryBody, Close(if p.alternateBody then n + 1 else n))
  {
  }

  /** One call of update_flight_category on an airport in state `s`. */
  function Step(s: Snapshot, n: nat, reply: (nat, string) -> Fetch, brightness: Brightness): Outcome
  {
    var primary := reply(n, MetarUrl(s.code));
    var alt := reply(n + 1, MetarUrl(s.alternate));
    var c := Resolve(primary, alt);
    Outcome(
      c,
      FetchEvents(s.code, s.alternate, n, PathOf(primary, alt))
        + (if c != s.category then s.led.Writes(ColorOf(c), brightness) else []),
      if NeedsAlternate(primary) then 2 else 1)
  }

  /** The values an event list holds of one kind, in order. */
  function Collect<T>(events: seq<Event>, pick: Event -> Option<T>): seq<T>
  {
    if events == [] then []
    else
      Collect(events[..|events| - 1], pick)
      + match pick(events[|events| - 1]) case None => [] case Some(x) => [x]
  }

  lemma {:induction false} CollectConcat<T>(a: seq<Event>, b: seq<Event>, pick: Event -> Option<T>)
    ensures Collect(a + b, pick) == Collect(a, pick) + Collect(b, pick)
    decreases |b|
  {
    if b != [] {
      var last := b[|b| - 1];
      var tail: seq<T> := match pick(last) case None => [] case Some(x) => [x];
      assert (a + b)[..|a + b| - 1] == a + b[..|b| - 1];
      assert (a + b)[|a + b| - 1] == last;
      CollectConcat(a, b[..|b| - 1], pick);
      assert Collect(b, pick) == Collect(b[..|b| - 1], pick) + tail;
      calc {
        Collect(a + b, pick);
        Collect(a + b[..|b| - 1], pick) + tail;
        Collect(a, pick) + Collect(b[..|b| - 1], pick) + tail;
        Collect(a, pick) + (Collect(b[..|b| - 1], pick) + tail);
      }
    } else {
      assert a + b == a;
    }
  }

  /** A list of events of which none is picked. */
  lemma {:induction false} CollectNone<T>(es: seq<Event>, pick: Event -> Option<T>)
    requires forall k :: 0 <= k < |es| ==> pick(es[k]).None?
    ensures Collect(es, pick) == []
  {
    if es != [] {
      CollectNone(es[..|es| - 1], pick);
    }
  }

  function RequestOf(e: Event): Option<string> { if e.Request? then Some(e.url) else None }
  function ErrorOf(e: Event): Option<string> { if e.UpdateError? then Some(e.code) else None }
  function CloseOf(e: Event): Option<nat> { if e.Close? then Some(e.request) else None }
  function NoticeOf(e: Event): Option<string> { if e.TryingAlternate? then Some(e.code) else None }
  function WriteOf(e: Event): Option<Event> { if e.SetCurrent? then Some(e) else None }

  /** A list made only of writes is its own list of writes. */
  lemma {:induction false} CollectWrites(es: seq<Event>)
    requires forall k :: 0 <= k < |es| ==> es[k].SetCurrent?
    ensures Collect(es, WriteOf) == es
  {
    if es != [] {
      CollectWrites(es[..|es| - 1]);
    }
  }

  /** What one optional event contributes. */
  function Picked<T>(b: bool, e: Event, pick: Event -> Option<T>): seq<T>
  {
    if b then match pick(e) case None => [] case Some(x) => [x] else []
  }

  /** Collect distributes over the pieces FetchEvents is made of. */
  lemma FetchCollect<T>(code: string, alternate: string, n: nat, p: Path, pick: Event -> Option<T>)
    ensures Collect(FetchEvents(code, alternate, n, p), pick)
      == Picked(true, Request(MetarUrl(code)), pick)
         + Picked(!p.fallback || p.primaryBody, Close(n), pick)
         + Picked(p.fallback, TryingAlternate(code, alternate), pick)
         + Picked(p.fallback, Request(MetarUrl(alternate)), pick)
         + Picked(p.fallback && p.alternateFails, UpdateError(code), pick)
         + Picked(p.fallback && (p.alternateBody || p.primaryBody), Close(if p.alternateBody then n + 1 else n), pick)
  {
    var e0 := [Request(MetarUrl(code))];
    var e1 := Opt(!p.fallback || p.primaryBody, Close(n));
    var e2 := Opt(p.fallback, TryingAlternate(code, alternate));
    var e3 := Opt(p.fallback, Request(MetarUrl(alternate)));
    var e4 := Opt(p.fallback && p.alternateFails, UpdateError(code));
    var e5 := Opt(p.fallback && (p.alternateBody || p.primaryBody), Close(if p.alternateBody then n + 1 else n));
    CollectConcat(e0 + e1 + e2 + e3 + e4, e5, pick);
    CollectConcat(e0 + e1 + e2 + e3, e4, pick);
    CollectConcat(e0 + e1 + e2, e3, pick);
    CollectConcat(e0 + e1, e2, pick);
    CollectConcat(e0, e1, pick);
    OptCollect(true, Request(MetarUrl(code)), pick);
    OptCollect(!p.fallback || p.primaryBody, Close(n), pick);
    OptCollect(p.fallback, TryingAlternate(code, alternate), pick);
    OptCollect(p.fallback, Request(MetarUrl(alternate)), pick);
    OptCollect(p.fallback && p.alternateFails, UpdateError(code), pick);
    OptCollect(p.fallback && (p.alternateBody || p.primaryBody), Close(if p.alternateBody then n + 1 else n), pick);
  }

  lemma OptCollect<T>(b: bool, e: Event, pick: Event -> Option<T>)
    ensures Collect(Opt(b, e), pick) == Picked(b, e, pick)
    ensures Collect([e], pick) == Picked(true, e, pick)
  {
    assert [e][..0] == [];
  }

  /** The requests of one update: the primary airport's URL, then the
      alternate's exactly when the primary raised, had no tag, or was
      UNKNOWN; the console notice about the alternate comes with it. */
  lemma UpdateRequests(code: string, alternate: string, n: nat, primary: Fetch, alt: Fetch)
    ensures Collect(FetchEvents(code, alternate, n, PathOf(primary, alt)), RequestOf)
         == [MetarUrl(code)] + (if NeedsAlternate(primary) then [MetarUrl(alternate)] else [])
    ensures Collect(FetchEvents(code, alternate, n, PathOf(primary, alt)), NoticeOf)
         == (if NeedsAlternate(primary) then [code] else [])
    ensures NeedsAlternate(primary) <==>
      primary.TransportError? || Extract(primary.text).None? || FromString(Extract(primary.text).value) == Unknown
  {
    PathRequests(code, alternate, n, PathOf(primary, alt));
    PathNotices(code, alternate, n, PathOf(primary, alt));
  }

  /** The requests of one path. */
  lemma PathRequests(code: string, alternate: string, n: nat, p: Path)
    ensures Collect(FetchEvents(code, alternate, n, p), RequestOf)
         == [MetarUrl(code)] + (if p.fallback then [MetarUrl(alternate)] else [])
  {
    FetchCollect(code, alternate, n, p, RequestOf);
    var none: seq<string> := [];
    assert Picked(!p.fallback || p.primaryBody, Close(n), RequestOf) == none;
    assert Picked(p.fallback, TryingAlternate(code, alternate), RequestOf) == none;
    assert Picked(p.fallback && p.alternateFails, UpdateError(code), RequestOf) == none;
    assert Picked(p.fallback && (p.alternateBody || p.primaryBody), Close(if p.alternateBody then n + 1 else n),
                  RequestOf) == none;
  }

  /** The notices about the alternate of one path. */
  lemma PathNotices(code: string, alternate: string, n: nat, p: Path)
    ensures Collect(FetchEvents(code, alternate, n, p), NoticeOf) == (if p.fallback then [code] else [])
  {
    FetchCollect(code, alternate, n, p, NoticeOf);
    var none: seq<string> := [];
    assert Picked(true, Request(MetarUrl(code)), NoticeOf) == none;
    assert Picked(!p.fallback || p.primaryBody, Close(n), NoticeOf) == none;
    assert Picked(p.fallback, Request(MetarUrl(alternate)), NoticeOf) == none;
    assert Picked(p.fallback && p.alternateFails, UpdateError(code), NoticeOf) == none;
    assert Picked(p.fallback && (p.alternateBody || p.primaryBody), Close(if p.alternateBody then n + 1 else n),
                  NoticeOf) == none;
  }

  /** The error lines of one path: one, naming the primary airport, exactly
      when the alternate was tried and gave no category. */
  lemma PathErrors(code: string, alternate: string, n: nat, p: Path)
    ensures Collect(FetchEvents(code, alternate, n, p), ErrorOf)
         == (if p.fallback && p.alternateFails then [code] else [])
  {
    FetchCollect(code, alternate, n, p, ErrorOf);
    var none: seq<string> := [];
    assert Picked(true, Request(MetarUrl(code)), ErrorOf) == none;
    assert Picked(!p.fallback || p.primaryBody, Close(n), ErrorOf) == none;
    assert Picked(p.fallback, TryingAlternate(code, alternate), ErrorOf) == none;
    assert Picked(p.fallback, Request(MetarUrl(alternate)), ErrorOf) == none;
    assert Picked(p.fallback && (p.alternateBody || p.primaryBody), Close(if p.alternateBody then n + 1 else n),
                  ErrorOf) == none;
  }

  /** One error line, naming the primary airport, exactly when the
      alternate had to be tried and failed too; the result is then UNKNOWN.
      An alternate that answers with an unrecognised category gives UNKNOWN
      without an error line. */
  lemma UpdateErrors(code: string, alternate: string, n: nat, primary: Fetch, alt: Fetch)
    ensures Collect(FetchEvents(code, alternate, n, PathOf(primary, alt)), ErrorOf)
         == (if NeedsAlternate(primary) && Read(alt).None? then [code] else [])
    ensures NeedsAlternate(primary) && Read(alt).None? ==> Resolve(primary, alt) == Unknown
  {
    PathErrors(code, alternate, n, PathOf(primary, alt));
  }

  /** The responses one update closes, in order. */
  function Closes(code: string, alternate: string, n: nat, p: Path): seq<nat>
  {
    Collect(FetchEvents(code, alternate, n, p), CloseOf)
  }

  /** Two closes of the same response. */
  predicate DoubleClose(closed: seq<nat>)
  {
    exists i, j :: 0 <= i < j < |closed| && closed[i] == closed[j]
  }

  /** Requests and console lines close nothing. */
  lemma NoCloses(code: string, alternate: string, p: Path)
    ensures Picked(true, Request(MetarUrl(code)), CloseOf) == []
    ensures Picked(p.fallback, TryingAlternate(code, alternate), CloseOf) == []
    ensures Picked(p.fallback, Request(MetarUrl(alternate)), CloseOf) == []
    ensures Picked(p.fallback && p.alternateFails, UpdateError(code), CloseOf) == []
  {
  }

  /** The responses one update closes: the primary's (if it answered) when
      the alternate is tried, then in the `finally` the one `resp` holds. */
  lemma ClosesShape(code: string, alternate: string, n: nat, p: Path)
    requires Possible(p)
    ensures Closes(code, alternate, n, p) ==
      if !p.fallback then [n]
      else ((if p.primaryBody then [n] else [])
            + (if p.alternateBody then [n + 1] else if p.primaryBody then [n] else []))
  {
    FetchCollect(code, alternate, n, p, CloseOf);
    NoCloses(code, alternate, p);
    var first := Picked(!p.fallback || p.primaryBody, Close(n), CloseOf);
    var last := Picked(p.fallback && (p.alternateBody || p.primaryBody), Close(if p.alternateBody then n + 1 else n), CloseOf);
    assert Closes(code, alternate, n, p) == first + last;
    if !p.fallback {
      assert first == [n] && last == [];
    }
  }

  /** The closes of one path. */
  lemma PathCloses(code: string, alternate: string, n: nat, p: Path)
    requires Possible(p)
    ensures p.primaryBody ==> n in Closes(code, alternate, n, p)
    ensures p.fallback && p.alternateBody ==> n + 1 in Closes(code, alternate, n, p)
    ensures forall x :: x in Closes(code, alternate, n, p) ==>
      (x == n && p.primaryBody) || (x == n + 1 && p.fallback && p.alternateBody)
    ensures |Closes(code, alternate, n, p)| <= 2
    ensures DoubleClose(Closes(code, alternate, n, p)) <==> p.fallback && p.primaryBody && !p.alternateBody
  {
    ClosesShape(code, alternate, n, p);
    var closed := Closes(code, alternate, n, p);
    if p.fallback && p.primaryBody && !p.alternateBody {
      assert closed == [n, n];
      assert closed[0] == closed[1];
    } else {
      assert |closed| == 2 ==> closed[0] != closed[1];
    }
  }

  /** Every response received is closed, and only those; the primary
      response is closed a second time exactly when it needed the alternate
      and the alternate's request raised (`resp` then still holds the
      primary response). */
  lemma UpdateCloses(code: string, alternate: string, n: nat, primary: Fetch, alt: Fetch)
    ensures primary.Body? ==> n in Closes(code, alternate, n, PathOf(primary, alt))
    ensures NeedsAlternate(primary) && alt.Body? ==> n + 1 in Closes(code, alternate, n, PathOf(primary, alt))
    ensures forall x :: x in Closes(code, alternate, n, PathOf(primary, alt)) ==>
      (x == n && primary.Body?) || (x == n + 1 && NeedsAlternate(primary) && alt.Body?)
    ensures DoubleClose(Closes(code, alternate, n, PathOf(primary, alt)))
      <==> NeedsAlternate(primary) && primary.Body? && alt.TransportError?
  {
    PathOfPossible(primary, alt);
    PathCloses(code, alternate, n, PathOf(primary, alt));
  }

  /** The fetch part writes nothing to the LEDs. */
  lemma FetchWritesNothing(code: string, alternate: string, n: nat, p: Path)
    ensures Collect(FetchEvents(code, alternate, n, p), WriteOf) == []
  {
    FetchCollect(code, alternate, n, p, WriteOf);
    var none: seq<Event> := [];
    assert Picked(true, Request(MetarUrl(code)), WriteOf) == none;
    assert Picked(!p.fallback || p.primaryBody, Close(n), WriteOf) == none;
    assert Picked(p.fallback, TryingAlternate(code, alternate), WriteOf) == none;
    assert Picked(p.fallback, Request(MetarUrl(alternate)), WriteOf) == none;
    assert Picked(p.fallback && p.alternateFails, UpdateError(code), WriteOf) == none;
    assert Picked(p.fallback && (p.alternateBody || p.primaryBody), Close(if p.alternateBody then n + 1 else n),
                  WriteOf) == none;
  }

  /** The LED is written, once and with the colour of the new category,
      exactly when the category changes. */
  lemma StepWrites(s: Snapshot, n: nat, reply: (nat, string) -> Fetch, brightness: Brightness)
    ensures var o := Step(s, n, reply, brightness);
      Collect(o.events, WriteOf)
        == (if o.category != s.category then s.led.Writes(ColorOf(o.category), brightness) else [])
  {
    var p := PathOf(reply(n, MetarUrl(s.code)), reply(n + 1, MetarUrl(s.alternate)));
    var o := Step(s, n, reply, brightness);
    StepParts(s, n, reply, brightness);
    FetchWritesNothing(s.code, s.alternate, n, p);
    WritesAfter(FetchEvents(s.code, s.alternate, n, p), o.category != s.category, s.led,
                ColorOf(o.category), brightness);
  }

  /** LED writes appended to events that hold none are the only writes. */
  lemma WritesAfter(a: seq<Event>, b: bool, led: RgbLed, color: int, brightness: Brightness)
    requires Collect(a, WriteOf) == []
    ensures Collect(a + (if b then led.Writes(color, brightness) else []), WriteOf)
         == if b then led.Writes(color, brightness) else []
  {
    var leds := if b then led.Writes(color, brightness) else [];
    CollectConcat(a, leds, WriteOf);
    CollectWrites(leds);
  }

  /** Updating twice with the same answers: the second update keeps the
      category and writes nothing. */
  lemma UpdateIdempotent(s: Snapshot, n1: nat, n2: nat, reply: (nat, string) -> Fetch, brightness: Brightness)
    requires reply(n2, MetarUrl(s.code)) == reply(n1, MetarUrl(s.code))
    requires reply(n2 + 1, MetarUrl(s.alternate)) == reply(n1 + 1, MetarUrl(s.alternate))
    ensures var o1 := Step(s, n1, reply, brightness);
      var o2 := Step(s.(category := o1.category), n2, reply, brightness);
      o2.category == o1.category && Collect(o2.events, WriteOf) == []
  {
    var o1 := Step(s, n1, reply, brightness);
    StepWrites(s.(category := o1.category), n2, reply, brightness);
  }

  /** The pieces of one update: the category resolved from the two
      answers, and the LED writes after the fetch effects. */
  lemma StepParts(s: Snapshot, n: nat, reply: (nat, string) -> Fetch, brightness: Brightness)
    ensures var primary, alt := reply(n, MetarUrl(s.code)), reply(n + 1, MetarUrl(s.alternate));
      var o := Step(s, n, reply, brightness);
      && o.category == Resolve(primary, alt)
      && o.events == FetchEvents(s.code, s.alternate, n, PathOf(primary, alt))
           + (if o.category != s.category then s.led.Writes(ColorOf(o.category), brightness) else [])
  {
  }

  /** The path of the fallback scenario: the alternate is tried, both answer,
      and the alternate gives VFR. */
  lemma FallbackPath(body: string, altBody: string)
    requires forall i, j :: !MatchAt(body, i, j)
    requires Extract(altBody) == Some("VFR")
    ensures PathOf(Body(body), Body(altBody)) == Path(true, true, false, true)
    ensures Resolve(Body(body), Body(altBody)) == VFR
  {
    ReadSpec(Body(body));
    FromStringName(VFR);
  }

  /** The console lines of one update are those of its fetch part: the LED
      writes after it add none. */
  lemma StepLog(s: Snapshot, n: nat, reply: (nat, string) -> Fetch, brightness: Brightness)
    ensures var p := PathOf(reply(n, MetarUrl(s.code)), reply(n + 1, MetarUrl(s.alternate)));
      var o := Step(s, n, reply, brightness);
      && Collect(o.events, NoticeOf) == (if p.fallback then [s.code] else [])
      && Collect(o.events, ErrorOf) == (if p.fallback && p.alternateFails then [s.code] else [])
  {
    var p := PathOf(reply(n, MetarUrl(s.code)), reply(n + 1, MetarUrl(s.alternate)));
    var o := Step(s, n, reply, brightness);
    StepParts(s, n, reply, brightness);
    PathNotices(s.code, s.alternate, n, p);
    PathErrors(s.code, s.alternate, n, p);
    WritesLogNothing(FetchEvents(s.code, s.alternate, n, p), o.category != s.category, s.led,
                     ColorOf(o.category), brightness);
  }

  /** LED writes appended to a list of events add no console line. */
  lemma WritesLogNothing(a: seq<Event>, b: bool, led: RgbLed, color: int, brightness: Brightness)
    ensures var es := a + (if b then led.Writes(color, brightness) else []);
      Collect(es, NoticeOf) == Collect(a, NoticeOf) && Collect(es, ErrorOf) == Collect(a, ErrorOf)
  {
    var leds := if b then led.Writes(color, brightness) else [];
    CollectConcat(a, leds, NoticeOf);
    CollectNone(leds, NoticeOf);
    CollectConcat(a, leds, ErrorOf);
    CollectNone(leds, ErrorOf);
  }

  /** Primary without a tag, alternate reporting VFR, LED showing UNKNOWN:
      the airport becomes VFR, the LED is written green once, the notice
      about the alternate is printed once and no error line. */
  lemma FallbackScenario(s: Snapshot, n: nat, reply: (nat, string) -> Fetch, brightness: Brightness,
                         body: string, altBody: string)
    requires s.category == Unknown
    requires reply(n, MetarUrl(s.code)) == Body(body) && forall i, j :: !MatchAt(body, i, j)
    requires reply(n + 1, MetarUrl(s.alternate)) == Body(altBody) && Extract(altBody) == Some("VFR")
    ensures var o := Step(s, n, reply, brightness);
      && o.category == VFR
      && Collect(o.events, WriteOf) == s.led.Writes(GREEN, brightness)
      && Collect(o.events, NoticeOf) == [s.code]
      && Collect(o.events, ErrorOf) == []
  {
    FallbackPath(body, altBody);
    ColorTable("");
    StepParts(s, n, reply, brightness);
    StepWrites(s, n, reply, brightness);
    StepLog(s, n, reply, brightness);
  }

  /** Both requests raise: the airport becomes UNKNOWN with one error line
      naming it, and the LED is written yellow only if it was not UNKNOWN. */
  lemma BothFailScenario(s: Snapshot, n: nat, reply: (nat, string) -> Fetch, brightness: Brightness)
    requires reply(n, MetarUrl(s.code)) == TransportError
    requires reply(n + 1, MetarUrl(s.alternate)) == TransportError
    ensures var o := Step(s, n, reply, brightness);
      && o.category == Unknown
      && Collect(o.events, ErrorOf) == [s.code]
      && Collect(o.events, WriteOf) == (if s.category == Unknown then [] else s.led.Writes(YELLOW, brightness))
  {
    assert PathOf(TransportError, TransportError) == Path(true, false, true, false);
    ColorTable("");
    StepParts(s, n, reply, brightness);
    StepWrites(s, n, reply, brightness);
    StepLog(s, n, reply, brightness);
  }

  /** One poll cycle: the categories the airports settle on, the effects in
      order, and the number of requests made. */
  datatype Cycle = Cycle(categories: seq<Category>, events: seq<Event>, requests: nat)

  /** Updating the airports one after the other with `step`, requests
      numbered from `n`, each airport's after those of the airports before it. */
  function Poll(snaps: seq<Snapshot>, n: nat, step: (Snapshot, nat) -> Outcome): (c: Cycle)
    ensures |c.categories| == |snaps|
  {
    if snaps == [] then Cycle([], [], 0)
    else
      var prev := Poll(snaps[..|snaps| - 1], n, step);
      var o := step(snaps[|snaps| - 1], n + prev.requests);
      Cycle(prev.categories + [o.category], prev.events + o.events, prev.requests + o.requests)
  }

  /** update_flight_category as the step of a cycle. */
  function Updater(reply: (nat, string) -> Fetch, brightness: Brightness): (Snapshot, nat) -> Outcome
  {
    (s: Snapshot, m: nat) => Step(s, m, reply, brightness)
  }

  /** The cycle over a prefix of the airports is the start of the whole
      cycle: earlier airports are updated first, and each airport's category
      is that of its own update, made after the requests of those before it. */
  lemma {:induction false} PollPrefix(snaps: seq<Snapshot>, k: nat, n: nat, step: (Snapshot, nat) -> Outcome)
    requires k <= |snaps|
    ensures var whole := Poll(snaps, n, step);
      var part := Poll(snaps[..k], n, step);
      && whole.categories[..k] == part.categories
      && part.events <= whole.events
      && part.requests <= whole.requests
      && (k < |snaps| ==> whole.categories[k] == step(snaps[k], n + part.requests).category)
  {
    if k < |snaps| {
      var init := snaps[..|snaps| - 1];
      var prev := Poll(init, n, step);
      var whole := Poll(snaps, n, step);
      assert init[..k] == snaps[..k];
      if k < |init| {
        PollPrefix(init, k, n, step);
        assert whole.categories[..k] == prev.categories[..k];
        assert whole.categories[k] == prev.categories[k];
      } else {
        assert init == snaps[..k];
        assert whole.categories[..k] == prev.categories;
      }
    } else {
      assert snaps[..k] == snaps;
    }
  }


  /** The effects of a list of outcomes, in order. */
  function EventsOf(outs: seq<Outcome>): seq<Event>
  {
    if outs == [] then [] else EventsOf(outs[..|outs| - 1]) + outs[|outs| - 1].events
  }

  /** The categories of a list of outcomes. */
  function CategoriesOf(outs: seq<Outcome>): (cats: seq<Category>)
    ensures |cats| == |outs|
  {
    if outs == [] then [] else CategoriesOf(outs[..|outs| - 1]) + [outs[|outs| - 1].category]
  }

  /** The category of one more outcome comes last. */
  lemma CategoriesOfSnoc(outs: seq<Outcome>, o: Outcome)
    ensures CategoriesOf(outs + [o]) == CategoriesOf(outs) + [o.category]
  {
    assert (outs + [o])[..|outs|] == outs;
  }

  /** `outs` are the outcomes of updating `snaps` in turn with `step`, the
      k-th update's requests numbered from `starts[k]`. */
  ghost predicate Chain(snaps: seq<Snapshot>, n: nat, step: (Snapshot, nat) -> Outcome,
                        outs: seq<Outcome>, starts: seq<nat>)
  {
    && |outs| <= |snaps| && |starts| == |outs| + 1 && starts[0] == n
    && (outs != [] ==>
          var m := |outs| - 1;
          && Chain(snaps, n, step, outs[..m], starts[..m + 1])
          && starts[m + 1] == starts[m] + outs[m].requests
          && outs[m] == step(snaps[m], starts[m]))
  }

  /** The prefix one longer ends with the next element. */
  lemma TakeOneMore<T>(s: seq<T>, i: nat)
    requires i < |s|
    ensures s[..i + 1] == s[..i] + [s[i]]
  {
  }

  /** Concatenation regrouped, for a trace extended by one more update. */
  lemma AppendAssoc<T>(a: seq<T>, b: seq<T>, c: seq<T>)
    ensures (a + b) + c == a + (b + c)
  {
  }

  /** Extending a chain by the update of the next airport. */
  lemma ChainSnoc(snaps: seq<Snapshot>, n: nat, step: (Snapshot, nat) -> Outcome,
                  outs: seq<Outcome>, starts: seq<nat>, o: Outcome)
    requires Chain(snaps, n, step, outs, starts) && |outs| < |snaps|
    requires o == step(snaps[|outs|], starts[|outs|])
    ensures Chain(snaps, n, step, outs + [o], starts + [starts[|outs|] + o.requests])
  {
    var outs', starts' := outs + [o], starts + [starts[|outs|] + o.requests];
    assert outs'[..|outs|] == outs && starts'[..|outs| + 1] == starts;
  }

  /** The effects of one more outcome come last. */
  lemma EventsOfSnoc(outs: seq<Outcome>, o: Outcome)
    ensures EventsOf(outs + [o]) == EventsOf(outs) + o.events
  {
    assert (outs + [o])[..|outs|] == outs;
  }

  /** A chain of outcomes is the poll cycle of the airports it covers. */
  lemma {:induction false} ChainPoll(snaps: seq<Snapshot>, n: nat, step: (Snapshot, nat) -> Outcome,
                                     outs: seq<Outcome>, starts: seq<nat>)
    requires Chain(snaps, n, step, outs, starts)
    ensures Poll(snaps[..|outs|], n, step).events == EventsOf(outs)
    ensures n + Poll(snaps[..|outs|], n, step).requests == starts[|outs|]
    ensures Poll(snaps[..|outs|], n, step).categories == CategoriesOf(outs)
  {
    if outs != [] {
      var m := |outs| - 1;
      ChainPoll(snaps, n, step, outs[..m], starts[..m + 1]);
      assert snaps[..|outs|][..m] == snaps[..m];
    }
  }

  /** The colours the LEDs show after a poll cycle that started from `d`:
      each airport whose category changed has its LED repainted, in order. */
  function Repaint(d: map<RgbLed, int>, snaps: seq<Snapshot>, cats: seq<Category>): map<RgbLed, int>
    requires |cats| == |snaps|
  {
    if snaps == [] then d
    else
      var m := |snaps| - 1;
      var prev := Repaint(d, snaps[..m], cats[..m]);
      if cats[m] != snaps[m].category then prev[snaps[m].led := ColorOf(cats[m])] else prev
  }

  /** Repainting after one more update. */
  lemma RepaintSnoc(d: map<RgbLed, int>, snaps: seq<Snapshot>, cats: seq<Category>, s: Snapshot, c: Category)
    requires |cats| == |snaps|
    ensures Repaint(d, snaps + [s], cats + [c])
         == if c != s.category then Repaint(d, snaps, cats)[s.led := ColorOf(c)] else Repaint(d, snaps, cats)
  {
    assert (snaps + [s])[..|snaps|] == snaps && (cats + [c])[..|cats|] == cats;
  }

  /** With one LED per airport, a cycle leaves every airport's LED showing the
      colour of its new category when the category changed or the LED already
      showed the old category's colour; no LED loses its colour, and the only
      LEDs repainted are those of airports whose category changed. */
  lemma {:induction false} RepaintShows(d: map<RgbLed, int>, snaps: seq<Snapshot>, cats: seq<Category>)
    requires |cats| == |snaps|
    requires forall i, j :: 0 <= i < j < |snaps| ==> snaps[i].led != snaps[j].led
    ensures forall k :: 0 <= k < |snaps| ==>
      ((snaps[k].led in d && d[snaps[k].led] == ColorOf(snaps[k].category)) || cats[k] != snaps[k].category
       ==> snaps[k].led in Repaint(d, snaps, cats) && Repaint(d, snaps, cats)[snaps[k].led] == ColorOf(cats[k]))
    ensures forall l :: l in d ==> l in Repaint(d, snaps, cats)
    ensures forall l :: l in Repaint(d, snaps, cats) && (l !in d || Repaint(d, snaps, cats)[l] != d[l]) ==>
      exists k :: 0 <= k < |snaps| && snaps[k].led == l && cats[k] != snaps[k].category
  {
    if snaps != [] {
      var m := |snaps| - 1;
      var ps, pc := snaps[..m], cats[..m];
      RepaintShows(d, ps, pc);
      var prev := Repaint(d, ps, pc);
      var r := Repaint(d, snaps, cats);
      assert r == if cats[m] != snaps[m].category then prev[snaps[m].led := ColorOf(cats[m])] else prev;
      forall k | 0 <= k < |snaps| && ((snaps[k].led in d && d[snaps[k].led] == ColorOf(snaps[k].category)) || cats[k] != snaps[k].category)
        ensures snaps[k].led in r && r[snaps[k].led] == ColorOf(cats[k])
      {
        if k < m {
          assert snaps[k] == ps[k] && cats[k] == pc[k];
          assert snaps[k].led != snaps[m].led;
        }
      }
      forall l | l in r && (l !in d || r[l] != d[l])
        ensures exists k :: 0 <= k < |snaps| && snaps[k].led == l && cats[k] != snaps[k].category
      {
        if cats[m] != snaps[m].category && l == snaps[m].led {
        } else {
          var k :| 0 <= k < |ps| && ps[k].led == l && pc[k] != ps[k].category;
          assert snaps[k] == ps[k] && cats[k] == pc[k];
        }
      }
    }
  }

  /** Airport: one LED and the airport's last known flight category. */
  class Airport {
    const code: string
    const alternate: string
    const led: RgbLed
    var category: Category

    /** Airport.__init__: the LED is set yellow and the category is UNKNOWN. */
    constructor (code: string, redPin: int, greenPin: int, bluePin: int, alternate: string,
                 host: DriverBoard, brightness: Brightness, w: World)
      modifies w
      ensures this.code == code && this.alternate == alternate && category == Unknown
      ensures fresh(led) && led.host == host
      ensures led.redPin == redPin && led.greenPin == greenPin && led.bluePin == bluePin
      ensures w.trace == old(w.trace) + led.Writes(YELLOW, brightness)
      ensures w.display == old(w.display)[led := YELLOW]
      ensures w.requests == old(w.requests) && w.associations == old(w.associations)
      ensures Consistent(w)
    {
      this.code := code;
      led := new RgbLed(host, redPin, greenPin, bluePin);
      this.alternate := alternate;
      category := Unknown;
      new;
      led.SetColor(YELLOW, brightness, w);
      ColorTable("");
    }

    function Snap(): Snapshot
      reads this
    {
      Snapshot(code, alternate, led, category)
    }

    /** The LED shows the colour of the stored category. */
    ghost predicate Consistent(w: World)
      reads this, w
    {
      w.Shown(led) == Some(ColorOf(category))
    }

    /** The alternate half of update_flight_category: announce, request the
        alternate's report and read it (UNKNOWN, with an error line, when it
        gives no category), then close the last response held, which is the
        alternate's or, failing that, the primary's still-held one. */
    method FetchAlternate(w: World, resp: Option<nat>) returns (result: Category)
      modifies w
      ensures var n := old(w.requests);
        var alt := w.reply(n, MetarUrl(alternate));
        && result == Resolve(TransportError, alt)
        && w.trace == old(w.trace) + [TryingAlternate(code, alternate), Request(MetarUrl(alternate))]
             + Opt(Read(alt).None?, UpdateError(code))
             + (if alt.Body? then [Close(n)] else if resp.Some? then [Close(resp.value)] else [])
        && w.requests == n + 1
      ensures w.associations == old(w.associations) && w.display == old(w.display)
    {
      var n := w.requests;
      var held := resp;
      w.Emit(TryingAlternate(code, alternate));
      var alt := w.Get(MetarUrl(alternate));
      if alt.Body? {
        held := Some(n);
      }
      var altFound := Read(alt);
      if altFound.None? {
        result := Unknown;
        w.Emit(UpdateError(code));
      } else {
        result := altFound.value;
      }
      if held.Some? {
        w.Emit(Close(held.value));
      }
    }

    /** The `try`/`except`/`finally` part of update_flight_category: the
        requests, the console lines and the closes, and the category found. */
    method FetchCategory(w: World) returns (result: Category)
      modifies w
      ensures result == Resolve(w.reply(old(w.requests), MetarUrl(code)),
                                w.reply(old(w.requests) + 1, MetarUrl(alternate)))
      ensures w.trace == old(w.trace) + FetchEvents(code, alternate, old(w.requests),
        PathOf(w.reply(old(w.requests), MetarUrl(code)), w.reply(old(w.requests) + 1, MetarUrl(alternate))))
      ensures w.requests == old(w.requests) + if NeedsAlternate(w.reply(old(w.requests), MetarUrl(code))) then 2 else 1
      ensures w.associations == old(w.associations) && w.display == old(w.display)
    {
      var n := w.requests;
      ghost var t0 := w.trace;
      ghost var other := w.reply(n + 1, MetarUrl(alternate));
      var resp: Option<nat> := None;  // the serial number of the response `resp` holds
      var primary := w.Get(MetarUrl(code));
      ghost var p := PathOf(primary, other);
      if primary.Body? {
        resp := Some(n);
      }
      var found := Read(primary);
      if found.None? || found.value == Unknown {
        assert p.fallback;
        if resp.Some? {
          w.Emit(Close(resp.value));
        }
        assert w.trace == t0 + [Request(MetarUrl(code))] + Opt(p.primaryBody, Close(n));
        result := FetchAlternate(w, resp);
        FallbackEvents(code, alternate, n, p, t0);
        assert w.trace == t0 + FetchEvents(code, alternate, n, p);
      } else {
        assert !p.fallback && p.primaryBody;
        result := found.value;
        w.Emit(Close(resp.value));
        KeepEvents(code, alternate, n, p, t0);
        assert w.trace == t0 + FetchEvents(code, alternate, n, p);
      }
    }

    /** update_flight_category. */
    method Update(brightness: Brightness, w: World)
      modifies this, w
      ensures var o := Step(old(Snap()), old(w.requests), w.reply, brightness);
        && category == o.category
        && w.trace == old(w.trace) + o.events
        && w.requests == old(w.requests) + o.requests
      ensures w.associations == old(w.associations)
      ensures w.display == if category == old(category) then old(w.display)
                           else old(w.display)[led := ColorOf(category)]
      ensures old(Consistent(w)) || category != old(category) ==> Consistent(w)
    {
      ghost var t0, n := w.trace, w.requests;
      var result := FetchCategory(w);
      ghost var t1 := w.trace;
      if result != category {
        category := result;
        led.SetColor(ColorOf(result), brightness, w);
      }
      ghost var writes := if result != old(category) then led.Writes(ColorOf(result), brightness) else [];
      assert w.trace == t1 + writes;
      assert t0 + t1[|t0|..] + writes == t0 + (t1[|t0|..] + writes);
    }
  }

  /** Airport.from_config_line. */
  method FromConfigLine(line: string, manager: BoardManager, brightness: Brightness, w: World)
    returns (r: Result<Airport, ConfigError>)
    modifies w
    ensures var spec := ParseLine(line, manager.boards, manager.controllers);
      && r.Ok? == spec.Ok?
      && (r.Err? ==> r.error == spec.error && w.trace == old(w.trace) && w.display == old(w.display))
      && (r.Ok? ==>
            && fresh(r.value) && fresh(r.value.led) && ConfigOf(r.value) == spec.value && r.value.category == Unknown
            && w.trace == old(w.trace) + r.value.led.Writes(YELLOW, brightness)
            && w.display == old(w.display)[r.value.led := YELLOW] && r.value.Consistent(w))
    ensures w.requests == old(w.requests) && w.associations == old(w.associations)
  {
    var fields := Fields(line);
    var controllerIndex :- IntField(fields, 1, 10);
    var addr :- IntField(fields, 2, 16);
    var host := manager.GetBoard(controllerIndex, addr);
    if host.BadIndex? {
      return Err(NoSuchController);
    }
    var red :- IntField(fields, 3, 10);
    var green :- IntField(fields, 4, 10);
    var blue :- IntField(fields, 5, 10);
    if |fields| < 7 {
      return Err(MissingField);
    }
    if host.NotFound? {
      return Err(NoSuchBoard);
    }
    var airport := new Airport(fields[0], red, green, blue, fields[6], host.board, brightness, w);
    r := Ok(airport);
  }

  /** The values before the first error. */
  function OkPrefix<T, E>(rs: seq<Result<T, E>>): (ok: seq<T>)
    ensures |ok| <= |rs|
    ensures |ok| < |rs| ==> rs[|ok|].Err?
  {
    if rs == [] then []
    else match rs[0]
      case Err(_) => []
      case Ok(v) => [v] + OkPrefix(rs[1..])
  }

  /** The results before the first error are those values. */
  lemma {:induction false} OkPrefixSpec<T, E>(rs: seq<Result<T, E>>)
    ensures forall j :: 0 <= j < |OkPrefix(rs)| ==> rs[j] == Ok(OkPrefix(rs)[j])
  {
    if rs != [] && rs[0].Ok? {
      OkPrefixSpec(rs[1..]);
      assert forall j :: 1 <= j < |rs| ==> rs[j] == rs[1..][j - 1];
    }
  }

  /** from_config_line on each line. */
  function Parsed(lines: seq<string>, boards: seq<DriverBoard>, controllers: seq<Controller>)
    : (rs: seq<Result<AirportConfig, ConfigError>>)
    ensures |rs| == |lines|
  {
    seq(|lines|, j requires 0 <= j < |lines| => ParseLine(lines[j], boards, controllers))
  }

  /** The configurations of the lines that load, up to the first line that raises. */
  function Configs(lines: seq<string>, boards: seq<DriverBoard>, controllers: seq<Controller>)
    : (cfgs: seq<AirportConfig>)
    ensures |cfgs| <= |lines|
    ensures |cfgs| < |lines| ==> ParseLine(lines[|cfgs|], boards, controllers).Err?
  {
    OkPrefix(Parsed(lines, boards, controllers))
  }

  /** Each line before the first failing one parses to its configuration;
      that line, if there is one, fails. */
  lemma ConfigsSpec(lines: seq<string>, boards: seq<DriverBoard>, controllers: seq<Controller>)
    ensures var cfgs := Configs(lines, boards, controllers);
      && (forall j :: 0 <= j < |cfgs| ==> ParseLine(lines[j], boards, controllers) == Ok(cfgs[j]))
      && (|cfgs| < |lines| ==> ParseLine(lines[|cfgs|], boards, controllers).Err?)
  {
    var rs := Parsed(lines, boards, controllers);
    OkPrefixSpec(rs);
    assert forall j :: 0 <= j < |lines| ==> rs[j] == ParseLine(lines[j], boards, controllers);
  }

  /** The step of loading: line `i` loads exactly when it is before the first
      failing line, and then gives its configuration. */
  lemma ConfigsAt(lines: seq<string>, i: nat, boards: seq<DriverBoard>, controllers: seq<Controller>)
    requires i <= |Configs(lines, boards, controllers)| && i < |lines|
    ensures ParseLine(lines[i], boards, controllers).Ok? <==> i < |Configs(lines, boards, controllers)|
    ensures i < |Configs(lines, boards, controllers)| ==>
      ParseLine(lines[i], boards, controllers).value == Configs(lines, boards, controllers)[i]
  {
    ConfigsSpec(lines, boards, controllers);
    PrefixAt(lines, i, boards, controllers, Configs(lines, boards, controllers));
  }

  lemma PrefixAt(lines: seq<string>, i: nat, boards: seq<DriverBoard>, controllers: seq<Controller>,
                 cfgs: seq<AirportConfig>)
    requires i <= |cfgs| <= |lines| && i < |lines|
    requires forall j :: 0 <= j < |cfgs| ==> ParseLine(lines[j], boards, controllers) == Ok(cfgs[j])
    requires |cfgs| < |lines| ==> ParseLine(lines[|cfgs|], boards, controllers).Err?
    ensures ParseLine(lines[i], boards, controllers).Ok? <==> i < |cfgs|
    ensures i < |cfgs| ==> ParseLine(lines[i], boards, controllers).value == cfgs[i]
  {
    if i < |cfgs| {
      assert ParseLine(lines[i], boards, controllers) == Ok(cfgs[i]);
    } else {
      assert lines[i] == lines[|cfgs|];
    }
  }

  /** The line number and reason of the exception that stops loading. */
  datatype LoadError = LoadError(line: nat, error: ConfigError)

  /** What an airport was built from: its code, its alternate and its LED's
      board and pins. */
  function ConfigOf(a: Airport): AirportConfig
  {
    AirportConfig(a.code, a.led.host, a.led.redPin, a.led.greenPin, a.led.bluePin, a.alternate)
  }

  function ConfigsOf(airports: seq<Airport>): (cfgs: seq<AirportConfig>)
    ensures |cfgs| == |airports| && forall k :: 0 <= k < |airports| ==> cfgs[k] == ConfigOf(airports[k])
  {
    seq(|airports|, k requires 0 <= k < |airports| => ConfigOf(airports[k]))
  }

  function Leds(airports: seq<Airport>): (leds: seq<RgbLed>)
    ensures |leds| == |airports| && forall k :: 0 <= k < |airports| ==> leds[k] == airports[k].led
  {
    seq(|airports|, k requires 0 <= k < |airports| => airports[k].led)
  }

  /** One more loaded airport: its configuration comes after those of the
      others, and its yellow writes after theirs. */
  lemma LoadedSnoc(airports: seq<Airport>, a: Airport, brightness: Brightness, d0: map<RgbLed, int>)
    ensures ConfigsOf(airports + [a]) == ConfigsOf(airports) + [ConfigOf(a)]
    ensures AllWrites(Leds(airports + [a]), YELLOW, brightness)
         == AllWrites(Leds(airports), YELLOW, brightness) + a.led.Writes(YELLOW, brightness)
    ensures Paint(d0, Leds(airports + [a]), YELLOW) == Paint(d0, Leds(airports), YELLOW)[a.led := YELLOW]
  {
    assert Leds(airports + [a])[..|airports|] == Leds(airports);
  }

  function SnapshotsOf(airports: seq<Airport>): (s: seq<Snapshot>)
    reads airports
    ensures |s| == |airports| && forall k :: 0 <= k < |airports| ==> s[k] == airports[k].Snap()
  {
    if airports == [] then [] else SnapshotsOf(airports[..|airports| - 1]) + [airports[|airports| - 1].Snap()]
  }

  /** Distinct airports with distinct LEDs, as loading creates them. */
  ghost predicate Distinct(airports: seq<Airport>)
  {
    forall i, j :: 0 <= i < j < |airports| ==> airports[i] != airports[j] && airports[i].led != airports[j].led
  }

  /** The airports from index `start` on were built, in order, from the
      first `i` configurations, all still UNKNOWN and showing yellow, their
      yellow writes came after `t0`, and the LEDs show `d0` with theirs
      turned yellow. */
  ghost predicate Loaded(airports: seq<Airport>, start: nat, i: nat, cfgs: seq<AirportConfig>, t0: seq<Event>,
                         d0: map<RgbLed, int>, brightness: Brightness, w: World)
    reads airports, w
  {
    && |airports| == start + i && i <= |cfgs|
    && ConfigsOf(airports[start..]) == cfgs[..i]
    && (forall j :: start <= j < |airports| ==> airports[j].category == Unknown && airports[j].Consistent(w))
    && w.trace == t0 + AllWrites(Leds(airports[start..]), YELLOW, brightness)
    && w.display == Paint(d0, Leds(airports[start..]), YELLOW)
  }

  /** Appending an airport made from the next configuration keeps the airports loaded. */
  lemma LoadedAppend(prev: seq<Airport>, a: Airport, start: nat, i: nat, cfgs: seq<AirportConfig>,
                     t0: seq<Event>, d0: map<RgbLed, int>, brightness: Brightness, w: World)
    requires |prev| == start + i && i < |cfgs|
    requires ConfigsOf(prev[start..]) == cfgs[..i]
    requires forall j :: start <= j < |prev| ==> prev[j].category == Unknown && prev[j].Consistent(w)
    requires ConfigOf(a) == cfgs[i] && a.category == Unknown && a.Consistent(w)
    requires w.trace == t0 + AllWrites(Leds(prev[start..]), YELLOW, brightness) + a.led.Writes(YELLOW, brightness)
    requires w.display == Paint(d0, Leds(prev[start..]), YELLOW)[a.led := YELLOW]
    ensures Loaded(prev + [a], start, i + 1, cfgs, t0, d0, brightness, w)
  {
    var all := prev + [a];
    LoadedSnoc(prev[start..], a, brightness, d0);
    assert all[start..] == prev[start..] + [a];
    assert cfgs[..i + 1] == cfgs[..i] + [cfgs[i]];
    assert forall j :: start <= j < |all| ==> all[j] == if j < |prev| then prev[j] else a;
  }

  /** Appending an airport and LED different from all others keeps them distinct. */
  lemma DistinctAppend(prev: seq<Airport>, a: Airport)
    requires Distinct(prev)
    requires forall j :: 0 <= j < |prev| ==> prev[j] != a && prev[j].led != a.led
    ensures Distinct(prev + [a])
  {
  }

  /** Part way through a poll cycle over `snaps`: the first `i` airports have
      been updated, in order, with the outcomes `outs` (the k-th numbering its
      requests from `starts[k]`), so the airports now hold `now`, the effects
      so far follow `t0` and the LEDs show the repainting of `d0`. */
  ghost predicate Stage(now: seq<Snapshot>, trace: seq<Event>, requests: nat, display: map<RgbLed, int>,
                        i: nat, reply: (nat, string) -> Fetch, brightness: Brightness,
                        snaps: seq<Snapshot>, n: nat, outs: seq<Outcome>, starts: seq<nat>,
                        t0: seq<Event>, d0: map<RgbLed, int>)
  {
    && i <= |snaps| && |now| == |snaps| && |outs| == i
    && Chain(snaps, n, Updater(reply, brightness), outs, starts)
    && trace == t0 + EventsOf(outs) && requests == starts[i]
    && display == Repaint(d0, snaps[..i], CategoriesOf(outs))
    && (forall k :: 0 <= k < |now| ==>
          now[k] == if k < i then snaps[k].(category := CategoriesOf(outs)[k]) else snaps[k])
  }

  /** Nothing is updated at the start of a cycle. */
  lemma StageStart(snaps: seq<Snapshot>, trace: seq<Event>, requests: nat, display: map<RgbLed, int>,
                   reply: (nat, string) -> Fetch, brightness: Brightness)
    ensures Stage(snaps, trace, requests, display, 0, reply, brightness, snaps, requests, [], [requests], trace, display)
  {
    assert snaps[..0] == [];
  }

  /** Updating airport `i`: its outcome joins the chain, its effects the
      trace, its category the airports' state and its repaint the LEDs. */
  lemma StageNext(now: seq<Snapshot>, trace: seq<Event>, requests: nat, display: map<RgbLed, int>,
                  i: nat, reply: (nat, string) -> Fetch, brightness: Brightness,
                  snaps: seq<Snapshot>, n: nat, outs: seq<Outcome>, starts: seq<nat>,
                  t0: seq<Event>, d0: map<RgbLed, int>,
                  o: Outcome, now': seq<Snapshot>, trace': seq<Event>, requests': nat, display': map<RgbLed, int>)
    requires Stage(now, trace, requests, display, i, reply, brightness, snaps, n, outs, starts, t0, d0)
    requires i < |snaps| && o == Step(snaps[i], requests, reply, brightness)
    requires now' == now[i := snaps[i].(category := o.category)]
    requires trace' == trace + o.events && requests' == requests + o.requests
    requires display' == if o.category == snaps[i].category then display
                         else display[snaps[i].led := ColorOf(o.category)]
    ensures Stage(now', trace', requests', display', i + 1, reply, brightness,
                  snaps, n, outs + [o], starts + [requests'], t0, d0)
  {
    var step := Updater(reply, brightness);
    assert o == step(snaps[i], starts[i]);
    TakeOneMore(snaps, i);
    ChainSnoc(snaps, n, step, outs, starts, o);
    EventsOfSnoc(outs, o);
    AppendAssoc(t0, EventsOf(outs), o.events);
    CategoriesOfSnoc(outs, o);
    RepaintSnoc(d0, snaps[..i], CategoriesOf(outs), snaps[i], o.category);
  }

  /** When every airport has been updated, the effects, categories and
      colours are those of the poll cycle. */
  lemma StageDone(now: seq<Snapshot>, trace: seq<Event>, requests: nat, display: map<RgbLed, int>,
                  reply: (nat, string) -> Fetch, brightness: Brightness,
                  snaps: seq<Snapshot>, n: nat, outs: seq<Outcome>, starts: seq<nat>,
                  t0: seq<Event>, d0: map<RgbLed, int>)
    requires Stage(now, trace, requests, display, |snaps|, reply, brightness, snaps, n, outs, starts, t0, d0)
    ensures var c := Poll(snaps, n, Updater(reply, brightness));
      && trace == t0 + c.events
      && requests == n + c.requests
      && (forall k :: 0 <= k < |now| ==> now[k] == snaps[k].(category := c.categories[k]))
      && display == Repaint(d0, snaps, c.categories)
  {
    ChainPoll(snaps, n, Updater(reply, brightness), outs, starts);
    assert snaps[..|outs|] == snaps;
  }

  /** AirportManager: the airports in configuration-file order. */
  class AirportManager {
    var airports: seq<Airport>

    /** Distinct airports with distinct LEDs, as loading creates them. */
    ghost predicate Valid()
      reads this
    {
      Distinct(airports)
    }

    constructor ()
      ensures airports == [] && Valid()
    {
      airports := [];
    }

    /** The state of the airports, in list order. */
    function Snapshots(): (s: seq<Snapshot>)
      reads this, airports
      ensures |s| == |airports| && forall k :: 0 <= k < |airports| ==> s[k] == airports[k].Snap()
    {
      SnapshotsOf(airports)
    }

    ghost predicate LoadedFrom(start: nat, i: nat, cfgs: seq<AirportConfig>, t0: seq<Event>,
                               d0: map<RgbLed, int>, brightness: Brightness, w: World)
      reads this, airports, w
    {
      Loaded(airports, start, i, cfgs, t0, d0, brightness, w)
    }

    /** One iteration of load_airports: from_config_line on line `i`, and
        the append when it returns. */
    method LoadStep(lines: seq<string>, i: nat, boards: BoardManager, brightness: Brightness, w: World,
                    ghost start: nat, ghost cfgs: seq<AirportConfig>, ghost t0: seq<Event>,
                    ghost d0: map<RgbLed, int>)
      returns (made: Result<Airport, ConfigError>)
      requires Valid() && i < |lines|
      requires LoadedFrom(start, i, cfgs, t0, d0, brightness, w)
      requires ParseLine(lines[i], boards.boards, boards.controllers).Ok? <==> i < |cfgs|
      requires i < |cfgs| ==> ParseLine(lines[i], boards.boards, boards.controllers).value == cfgs[i]
      modifies this, w
      ensures Valid()
      ensures made.Err? ==> && i == |cfgs| && made.error == ParseLine(lines[i], boards.boards, boards.controllers).error
                            && airports == old(airports) && LoadedFrom(start, i, cfgs, t0, d0, brightness, w)
      ensures made.Ok? ==> && airports == old(airports) + [made.value] && fresh(made.value) && fresh(made.value.led)
                           && LoadedFrom(start, i + 1, cfgs, t0, d0, brightness, w)
      ensures w.requests == old(w.requests) && w.associations == old(w.associations)
    {
      made := FromConfigLine(lines[i], boards, brightness, w);
      if made.Err? {
        return;
      }
      var a := made.value;
      forall j | start <= j < |airports|
        ensures airports[j].Consistent(w)
      {
        assert airports[j].led != a.led;
      }
      Append(a, brightness, w, start, i, cfgs, t0, d0);
    }

    /** The append of load_airports, for an airport just made from
        configuration `i`. */
    method Append(a: Airport, brightness: Brightness, w: World,
                  ghost start: nat, ghost i: nat, ghost cfgs: seq<AirportConfig>, ghost t0: seq<Event>,
                  ghost d0: map<RgbLed, int>)
      requires Valid() && |airports| == start + i && i < |cfgs|
      requires forall j :: 0 <= j < |airports| ==> airports[j] != a && airports[j].led != a.led
      requires ConfigsOf(airports[start..]) == cfgs[..i]
      requires forall j :: start <= j < |airports| ==> airports[j].category == Unknown && airports[j].Consistent(w)
      requires ConfigOf(a) == cfgs[i] && a.category == Unknown && a.Consistent(w)
      requires w.trace == t0 + AllWrites(Leds(airports[start..]), YELLOW, brightness) + a.led.Writes(YELLOW, brightness)
      requires w.display == Paint(d0, Leds(airports[start..]), YELLOW)[a.led := YELLOW]
      modifies this
      ensures airports == old(airports) + [a]
      ensures Valid() && LoadedFrom(start, i + 1, cfgs, t0, d0, brightness, w)
    {
      ghost var prev := airports;
      airports := airports + [a];
      LoadedAppend(prev, a, start, i, cfgs, t0, d0, brightness, w);
      DistinctAppend(prev, a);
    }

    /** load_airports, on the lines `readlines` returned: one airport per
        line appended in file order, up to the first line that raises. */
    method LoadAirports(lines: seq<string>, boards: BoardManager, brightness: Brightness, w: World)
      returns (r: Result<(), LoadError>)
      requires Valid()
      modifies this, w
      ensures Valid()
      ensures var cfgs := Configs(lines, boards.boards, boards.controllers); var k := |cfgs|;
        && |airports| == |old(airports)| + k && airports[..|old(airports)|] == old(airports)
        && (r == if k == |lines| then Ok(())
                 else Err(LoadError(k, ParseLine(lines[k], boards.boards, boards.controllers).error)))
        && (forall j :: |old(airports)| <= j < |airports| ==> fresh(airports[j]) && fresh(airports[j].led))
        && ConfigsOf(airports[|old(airports)|..]) == cfgs
        && (forall j :: |old(airports)| <= j < |airports| ==>
              airports[j].category == Unknown && airports[j].Consistent(w))
        && w.trace == old(w.trace) + AllWrites(Leds(airports[|old(airports)|..]), YELLOW, brightness)
        && w.display == Paint(old(w.display), Leds(airports[|old(airports)|..]), YELLOW)
      ensures w.requests == old(w.requests) && w.associations == old(w.associations)
    {
      ghost var cfgs := Configs(lines, boards.boards, boards.controllers);
      r := LoadLines(lines, boards, brightness, w, cfgs);
      assert cfgs[..|cfgs|] == cfgs;
    }

    /** The loop of load_airports: every configuration is loaded, and the
        result reports the first line that raised, if any. */
    method LoadLines(lines: seq<string>, boards: BoardManager, brightness: Brightness, w: World,
                     ghost cfgs: seq<AirportConfig>)
      returns (r: Result<(), LoadError>)
      requires Valid() && cfgs == Configs(lines, boards.boards, boards.controllers)
      modifies this, w
      ensures Valid() && |old(airports)| <= |airports| && airports[..|old(airports)|] == old(airports)
      ensures LoadedFrom(|old(airports)|, |cfgs|, cfgs, old(w.trace), old(w.display), brightness, w)
      ensures forall j :: |old(airports)| <= j < |airports| ==> fresh(airports[j]) && fresh(airports[j].led)
      ensures r == if |cfgs| == |lines| then Ok(())
                   else Err(LoadError(|cfgs|, ParseLine(lines[|cfgs|], boards.boards, boards.controllers).error))
      ensures w.requests == old(w.requests) && w.associations == old(w.associations)
    {
      var start := |airports|;
      assert airports[start..] == [];
      for i := 0 to |lines|
        invariant Valid() && LoadedFrom(start, i, cfgs, old(w.trace), old(w.display), brightness, w)
        invariant airports[..start] == old(airports)
        invariant forall j :: start <= j < |airports| ==> fresh(airports[j]) && fresh(airports[j].led)
        invariant w.requests == old(w.requests) && w.associations == old(w.associations)
      {
        ConfigsAt(lines, i, boards.boards, boards.controllers);
        var made := LoadStep(lines, i, boards, brightness, w, start, cfgs, old(w.trace), old(w.display));
        if made.Err? {
          return Err(LoadError(i, made.error));
        }
      }
      r := Ok(());
    }

    /** The airports before `i` have been updated, in order, with the
        outcomes `outs`; the others still hold their snapshot. */
    ghost predicate Progress(i: nat, brightness: Brightness, w: World, snaps: seq<Snapshot>, n: nat,
                             outs: seq<Outcome>, starts: seq<nat>, t0: seq<Event>, d0: map<RgbLed, int>)
      reads this, airports, w
    {
      Stage(SnapshotsOf(airports), w.trace, w.requests, w.display, i, w.reply, brightness, snaps, n, outs, starts, t0, d0)
    }

    /** update_flight_category on the airport at index `i`: its outcome is
        the update of its snapshot, and no other airport changes. */
    method UpdateOne(i: nat, brightness: Brightness, w: World) returns (ghost o: Outcome)
      requires Valid() && i < |airports|
      modifies airports[i], w
      ensures var before := old(SnapshotsOf(airports));
        && o == Step(before[i], old(w.requests), w.reply, brightness)
        && SnapshotsOf(airports) == before[i := before[i].(category := o.category)]
      ensures w.trace == old(w.trace) + o.events && w.requests == old(w.requests) + o.requests
      ensures w.display == if o.category == old(airports[i].category) then old(w.display)
                           else old(w.display)[airports[i].led := ColorOf(o.category)]
      ensures w.associations == old(w.associations)
    {
      ghost var now := SnapshotsOf(airports);
      o := Step(now[i], w.requests, w.reply, brightness);
      airports[i].Update(brightness, w);
      ghost var now' := now[i := now[i].(category := o.category)];
      forall k | 0 <= k < |airports|
        ensures SnapshotsOf(airports)[k] == now'[k]
      {
        if k != i {
          assert airports[k] != airports[i];
        }
      }
      assert SnapshotsOf(airports) == now';
    }

    /** One iteration of update_airport_flight_categories. */
    method UpdateAt(i: nat, brightness: Brightness, w: World, ghost snaps: seq<Snapshot>, ghost n: nat,
                    ghost outs: seq<Outcome>, ghost starts: seq<nat>, ghost t0: seq<Event>, ghost d0: map<RgbLed, int>)
      returns (ghost o: Outcome)
      requires Valid() && i < |airports|
      requires Progress(i, brightness, w, snaps, n, outs, starts, t0, d0)
      modifies airports[i], w
      ensures Progress(i + 1, brightness, w, snaps, n, outs + [o], starts + [w.requests], t0, d0)
      ensures w.associations == old(w.associations)
    {
      ghost var now := SnapshotsOf(airports);
      ghost var trace, requests, display := w.trace, w.requests, w.display;
      assert now[i] == snaps[i];
      o := UpdateOne(i, brightness, w);
      StageNext(now, trace, requests, display, i, w.reply, brightness, snaps, n, outs, starts, t0, d0,
                o, SnapshotsOf(airports), w.trace, w.requests, w.display);
    }

    /** The loop of update_airport_flight_categories: each airport updated
        once, in list order. */
    method UpdateEach(brightness: Brightness, w: World)
      returns (ghost outs: seq<Outcome>, ghost starts: seq<nat>)
      requires Valid()
      modifies airports, w
      ensures airports == old(airports)
      ensures Progress(|airports|, brightness, w, old(SnapshotsOf(airports)), old(w.requests), outs, starts,
                       old(w.trace), old(w.display))
      ensures w.associations == old(w.associations)
    {
      ghost var snaps := SnapshotsOf(airports);
      ghost var n, t0, d0 := w.requests, w.trace, w.display;
      outs, starts := [], [n];
      StageStart(snaps, w.trace, w.requests, w.display, w.reply, brightness);
      for i := 0 to |airports|
        invariant Progress(i, brightness, w, snaps, n, outs, starts, t0, d0)
        invariant w.associations == old(w.associations)
      {
        var o := UpdateAt(i, brightness, w, snaps, n, outs, starts, t0, d0);
        outs := outs + [o];
        starts := starts + [w.requests];
      }
    }

    /** update_airport_flight_categories: the cycle is the poll cycle of
        update_flight_category over the airports' states before it. */
    method UpdateAll(brightness: Brightness, w: World)
      requires Valid()
      modifies airports, w
      ensures Valid() && airports == old(airports)
      ensures var c := Poll(old(Snapshots()), old(w.requests), Updater(w.reply, brightness));
        && w.trace == old(w.trace) + c.events
        && w.requests == old(w.requests) + c.requests
        && (forall k :: 0 <= k < |airports| ==> airports[k].category == c.categories[k])
        && w.display == Repaint(old(w.display), old(Snapshots()), c.categories)
      ensures w.associations == old(w.associations)
    {
      ghost var snaps := Snapshots();
      ghost var n, t0, d0 := w.requests, w.trace, w.display;
      ghost var outs, starts := UpdateEach(brightness, w);
      ghost var now := SnapshotsOf(airports);
      StageDone(now, w.trace, w.requests, w.display, w.reply, brightness, snaps, n, outs, starts, t0, d0);
    }
  }
}
