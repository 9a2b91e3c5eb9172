/**
 * class Map: showing one colour on every airport's LED, and connecting to
 * Wi-Fi with up to five attempts, the LEDs turned Wi-Fi blue before each.
 */
module Display {
  import opened Wrappers
  import opened Palette
  import opened Devices
  import opened Airports

  /** Painting the same LEDs with the same colour again changes nothing. */
  lemma PaintAgain(display: map<RgbLed, int>, leds: seq<RgbLed>, color: int)
    ensures Paint(Paint(display, leds, color), leds, color) == Paint(display, leds, color)
  {
    var once := Paint(display, leds, color);
    PaintSpec(display, leds, color);
    PaintSpec(once, leds, color);
    var twice := Paint(once, leds, color);
    assert twice.Keys == once.Keys;
    forall l | l in twice
      ensures twice[l] == once[l]
    {
    }
  }

  /** One more airport painted: its writes come last, and its LED is updated last. */
  lemma PaintStep(airports: seq<Airport>, i: nat, display: map<RgbLed, int>, color: int, brightness: Brightness)
    requires i < |airports|
    ensures AllWrites(Leds(airports[..i + 1]), color, brightness)
         == AllWrites(Leds(airports[..i]), color, brightness) + airports[i].led.Writes(color, brightness)
    ensures Paint(display, Leds(airports[..i + 1]), color)
         == Paint(display, Leds(airports[..i]), color)[airports[i].led := color]
  {
    var leds := Leds(airports[..i + 1]);
    assert leds[..i] == Leds(airports[..i]);
  }

  /** Whether `wifi.radio.connect` ended in success, in a give-up after the
      last ConnectionError, or in another exception, which propagates. */
  datatype WifiResult = Connected | GaveUp | Raised

  /** `range(1, 6)`: the number of connection attempts. */
  const WIFI_ATTEMPTS: nat := 5

  /** The attempts connect_wifi makes from attempt `j` (counted from 0) on,
      the first of them being connection attempt `a + j` of the radio. */
  function TriesFrom(radio: nat -> Radio, a: nat, j: nat): (n: nat)
    ensures j < WIFI_ATTEMPTS ==> 1 <= n <= WIFI_ATTEMPTS - j
    decreases WIFI_ATTEMPTS - j
  {
    if j >= WIFI_ATTEMPTS then 0
    else if radio(a + j) != Refused then 1
    else 1 + TriesFrom(radio, a, j + 1)
  }

  /** How connect_wifi ends from attempt `j` on. */
  function OutcomeFrom(radio: nat -> Radio, a: nat, j: nat): (r: WifiResult)
    ensures r == GaveUp ==> forall i :: a + j <= i < a + WIFI_ATTEMPTS ==> radio(i) == Refused
    decreases WIFI_ATTEMPTS - j
  {
    if j >= WIFI_ATTEMPTS then GaveUp
    else match radio(a + j)
      case Joined => Connected
      case Faulted => Raised
      case Refused => OutcomeFrom(radio, a, j + 1)
  }

  /** The number of attempts connect_wifi makes when the radio's next attempt is `a`. */
  function Tries(radio: nat -> Radio, a: nat): (n: nat)
    ensures 1 <= n <= WIFI_ATTEMPTS
  {
    TriesFrom(radio, a, 0)
  }

  /** What connect_wifi returns (or raises) when the radio's next attempt is `a`. */
  function WifiOutcome(radio: nat -> Radio, a: nat): (r: WifiResult)
    ensures r == GaveUp ==> forall i :: a <= i < a + WIFI_ATTEMPTS ==> radio(i) == Refused
  {
    OutcomeFrom(radio, a, 0)
  }

  /** The effects of the first `k` attempts: the LEDs turned Wi-Fi blue, the
      attempt announced with its number, then the connection attempt. */
  function Rounds(leds: seq<RgbLed>, brightness: Brightness, k: nat): seq<Event>
  {
    if k == 0 then []
    else Rounds(leds, brightness, k - 1) + AllWrites(leds, WIFI_BLUE, brightness) + [AttemptingWifi(k), Associate]
  }


  /** After `j` refused attempts from the radio's attempt `a` on: the
      connection count and the effects so far. */
  ghost predicate Tried(radio: nat -> Radio, a: nat, j: nat, associations: nat, trace: seq<Event>,
                        t0: seq<Event>, leds: seq<RgbLed>, brightness: Brightness)
  {
    && associations == a + j
    && trace == t0 + Rounds(leds, brightness, j)
    && forall i :: a <= i < a + j ==> radio(i) == Refused
  }

  /** A refused attempt leads on to the next. */
  lemma TriedNext(radio: nat -> Radio, a: nat, j: nat, t0: seq<Event>, leds: seq<RgbLed>, brightness: Brightness,
                  associations: nat, trace: seq<Event>)
    requires radio(associations) == Refused
    requires Tried(radio, a, j, associations, trace, t0, leds, brightness)
    ensures Tried(radio, a, j + 1, associations + 1,
                  trace + AllWrites(leds, WIFI_BLUE, brightness) + [AttemptingWifi(j + 1), Associate],
                  t0, leds, brightness)
  {
  }

  /** An attempt answered otherwise is the last. */
  lemma TriedLast(radio: nat -> Radio, a: nat, j: nat, t0: seq<Event>, leds: seq<RgbLed>, brightness: Brightness,
                  associations: nat, trace: seq<Event>)
    requires j < WIFI_ATTEMPTS && radio(associations) != Refused
    requires Tried(radio, a, j, associations, trace, t0, leds, brightness)
    ensures associations + 1 == a + Tries(radio, a)
    ensures WifiOutcome(radio, a) == if radio(associations) == Joined then Connected else Raised
    ensures trace + AllWrites(leds, WIFI_BLUE, brightness) + [AttemptingWifi(j + 1), Associate]
         == t0 + Rounds(leds, brightness, Tries(radio, a))
  {
    FirstAnswer(radio, a, j);
  }

  /** Five refusals: connect_wifi gives up. */
  lemma TriedAll(radio: nat -> Radio, a: nat, t0: seq<Event>, leds: seq<RgbLed>, brightness: Brightness,
                 associations: nat, trace: seq<Event>)
    requires Tried(radio, a, WIFI_ATTEMPTS, associations, trace, t0, leds, brightness)
    ensures Tries(radio, a) == WIFI_ATTEMPTS && WifiOutcome(radio, a) == GaveUp
    ensures associations == a + Tries(radio, a) && trace == t0 + Rounds(leds, brightness, Tries(radio, a))
  {
    AllRefused(radio, a);
  }

  /** From attempt `j` on, the attempts run up to the first answer other than
      ConnectionError, and at most up to the fifth; that answer decides the
      outcome, and five refusals give up. */
  lemma {:induction false} OutcomeFromSpec(radio: nat -> Radio, a: nat, j: nat)
    requires j <= WIFI_ATTEMPTS
    ensures j + TriesFrom(radio, a, j) <= WIFI_ATTEMPTS
    ensures j < WIFI_ATTEMPTS ==> TriesFrom(radio, a, j) >= 1
    ensures forall i :: a + j <= i < a + j + TriesFrom(radio, a, j) - 1 ==> radio(i) == Refused
    ensures var last := a + j + TriesFrom(radio, a, j) - 1;
      && (OutcomeFrom(radio, a, j) == Connected <==> TriesFrom(radio, a, j) >= 1 && radio(last) == Joined)
      && (OutcomeFrom(radio, a, j) == Raised <==> TriesFrom(radio, a, j) >= 1 && radio(last) == Faulted)
      && (OutcomeFrom(radio, a, j) == GaveUp ==> j + TriesFrom(radio, a, j) == WIFI_ATTEMPTS)
    decreases WIFI_ATTEMPTS - j
  {
    if j < WIFI_ATTEMPTS && radio(a + j) == Refused {
      OutcomeFromSpec(radio, a, j + 1);
    }
  }

  /** connect_wifi makes one to five attempts; all but the last were refused
      with ConnectionError; it returns True exactly when the last one
      succeeded, raises exactly when the last one failed otherwise, and
      returns False only after five refusals. */
  lemma WifiSpec(radio: nat -> Radio, a: nat)
    ensures 1 <= Tries(radio, a) <= WIFI_ATTEMPTS
    ensures forall i :: a <= i < a + Tries(radio, a) - 1 ==> radio(i) == Refused
    ensures WifiOutcome(radio, a) == Connected <==> radio(a + Tries(radio, a) - 1) == Joined
    ensures WifiOutcome(radio, a) == Raised <==> radio(a + Tries(radio, a) - 1) == Faulted
    ensures WifiOutcome(radio, a) == GaveUp <==> radio(a + Tries(radio, a) - 1) == Refused
    ensures WifiOutcome(radio, a) == GaveUp ==> Tries(radio, a) == WIFI_ATTEMPTS
  {
    OutcomeFromSpec(radio, a, 0);
  }

  /** From attempt `j` on, with refusals up to attempt `m` and another
      answer there, the attempts stop at `m`. */
  lemma {:induction false} FirstAnswerFrom(radio: nat -> Radio, a: nat, j: nat, m: nat)
    requires j <= m < WIFI_ATTEMPTS
    requires forall i :: a + j <= i < a + m ==> radio(i) == Refused
    requires radio(a + m) != Refused
    ensures TriesFrom(radio, a, j) == m - j + 1
    ensures OutcomeFrom(radio, a, j) == if radio(a + m) == Joined then Connected else Raised
    decreases m - j
  {
    if j < m {
      assert radio(a + j) == Refused;
      FirstAnswerFrom(radio, a, j + 1, m);
    }
  }

  /** From attempt `j` on, refusals up to the last attempt use all of them up. */
  lemma {:induction false} AllRefusedFrom(radio: nat -> Radio, a: nat, j: nat)
    requires j <= WIFI_ATTEMPTS
    requires forall i :: a + j <= i < a + WIFI_ATTEMPTS ==> radio(i) == Refused
    ensures TriesFrom(radio, a, j) == WIFI_ATTEMPTS - j && OutcomeFrom(radio, a, j) == GaveUp
    decreases WIFI_ATTEMPTS - j
  {
    if j < WIFI_ATTEMPTS {
      assert radio(a + j) == Refused;
      AllRefusedFrom(radio, a, j + 1);
    }
  }

  /** The first answer other than ConnectionError ends the attempts: with
      `m` refusals before it, within the five attempts, connect_wifi makes
      `m + 1` attempts and returns True on a success, raises otherwise. */
  lemma FirstAnswer(radio: nat -> Radio, a: nat, m: nat)
    requires m < WIFI_ATTEMPTS
    requires forall i :: a <= i < a + m ==> radio(i) == Refused
    requires radio(a + m) != Refused
    ensures Tries(radio, a) == m + 1
    ensures WifiOutcome(radio, a) == if radio(a + m) == Joined then Connected else Raised
  {
    FirstAnswerFrom(radio, a, 0, m);
  }

  /** Five refusals in a row: connect_wifi makes all five attempts and returns False. */
  lemma AllRefused(radio: nat -> Radio, a: nat)
    requires forall i :: a <= i < a + WIFI_ATTEMPTS ==> radio(i) == Refused
    ensures Tries(radio, a) == WIFI_ATTEMPTS && WifiOutcome(radio, a) == GaveUp
  {
    AllRefusedFrom(radio, a, 0);
  }


  /** Every attempt, up to the `k`-th, comes right after the LEDs were
      turned Wi-Fi blue and the attempt was announced with its number. */
  lemma {:induction false} RoundsPrefix(leds: seq<RgbLed>, brightness: Brightness, i: nat, k: nat)
    requires 1 <= i <= k
    ensures Rounds(leds, brightness, i - 1) + AllWrites(leds, WIFI_BLUE, brightness) + [AttemptingWifi(i), Associate]
            <= Rounds(leds, brightness, k)
  {
    if i < k {
      RoundsPrefix(leds, brightness, i, k - 1);
    }
  }

  /** class Map. */
  class Map {
    const manager: AirportManager

    constructor (manager: AirportManager)
      ensures this.manager == manager
    {
      this.manager := manager;
    }

    /** Map.show_color: set_color with the colour on every airport's LED, in list order. */
    method ShowColor(color: int, brightness: Brightness, w: World)
      modifies w
      ensures w.trace == old(w.trace) + AllWrites(Leds(manager.airports), color, brightness)
      ensures w.display == Paint(old(w.display), Leds(manager.airports), color)
      ensures forall k :: 0 <= k < |manager.airports| ==> w.Shown(manager.airports[k].led) == Some(color)
      ensures w.requests == old(w.requests) && w.associations == old(w.associations)
    {
      var airports := manager.airports;
      for i := 0 to |airports|
        invariant w.trace == old(w.trace) + AllWrites(Leds(airports[..i]), color, brightness)
        invariant w.display == Paint(old(w.display), Leds(airports[..i]), color)
        invariant w.requests == old(w.requests) && w.associations == old(w.associations)
      {
        PaintStep(airports, i, old(w.display), color, brightness);
        airports[i].led.SetColor(color, brightness, w);
      }
      assert airports[..|airports|] == airports;
      PaintSpec(old(w.display), Leds(airports), color);
      forall k | 0 <= k < |airports|
        ensures w.Shown(airports[k].led) == Some(color)
      {
        assert Leds(airports)[k] == airports[k].led;
      }
    }

    /** One attempt of connect_wifi: the LEDs turned Wi-Fi blue, the attempt
        announced, then one `wifi.radio.connect`. */
    method Attempt(attempt: nat, brightness: Brightness, w: World) returns (o: Radio)
      modifies w
      ensures o == w.radio(old(w.associations)) && w.associations == old(w.associations) + 1
      ensures w.trace == old(w.trace) + AllWrites(Leds(manager.airports), WIFI_BLUE, brightness)
                         + [AttemptingWifi(attempt), Associate]
      ensures w.display == Paint(old(w.display), Leds(manager.airports), WIFI_BLUE)
      ensures w.requests == old(w.requests)
    {
      ShowColor(WIFI_BLUE, brightness, w);
      w.Emit(AttemptingWifi(attempt));
      o := w.Connect();
    }

    /** Map.connect_wifi: up to five attempts, each after turning the LEDs
        Wi-Fi blue and announcing the attempt; True at the first success,
        a propagated exception at the first failure other than
        ConnectionError, False after five ConnectionErrors. */
    method ConnectWifi(brightness: Brightness, w: World) returns (r: WifiResult)
      modifies w
      ensures r == WifiOutcome(w.radio, old(w.associations))
      ensures w.associations == old(w.associations) + Tries(w.radio, old(w.associations))
      ensures w.trace == old(w.trace) + Rounds(Leds(manager.airports), brightness, Tries(w.radio, old(w.associations)))
                         + (if r == Connected then [WifiConnected] else [])
      ensures w.display == Paint(old(w.display), Leds(manager.airports), WIFI_BLUE)
      ensures w.requests == old(w.requests)
    {
      var a := w.associations;
      ghost var leds, d0 := Leds(manager.airports), w.display;
      for attempt := 1 to WIFI_ATTEMPTS + 1
        invariant Tried(w.radio, a, attempt - 1, w.associations, w.trace, old(w.trace), leds, brightness)
        invariant attempt == 1 ==> w.display == d0
        invariant attempt > 1 ==> w.display == Paint(d0, leds, WIFI_BLUE)
        invariant w.requests == old(w.requests) && leds == Leds(manager.airports)
      {
        ghost var t, n := w.trace, w.associations;
        var o := Attempt(attempt, brightness, w);
        if attempt > 1 {
          PaintAgain(d0, leds, WIFI_BLUE);
        }
        if o == Joined {
          TriedLast(w.radio, a, attempt - 1, old(w.trace), leds, brightness, n, t);
          w.Emit(WifiConnected);
          return Connected;
        } else if o == Faulted {
          TriedLast(w.radio, a, attempt - 1, old(w.trace), leds, brightness, n, t);
          return Raised;
        }
        TriedNext(w.radio, a, attempt - 1, old(w.trace), leds, brightness, n, t);
      }
      TriedAll(w.radio, a, old(w.trace), leds, brightness, w.associations, w.trace);
      return GaveUp;
    }
  }
}
