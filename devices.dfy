/**
 * The hardware and everything else outside the core: I2C controllers and
 * LED driver boards (only their identity and their set-output operation),
 * RGB LEDs (class RGBLED), and a `World` that records every observable
 * effect in order and answers the HTTP requests and Wi-Fi connection
 * attempts from fixed oracles.
 */
module Devices {
  import opened Wrappers
  import opened Palette
  import opened Metar

  /** An I2C bus controller; the source compares controllers by identity only. */
  class Controller {
    constructor ()
    {
    }
  }

  /** The outcome of one `wifi.radio.connect`: success, ConnectionError, or any other exception. */
  datatype Radio = Joined | Refused | Faulted

  /** An observable effect. */
  datatype Event =
    | SetCurrent(board: DriverBoard, pin: int, value: int)  // set_constant_current on a driver board
    | Request(url: string)                                  // an HTTP GET
    | Close(request: nat)                                   // close of the response to that request (serial number)
    | TryingAlternate(code: string, alternate: string)      // console: "Trying alternate for ..."
    | UpdateError(code: string)                             // console: "[Error (code)] ..."
    | AttemptingWifi(attempt: nat)                          // console: "Attempting to connect to WIFI ..."
    | Associate                                             // a wifi.radio.connect call
    | WifiConnected                                         // console: "Connected to WIFI"

  /** The world outside the core. */
  class World {
    /** The answer to the request with a given serial number (0, 1, ...) for a URL. */
    const reply: (nat, string) -> Fetch
    /** The outcome of the connection attempt with a given serial number. */
    const radio: nat -> Radio
    var trace: seq<Event>
    var requests: nat
    var associations: nat
    /** The colour each LED shows: the colour of the last set_color on it. */
    ghost var display: map<RgbLed, int>

    constructor (reply: (nat, string) -> Fetch, radio: nat -> Radio)
      ensures this.reply == reply && this.radio == radio
      ensures trace == [] && requests == 0 && associations == 0 && display == map[]
    {
      this.reply := reply;
      this.radio := radio;
      trace, requests, associations := [], 0, 0;
      display := map[];
    }

    /** The colour an LED shows, if it has been set. */
    ghost function Shown(led: RgbLed): Option<int>
      reads this
    {
      if led in display then Some(display[led]) else None
    }

    /** `requests_session.get(url)`. */
    method Get(url: string) returns (f: Fetch)
      modifies this
      ensures f == reply(old(requests), url)
      ensures requests == old(requests) + 1 && trace == old(trace) + [Request(url)]
      ensures associations == old(associations) && display == old(display)
    {
      f := reply(requests, url);
      requests := requests + 1;
      trace := trace + [Request(url)];
    }

    /** `wifi.radio.connect(...)`. */
    method Connect() returns (o: Radio)
      modifies this
      ensures o == radio(old(associations))
      ensures associations == old(associations) + 1 && trace == old(trace) + [Associate]
      ensures requests == old(requests) && display == old(display)
    {
      o := radio(associations);
      associations := associations + 1;
      trace := trace + [Associate];
    }

    /** Records an effect that needs no answer (a console line, a response close). */
    method Emit(e: Event)
      modifies this
      ensures trace == old(trace) + [e]
      ensures requests == old(requests) && associations == old(associations) && display == old(display)
    {
      trace := trace + [e];
    }
  }

  /** LEDDriverBoard: a driver chip at an address on a controller. */
  class DriverBoard {
    const controller: Controller
    const addr: int

    constructor (controller: Controller, addr: int)
      ensures this.controller == controller && this.addr == addr
    {
      this.controller := controller;
      this.addr := addr;
    }

    /** `set_constant_current(pin, value)`. */
    method SetConstantCurrent(pin: int, value: int, w: World)
      modifies w
      ensures w.trace == old(w.trace) + [SetCurrent(this, pin, value)]
      ensures w.requests == old(w.requests) && w.associations == old(w.associations)
      ensures w.display == old(w.display)
    {
      w.Emit(SetCurrent(this, pin, value));
    }
  }

  /** RGBLED: three output pins of one driver board. */
  class RgbLed {
    const host: DriverBoard
    const redPin: int
    const greenPin: int
    const bluePin: int

    constructor (host: DriverBoard, redPin: int, greenPin: int, bluePin: int)
      ensures this.host == host && this.redPin == redPin
      ensures this.greenPin == greenPin && this.bluePin == bluePin
    {
      this.host := host;
      this.redPin, this.greenPin, this.bluePin := redPin, greenPin, bluePin;
    }

    /** The three writes set_color makes: red pin, green pin, blue pin, each
        with its channel of the colour scaled by the brightness. */
    function Writes(color: int, brightness: Brightness): seq<Event>
    {
      [ SetCurrent(host, redPin, Scale(Red(color), brightness)),
        SetCurrent(host, greenPin, Scale(Green(color), brightness)),
        SetCurrent(host, bluePin, Scale(Blue(color), brightness)) ]
    }

    /** At full brightness the three values written put the colour back
        together; with a brightness in [0, 1] a 24-bit colour writes bytes. */
    lemma WritesDecompose(color: int, brightness: Brightness)
      ensures |Writes(color, brightness)| == 3
      ensures forall e :: e in Writes(color, brightness) ==> e.SetCurrent? && e.board == host
      ensures Writes(color, brightness)[0].pin == redPin
      ensures Writes(color, brightness)[1].pin == greenPin
      ensures Writes(color, brightness)[2].pin == bluePin
      ensures brightness.num == brightness.den ==>
        Writes(color, brightness)[0].value * 0x10000 + Writes(color, brightness)[1].value * 0x100
          + Writes(color, brightness)[2].value == color
      ensures 0 <= color < 0x100_0000 && 0 <= brightness.num <= brightness.den ==>
        forall e :: e in Writes(color, brightness) ==> 0 <= e.value < 0x100
    {
      SplitJoin(color);
      if brightness.num == brightness.den {
        FullBrightness(Red(color), brightness.den);
        FullBrightness(Green(color), brightness.den);
        FullBrightness(Blue(color), brightness.den);
      }
      if 0 <= color < 0x100_0000 && 0 <= brightness.num <= brightness.den {
        ScaleWithinChannel(Red(color), brightness);
        ScaleWithinChannel(Green(color), brightness);
        ScaleWithinChannel(Blue(color), brightness);
      }
    }

    /** RGBLED.set_color. */
    method SetColor(color: int, brightness: Brightness, w: World)
      modifies w
      ensures w.trace == old(w.trace) + Writes(color, brightness)
      ensures w.display == old(w.display)[this := color]
      ensures w.requests == old(w.requests) && w.associations == old(w.associations)
    {
      var r := color / 0x10000;
      var g := (color % 0x10000) / 0x100;
      var b := color % 0x100;
      host.SetConstantCurrent(redPin, Scale(r, brightness), w);
      host.SetConstantCurrent(greenPin, Scale(g, brightness), w);
      host.SetConstantCurrent(bluePin, Scale(b, brightness), w);
      w.display := w.display[this := color];
    }
  }

  /** The writes of set_color with one colour on each LED in turn. */
  function AllWrites(leds: seq<RgbLed>, color: int, brightness: Brightness): seq<Event>
  {
    if leds == [] then []
    else AllWrites(leds[..|leds| - 1], color, brightness) + leds[|leds| - 1].Writes(color, brightness)
  }

  /** Three writes per LED, the k-th LED's writes in the k-th block of three. */
  lemma {:induction false} AllWritesLayout(leds: seq<RgbLed>, color: int, brightness: Brightness)
    ensures |AllWrites(leds, color, brightness)| == 3 * |leds|
    ensures forall k :: 0 <= k < |leds| ==>
      AllWrites(leds, color, brightness)[3 * k..3 * k + 3] == leds[k].Writes(color, brightness)
  {
    if leds != [] {
      var init := leds[..|leds| - 1];
      AllWritesLayout(init, color, brightness);
      var all := AllWrites(leds, color, brightness);
      assert all == AllWrites(init, color, brightness) + leds[|leds| - 1].Writes(color, brightness);
      forall k | 0 <= k < |leds|
        ensures all[3 * k..3 * k + 3] == leds[k].Writes(color, brightness)
      {
        if k < |leds| - 1 {
          assert leds[k] == init[k];
          assert all[3 * k..3 * k + 3] == AllWrites(init, color, brightness)[3 * k..3 * k + 3];
        }
      }
    }
  }

  /** The colours shown after set_color with one colour on each LED in turn. */
  ghost function Paint(display: map<RgbLed, int>, leds: seq<RgbLed>, color: int): map<RgbLed, int>
  {
    if leds == [] then display
    else Paint(display, leds[..|leds| - 1], color)[leds[|leds| - 1] := color]
  }

  /** Every painted LED shows the colour; every other LED keeps what it showed. */
  lemma {:induction false} PaintSpec(display: map<RgbLed, int>, leds: seq<RgbLed>, color: int)
    ensures Paint(display, leds, color).Keys == display.Keys + set l | l in leds
    ensures forall l :: l in leds ==> Paint(display, leds, color)[l] == color
    ensures forall l :: l in display && l !in leds ==> Paint(display, leds, color)[l] == display[l]
  {
    if leds != [] {
      var init := leds[..|leds| - 1];
      PaintSpec(display, init, color);
      assert leds == init + [leds[|leds| - 1]];
      assert (set l | l in leds) == (set l | l in init) + {leds[|leds| - 1]};
    }
  }
}
