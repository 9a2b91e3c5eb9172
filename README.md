# metar-map, modelled in Dafny

metar-map drives a wall map of airports. Each airport has one RGB LED, wired
to three output pins of an LED driver board on an I2C controller. The map
loads its airports from a configuration file, connects to Wi-Fi and then polls
the aviationweather.gov METAR service. Each airport's LED shows the colour of
its flight category: VFR green, MVFR blue, IFR red, LIFR purple, UNKNOWN yellow.

The model covers the program's classes. It follows the shape of each one:

- **Pure logic** becomes functions over datatypes, and lemmas about them:
  - the colour constants and the RGB split (`Palette`);
  - `FlightCategory.from_string` and the colour map (`Categories`);
  - `str.split()` and `int()` on configuration fields (`Text`);
  - the METAR URL, the regular-expression extraction and the primary-then-alternate resolution (`Metar`).
- **Objects that change state** become classes whose methods modify fields:
  - `BoardManager` (`Registry`);
  - `RGBLED`, `LEDDriverBoard` (`Devices`);
  - `Airport`, `AirportManager` (`Airports`);
  - `Map` (`Display`).

The outside world is one `World` object (`Devices.World`):

- **The network and the radio.** Every HTTP GET and every Wi-Fi connection
  attempt is answered by a fixed oracle. The oracle is keyed by the serial
  number of the request or attempt, and for a GET by the URL too.
- **Effects.** Every observable effect is appended, in order, to `trace`:
  - a constant-current write to a driver pin;
  - a request;
  - the close of a response;
  - one of the console lines.
- **LED colours.** A ghost map `display` records the colour each LED last received.

Each loop of the source is a `for` loop in the model, proved against a
specification function:

- `GetBoard` against `BoardFor`;
- `LoadAirports` against `Configs`;
- `UpdateAll` against `Poll`, the cycle of `Step`, which is one `update_flight_category`;
- `ShowColor` against `AllWrites`/`Paint`;
- `ConnectWifi` against `Tries`/`WifiOutcome`/`Rounds`.

The properties the program relies on are lemmas about those functions:

- the category is found on the primary airport, or else on the alternate;
- an error line names the primary airport;
- the LED is rewritten exactly when the category changes, so a repeated update writes nothing;
- every response is closed;
- `connect_wifi` makes between one and five attempts, each after the LEDs turn Wi-Fi blue.

A behaviour of the code worth knowing surfaced while stating the closes:

- Suppose the primary response came back but gave no usable category, and then the alternate request raises.
- `resp` then still holds the primary response.
- So that response is closed twice: once before the alternate is tried, and again in the `finally`.
- `Airports.UpdateCloses` states exactly when this happens.
- This is harmless for a response object whose `close` can be repeated, so it is recorded here and not listed as a finding.

## Model

| member | source | states |
|---|---|---|
| Palette.Red | code.py:126 | `color >> 16`: a byte exactly when the colour lies in [0, 2^24) |
| Palette.Green | code.py:127 | `(color & 0x00FF00) >> 8`: always a byte |
| Palette.Blue | code.py:128 | `color & 0x0000FF`: always a byte |
| Palette.SplitJoin | code.py:126-128 | the three channels `color >> 16`, `(color & 0xFF00) >> 8`, `color & 0xFF` recombine to the colour for every int; green and blue are always bytes, red is a byte exactly when the colour fits in 24 bits |
| Palette.SplitOfBytes | code.py:126-128 | splitting a colour built from three bytes gives those bytes back |
| Palette.Scale | code.py:129-131 | `int(v * brightness)`: the product divided by the brightness denominator and truncated toward zero, so it lies within one step of the exact quotient, on the side of zero |
| Palette.ScaleWithinChannel | code.py:129-131 | with a brightness in [0, 1] the value written for a channel lies between 0 and the channel value |
| Palette.FullBrightness | code.py:129-131 | at brightness 1 the written value is the channel value itself |
| Categories.GetPresent | code.py:159 | `dict.get` on a key of the dictionary returns that key's value |
| Categories.GetAbsent | code.py:159 | `dict.get` on a missing key returns the default |
| Categories.FromString | code.py:152-159 | from_string is the lookup of the string in the five-entry name dictionary, with UNKNOWN as the default |
| Categories.FromStringSpec | code.py:141-159 | from_string gives a known category exactly for "VFR", "MVFR", "IFR", "LIFR", and then the category of that name; every other string is UNKNOWN |
| Categories.FromStringName | code.py:152-159 | from_string of a category's own name is that category |
| Categories.ColorOf | code.py:197-215 | the colour of a category is the lookup of its name in the five-entry colour dictionary, with yellow as the default |
| Categories.ColorTable | code.py:197-215 | VFR green, MVFR blue, IFR red, LIFR purple, UNKNOWN yellow; any string not naming a known category gets yellow, the colour of the category from_string makes of it |
| Categories.ColorsDistinct | code.py:208-214 | two categories get the same colour exactly when they are the same category |
| Categories.ColorsFit | code.py:16-22 | every category colour is a 24-bit value |
| Text.Fields | code.py:193 | `str.split()` with no separator: the maximal runs of non-whitespace characters, in order |
| Text.TokenLenSpec | code.py:193 | the leading run found by the splitter holds no whitespace and ends at whitespace or at the end of the line |
| Text.FieldsAreWords | code.py:193 | every field of `line.split()` is non-empty and free of whitespace |
| Text.FieldsSplitAt | code.py:193 | splitting a line at a whitespace character gives the fields of the left part followed by those of the right part |
| Text.FieldsOfWord | code.py:193 | a single word splits into itself |
| Text.FieldsUnwords | code.py:193 | `" ".join(fs).split() == fs` for any list of non-empty whitespace-free fields |
| Text.ExampleFields | code.py:193 | the example fields joined with spaces split back into the same seven fields |
| Text.FieldsWithNewline | code.py:272-274 | the line terminator kept by `readlines()` adds no field |
| Text.ParseInt | code.py:194-195 | `int(s, base)`: the sign is stripped, then the base-16 prefix, and the rest must be a non-empty run of digits; `None` where Python raises ValueError |
| Text.ParseIntSpec | code.py:194-195 | `int(s, base)` succeeds exactly when `s` is a sign (`""`, `+` or `-`), then for base 16 an optional `0x`/`0X` prefix, then a non-empty run of digits of the base; its value is the digits' value, negated exactly when the sign is `-` |
| Text.DigitsRoundTrip | code.py:194-195 | reading back the digits a natural number is written with gives the number, with no leading zero |
| Text.ParseShow | code.py:194-195 | `int(str(v)) == v` for every int, and likewise in base 16 |
| Text.HexExample | code.py:194 | "58" is 0x58 in base 16 and 58 in base 10; "0x58" parses in base 16 only; "" and "-" raise |
| Metar.MetarUrlInjective | code.py:226 | different airport codes are requested at different URLs |
| Metar.LineEndSpec | code.py:227 | the `.` of the pattern runs up to the first newline or the end of the text |
| Metar.LastCloseSpec | code.py:227 | the closing tag found is the last one in the range, or the range has none |
| Metar.CloseForSpec | code.py:227 | for an opening tag, the closing tag found is the furthest one on the same line, or there is no match from that tag |
| Metar.SearchSpec | code.py:227 | the match found has the leftmost opening tag and, for it, the longest (greedy) capture; no match means the pattern does not occur |
| Metar.Extract | code.py:227 | `re.search(pattern, text).group(1)`: the text between the tags of the first match, or `None` where `.group` is called on no match |
| Metar.ExtractSpec | code.py:227 | `re.search(...).group(1)` fails exactly when the pattern does not occur, and otherwise yields the capture of the match `re.search` reports |
| Metar.ExtractWhole | code.py:227 | a body made of the opening tag, a one-line value and the closing tag yields that value |
| Metar.ExtractGreedy | code.py:227 | with two tag pairs on one line the capture runs from the first opening tag to the last closing tag |
| Metar.GreedyIsUnknown | code.py:227-228 | such a doubled report yields a capture that from_string turns into UNKNOWN |
| Metar.Read | code.py:226-228 | one request's category: `None` when the GET raised or the body has no tag pair, otherwise from_string of the capture |
| Metar.ReadSpec | code.py:226-228 | a request gives no category exactly when it raised or its body has no tag pair |
| Metar.Resolve | code.py:224-241 | a known primary category is kept; otherwise the alternate's category is used, or UNKNOWN when the alternate gives none |
| Metar.FallbackToAlternate | code.py:229-238 | a primary body without the tag sends the update to the alternate, whose VFR report is used |
| Metar.ResolveUnknown | code.py:229-241 | the result is UNKNOWN exactly when the primary gave no known category and the alternate gave none or UNKNOWN |
| Metar.AlternateIgnored | code.py:226-230 | when the primary gives a known category the alternate's answer does not matter |
| Devices.World.Get | code.py:226 | a GET returns the answer for this request's serial number and URL, records the request and changes nothing else |
| Devices.World.Connect | code.py:325 | a connection attempt returns the radio's answer for this attempt's serial number and records it |
| Devices.DriverBoard.constructor | code.py:42-51 | the board keeps its controller and address |
| Devices.DriverBoard.SetConstantCurrent | code.py:67-75 | one pin write is recorded, nothing else changes |
| Devices.RgbLed.constructor | code.py:96-112 | the LED keeps its host board and its three pin numbers |
| Devices.RgbLed.Writes | code.py:126-131 | the writes of set_color: red, green then blue pin, each with its channel scaled by the brightness |
| Devices.RgbLed.WritesDecompose | code.py:126-131 | set_color writes red, green and blue pins in that order on the host board; at full brightness the written values recombine to the colour; a 24-bit colour at brightness in [0, 1] writes bytes |
| Devices.RgbLed.SetColor | code.py:118-131 | the three scaled channel writes are appended to the trace and the LED shows the colour |
| Devices.AllWritesLayout | code.py:301-302 | setting one colour on n LEDs writes 3n values, the k-th LED's three writes in the k-th block |
| Devices.Paint | code.py:301-302 | the colours shown after set_color with one colour on each LED of the list in turn |
| Devices.PaintSpec | code.py:301-302 | after show_color every airport LED shows the colour and every other LED keeps what it showed |
| Registry.PyIndex | code.py:89 | Python list indexing: indices in [-len, len) select an element, negative ones counted from the end; others raise |
| Registry.FirstMatch | code.py:87-91 | the scan of get_board: the first board on the controller at the address, or nothing; never the index error |
| Registry.FirstMatchSpec | code.py:87-91 | get_board's scan finds nothing exactly when no board matches, and otherwise a matching board with none matching before it |
| Registry.BoardFor | code.py:87-91 | get_board: no boards gives None without evaluating the controller index; otherwise a bad index raises and a good one gives the first match on that controller |
| Registry.BoardForSpec | code.py:87-91 | get_board raises exactly when boards exist and the controller index is out of range, and returns None only when no board on that controller has the address |
| Registry.FirstMatchAppend | code.py:83-91 | adding a board changes a lookup only where nothing matched before |
| Registry.BoardManager.constructor | code.py:79-81 | the manager starts with the given controllers and no boards |
| Registry.BoardManager.AddBoard | code.py:83-85 | a fresh board on (controller, addr) is appended and the earlier boards are kept |
| Registry.BoardManager.GetBoard | code.py:87-91 | the loop returns BoardFor of the boards, the controllers, the index and the address: the first matching board, None, or the IndexError |
| Airports.IntField | code.py:194-195 | `int(split_line[k], base)` succeeds exactly when the field exists and parses, raising IndexError for a missing field and ValueError otherwise |
| Airports.ParseFields | code.py:193-195 | from_config_line on the fields, raising at the first failing step in the order Python evaluates them |
| Airports.ParseFieldsSpec | code.py:193-195 | fewer than seven fields raise; a loaded line takes its code, alternate and pin numbers from the fields and its board from get_board |
| Airports.ParseFieldsOk | code.py:193-195 | seven or more fields that parse and name a registered board always load, with exactly those values |
| Airports.ParseLine | code.py:193-195 | from_config_line on a line: ParseFields of its `split()` fields |
| Airports.ExtraFieldsIgnored | code.py:193-195 | only the first seven fields are read |
| Airports.ExtraFieldsInLine | code.py:193-195 | appending further words to a complete line does not change what it loads |
| Airports.BlankLineRaises | code.py:193-194 | a blank line raises IndexError |
| Airports.ExampleConfig | code.py:193-195 | a line with the fields KJFK 0 58 0 1 2 KLGA loads KJFK on the board at 0x58 of controller 0 with pins 0, 1, 2 and alternate KLGA |
| Airports.ExampleLine | code.py:193-195 | the line "KJFK 0 58 0 1 2 KLGA" itself loads that way |
| Airports.PathOfPossible | code.py:224-244 | a kept primary answer came with a body, and an alternate request that raised gives no category |
| Airports.FetchEvents | code.py:224-244 | the effects of the fetch part in order: primary request; its close before the alternate is tried; the notice and alternate request; the error line; the `finally` close of what `resp` holds |
| Airports.UpdateRequests | code.py:226-236 | the primary URL is always requested, and the alternate's exactly when the primary raised, had no tag or was UNKNOWN; the notice comes with it |
| Airports.PathRequests | code.py:226-236 | the requests of one path: the primary URL, then the alternate's when it falls back |
| Airports.PathNotices | code.py:235 | one "Trying alternate" notice, naming the airport, exactly when the path falls back |
| Airports.PathErrors | code.py:239-241 | one error line naming the primary airport exactly when the alternate was tried and failed |
| Airports.UpdateErrors | code.py:239-241 | the error line names the primary airport and appears exactly when the alternate was needed and gave no category; the category is then UNKNOWN |
| Airports.ClosesShape | code.py:232-244 | the responses closed: the primary's before the alternate is tried (if it answered), then whichever response `resp` holds in the `finally` |
| Airports.PathCloses | code.py:232-244 | every response received is closed, nothing else is, at most two closes, and one response closed twice exactly on a fallback whose primary answered and whose alternate raised |
| Airports.UpdateCloses | code.py:224-244 | the same in terms of the two answers: the primary response is closed twice exactly when it needed the alternate and the alternate request raised |
| Airports.FetchWritesNothing | code.py:224-244 | the fetch part writes nothing to the LEDs |
| Airports.Step | code.py:217-248 | update_flight_category as a function of the airport's state and the two answers: the resolved category, the fetch effects followed by the LED writes when the category changed, one or two requests |
| Airports.StepWrites | code.py:246-248 | an update writes the LED, once and with the new category's colour, exactly when the category changes |
| Airports.UpdateIdempotent | code.py:246-248 | a second update with the same answers keeps the category and writes nothing |
| Airports.FallbackPath | code.py:226-238 | a tagless primary and a VFR alternate take the fallback path with both responses received, and give VFR |
| Airports.StepLog | code.py:235-241 | the console lines of an update are those of its fetch part |
| Airports.FallbackScenario | code.py:217-248 | an UNKNOWN airport whose primary has no tag and whose alternate says VFR becomes VFR, writes green once, prints the notice once and no error |
| Airports.BothFailScenario | code.py:217-248 | when both requests raise the airport becomes UNKNOWN with one error line naming it, and the LED is written yellow only if the category was not UNKNOWN already |
| Airports.Poll | code.py:276-279 | a poll cycle gives one category per airport |
| Airports.PollPrefix | code.py:276-279 | airports are updated in list order: the cycle over a prefix is the start of the whole cycle, and each airport's category comes from its own update, made after the requests of those before it |
| Airports.ChainPoll | code.py:278-279 | a sequence of updates made in turn is the poll cycle of the airports it covers |
| Airports.RepaintShows | code.py:276-279 | after a cycle every airport whose category changed (or whose LED already matched) shows its new category's colour, no LED loses its colour, and only LEDs of changed airports are repainted |
| Airports.Airport.constructor | code.py:164-179 | a new airport has its code and alternate, a fresh LED on the host's pins written yellow, and category UNKNOWN |
| Airports.Airport.FetchAlternate | code.py:233-244 | the alternate half: notice, alternate request, UNKNOWN with an error line when it gives no category, then the close of the response `resp` holds |
| Airports.Airport.FetchCategory | code.py:224-244 | the category is the resolution of the two answers, and the requests, console lines and closes are those of its path |
| Airports.Airport.Update | code.py:217-248 | update_flight_category: the new category, the effects and the requests are those of `Step`; the LED is repainted only when the category changed, and afterwards shows the category's colour |
| Airports.FromConfigLine | code.py:181-195 | from_config_line returns an airport exactly when ParseLine gives a configuration, with that configuration and a yellow LED; otherwise it raises ParseLine's error with no effect |
| Airports.OkPrefix | code.py:273-274 | the loaded values stop at the first error |
| Airports.OkPrefixSpec | code.py:273-274 | each value before the first error is the value of that line's result |
| Airports.Configs | code.py:273-274 | the configurations loaded stop at the first line that raises |
| Airports.ConfigsSpec | code.py:273-274 | every line before the first failing one loads its configuration; that line fails |
| Airports.ConfigsAt | code.py:273-274 | line i loads exactly when it comes before the first failing line |
| Airports.LoadedAppend | code.py:274 | appending the airport made from the next configuration keeps the loaded airports in file order, UNKNOWN and yellow |
| Airports.DistinctAppend | code.py:274 | a freshly made airport keeps the airports and their LEDs distinct |
| Airports.StageNext | code.py:278-279 | updating airport i adds its outcome, effects, category and repaint |
| Airports.StageDone | code.py:278-279 | after the loop the effects, categories and colours are those of the poll cycle |
| Airports.AirportManager.constructor | code.py:253-261 | the manager starts with no airports |
| Airports.AirportManager.LoadStep | code.py:274 | one iteration: the line loads and its airport is appended, its yellow writes added to the trace and its LED shown yellow; or it raises and nothing is appended |
| Airports.AirportManager.Append | code.py:274 | the new airport is appended to the list |
| Airports.AirportManager.LoadAirports | code.py:263-274 | one fresh airport per line in file order, up to the first line that raises, each UNKNOWN and showing yellow, the yellow writes in that order, every other LED keeping its colour; the error gives the failing line and its cause |
| Airports.AirportManager.LoadLines | code.py:272-274 | the loop of load_airports: every configuration before the first failing line loaded, in order, and the result naming that line |
| Airports.AirportManager.UpdateOne | code.py:279 | updating airport i changes only that airport, by its update |
| Airports.AirportManager.UpdateAt | code.py:278-279 | one loop iteration advances the cycle by one airport |
| Airports.AirportManager.UpdateEach | code.py:278-279 | the loop updates each airport once, in list order |
| Airports.AirportManager.UpdateAll | code.py:276-279 | update_airport_flight_categories: effects, requests, categories and LED colours are those of the poll cycle over the airports' states before it |
| Display.PaintAgain | code.py:322 | showing the same colour on the same LEDs again changes nothing the LEDs show |
| Display.Tries | code.py:321-330 | the number of attempts connect_wifi makes: between one and five |
| Display.WifiOutcome | code.py:321-332 | how connect_wifi ends; it gives up only when all five attempts were refused |
| Display.Rounds | code.py:321-325 | the effects of the first k attempts: each turns the LEDs Wi-Fi blue, prints the numbered notice, then attempts the connection |
| Display.TriedLast | code.py:325-330 | an attempt that succeeds or fails otherwise is the last one, and decides the outcome |
| Display.TriedAll | code.py:331-332 | five refusals end in False after all five attempts |
| Display.OutcomeFromSpec | code.py:321-332 | from any attempt on, the attempts run to the first answer other than ConnectionError and at most to the fifth; that answer decides the outcome |
| Display.WifiSpec | code.py:314-332 | one to five attempts; all but the last refused with ConnectionError; True exactly when the last succeeded, an exception exactly when it failed otherwise, False only after five refusals |
| Display.FirstAnswerFrom | code.py:321-330 | refusals up to attempt m and another answer there stop the attempts at m |
| Display.AllRefusedFrom | code.py:321-332 | refusals to the last attempt use all attempts up and give False |
| Display.FirstAnswer | code.py:321-330 | with m refusals before the first other answer, connect_wifi makes m + 1 attempts and returns True on success, raises otherwise |
| Display.AllRefused | code.py:328-332 | five ConnectionErrors in a row: five attempts, then False |
| Display.RoundsPrefix | code.py:321-325 | every attempt comes right after the LEDs turned Wi-Fi blue and the numbered notice |
| Display.Map.constructor | code.py:284-291 | the map keeps its airport manager |
| Display.Map.ShowColor | code.py:293-302 | set_color with the colour on every airport's LED, in list order; every airport LED then shows the colour |
| Display.Map.Attempt | code.py:322-325 | one attempt: LEDs Wi-Fi blue, the numbered notice, one connection attempt whose answer is returned |
| Display.Map.ConnectWifi | code.py:314-332 | the result and number of attempts are WifiOutcome and Tries of the radio's answers; the effects are those rounds, plus "Connected to WIFI" on success; the LEDs end Wi-Fi blue |

## Left out

- Hardware setup is not modelled:
  - `I2CController` and the `busio.I2C` bus;
  - `AW9523` construction and `LED_modes`;
  - `get_pin` and `switch_to_output` in the RGBLED constructor.
- A controller is an object compared by identity. A driver board is its controller and address.
- The `(0, 1, 2)` pins of the RGBLED constructor are kept as numbers. `get_pin` on a missing board raises; that is modelled as the `NoSuchBoard` error of from_config_line.
- The network and the radio are fixed oracles keyed by serial number:
  - an HTTP GET is modelled only by its answer: a body, or one transport exception for every failure;
  - a Wi-Fi connection attempt is modelled only by its answer: success, `ConnectionError`, or another exception;
  - sockets, TLS and the Session are not modelled.
- Response truthiness (`if resp`) is taken to be true for every response.
- Airports.PathCloses: reading `resp.text` can raise after the GET has returned a response (code.py:227). The model counts that as a failure of the GET itself, so it records no close for that response. The source does close it, at code.py:232 or in the `finally`. "Every response received is closed" is therefore stated only for responses whose body was read.
- Palette.Scale: the brightness read from `LED_BRIGHTNESS` is a float in the source and an exact ratio here. The value written is the ratio product truncated toward zero, so float rounding is not modelled.
- Environment and file access are left out: `os.getenv` and `open`/`readlines`. load_airports takes the lines `readlines` returned.
- `time.sleep` is left out; it has no effect in the model.
- Console output is an event carrying the airport codes or attempt number, not the printed text. The exception message in the error line is not modelled.
- The regular expression is modelled only for the one pattern the source uses. Its `.` excludes newline, as in Python.
- `int()` ignores two forms of input:
  - underscores between digits;
  - surrounding whitespace, which cannot occur in a split field.
- `int()` treats the Unicode decimal digits outside ASCII as non-digits, where Python accepts them.
- Python dictionaries are modelled as lists of entries read with `dict.get`.
- Map.show_error_state is not modelled: it is show_color with yellow plus a console line.
- `main` is not modelled: board registration, the boot sequence, `sys.exit` and the endless poll loop.
- Display.Map.ConnectWifi: an exception other than `ConnectionError` is reported as the result `Raised`; its propagation to the caller is not modelled.
