# raspi-gpio-lightswitch, modelled in Dafny

`raspi-gpio-lightswitch.py` (version 0.2.3) is a small service for a Raspberry
Pi. One GPIO input reads a push button and one GPIO output drives a light.
Each press (or each release) of the button toggles the light. When the service
stops, it switches the light off.

This project models the two parts of the script that hold logic:

* **Decoding the `[GPIO]` settings** (`initGPIO`). The `Button` setting has the
  form `pin,resistor,event[,bouncetime]`. It is split on commas. The resistor
  and event fields are lowered but not trimmed, then checked against fixed
  word lists (`up`, `dn`, `upex`, `dnex` and `press`, `release`). The bounce
  time is the fourth field when there are exactly four fields, and 100 ms
  otherwise. Then the button pin, and finally the `Light` pin, are parsed.
  Decoding stops at the first bad value, in that order. Some failures make
  `initGPIO` return False, and the service exits with -3. Others escape as
  Python exceptions, and the service exits with -1:
  * a missing `Button` or `Light` key;
  * a setting with too few fields;
  * a bounce time that is not an integer. Its handler returns the undefined
    name `false`, so it raises instead of returning False.

  `ButtonConfig.Raises` tells the two kinds apart. This part is pure and lives
  in `button_config.dfy`. It uses the models of Python's `str.split`,
  `str.lower` and `int()` in `text.dfy`.
* **The light and validity state** (`light_switch.dfy`).
  `RaspiGpioLightSwitch` is a class with these fields:
  * `isValidGPIO`: false at construction, set only at the end of a fully
    successful `initGPIO`, cleared by the finalizer;
  * `lightOnOff`: the recorded on/off state;
  * the button and the LED.

  The class has the methods `InitGPIO`, `SwitchLight`, `ToggleLight` and
  `Finalize`. `Shutdown` is the script's `finally` block. `RunService` is one
  whole run of the script, from construction through SIGTERM to exit.

The LED is abstracted: it is lit exactly when its last command was on. The
button is abstracted as the record of its constructor arguments
(`pull_up`, `active_state`, bounce time) and of the edge that runs the toggle
callback.

The model follows the code of version 0.2.3 of the script, which only
switches the light on and off: it has no dim levels, no hold events and no
transition table, and neither does the model.

## Model

| member | source | states |
|---|---|---|
| `Text.Split` | raspi-gpio-lightswitch.py:96 | `str.split(",")` always yields at least one field, and no field contains a comma |
| `Text.JoinSplit` | raspi-gpio-lightswitch.py:96 | joining the split fields with commas gives back the setting text exactly (empty fields kept) |
| `Text.SplitJoin` | raspi-gpio-lightswitch.py:96 | fields without commas, joined and split again, come back unchanged |
| `Text.Lower` | raspi-gpio-lightswitch.py:98 | the modelled `lower()` keeps the length and lowers each ASCII letter on its own, leaving every other character as it is |
| `Text.LowerEqualsIff` | raspi-gpio-lightswitch.py:98-99 | a lowered field equals a lower-case word iff the field spells that word letter by letter, each letter in either case |
| `Text.ParseInt` | raspi-gpio-lightswitch.py:127 | the modelled `int()` rejects a text holding no decimal digit at all (the empty text and a blank field included) |
| `Text.ParseIntToString` | raspi-gpio-lightswitch.py:127 | the modelled `int()` reads back the decimal rendering of every integer exactly, including zero and negative numbers (Python's own digit-count limit is listed under Left out) |
| `Text.ParseIntSkipsLeadingSpace` | raspi-gpio-lightswitch.py:127 | `int()` ignores a tab, line feed, vertical tab, form feed, carriage return or blank before the number (unlike the resistor and event fields) |
| `Text.ParseIntSkipsTrailingSpace` | raspi-gpio-lightswitch.py:127 | `int()` ignores the same white space after the number |
| `Text.ParseIntRejectsLeadingJunk` | raspi-gpio-lightswitch.py:127 | a text whose first character is not that white space, a sign or a digit is rejected by `int()`; the ASCII separators 28-31 in particular are not skipped |
| `ButtonConfig.ParseResistor` | raspi-gpio-lightswitch.py:98-103 | the resistor field is accepted iff its lowered text is in the list `up, dn, upex, dnex`, and the accepted value is the one that word names |
| `ButtonConfig.ParseEvent` | raspi-gpio-lightswitch.py:116-123 | the event field is accepted iff its lowered text is `press` or `release`, and the edge is the one that word names |
| `ButtonConfig.ResistorMatchesIgnoringCase` | raspi-gpio-lightswitch.py:98-114 | a field yields a given resistor iff it spells that resistor's word in any letter case, and nothing else |
| `ButtonConfig.EventMatchesIgnoringCase` | raspi-gpio-lightswitch.py:116-123 | a field yields a given edge iff it spells `press` or `release` in any letter case |
| `ButtonConfig.NonLetterFieldRejected` | raspi-gpio-lightswitch.py:98-121 | fields are not trimmed: a resistor or event field with any non-letter in it, such as a blank, is rejected |
| `ButtonConfig.BlankBeforeResistorRejected` | raspi-gpio-lightswitch.py:96-103 | a setting like `17, up,press` fails with the resistor error, and that error is a False return, not an exception |
| `ButtonConfig.Raises` | raspi-gpio-lightswitch.py:94-156 | an error escapes `initGPIO` as an exception exactly when it is not one of the four whose handler returns False (resistor word, event word, button set-up, light set-up): the missing `Button` and `Light` keys (lines 94, 149), a missing field (lines 98, 116) and the bad bounce time, whose handler names the undefined `false` (line 132) all raise |
| `ButtonConfig.DecodeButton` | raspi-gpio-lightswitch.py:96-136 | decoding succeeds only with at least three fields; a missing-field error names an index beyond the end of the list (1 or 2); decoding never reports a missing key or a light error. Its order of checks is stated by `DecodeStopsAtFirstFailure`, its values by `DecodedSettings` and `ButtonRoundTrip` |
| `ButtonConfig.ButtonStage` | raspi-gpio-lightswitch.py:94-147 | the stage fails with the missing-key error exactly when there is no `Button` setting, and fails whenever the hardware refuses the button. With a setting present, a decoding error of the comma-split text is reported before the hardware is asked, and when the hardware accepts the button the stage's result is the decoded text's |
| `ButtonConfig.LightStage` | raspi-gpio-lightswitch.py:149-156 | the stage succeeds exactly when the `Light` setting exists, parses as an integer and the hardware accepts the LED, and then yields that integer; otherwise the error is the missing key when the setting is absent, and the light set-up error when it is present |
| `ButtonConfig.InitResult` | raspi-gpio-lightswitch.py:87-161 | `initGPIO` succeeds only with both settings present and both devices accepted; a missing `Button` setting is reported as such whatever the `Light` setting is; a missing `Light` setting after a good button is reported as such |
| `ButtonConfig.PullArgsFor` | raspi-gpio-lightswitch.py:105-114 | exactly one of `pull_up` and `active_state` is set: `up`/`dn` set `pull_up` to True/False; `upex`/`dnex` set `active_state` to False/True |
| `ButtonConfig.FirstFailure` | raspi-gpio-lightswitch.py:96-147 | a list of checks has no failure iff every check passes, and a failure it reports is the error of a failing check that every earlier check passes, that is, of the first failing check |
| `ButtonConfig.DecodeStopsAtFirstFailure` | raspi-gpio-lightswitch.py:96-147 | decoding succeeds iff every check passes. It fails with the error of the first failing check in the source's order: field 1 exists, resistor, field 2 exists, event, bounce time, pin |
| `ButtonConfig.DecodedSettings` | raspi-gpio-lightswitch.py:96-140 | a decoded button has: the pin of field 0; the resistor and edge of fields 1 and 2; a bounce time that is the integer in field 3 when there are exactly four fields, and 100 otherwise |
| `ButtonConfig.ButtonRoundTrip` | raspi-gpio-lightswitch.py:96-147 | any settings written as `pin,resistor,event,bouncetime` decode back to themselves, whatever integer the bounce time is (zero and negative values included); the modelled stage then fails iff `accepted` is false, which stands for every failure inside the `try` of lines 134-147 (see Left out) |
| `ButtonConfig.NonIntegerBounceRaises` | raspi-gpio-lightswitch.py:125-132 | with four fields and a fourth that is not an integer, decoding fails with the bounce-time error, and that error escapes as an exception |
| `ButtonConfig.ExtraFieldsIgnored` | raspi-gpio-lightswitch.py:125-129 | a setting with five or more fields decodes exactly like its first three, with the default 100 ms bounce time |
| `ButtonConfig.InitStageOrder` | raspi-gpio-lightswitch.py:134-161 | `initGPIO` succeeds iff both the button stage and the light stage succeed. A button failure is reported without the light setting being read. After a good button, a light failure is reported as the light stage's error, and it raises exactly when the `Light` key is missing (line 149, outside the `try`); a bad or refused pin returns False (line 156). On success, the light pin is the integer in the `Light` setting |
| `LightSwitch.AttachButton` | raspi-gpio-lightswitch.py:134-144 | the button gets the decoded pin, pull arguments and bounce time, and the toggle callback is attached to the press edge for `press` and to the release edge for `release`, never to both |
| `LightSwitch.Led.constructor` | raspi-gpio-lightswitch.py:153 | gpiozero's `LED` is built on the given pin and starts off |
| `LightSwitch.Led.On` | raspi-gpio-lightswitch.py:167 | after `on()` the LED is lit |
| `LightSwitch.Led.Off` | raspi-gpio-lightswitch.py:169 | after `off()` the LED is not lit |
| `LightSwitch.Led.Toggle` | raspi-gpio-lightswitch.py:182 | `toggle()` negates whether the LED is lit |
| `LightSwitch.OnOffStr` | raspi-gpio-lightswitch.py:187-188 | the text is `On` iff the state is true and `Off` iff it is false |
| `LightSwitch.RaspiGpioLightSwitch.constructor` | raspi-gpio-lightswitch.py:43-50 | a new service object is not GPIO-valid and has no button and no LED |
| `LightSwitch.RaspiGpioLightSwitch.Finalize` | raspi-gpio-lightswitch.py:59-60 | the finalizer clears `isValidGPIO` and touches nothing else |
| `LightSwitch.RaspiGpioLightSwitch.InitGPIO` | raspi-gpio-lightswitch.py:87-161 | the outcome is the decoded result. `isValidGPIO` becomes true only if every step succeeded; otherwise it keeps its old value. On success a new LED exists, off, and `lightOnOff` is false. On failure the light is untouched; a button that was already built is kept |
| `LightSwitch.RaspiGpioLightSwitch.SwitchLight` | raspi-gpio-lightswitch.py:163-172 | afterwards the LED and the recorded state both equal the requested state; validity and button are unchanged |
| `LightSwitch.RaspiGpioLightSwitch.ToggleLight` | raspi-gpio-lightswitch.py:174-185 | the recorded state is negated and the LED agrees with it; validity and button are unchanged |
| `LightSwitch.ToggleTwiceRestores` | raspi-gpio-lightswitch.py:174-185 | toggling twice restores both the recorded state and the LED |
| `LightSwitch.SwitchLightIdempotent` | raspi-gpio-lightswitch.py:163-172 | switching to the same state twice leaves the state the first switch set |
| `LightSwitch.Shutdown` | raspi-gpio-lightswitch.py:227-231 | if GPIO was valid, the light ends off whatever it was before; if not, neither the light nor the recorded state changes |
| `LightSwitch.OddOccurrencesIsParity` | raspi-gpio-lightswitch.py:141-144 | flipping a flag on each matching edge gives true exactly when the number of matching edges is odd |
| `LightSwitch.ServiceLoop` | raspi-gpio-lightswitch.py:219-221 | while the service loop spins, each edge the callback is attached to toggles the light. The recorded state ends flipped iff an odd number of such edges arrived |
| `LightSwitch.RunService` | raspi-gpio-lightswitch.py:202-231 | exit code 0 after a successful set-up and SIGTERM, -1 when `initGPIO` raised, -3 when it returned False. When the signal arrives, the light is on iff an odd number of configured edges arrived. After the `finally` block the light is off if an LED was built; otherwise there is none |

## Left out

- Journal logging, the pin-factory query and every log message (lines 62-74 and the log calls throughout). The one log call that matters is the read of the `Light` key at line 149. It sits outside the `try` and raises when the key is missing. The model keeps that effect (`MissingLightSetting` raises).
- Reading the configuration file, its path, and the check for a `[GPIO]` section (lines 76-85 and 208-213). These are file I/O. The model starts from the `Button` and `Light` values of that section, each possibly absent.
- Whether gpiozero accepts a `Button` or an `LED` for a given pin (for example, a pin that does not exist or is in use). This is a call into a library outside the model. It is a boolean parameter (`buttonAccepted`, `lightAccepted`).
- What gpiozero does with a bounce time of zero or less. The model only records that `initGPIO` passes such a value on.
- The conversion of the bounce time to seconds (`0.001 * bouncetime`, line 139). It is floating point, so the model keeps integer milliseconds. Python raises `OverflowError` there for a bounce time of about 1.8e308 or more; the `except` at line 145 turns that into a False return. The model has no separate case for it: `buttonAccepted` being false stands for every failure inside that `try`, this one included.
- The SIGTERM handler and `sys.exit` (lines 191-197, 209-226). Exit codes are returned as the integers passed to `sys.exit`. The operating system's mapping of -1 and -3 to 255 and 253 is not modelled.
- The `weakref.finalize` mechanics and `remove`/`removed` (lines 44, 52-57). Only the effect of `finalize` on `isValidGPIO` is kept.
- Concurrency. gpiozero runs callbacks on its own thread. The callback is attached (line 142) before the LED exists (line 153), so a press in between would find no light. The callback thread also stays live during and after the `finally` block (lines 227-231) until gpiozero closes the devices at exit: a press then turns the light back on, and a toggle between `off()` (line 169) and the read of `is_lit` (line 170) leaves `_lightonoff` out of step with the LED. The model delivers button edges only after `initGPIO` has returned and before the `finally` block, one at a time; so `LightSwitch.Shutdown` and `LightSwitch.RunService` state the light is off after the `finally` block only for a run in which no edge arrives after the stop signal.
- `Text.ParseInt`: models `int()` for the white space it skips among the ASCII characters (tab, line feed, vertical tab, form feed, carriage return and the blank), an optional sign and ASCII digits. It does not model underscores between digits, non-ASCII digits or non-ASCII white space, all of which Python's `int()` also accepts. Nor does it model the limit on the number of digits of Python 3.11 and later (4300 by default, also in patched 3.7-3.10 releases): such an `int()` raises `ValueError` on a longer number, so a bounce time of more than 4300 digits makes `initGPIO` raise at line 132 and a pin that long makes it return False, while the model accepts both. `Text.ParseIntToString` is therefore stated for the modelled `int()`, not for every Python version.
- `Text.Lower`: lowers the ASCII letters only, and keeps the length. Python's `str.lower()` also maps other letters, and a few of them to two characters (`'İ'.lower()` has length 2), so Python's `lower()` does not always keep the length. The only non-ASCII character that Python lowers to ASCII letters alone is the Kelvin sign, which becomes `k`, a letter of none of the accepted words; so which fields are accepted does not depend on this.
- `LightSwitch.RaspiGpioLightSwitch.constructor`: the source creates `_lightonoff` only in `initGPIO`. The model gives it the value false from construction.
