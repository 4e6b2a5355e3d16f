/**
 * The service object `RaspiGPIOLightSwitch` and the top-level script around
 * it: the validity flag, the recorded on/off state of the light, the
 * toggle callback, and the `finally` block that switches the light off.
 *
 * gpiozero's devices are abstracted: an LED is a pin and a lit flag that
 * follows the last command; a button is the record of the arguments it
 * was built with and of the edge whose callback toggles the light.
 */
module LightSwitch {
  import opened Text
  import opened ButtonConfig

  /** gpiozero's `LED`: built off, lit exactly when last commanded on. */
  class Led {
    const pin: int
    var isLit: bool

    constructor (pin: int)
      ensures this.pin == pin && !isLit
    {
      this.pin := pin;
      isLit := false;
    }

    method On()
      modifies this
      ensures isLit
    {
      isLit := true;
    }

    method Off()
      modifies this
      ensures !isLit
    {
      isLit := false;
    }

    method Toggle()
      modifies this
      ensures isLit == !old(isLit)
    {
      isLit := !isLit;
    }
  }

  /** gpiozero's `Button` as `initGPIO` builds it: its constructor
      arguments and the edges `toggleLight` is attached to. */
  datatype ButtonDevice = ButtonDevice(
    pin: int,
    pull: PullArgs,
    bounceMs: int,
    toggleOnPress: bool,
    toggleOnRelease: bool)

  /** Builds the button from decoded settings: the callback goes on the
      press edge for `press` and on the release edge for `release`, never
      on both. */
  function AttachButton(b: ButtonSettings): (d: ButtonDevice)
    ensures d.pin == b.pin && d.bounceMs == b.bounceMs && d.pull == PullArgsFor(b.resistor)
    ensures d.toggleOnPress != d.toggleOnRelease
    ensures d.toggleOnPress <==> b.edge == Press
  {
    ButtonDevice(b.pin, PullArgsFor(b.resistor), b.bounceMs, b.edge == Press, b.edge == Release)
  }

  /** Whether an edge seen on the button runs the toggle callback. */
  predicate Fires(d: ButtonDevice, e: Edge)
  {
    if e == Press then d.toggleOnPress else d.toggleOnRelease
  }

  /** `getOnOffStr`. */
  function OnOffStr(state: bool): (s: string)
    ensures s == "On" <==> state
    ensures s == "Off" <==> !state
  {
    if state then "On" else "Off"
  }

  class RaspiGpioLightSwitch {
    var isValidGPIO: bool
    /** `_lightonoff`; the source creates it in `initGPIO`, the model starts it false. */
    var lightOnOff: bool
    var button: Option<ButtonDevice>
    var light: Led?

    /** The recorded state mirrors the LED, and a valid GPIO set-up has
        both devices. */
    ghost predicate Valid()
      reads this, light
    {
      && (light != null ==> lightOnOff == light.isLit)
      && (isValidGPIO ==> light != null && button.Some?)
    }

    constructor ()
      ensures Valid()
      ensures !isValidGPIO && button == None && light == null
    {
      isValidGPIO := false;
      lightOnOff := false;
      button := None;
      light := null;
    }

    /** The finalizer: only the validity flag is cleared. */
    method Finalize()
      requires Valid()
      modifies this
      ensures Valid() && !isValidGPIO
      ensures lightOnOff == old(lightOnOff) && button == old(button) && light == old(light)
    {
      isValidGPIO := false;
    }

    /** `initGPIO`: decode the settings, build the button, then the LED
        (off), and only when all of that succeeded mark the GPIO valid. A
        failure leaves the flag and the light as they were, and keeps a
        button that was already built. */
    method InitGPIO(buttonSetting: Option<string>, lightSetting: Option<string>,
                    buttonAccepted: bool, lightAccepted: bool)
      returns (r: Result<Setup>)
      requires Valid()
      modifies this
      ensures Valid()
      ensures r == InitResult(buttonSetting, lightSetting, buttonAccepted, lightAccepted)
      ensures isValidGPIO == (old(isValidGPIO) || r.Success?)
      ensures var b := ButtonStage(buttonSetting, buttonAccepted);
              button == if b.Success? then Some(AttachButton(b.value)) else old(button)
      ensures r.Success? ==> fresh(light) && light.pin == r.value.lightPin && !light.isLit && !lightOnOff
      ensures r.Failure? ==> light == old(light) && lightOnOff == old(lightOnOff)
    {
      var decoded := ButtonStage(buttonSetting, buttonAccepted);
      if decoded.Failure? {
        assert InitResult(buttonSetting, lightSetting, buttonAccepted, lightAccepted) == Failure(decoded.error);
        return Failure(decoded.error);
      }
      button := Some(AttachButton(decoded.value));
      var lightPin := LightStage(lightSetting, lightAccepted);
      if lightPin.Failure? {
        assert InitResult(buttonSetting, lightSetting, buttonAccepted, lightAccepted) == Failure(lightPin.error);
        return Failure(lightPin.error);
      }
      light := new Led(lightPin.value);
      lightOnOff := false;
      isValidGPIO := true;
      r := Success(Setup(decoded.value, lightPin.value));
    }

    /** `switchLight`: command the LED and record what it reports. */
    method SwitchLight(state: bool)
      requires Valid() && light != null
      modifies this, light
      ensures Valid() && light == old(light)
      ensures light.isLit == state && lightOnOff == state
      ensures isValidGPIO == old(isValidGPIO) && button == old(button)
    {
      if state {
        light.On();
      } else {
        light.Off();
      }
      lightOnOff := light.isLit;
    }

    /** `toggleLight`, the button callback: toggle the LED and record what
        it reports, which negates the recorded state. */
    method ToggleLight()
      requires Valid() && light != null
      modifies this, light
      ensures Valid() && light == old(light)
      ensures lightOnOff == !old(lightOnOff) && light.isLit == lightOnOff
      ensures isValidGPIO == old(isValidGPIO) && button == old(button)
    {
      light.Toggle();
      lightOnOff := light.isLit;
    }
  }

  /** The `finally` block: a valid set-up ends with the light off whatever
      its state; otherwise nothing is touched. */
  method Shutdown(s: RaspiGpioLightSwitch)
    requires s.Valid()
    modifies s, s.light
    ensures s.Valid() && s.light == old(s.light)
    ensures s.isValidGPIO == old(s.isValidGPIO) && s.button == old(s.button)
    ensures old(s.isValidGPIO) ==> !s.light.isLit && !s.lightOnOff
    ensures !old(s.isValidGPIO) ==> s.lightOnOff == old(s.lightOnOff)
    ensures !old(s.isValidGPIO) && s.light != null ==> s.light.isLit == old(s.light.isLit)
  {
    if s.isValidGPIO {
      s.SwitchLight(false);
    }
  }

  /** Two toggles bring the light back to where it was. */
  method ToggleTwiceRestores(s: RaspiGpioLightSwitch)
    requires s.Valid() && s.light != null
    modifies s, s.light
    ensures s.Valid() && s.light == old(s.light)
    ensures s.lightOnOff == old(s.lightOnOff) && s.light.isLit == old(s.light.isLit)
  {
    s.ToggleLight();
    s.ToggleLight();
  }

  /** Switching to the same state a second time changes nothing. */
  method SwitchLightIdempotent(s: RaspiGpioLightSwitch, state: bool)
    requires s.Valid() && s.light != null
    modifies s, s.light
    ensures s.Valid() && s.light == old(s.light)
    ensures s.lightOnOff == state && s.light.isLit == state
  {
    s.SwitchLight(state);
    ghost var once := s.lightOnOff;
    s.SwitchLight(state);
    assert s.lightOnOff == once;
  }

  /** How many of the edges are `e`. */
  function Occurrences(events: seq<Edge>, e: Edge): nat
  {
    if events == [] then 0
    else Occurrences(events[..|events| - 1], e) + (if events[|events| - 1] == e then 1 else 0)
  }

  /** Whether an odd number of the edges are `e`, flipped edge by edge. */
  function OddOccurrences(events: seq<Edge>, e: Edge): (odd: bool)
  {
    if events == [] then false
    else OddOccurrences(events[..|events| - 1], e) != (events[|events| - 1] == e)
  }

  lemma {:induction false} OddOccurrencesIsParity(events: seq<Edge>, e: Edge)
    ensures OddOccurrences(events, e) == (Occurrences(events, e) % 2 == 1)
  {
    if events != [] {
      OddOccurrencesIsParity(events[..|events| - 1], e);
    }
  }

  /** The service loop: while it spins, each edge seen on the button runs
      `toggleLight` when the callback is attached to that edge. The light
      ends lit exactly when an odd number of the edges fired it. */
  method ServiceLoop(s: RaspiGpioLightSwitch, settings: ButtonSettings, events: seq<Edge>)
    requires s.Valid() && s.isValidGPIO && s.button == Some(AttachButton(settings))
    modifies s, s.light
    ensures s.Valid() && s.isValidGPIO && s.light == old(s.light) && s.button == old(s.button)
    ensures s.lightOnOff == (old(s.lightOnOff) != OddOccurrences(events, settings.edge))
  {
    var device := s.button.value;
    var i := 0;
    while i < |events|
      invariant 0 <= i <= |events|
      invariant s.Valid() && s.isValidGPIO && s.light == old(s.light) && s.button == Some(device)
      invariant s.lightOnOff == (old(s.lightOnOff) != OddOccurrences(events[..i], settings.edge))
    {
      ghost var before := s.lightOnOff;
      assert events[..i + 1][..i] == events[..i];
      if Fires(device, events[i]) {
        s.ToggleLight();
      }
      assert s.lightOnOff == (before != (events[i] == settings.edge));
      i := i + 1;
    }
    assert events[..i] == events;
  }

  /** One run of the service script: build the object, run `initGPIO`,
      deliver the button edges seen while the service loop spins, then
      stop on SIGTERM and run the `finally` block and the finalizer.
      `exitCode` is the argument of `sys.exit`; `litAtStop` is the light
      when the signal arrives and `litAtExit` the light after the
      `finally` block (None when no LED was built). */
  method RunService(buttonSetting: Option<string>, lightSetting: Option<string>,
                    buttonAccepted: bool, lightAccepted: bool, events: seq<Edge>)
    returns (exitCode: int, litAtStop: bool, litAtExit: Option<bool>)
    ensures var r := InitResult(buttonSetting, lightSetting, buttonAccepted, lightAccepted);
            && (r.Success? ==> exitCode == 0)
            && (r.Failure? ==> exitCode == if Raises(r.error) then -1 else -3)
            && (r.Success? ==> litAtStop == (Occurrences(events, r.value.button.edge) % 2 == 1))
            && (r.Failure? ==> !litAtStop)
            && litAtExit == if r.Success? then Some(false) else None
  {
    var s := new RaspiGpioLightSwitch();
    var r := s.InitGPIO(buttonSetting, lightSetting, buttonAccepted, lightAccepted);
    if r.Failure? {
      exitCode := if Raises(r.error) then -1 else -3;
      litAtStop := false;
      Shutdown(s);
      litAtExit := None;
      s.Finalize();
      return;
    }
    assert s.button == Some(AttachButton(r.value.button));
    ServiceLoop(s, r.value.button, events);
    OddOccurrencesIsParity(events, r.value.button.edge);
    litAtStop := s.light.isLit;
    exitCode := 0;
    Shutdown(s);
    litAtExit := Some(s.light.isLit);
    s.Finalize();
  }
}
