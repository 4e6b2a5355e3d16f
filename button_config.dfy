/**
 * The decoding half of `RaspiGPIOLightSwitch.initGPIO`: the `Button`
 * setting `pin,resistor,event[,bouncetime]` and the `Light` setting of the
 * `[GPIO]` section are turned into the arguments of the button and LED
 * devices, or into the first error met, in the order the source meets them.
 *
 * An error either makes `initGPIO` return False (the service exits with
 * -3) or escapes as a Python exception to the top-level handler (the
 * service exits with -1); `Raises` tells the two apart.
 */
module ButtonConfig {
  import opened Text

  /** The resistor word: internal pull-up or pull-down, or an external
      resistor with the button active low or active high. */
  datatype Resistor = Up | Dn | UpEx | DnEx

  /** The edge whose callback toggles the light. */
  datatype Edge = Press | Release

  /** Accepted resistor words, compared after lowering. */
  const ResistorWords: seq<string> := ["up", "dn", "upex", "dnex"]

  /** Accepted event words, compared after lowering. */
  const EventWords: seq<string> := ["press", "release"]

  /** Bounce time used when the setting has no fourth field, in ms. */
  const DefaultBounceMs: int := 100

  datatype InitError =
    | MissingButtonSetting    // KeyError reading `Button`
    | MissingField(index: nat) // IndexError on the split setting
    | InvalidResistor         // resistor word outside the vocabulary
    | InvalidEvent            // event word outside the vocabulary
    | InvalidBounceTime       // fourth field is not an integer
    | ButtonSetupFailed       // pin not an integer, or the button device refused
    | MissingLightSetting     // KeyError reading `Light`
    | LightSetupFailed        // pin not an integer, or the LED device refused

  datatype Result<+T> = Success(value: T) | Failure(error: InitError)

  /** The errors whose handler really returns False: the two vocabulary
      checks and the two device set-ups. */
  const FalseReturns: set<InitError> := {InvalidResistor, InvalidEvent, ButtonSetupFailed, LightSetupFailed}

  /** True when the error leaves `initGPIO` as an exception rather than as
      a False return: the missing keys and fields, and the bounce-time
      handler, which returns the undefined name `false`. */
  function Raises(e: InitError): (raises: bool)
    ensures raises <==> e !in FalseReturns
  {
    e.MissingButtonSetting? || e.MissingField? || e.InvalidBounceTime? || e.MissingLightSetting?
  }

  /** The decoded `Button` setting. */
  datatype ButtonSettings = ButtonSettings(pin: int, resistor: Resistor, edge: Edge, bounceMs: int)

  /** Everything a successful `initGPIO` sets up. */
  datatype Setup = Setup(button: ButtonSettings, lightPin: int)

  function ResistorWord(r: Resistor): string
  {
    match r
    case Up => "up"
    case Dn => "dn"
    case UpEx => "upex"
    case DnEx => "dnex"
  }

  function EventWord(e: Edge): string
  {
    match e
    case Press => "press"
    case Release => "release"
  }

  /** The resistor field, lowered but not trimmed, checked against the
      vocabulary. */
  function ParseResistor(field: string): (r: Option<Resistor>)
    ensures r.Some? <==> Lower(field) in ResistorWords
    ensures r.Some? ==> Lower(field) == ResistorWord(r.value)
  {
    var w := Lower(field);
    if w == "up" then Some(Up)
    else if w == "dn" then Some(Dn)
    else if w == "upex" then Some(UpEx)
    else if w == "dnex" then Some(DnEx)
    else None
  }

  /** The event field, lowered but not trimmed, checked against the
      vocabulary. */
  function ParseEvent(field: string): (e: Option<Edge>)
    ensures e.Some? <==> Lower(field) in EventWords
    ensures e.Some? ==> Lower(field) == EventWord(e.value)
  {
    var w := Lower(field);
    if w == "press" then Some(Press)
    else if w == "release" then Some(Release)
    else None
  }

  /** The `pull_up` and `active_state` arguments of the button device;
      `None` is Python's `None`. */
  datatype PullArgs = PullArgs(pullUp: Option<bool>, activeState: Option<bool>)

  /** An internal resistor sets `pull_up` only (True for `up`), an external
      one sets `active_state` only (True for `dnex`). */
  function PullArgsFor(r: Resistor): (a: PullArgs)
    ensures a.pullUp.Some? != a.activeState.Some?
    ensures a.pullUp.Some? <==> (r == Up || r == Dn)
    ensures a.pullUp.Some? ==> a.pullUp.value == (r == Up)
    ensures a.activeState.Some? ==> a.activeState.value == (r == DnEx)
  {
    match r
    case Up => PullArgs(Some(true), None)
    case Dn => PullArgs(Some(false), None)
    case UpEx => PullArgs(None, Some(false))
    case DnEx => PullArgs(None, Some(true))
  }

  /** Decodes the comma-split `Button` setting, stopping at the first bad
      field: resistor, event, bounce time, then pin. */
  function DecodeButton(fields: seq<string>): (r: Result<ButtonSettings>)
    ensures r.Success? ==> |fields| >= 3
    ensures r.Failure? ==> !r.error.MissingButtonSetting? && !r.error.MissingLightSetting? && !r.error.LightSetupFailed?
    ensures r.Failure? && r.error.MissingField? ==> |fields| <= r.error.index <= 2
  {
    if |fields| < 2 then Failure(MissingField(1))
    else match ParseResistor(fields[1])
      case None => Failure(InvalidResistor)
      case Some(resistor) =>
        if |fields| < 3 then Failure(MissingField(2))
        else match ParseEvent(fields[2])
          case None => Failure(InvalidEvent)
          case Some(edge) =>
            var bounce := if |fields| == 4 then ParseInt(fields[3]) else Some(DefaultBounceMs);
            match bounce
            case None => Failure(InvalidBounceTime)
            case Some(bounceMs) =>
              match ParseInt(fields[0])
              case None => Failure(ButtonSetupFailed)
              case Some(pin) => Success(ButtonSettings(pin, resistor, edge, bounceMs))
  }

  /** The `Button` stage of `initGPIO`: read the setting, split it on
      commas, decode it, and build the button device, which the hardware
      may refuse (`accepted` is false). */
  function ButtonStage(setting: Option<string>, accepted: bool): (r: Result<ButtonSettings>)
    ensures r == Failure(MissingButtonSetting) <==> setting.None?
    ensures !accepted ==> r.Failure?
    ensures setting.Some? && accepted ==> r == DecodeButton(Split(setting.value, ','))
    ensures setting.Some? && DecodeButton(Split(setting.value, ',')).Failure? ==>
              r == DecodeButton(Split(setting.value, ','))
  {
    match setting
    case None => Failure(MissingButtonSetting)
    case Some(text) =>
      var decoded := DecodeButton(Split(text, ','));
      if decoded.Success? && !accepted then Failure(ButtonSetupFailed) else decoded
  }

  /** The `Light` stage: read the setting (outside the try block), parse
      the pin and build the LED, which the hardware may refuse. */
  function LightStage(setting: Option<string>, accepted: bool): (r: Result<int>)
    ensures r.Success? <==> setting.Some? && accepted && ParseInt(setting.value).Some?
    ensures r.Success? ==> ParseInt(setting.value) == Some(r.value)
    ensures r.Failure? ==> r.error == if setting.None? then MissingLightSetting else LightSetupFailed
  {
    match setting
    case None => Failure(MissingLightSetting)
    case Some(text) =>
      match ParseInt(text)
      case None => Failure(LightSetupFailed)
      case Some(pin) => if accepted then Success(pin) else Failure(LightSetupFailed)
  }

  /** The whole of `initGPIO`: the button stage, then the light stage. */
  function InitResult(button: Option<string>, light: Option<string>,
                      buttonAccepted: bool, lightAccepted: bool): (r: Result<Setup>)
    ensures r.Success? ==> button.Some? && light.Some? && buttonAccepted && lightAccepted
    ensures button.None? ==> r == Failure(MissingButtonSetting)
    ensures light.None? && ButtonStage(button, buttonAccepted).Success? ==> r == Failure(MissingLightSetting)
  {
    var b := ButtonStage(button, buttonAccepted);
    if b.Failure? then Failure(b.error)
    else
      var l := LightStage(light, lightAccepted);
      if l.Failure? then Failure(l.error)
      else Success(Setup(b.value, l.value))
  }

  // ---------------------------------------------------------------------
  // Reference definitions
  // ---------------------------------------------------------------------

  /** One validation step: whether it passes and the error it gives if not. */
  datatype Check = Check(passes: bool, error: InitError)

  /** The error of the first failing step, if any. */
  function FirstFailure(checks: seq<Check>): (r: Option<InitError>)
    ensures r.None? <==> forall i :: 0 <= i < |checks| ==> checks[i].passes
    ensures r.Some? ==> exists i :: && 0 <= i < |checks| && !checks[i].passes && checks[i].error == r.value
                                    && forall j :: 0 <= j < i ==> checks[j].passes
  {
    if checks == [] then None
    else if !checks[0].passes then Some(checks[0].error)
    else
      var r := FirstFailure(checks[1..]);
      assert forall i :: 1 <= i < |checks| ==> checks[i] == checks[1..][i - 1];
      r
  }

  /** The checks the source makes on the split `Button` setting, in the
      order it makes them. */
  function ButtonChecks(fields: seq<string>): seq<Check>
  {
    [ Check(|fields| >= 2, MissingField(1)),
      Check(|fields| >= 2 && ParseResistor(fields[1]).Some?, InvalidResistor),
      Check(|fields| >= 3, MissingField(2)),
      Check(|fields| >= 3 && ParseEvent(fields[2]).Some?, InvalidEvent),
      Check(|fields| != 4 || ParseInt(fields[3]).Some?, InvalidBounceTime),
      Check(|fields| >= 1 && ParseInt(fields[0]).Some?, ButtonSetupFailed) ]
  }

  /** The four fields of a `Button` setting, bounce time included. */
  function FormatFields(b: ButtonSettings): seq<string>
  {
    [IntToString(b.pin), ResistorWord(b.resistor), EventWord(b.edge), IntToString(b.bounceMs)]
  }

  /** The `Button` setting as a text. */
  function FormatButton(b: ButtonSettings): string
  {
    Join(FormatFields(b), ',')
  }

  // ---------------------------------------------------------------------
  // Properties
  // ---------------------------------------------------------------------

  /** A resistor word is accepted exactly when it spells one of the four
      words with each letter in either case. */
  lemma ResistorMatchesIgnoringCase(field: string, r: Resistor)
    ensures ParseResistor(field) == Some(r) <==> MatchesIgnoringCase(field, ResistorWord(r))
  {
    LowerEqualsIff(field, ResistorWord(r));
  }

  /** An event word is accepted exactly when it spells `press` or
      `release` with each letter in either case. */
  lemma EventMatchesIgnoringCase(field: string, e: Edge)
    ensures ParseEvent(field) == Some(e) <==> MatchesIgnoringCase(field, EventWord(e))
  {
    LowerEqualsIff(field, EventWord(e));
  }

  /** Fields are not trimmed: a resistor or event field holding anything
      but letters, a blank around the word included, is rejected. */
  lemma NonLetterFieldRejected(field: string, i: int)
    requires 0 <= i < |field| && !IsUpper(field[i]) && !IsLower(field[i])
    ensures ParseResistor(field) == None
    ensures ParseEvent(field) == None
  {
    var w := Lower(field);
    assert w[i] == field[i];
    forall word | word in ResistorWords + EventWords
      ensures w != word
    {
      assert forall j :: 0 <= j < |word| ==> IsLower(word[j]);
    }
  }

  /** A setting such as `17, up,press`: the blank before `up` is kept, so
      the resistor is rejected and `initGPIO` returns False, whatever the
      other fields hold. */
  lemma BlankBeforeResistorRejected(fields: seq<string>, accepted: bool)
    requires |fields| >= 2 && |fields[1]| >= 1 && fields[1][0] == ' '
    requires forall k :: 0 <= k < |fields| ==> ',' !in fields[k]
    ensures ButtonStage(Some(Join(fields, ',')), accepted) == Failure(InvalidResistor)
    ensures !Raises(InvalidResistor)
  {
    SplitJoin(fields, ',');
    NonLetterFieldRejected(fields[1], 0);
  }

  /** Decoding stops at the first failing check, in the source's order;
      it succeeds exactly when every check passes. */
  lemma DecodeStopsAtFirstFailure(fields: seq<string>)
    ensures DecodeButton(fields).Success? <==> FirstFailure(ButtonChecks(fields)).None?
    ensures DecodeButton(fields).Failure? ==>
              FirstFailure(ButtonChecks(fields)) == Some(DecodeButton(fields).error)
  {
    var c := ButtonChecks(fields);
    FirstFailureOfSix(c[0], c[1], c[2], c[3], c[4], c[5]);
    assert c == [c[0], c[1], c[2], c[3], c[4], c[5]];
  }

  lemma FirstFailureOfSix(c0: Check, c1: Check, c2: Check, c3: Check, c4: Check, c5: Check)
    ensures FirstFailure([c0, c1, c2, c3, c4, c5]) ==
              if !c0.passes then Some(c0.error)
              else if !c1.passes then Some(c1.error)
              else if !c2.passes then Some(c2.error)
              else if !c3.passes then Some(c3.error)
              else if !c4.passes then Some(c4.error)
              else if !c5.passes then Some(c5.error)
              else None
  {
    assert [c0, c1, c2, c3, c4, c5][1..] == [c1, c2, c3, c4, c5];
    assert [c1, c2, c3, c4, c5][1..] == [c2, c3, c4, c5];
    assert [c2, c3, c4, c5][1..] == [c3, c4, c5];
    assert [c3, c4, c5][1..] == [c4, c5];
    assert [c4, c5][1..] == [c5];
    assert [c5][1..] == [];
    assert FirstFailure([c5]) == if !c5.passes then Some(c5.error) else FirstFailure([]);
    assert FirstFailure([c4, c5]) == if !c4.passes then Some(c4.error) else FirstFailure([c5]);
    assert FirstFailure([c3, c4, c5]) == if !c3.passes then Some(c3.error) else FirstFailure([c4, c5]);
    assert FirstFailure([c2, c3, c4, c5]) == if !c2.passes then Some(c2.error) else FirstFailure([c3, c4, c5]);
    assert FirstFailure([c1, c2, c3, c4, c5]) == if !c1.passes then Some(c1.error) else FirstFailure([c2, c3, c4, c5]);
  }

  /** What a successful decode holds: the pin from field 0, the resistor
      and edge named by fields 1 and 2, and the bounce time parsed from
      field 3 when there are exactly four fields, 100 ms otherwise. */
  lemma DecodedSettings(fields: seq<string>)
    requires DecodeButton(fields).Success?
    ensures var b := DecodeButton(fields).value;
            && |fields| >= 3
            && Some(b.pin) == ParseInt(fields[0])
            && Lower(fields[1]) == ResistorWord(b.resistor)
            && Lower(fields[2]) == EventWord(b.edge)
            && Some(b.bounceMs) == (if |fields| == 4 then ParseInt(fields[3]) else Some(100))
  {
  }

  /** Every field of the button settings survives being written out and
      read back; in particular any integer is accepted as a bounce time,
      zero and negative ones included. */
  lemma ButtonRoundTrip(b: ButtonSettings, accepted: bool)
    ensures DecodeButton(Split(FormatButton(b), ',')) == Success(b)
    ensures ButtonStage(Some(FormatButton(b)), accepted) ==
              if accepted then Success(b) else Failure(ButtonSetupFailed)
  {
    FormattedFieldsSplit(b);
    DecodeFormattedFields(b);
  }

  lemma FormattedFieldsSplit(b: ButtonSettings)
    ensures Split(FormatButton(b), ',') == FormatFields(b)
  {
    var fields := FormatFields(b);
    forall i | 0 <= i < |fields| ensures ',' !in fields[i] {
      assert forall j :: 0 <= j < |fields[i]| ==> fields[i][j] != ',';
    }
    SplitJoin(fields, ',');
  }

  lemma DecodeFormattedFields(b: ButtonSettings)
    ensures DecodeButton(FormatFields(b)) == Success(b)
  {
    ParseResistorWord(b.resistor);
    ParseEventWord(b.edge);
    ParseIntToString(b.pin);
    ParseIntToString(b.bounceMs);
  }

  /** Each vocabulary word reads back as the resistor it names. */
  lemma ParseResistorWord(r: Resistor)
    ensures ParseResistor(ResistorWord(r)) == Some(r)
  {
    var w := ResistorWord(r);
    assert forall i :: 0 <= i < |w| ==> IsLower(w[i]);
    LowerOfLowerCase(w);
  }

  /** Each vocabulary word reads back as the edge it names. */
  lemma ParseEventWord(e: Edge)
    ensures ParseEvent(EventWord(e)) == Some(e)
  {
    var w := EventWord(e);
    assert forall i :: 0 <= i < |w| ==> IsLower(w[i]);
    LowerOfLowerCase(w);
  }

  /** A fourth field that is not an integer escapes as an exception. */
  lemma NonIntegerBounceRaises(fields: seq<string>)
    requires |fields| == 4
    requires ParseResistor(fields[1]).Some? && ParseEvent(fields[2]).Some?
    requires ParseInt(fields[3]).None?
    ensures DecodeButton(fields) == Failure(InvalidBounceTime)
    ensures Raises(DecodeButton(fields).error)
  {
  }

  /** With five or more fields the fourth is never read: such a setting
      decodes exactly like its first three fields, with the default
      bounce time. */
  lemma ExtraFieldsIgnored(fields: seq<string>)
    requires |fields| >= 5
    ensures DecodeButton(fields) == DecodeButton(fields[..3])
    ensures DecodeButton(fields).Success? ==> DecodeButton(fields).value.bounceMs == DefaultBounceMs
  {
  }

  /** `initGPIO` succeeds exactly when both stages do; a failing button
      stage is reported before the light setting is looked at, and a
      failing light stage after a good button is reported as it is: a
      missing `Light` key raises, a bad or refused pin returns False. */
  lemma InitStageOrder(button: Option<string>, light: Option<string>, buttonAccepted: bool, lightAccepted: bool)
    ensures var r := InitResult(button, light, buttonAccepted, lightAccepted);
            && (r.Success? <==> ButtonStage(button, buttonAccepted).Success? && LightStage(light, lightAccepted).Success?)
            && (ButtonStage(button, buttonAccepted).Failure? ==> r == Failure(ButtonStage(button, buttonAccepted).error))
            && (ButtonStage(button, buttonAccepted).Success? && LightStage(light, lightAccepted).Failure? ==>
                  r == Failure(LightStage(light, lightAccepted).error)
                  && (Raises(r.error) <==> light.None?))
            && (r.Success? ==> r.value.button == ButtonStage(button, buttonAccepted).value
                               && Some(r.value.lightPin) == ParseInt(light.value))
  {
  }
}
