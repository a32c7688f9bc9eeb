/** The TEMP command of temp-command.c: it sets the ADC up for the
    internal temperature sensor, converts, turns the result into degrees
    with the factory calibration of the signature row, and puts the
    registers back as it found them. */
module TempCommand {
  import opened Options
  import opened CText
  import opened Util
  import opened Registers
  import opened Command
  import HelpCommand

  const TempCmd: Descriptor := Descriptor("TEMP", "Displays the internal temperature", Handler.Temp)

  /** What TEMP prints, by kind. */
  datatype Reply = Celsius(degrees: int) | UnknownArgument(arg: string)

  /** The set-up of the measurement: the 1.1 V reference, the ADC on its
      internal reference with the sampling capacitor for references above
      1 V and CLK_PER/4, the temperature sensor as input, a 64-cycle initial
      delay, and the value of 64-sample accumulation, which the source
      writes to SAMPCTRL. ADC0.CTRLA is left alone. */
  function Measuring(cfg: AdcConfig): (m: AdcConfig)
    ensures m.ctrlA == cfg.ctrlA
    ensures m.vrefCtrlA == 0x10 && m.ctrlC == 0x41 && m.muxPos == 0x1E && m.ctrlD == 0x60 && m.sampCtrl == 0x06
  {
    cfg.(vrefCtrlA := VREF_ADC0REFSEL_1V1 | ADC_RESSEL_10BIT,
         ctrlC := ADC_REFSEL_INTREF | (1 << ADC_SAMPCAP_BP) | ADC_PRESC_DIV4,
         muxPos := ADC_MUXPOS_TEMPSENSE,
         ctrlD := ADC_INITDLY_DLY64,
         sampCtrl := ADC_SAMPNUM_ACC64)
  }

  /** `result - sigrow_offset` where `int` is 16 bits wide: the `uint16_t`
      result makes the subtraction unsigned, so a difference below zero
      wraps around by 2^16. */
  function Wrap16(x: int): (r: Uint16)
    ensures 0 <= x < 0x1_0000 ==> r == x
    ensures -0x1_0000 <= x < 0 ==> r == x + 0x1_0000
  {
    x % 0x1_0000
  }

  /** The temperature in kelvin: the offset-corrected result times the
      gain, divided by 256 and rounded to the nearest integer, halves
      upwards (`+= 0x80`, then `>>= 8` on a value that is never negative). */
  function Kelvin(result: Uint16, offset: Int8, gain: Uint8): (k: int)
    ensures var x := Wrap16(result - offset) * gain;
      0 <= k && 256 * k - 128 <= x < 256 * k + 128
  {
    (Wrap16(result - offset) * gain + 0x80) / 256
  }

  /** `temp_command_execute` given its first argument, the result
      `measured` of the conversion, and the calibration bytes TEMPSENSE1
      (`offset`, signed) and TEMPSENSE0 (`gain`). */
  function Decide(arg0: Option<string>, measured: Uint16, offset: Int8, gain: Uint8): (bool, Reply) {
    match arg0
    case Some(w) => (false, UnknownArgument(w))
    case None => (true, Celsius(Kelvin(measured, offset, gain) - 273))
  }

  /** `temp_command_execute` on the argument list that starts at
      `arglist` and ends at the NUL at `end`. `convert` is the converter,
      `offset` and `gain` the signature-row bytes. Whatever happens, the
      five registers it borrows hold their old values afterwards. */
  method Execute(a: array<char>, arglist: nat, end: nat, mcu: Mcu, convert: AdcConfig -> Uint16,
                 offset: Int8, gain: Uint8)
    returns (ok: bool, reply: Reply)
    requires Framed(a[..], end)
    modifies a, mcu`vrefCtrlA, mcu`adcCtrlC, mcu`adcMuxPos, mcu`adcCtrlD, mcu`adcSampCtrl
    ensures (ok, reply) == Decide(Argument(old(a[..]), arglist, end, 0), convert(Measuring(old(mcu.Adc()))), offset, gain)
    ensures a[..] == Consumed(old(a[..]), arglist, end, 1).buf
    ensures mcu.Adc() == old(mcu.Adc())
  {
    var arg, rest := NextArgument(a, a[..], arglist, arglist, end, 0);
    if arg.Some? {
      return false, UnknownArgument(arg.value);
    }
    var savedVoltage := mcu.vrefCtrlA;
    var savedCtrlC := mcu.adcCtrlC;
    var savedMuxPos := mcu.adcMuxPos;
    var savedCtrlD := mcu.adcCtrlD;
    var savedSample := mcu.adcSampCtrl;

    mcu.vrefCtrlA := VREF_ADC0REFSEL_1V1 | ADC_RESSEL_10BIT;
    mcu.adcCtrlC := ADC_REFSEL_INTREF | (1 << ADC_SAMPCAP_BP) | ADC_PRESC_DIV4;
    mcu.adcMuxPos := ADC_MUXPOS_TEMPSENSE;
    mcu.adcCtrlD := ADC_INITDLY_DLY64;
    mcu.adcSampCtrl := ADC_SAMPNUM_ACC64;

    var result := convert(mcu.Adc());
    var temp: int := Wrap16(result - offset);
    temp := temp * gain;
    temp := temp + 0x80;
    temp := temp / 256;
    var celsius := temp - 273;

    mcu.adcSampCtrl := savedSample;
    mcu.adcCtrlD := savedCtrlD;
    mcu.adcMuxPos := savedMuxPos;
    mcu.adcCtrlC := savedCtrlC;
    mcu.vrefCtrlA := savedVoltage;
    return true, Celsius(celsius);
  }

  /** TEMP takes no argument: any argument is refused. */
  lemma RefusesArguments(w: string, measured: Uint16, offset: Int8, gain: Uint8)
    ensures Decide(Some(w), measured, offset, gain) == (false, UnknownArgument(w))
  {
  }

  /** Every intermediate value fits the `int32_t` the source computes in:
      the product is below 2^24. */
  lemma FitsInt32(result: Uint16, offset: Int8, gain: Uint8)
    ensures 0 <= Wrap16(result - offset) * gain + 0x80 < 0x100_0000
    ensures 0x100_0000 <= LONG_MAX
  {
    var x := Wrap16(result - offset);
    assert x * gain <= 0xFFFF * gain by {
      MulMonotone(x, 0xFFFF, gain);
    }
    MulMonotone(gain, 0xFF, 0xFFFF);
  }

  lemma MulMonotone(a: nat, b: nat, c: nat)
    requires a <= b
    ensures a * c <= b * c
  {
  }

  /** The correction is exact unless it leaves the 16 bits: a result
      below the offset wraps up to a difference near 2^16, and a result
      within `-offset` of 2^16 under a negative offset wraps down near 0. */
  lemma OffsetCorrection(result: Uint16, offset: Int8)
    ensures 0 <= result - offset < 0x1_0000 ==> Wrap16(result - offset) == result - offset
    ensures result < offset ==> Wrap16(result - offset) == result - offset + 0x1_0000
    ensures result - offset >= 0x1_0000 ==> Wrap16(result - offset) == result - offset - 0x1_0000
  {
    if result - offset >= 0x1_0000 {
      assert 0 <= result - offset - 0x1_0000 < 0x1_0000;
    }
  }

  /** Where the correction does not wrap, a larger result never reads as a
      lower temperature. */
  lemma Monotone(r1: Uint16, r2: Uint16, offset: Int8, gain: Uint8)
    requires offset <= r1 <= r2 && r2 - offset < 0x1_0000
    ensures Kelvin(r1, offset, gain) <= Kelvin(r2, offset, gain)
  {
    OffsetCorrection(r1, offset);
    OffsetCorrection(r2, offset);
    MulMonotone(r1 - offset, r2 - offset, gain);
  }

  /** With offset 0 and gain 128 a result of 600 is 76,800 / 256 = 300 K,
      27 degrees Celsius; a result of 0 under an offset of 1 wraps to
      65,535, which with gain 127 reads as 32,512 K. */
  lemma Example()
    ensures Decide(None, 600, 0, 128) == (true, Celsius(27))
    ensures Kelvin(0, 1, 127) == 32512
  {
  }

  /** `temp_cmd` is not in the registry, which holds only `reset_cmd`, so
      `HELP TEMP` answers "No such command". */
  lemma Unregistered()
    ensures TempCmd !in Entries(Commands)
    ensures HelpCommand.Outcome(Some(TempCmd.name), Entries(Commands)) == (false, HelpCommand.NoSuchCommand("TEMP"))
  {
    CommandsVisitResetOnce();
    HelpCommand.HelpOverCommands(TempCmd.name);
  }
}
