/** The ATmega4809 peripheral registers the commands touch, each one byte
    wide, and the bit masks of the device header that name their bits. */
module Registers {

  /** PORTF pin 5 drives the LED, pin 6 reads the push button. */
  const PIN5: bv8 := 0x20
  const PIN6: bv8 := 0x40

  /** PINnCTRL: inverted input and pull-up enable. */
  const INVEN: bv8 := 0x80
  const PULLUPEN: bv8 := 0x08

  /** Group and bit values of the ADC0 and VREF registers. */
  const ADC_ENABLE: bv8 := 0x01
  const ADC_RESSEL_10BIT: bv8 := 0x00
  const ADC_PRESC_DIV4: bv8 := 0x01
  const ADC_REFSEL_INTREF: bv8 := 0x00
  const ADC_SAMPCAP_BP: bv8 := 6
  const ADC_MUXPOS_AIN6: bv8 := 0x06
  const ADC_MUXPOS_TEMPSENSE: bv8 := 0x1E
  const ADC_INITDLY_DLY64: bv8 := 0x60
  const ADC_SAMPNUM_ACC64: bv8 := 0x06
  const VREF_ADC0REFSEL_0V55: bv8 := 0x00
  const VREF_ADC0REFSEL_1V1: bv8 := 0x10
  const VREF_ADC0REFSEL_1V5: bv8 := 0x40
  const VREF_ADC0REFSEL_2V5: bv8 := 0x20
  const VREF_ADC0REFSEL_4V34: bv8 := 0x30

  /** The C integer types the commands compute with. */
  type Uint8 = x: int | 0 <= x < 0x100
  type Int8 = x: int | -0x80 <= x < 0x80
  type Uint16 = x: int | 0 <= x < 0x1_0000

  /** The register file: PORTF, VREF and ADC0, as far as the shell uses
      them. Writing to the OUTSET/OUTCLR and DIRSET/DIRCLR strobes of a port
      changes its OUT and DIR registers, so only those are fields. */
  class Mcu {
    var portfDir: bv8
    var portfOut: bv8
    var portfIn: bv8
    var portfPin6Ctrl: bv8
    var vrefCtrlA: bv8
    var adcCtrlA: bv8
    var adcCtrlC: bv8
    var adcCtrlD: bv8
    var adcMuxPos: bv8
    var adcSampCtrl: bv8

    /** The register file in whatever state it is found. */
    constructor (dir: bv8, out: bv8, input: bv8, pin6Ctrl: bv8, vrefA: bv8,
                 adcA: bv8, adcC: bv8, adcD: bv8, muxPos: bv8, sampCtrl: bv8)
      ensures portfDir == dir && portfOut == out && portfIn == input
      ensures portfPin6Ctrl == pin6Ctrl && vrefCtrlA == vrefA
      ensures adcCtrlA == adcA && adcCtrlC == adcC && adcCtrlD == adcD
      ensures adcMuxPos == muxPos && adcSampCtrl == sampCtrl
    {
      portfDir, portfOut, portfIn, portfPin6Ctrl := dir, out, input, pin6Ctrl;
      vrefCtrlA := vrefA;
      adcCtrlA, adcCtrlC, adcCtrlD, adcMuxPos, adcSampCtrl := adcA, adcC, adcD, muxPos, sampCtrl;
    }

    /** The registers that decide what an ADC conversion measures. */
    function Adc(): AdcConfig
      reads this
    {
      AdcConfig(vrefCtrlA, adcCtrlA, adcCtrlC, adcCtrlD, adcMuxPos, adcSampCtrl)
    }
  }

  /** The set-up a conversion runs under: the voltage reference, ADC0's
      control registers, its input channel and its sampling control. The
      analog side is outside the model: a command that converts is given
      the conversion as a function from this set-up to the 16-bit result
      in RES. */
  datatype AdcConfig = AdcConfig(vrefCtrlA: bv8, ctrlA: bv8, ctrlC: bv8, ctrlD: bv8, muxPos: bv8, sampCtrl: bv8)

  /** `reg |= mask` and `reg &= ~mask`: the bits of `mask` become one (or
      zero) and every other bit keeps its value. */
  function SetBits(reg: bv8, mask: bv8): (r: bv8)
    ensures r & mask == mask && r & !mask == reg & !mask
  {
    reg | mask
  }

  function ClearBits(reg: bv8, mask: bv8): (r: bv8)
    ensures r & mask == 0 && r & !mask == reg & !mask
  {
    reg & !mask
  }

  /** The LED on PORTF pin 5 is wired active low: it is lit while the pin
      is driven low. */
  predicate LedLit(out: bv8) {
    out & PIN5 == 0
  }
}
