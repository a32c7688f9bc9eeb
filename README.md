# DTEK0068 serial command shell, modelled in Dafny

The firmware is a small command shell for the ATmega4809. A command line is
split into arguments by `iterate_args`, which writes a NUL over each
delimiter in place. Each command's `execute` function reads its arguments
one by one with the idiom `arg = arglist; iterate_args(&arg, &arglist,
arglist_end)`, and then reads or writes a few peripheral registers. The
model covers that tokenizer, the registry of command descriptors, the
case-insensitive name matching, and the commands HELP, LED, BUTTON, ADC,
VREF and TEMP.

Layout, one module per file:

- `Options.dfy`: `Option`.
- `CText.dfy`: the C library the commands use, by meaning rather than as
  code:
  - `isspace` and `tolower` in the "C" locale;
  - `strcasecmp`;
  - `strtol` with base 10 and a 32-bit `long`;
  - reading a C string out of a buffer.
- `Util.dfy`: `iterate_args` as a method over an `array<char>`. It is proved
  equal to the function `Iterate`, whose properties `IterateSpec` states.
  The file also defines:
  - the argument loop of util.h (`Tokens`), with its round trip over words
    joined by single spaces (`Join`) and over words with any spacing
    (`Spaced`);
  - the cursor a command's argument reading moves (`Consumed`, `Argument`,
    `NextArgument`).
- `Command.dfy`: descriptors, the NULL-terminated `commands` array and
  `command_match_name`.
- `Registers.dfy`: the register file as the class `Mcu`, with one `bv8`
  field per register a command touches, plus the header's bit and group
  constants.
- `Table.dfy`: the `set_args` tables of ADC and VREF, with their
  first-match search loops.
- `Help.dfy`, `Led.dfy`, `Button.dfy`, `Adc.dfy`, `Vref.dfy`, `Temp.dfy`:
  one module per command.

Each `execute` is a method that consumes the buffer in place, writes the
registers named in its `modifies` clause, and returns the C function's
boolean together with a `Reply` (which message kind it prints). Its
postcondition ties all of that to a pure function `Decide` (`Outcome` for
HELP). `Decide` takes the command's arguments, which are the tokens of the
argument list (`Util.ArgumentIsToken`), and the old register values. The
lemmas beside each command state what the source promises about `Decide`.

The converter and the signature row are parameters: a conversion is a
function from the ADC set-up (`Registers.AdcConfig`) to the 16-bit result.
The BUTTON query reads PORTF.IN from the `Mcu` field `portfIn`.

Where the code differs from what its comments and help texts describe, the
model follows the code:

- An argument list that ends in two or more white-space bytes, or that is
  nothing but white space, yields one more empty argument. When only white
  space lies before `end`, `iterate_args` returns an empty token, not NULL
  (`Util.WhitespaceTail`). A single white-space byte after the last word is
  the delimiter that becomes NUL, so it yields nothing more
  (`Util.TokensOfJoin`, `Util.TokensOfSpaced`).
- `LED` with no argument prints nothing and changes nothing, although its
  help text says it queries the LED.
- `LED <word>` with an unknown word prints a message but returns true.
- `LED SET` accepts what `strtol` accepts after a sign or before trailing
  junk ("+7", "-0", "12x"). `strtol` would also skip leading white space,
  but the argument is a token and never holds any.
- The registry `commands` holds only RESET, so HELP lists only RESET and
  answers "No such command" for every other name, HELP's own included.
- BUTTON stores the raw `strcasecmp(arg, "ON")` in `is_on`, which is true
  for OFF. Its branches are inverted as well, so ON sets the bit and OFF
  clears it.
- VREF SET writes the whole of CTRLA, clearing its other bits. The query
  masks with 0x70 and prints nothing for 0x50, 0x60 and 0x70.
- TEMP writes the value of `ADC_SAMPNUM_ACC64_gc` (a CTRLB group value) to
  SAMPCTRL. On the 16-bit-`int` target, `result - sigrow_offset` is
  computed unsigned and wraps modulo 2^16 before it is widened to
  `int32_t`.

## Model

| member | source | states |
|---|---|---|
| Util.IterateArgs | util.c:12-43 | the in-place tokenizer's returned token, new `*pos`, new `*next_pos` and new buffer are exactly those of `Iterate` on the old buffer |
| Util.IterateSpec | util.c:17-42 | at or past `end`: NULL and nothing changes; otherwise the token starts at the first non-space at or after `pos`, `*pos` is moved there and returned, the token holds neither white space nor NUL, exactly its terminating byte becomes NUL, and `*next_pos` is one past that byte |
| Util.SkipSpacesSpec | util.c:23-27 | the skip loop stops at the first byte that is not white space, and everything it passed is white space |
| Util.TokenEndSpec | util.c:30-32 | the token loop stops at the first white space or NUL, and everything it passed is neither |
| Util.TokenText | util.c:30-42 | the returned argument's text is exactly the bytes from its start up to the byte that ended it, and contains no white space |
| Util.WhitespaceTail | util.c:17-42 | with only white space before `end`, the result is a non-NULL empty token at `end`, the buffer is unchanged, and the next call returns NULL |
| Util.TokensOfJoin | util.h:15-34 | words joined by single spaces, followed by white space, tokenize back to the same words, plus one empty token when the trailing white space is two or more bytes long, or when there are no words and any white space at all |
| Util.TokensSkipSpaces | util.c:22-27 | a run of white space before a word, at the start of the line or left over after the delimiter that became NUL, does not change the tokens |
| Util.TokensOfSpaced | util.h:15-34 | words laid out with any white space before the first and at least one white-space byte between each two (`Spaced`), then a white-space tail, tokenize back to the same words, with the same extra empty token for a tail of two or more bytes |
| Util.SpacedWords | util.h:15-16 | with leading and repeated white space, "  SET   A6" yields "SET", then "A6", then NULL |
| Util.TokensOfSpaces | util.c:17-42 | a stretch of white space alone tokenizes to one empty token, or to nothing when it is empty |
| Util.BarBaz | util.h:18-31 | "bar baz" yields "bar", then "baz", then NULL |
| Util.ArgumentIsToken | adc-command.c:64-75 | the k-th argument a command reads through `arg = arglist; iterate_args(&arg, &arglist, end)` is the k-th token of the line, and NULL once the tokens run out |
| Util.NullStays | util.c:17-20 | once `iterate_args` has returned NULL, every later call in the idiom returns NULL and changes nothing |
| Util.NextArgument | adc-command.c:73-75 | one more turn of the idiom on the buffer yields the next argument, a C string, and advances the cursor by one call |
| CText.CaseCmp | command.c:20 | for strings without NUL, `strcasecmp` is zero exactly when the two agree ignoring ASCII case |
| CText.StrToL | led-command.c:73 | `strtol` base 10 stays within the 32-bit `long` range, reports nothing converted as value 0 with `end_ptr == arg`, and clamps with ERANGE |
| CText.StrToLDecimal | led-command.c:73 | digits followed by a non-digit convert to their decimal value and stop after the digits, or clamp to LONG_MAX with ERANGE |
| Command.CommandsVisitResetOnce | command.c:13-16 | the registry is terminated, and walking it visits `reset_cmd` once and then stops at the sentinel |
| Command.Sentinel | command.h:31-32 | the walk stops at the first NULL, and every earlier element is a descriptor |
| Command.Entries | help-command.c:34 | the descriptors the walk visits are the registry's elements before the sentinel, in order |
| Command.MatchName | command.c:18-21 | `command_match_name` is true exactly when the names are equal ignoring ASCII case |
| Command.MatchNeedsSameLength | command.c:20 | a name of another length, such as a prefix or an extension, never matches |
| Command.ResetMatching | command.c:18-21 | "reset" and "ReSeT" match RESET; "RES" and "RESETX" do not |
| Command.FirstMatching | help-command.c:34-44 | the index found matches, no earlier entry matches, and None means that no entry matches |
| Command.FirstMatchingUnique | help-command.c:34-44 | with names distinct up to case, the entry found for a spelling of a name is the entry carrying it |
| HelpCommand.Execute | help-command.c:28-59 | reads only the first argument; without one it lists every entry and returns true; with one it gives the first matching entry's help and returns true, or "No such command" and false |
| HelpCommand.FindCommand | help-command.c:33-44 | the `found_command` loop with `break` finds the first matching entry before the sentinel, or reports that there is none |
| HelpCommand.ListCommands | help-command.c:52-56 | the listing loop prints one line per entry, in registry order |
| HelpCommand.Lines | help-command.c:55 | one line per entry, carrying that entry's name and blurb |
| HelpCommand.HelpOverCommands | help-command.c:46-58 | over `commands` HELP lists only RESET; a spelling of RESET gets RESET's help with true; any other name gets "No such command" with false |
| HelpCommand.Unregistered | help-command.c:15-22 | `help_cmd` is not in `commands`, so `HELP HELP` answers "No such command" |
| LedCommand.ParseDuty | led-command.c:71-103 | SET's argument is accepted exactly when `strtol` converted digits to a value in 0..255, and the duty is that value |
| LedCommand.CheckDuty | led-command.c:71-103 | the checks in the source's order (zero with errno, zero with nothing converted, below 0, above 255) accept exactly what `ParseDuty` accepts |
| LedCommand.Led.constructor | led-command.c:33-34 | `is_blinking` starts false, `duty_on` 0, and the interrupt's counter 0 |
| LedCommand.Led.Init | led-command.c:36-44 | pin 5 becomes an output and is driven high, so the active-low LED starts dark; the other pins keep their direction and level |
| LedCommand.Led.SetLed | led-command.c:136-147 | blinking stops, the LED is lit exactly when `on` holds (pin 5 low), and the other pins keep their levels |
| LedCommand.Led.Execute | led-command.c:48-127 | returns, prints and consumes what `Decide` says; ON/OFF switch the LED steadily, SET with a valid duty blinks with it, and every other case keeps `is_blinking`, `duty_on` and the pins |
| LedCommand.Led.ExecuteSet | led-command.c:59-117 | SET: a missing or invalid number fails with the usage line and keeps the state; a valid one leaves `is_blinking` true and `duty_on` equal to the number |
| LedCommand.Led.Tick | led-command.c:163-188 | while blinking, the LED is lit exactly when the old counter is below `duty_on`, the counter advances modulo 256, and the other pins are kept; when not blinking, nothing changes |
| LedCommand.Led.Run | led-command.c:163-188 | over `n` consecutive interrupts while blinking, the number after which the LED is lit is `LitTicks` from the starting counter, which is exactly `duty_on` for 256 interrupts; the counter ends `n` further on modulo 256, the LED shows the level set by the last interrupt, and the other pins of PORTF are kept; when not blinking, the counter and the pins are kept |
| LedCommand.LitTicksSnoc | led-command.c:165-183 | one more tick at the end of a stretch adds one exactly when the counter it starts from is below `duty_on` |
| LedCommand.OnOff | led-command.c:54-58 | ON and OFF in any case succeed, print nothing, and switch the LED on or off respectively |
| LedCommand.SetBlinks | led-command.c:59-117 | SET succeeds exactly when a number follows and parses, and then blinks with it; otherwise it fails with the usage line and keeps the state |
| LedCommand.UnknownSucceeds | led-command.c:118-126 | an unknown first argument is reported, yet the command returns true and changes nothing |
| LedCommand.ParseDecimal | led-command.c:73-103 | a word of digits followed by a non-digit is accepted as its value exactly when that value is at most 255 |
| LedCommand.ParseDigits | led-command.c:74-103 | "12x" is accepted as 12, and "256" is refused |
| LedCommand.ParseSigned | led-command.c:73-98 | "+7" is 7 and "-0" is 0, both accepted; "-1" is refused |
| LedCommand.ParseNoDigits | led-command.c:73-87 | every word in which `strtol` finds no digit is refused: the empty word, and a word that starts with neither white space nor a digit and has no digit after a leading sign ("x", "+", "-x") |
| LedCommand.Unregistered | led-command.c:22-29 | `led_cmd` is not in `commands`, so `HELP LED` answers "No such command" |
| LedCommand.DutyCycle | led-command.c:165-183 | any 256 consecutive blinking ticks light the LED on exactly `duty_on` of them, wherever the counter starts |
| ButtonCommand.Written | button-command.c:63-88 | after INV or PUP the option's bit follows ON/OFF, and every other bit of PIN6CTRL, including the other option's, keeps its value |
| ButtonCommand.Init | button-command.c:26-30 | pin 6 becomes an input; the other pins keep their direction |
| ButtonCommand.Execute | button-command.c:32-101 | returns, prints, consumes and writes PIN6CTRL as `Decide` says; the query reports PORTF.IN pin 6, INVEN and PULLUPEN |
| ButtonCommand.ExecuteOption | button-command.c:44-88 | the INV/PUP branch with the source's inverted `is_on` flag ends in the PIN6CTRL value `Decide` gives |
| ButtonCommand.WriteOption | button-command.c:63-88 | with `is_on` set the option's bit is cleared, otherwise set |
| ButtonCommand.Configure | button-command.c:56-88 | INV or PUP followed by ON or OFF, in any case, succeeds; the option's bit is set exactly for ON; every other bit is kept |
| ButtonCommand.OptionsIndependent | button-command.c:65-88 | INV leaves the pull-up bit alone, and PUP leaves the inversion bit alone |
| ButtonCommand.InvOrPup | button-command.c:38-45 | no word is both INV and PUP, so `is_invert` decides the branch |
| ButtonCommand.ConfigureIdempotent | button-command.c:70-87 | applying the same INV/PUP setting twice gives the register value of applying it once |
| ButtonCommand.ConfigureThenQuery | button-command.c:63-98 | after a successful INV/PUP the query reports the option as it was set and the other option as before |
| ButtonCommand.QueryReads | button-command.c:90-100 | with no argument: success, PIN6CTRL unchanged, and the report holds the pin level, INVEN and PULLUPEN |
| ButtonCommand.FailureKeepsControl | button-command.c:38-61 | every failing call leaves PIN6CTRL unchanged |
| ButtonCommand.Unregistered | button-command.c:17-24 | `button_cmd` is not in `commands`, so `HELP BUTTON` answers "No such command" |
| Table.NameIndex | adc-command.c:83-91 | the index found has a name equal to the argument ignoring case, no earlier name is, and None means no name is |
| Table.ValueIndex | vref-command.c:96-103 | the index found has the value searched for, no earlier entry has it, and None means no entry has it |
| Table.FindName | adc-command.c:81-91 | the `strcasecmp` search loop with `break` finds an entry exactly when `NameIndex` does, and yields that entry's value |
| Table.FindValue | vref-command.c:96-103 | the search loop over the values finds an entry exactly when `ValueIndex` does, and yields that entry's name |
| Table.NameFindsEntry | adc-command.c:83-91 | with names distinct up to case, any spelling of an entry's name finds that entry |
| Table.ValueFindsEntry | vref-command.c:96-103 | with distinct values, an entry's value finds that entry |
| AdcCommand.Init | adc-command.c:51-60 | CTRLC becomes DIV4 with the internal reference, CTRLA ENABLE with 10-bit resolution, MUXPOS AIN6 |
| AdcCommand.Execute | adc-command.c:62-116 | returns, prints, consumes and writes MUXPOS as `Decide` says; the bare command reports the conversion of the current set-up and changes nothing |
| AdcCommand.ExecuteSet | adc-command.c:73-100 | SET: a missing or unknown channel fails with MUXPOS kept; a listed one is written to MUXPOS |
| AdcCommand.SetArgsTable | adc-command.c:26-48 | entry n of `set_args` is named "A" followed by n in decimal, and holds MUXPOS value AIN n = n |
| AdcCommand.TableNames | adc-command.c:31-48 | the 16 names are C strings, pairwise distinct even ignoring case |
| AdcCommand.ChannelNamesDistinct | adc-command.c:26-48 | two channel names equal up to case belong to the same channel |
| AdcCommand.ChannelOf | adc-command.c:26-48 | a channel word names a channel below 16 whose table name it spells |
| AdcCommand.ChannelLookup | adc-command.c:83-91 | the search finds an entry exactly for the channel words, and it finds the channel the word names |
| AdcCommand.SetSelects | adc-command.c:73-100 | SET A<n> with n in 0..15, in either case, succeeds and selects AIN n; any other word fails with the usage line and keeps MUXPOS |
| AdcCommand.SetExamples | adc-command.c:93-97 | "a6" selects AIN6; "A16", "A06", "A" and "AIN6" are not channel names |
| AdcCommand.Unregistered | adc-command.c:17-24 | `adc_cmd` is not in `commands`, so `HELP ADC` answers "No such command" |
| VrefCommand.Init | vref-command.c:42-46 | CTRLA `|=` 0V55, whose value is zero, so the register keeps its value |
| VrefCommand.Execute | vref-command.c:48-106 | returns, prints, consumes and writes CTRLA as `Decide` says; the query names the first entry equal to CTRLA & 0x70 and changes nothing |
| VrefCommand.ExecuteSet | vref-command.c:59-87 | SET: a missing or unknown voltage fails with CTRLA kept; a listed one is written over the whole of CTRLA |
| VrefCommand.SetArgsWellFormed | vref-command.c:27-39 | the five names are C strings, distinct up to case; the values are distinct and lie within mask 0x70 |
| VrefCommand.SetOverwrites | vref-command.c:70-87 | SET succeeds exactly for a listed name in any case, then writes that entry's value over CTRLA and zeroes the bits outside the mask; failure prints the usage line and keeps CTRLA |
| VrefCommand.SetThenQuery | vref-command.c:87-103 | a query after a successful SET names the voltage that was set, in the table's spelling |
| VrefCommand.QueryNames | vref-command.c:91-103 | the query depends only on CTRLA & 0x70 and names a voltage exactly when those bits are below 0x50 |
| VrefCommand.SetExample | vref-command.c:70-103 | "SET 2v5" writes 0x20, and a query of 0x20 names "2V5" |
| VrefCommand.Unregistered | vref-command.c:18-25 | `vref_cmd` is not in `commands`, so `HELP VREF` answers "No such command" |
| TempCommand.Measuring | temp-command.c:50-55 | the measurement set-up is VREF CTRLA 0x10, CTRLC 0x41, MUXPOS 0x1E, CTRLD 0x60 and SAMPCTRL 0x06, with ADC0.CTRLA untouched |
| TempCommand.Wrap16 | temp-command.c:68 | the 16-bit unsigned difference equals the true difference when that fits, and the difference plus 2^16 when it is negative |
| TempCommand.Kelvin | temp-command.c:68-71 | the Kelvin value is the corrected result times the gain over 256, rounded to the nearest integer with halves upward, and is never negative |
| TempCommand.Execute | temp-command.c:31-87 | any argument fails with "Unknown argument"; otherwise it returns true with Kelvin minus 273 of the conversion in the measurement set-up; either way all five borrowed registers end up with their old values |
| TempCommand.RefusesArguments | temp-command.c:35-39 | every argument is refused with false |
| TempCommand.FitsInt32 | temp-command.c:68-71 | every intermediate of the arithmetic lies in 0..2^24, well within `int32_t` |
| TempCommand.OffsetCorrection | temp-command.c:68 | the correction is exact within 16 bits; a result below the offset wraps up by 2^16, and a sum at or above 2^16 wraps down by 2^16 |
| TempCommand.Monotone | temp-command.c:66-71 | where the correction does not wrap, a larger conversion result never gives a lower temperature |
| TempCommand.Example | temp-command.c:66-73 | result 600, offset 0 and gain 128 read as 27 degrees Celsius; result 0 under offset 1 wraps and reads as 32512 K |
| TempCommand.Unregistered | temp-command.c:18-25 | `temp_cmd` is not in `commands`, so `HELP TEMP` answers "No such command" |

## Left out

- main.c is not part of this model: USART set-up, blocking transmit and receive, the sleep loop and the receive interrupt are I/O. main.c never feeds lines to the commands.
- reset-command.c is not part of this model beyond its descriptor. It only enables the watchdog.
- The text of every `printf` is not modelled. A `Reply` records which message kind is printed and its operands.
- The command-specific `print_help_text` functions are not modelled. HELP's reply names the handler whose help text it runs (`CommandHelp`).
- The empty `init` functions of HELP and TEMP are not modelled.
- The three function pointers of a descriptor are one `Handler` tag, because they always belong to the same command.
- LED's `init_timer` (the TCA0 set-up) is not modelled, and neither is the write to TCA0 INTFLAGS at the end of the interrupt. Both are configuration with no logic.
- The ADC start-conversion strobe, the busy-wait on RESRDY and the INTFLAGS clear are not modelled. The conversion is the `convert` parameter from the set-up to RES.
- The signature-row bytes TEMPSENSE1 and TEMPSENSE0 are parameters of `TempCommand.Execute`.
- The interrupt runs concurrently with `led_command_execute` through `volatile` globals; the model does not capture that. `LedCommand.Led.Tick` is one sequential step. The momentary `is_blinking = false` inside SET is therefore unobservable, and only its final value is stated.
- Register addresses and the strobe registers are left out. OUTSET/OUTCLR and DIRSET/DIRCLR are modelled by their effect on OUT and DIR.
- A C `char` is modelled as a Dafny `char`, which can hold any Unicode scalar value, not only a byte. The model thus admits more characters than the firmware ever sees; `isspace` and `tolower` treat every character outside ASCII as neither white space nor a letter, as the "C" locale does for bytes above 0x7F.
- `isspace`, `tolower`, `strcasecmp` and `strtol` are specified by their "C"-locale meaning, not by a libc implementation. `CText.CaseCmp`'s sign is stated only as zero or nonzero, since nothing uses the sign.
- LedCommand.Led.Execute: `errno` is modelled only as `strtol`'s range error, the one way it is set here.
