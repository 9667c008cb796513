# TSYS01 driver model

A Dafny model of the TSYS01 temperature-sensor driver `TSYS01` in
`tsys01.py`, with proofs of its arithmetic and of its state changes.

The driver runs over I2C. It resets the sensor, reads five calibration words
k0..k4 from PROM (each byte-swapped), and starts an ADC conversion. It packs the
three result bytes into a 24-bit reading and evaluates the fourth-order
polynomial of the TE TSYS01 datasheet in `adc24 / 256`. It then converts the
result to the requested unit. The returned value is rounded to two decimals,
but `_temperature_float` keeps the value before rounding. The driver also
assembles the 24-bit serial number, and it averages a burst of up to ten
readings after dropping the first and the last.

Layout:

- `bits.dfy` (`Bits`): Python's `&`, `|`, `<<` and `>>` on non-negative
  integers, defined bit by bit, with the facts the driver relies on.
- `words.dfy` (`Words`): the byte swap of PROM words, the 24-bit packing of
  the ADC bytes, and the serial-number arithmetic.
- `conversion.dfy` (`Conversion`): the temperature polynomial over exact reals.
- `units.dfy` (`Units`): the unit tokens and the Celsius/Fahrenheit/Kelvin
  conversions.
- `rounding.dfy` (`Rounding`): `round(x, 2)` on exact reals, with ties going to
  the even neighbour.
- `burst.dfy` (`Burst`): the sample-count clamp, the drop-first-and-last slice,
  and the mean.
- `outcomes.dfy` (`Outcomes`): `Result` and `Option`. A Python exception
  becomes an `Err` with one of four faults:
  - `NoBus`: `_i2c` is missing, so Python raises AttributeError.
  - `Transport`: a bus read or write fails.
  - `NoCalibration`: `_cal_data` is missing or has fewer than five words
    (AttributeError or IndexError).
  - `ZeroDivision`.
- `sensor.dfy` (`Sensor`): the abstract bus and the class `Tsys01`, whose
  fields `calData`, `adc24`, `t` and `temperatureFloat` are set by its methods
  as `_cal_data`, `_adc24`, `_t` and `_temperature_float` are in the driver.

The bus is abstract:

- It is a map from register to the 16-bit word that a read of it returns. A
  register missing from the map is a failed read.
- A flag says whether command writes succeed.
- Each ADC block read takes its three bytes as an input of the call; `None`
  means the read failed.
- The class logs every bus operation in the field `ops`, so the contracts also
  state which commands each method issues, and in what order.

## Model

| member | source | states |
|---|---|---|
| Bits.And | tsys01.py:67 | `a & b` is at most each operand |
| Bits.Or | tsys01.py:67 | the bitwise OR of a and b is at least each operand and at most their sum |
| Bits.Shl | tsys01.py:79 | `a << n` has its low n bits clear and shifting it back by n gives a |
| Bits.Shr | tsys01.py:117 | `a >> n` is the quotient q with q * 2^n <= a < (q + 1) * 2^n |
| Bits.AndLowMask | tsys01.py:67 | masking with 2^k - 1 (`w & 0xFF` for k = 8) keeps exactly `w mod 2^k` |
| Bits.OrDisjoint | tsys01.py:67 | OR-ing `a << k` with `b` gives `a * 2^k + b` when `b < 2^k`: an OR of disjoint bit ranges is an addition |
| Words.SwapBytes | tsys01.py:67 | the byte swap (low byte shifted up, OR-ed with `w >> 8`) is again a 16-bit word; its high byte is the low byte of `w` and its low byte the high byte of `w` |
| Words.SwapBytesInvolution | tsys01.py:67 | swapping a word twice gives back the word |
| Words.Pack24 | tsys01.py:79 | the packed ADC reading is below 2^24 |
| Words.Pack24IsBitwise | tsys01.py:79 | the driver's OR of `adc[0] << 16`, `adc[1] << 8` and `adc[2]` equals b0 * 65536 + b1 * 256 + b2 |
| Words.Pack24Unpack24 | tsys01.py:78-79 | each of the three bytes can be recovered from the packed reading |
| Words.Unpack24Pack24 | tsys01.py:78-79 | every value below 2^24 is the packing of a byte triple, so the packing is onto the 24-bit range |
| Words.SerialFromWords | tsys01.py:114-118 | `256 * swap(hi) + (lo >> 8)` is below 2^24; its bits 23..16 are the low byte of the word at 0xAC, bits 15..8 the high byte of that word, and bits 7..0 the high byte of the word at 0xAE |
| Conversion.AdcToCelsius | tsys01.py:88-93 | the polynomial as the driver writes it, highest order first; its meaning is stated by the two lemmas below |
| Conversion.AdcToCelsiusIsTableSum | tsys01.py:82-93 | the polynomial is the sum over i of factor_i * k_i * 10^-e_i * x^i, with factors (-1.5, 1, -2, 4, -2), exponents (2, 6, 11, 16, 21) and x = adc24 / 256; coefficient k_i multiplies only the term of order i |
| Conversion.AdcToCelsiusAtZero | tsys01.py:89-93 | for a raw reading of 0 only the constant term -1.5 * k0 / 100 remains |
| Rounding.RoundHalfEven | tsys01.py:109 | the result is an integer within 1/2 of its argument, and a tie goes to the even integer |
| Rounding.Round2 | tsys01.py:109 | `round(x, 2)` is a multiple of 0.01 within 0.005 of x |
| Rounding.Round2Idempotent | tsys01.py:109 | rounding a rounded value changes nothing |
| Rounding.Round2Ties | tsys01.py:109 | ties go to the even neighbour: 0.125 rounds to 0.12 and 0.135 rounds to 0.14 |
| Units.ParseUnit | tsys01.py:99-107 | the token selects Fahrenheit exactly when it is 'Fahrenheit', 'degF' or 'F', Kelvin exactly when it is 'Kelvin', 'degK' or 'K', and Celsius otherwise |
| Units.UnrecognizedIsCelsius | tsys01.py:105-107 | a token outside the nine accepted spellings is not an error; it reads as Celsius |
| Units.FromCelsius | tsys01.py:99-104 | converting T into a unit and back gives T |
| Units.FromCelsiusToCelsius | tsys01.py:101-104 | converting a value in a unit to Celsius and back gives the value: the conversions are inverse in both directions |
| Units.FromCelsiusAffine | tsys01.py:100-104 | each conversion is `scale * T + offset`: (1, 0) for Celsius, (1.8, 32) for Fahrenheit, (1, 273.15) for Kelvin |
| Burst.ClampCount | tsys01.py:134-137 | a request of 11 or more becomes 10; any smaller request is unchanged |
| Burst.Trim | tsys01.py:143 | `s[1:len(s) - 1]` drops exactly the first and last sample, and is empty for fewer than two samples |
| Burst.BurstMean | tsys01.py:143-144 | the mean of the trimmed samples exists iff there are at least 3 samples; otherwise the result is ZeroDivision; the mean lies between the least and greatest retained sample |
| Burst.Sum | tsys01.py:144 | Python `sum`, added left to right; its bounds and its affine law are the lemmas below |
| Burst.Mean | tsys01.py:144 | `sum(t) / len(t)` is the value that, taken len(t) times, makes up the sum |
| Burst.MinMaxAreSamples | tsys01.py:143-144 | the bounds used for the mean are retained samples themselves |
| Burst.MeanWithinRange | tsys01.py:144 | `sum(t) / len(t)` of a non-empty list lies between its minimum and its maximum |
| Burst.SumAffine | tsys01.py:144 | the sum of `a * s_i + b` is `a * sum(s) + n * b` |
| Burst.MeanAffine | tsys01.py:144 | the mean of `a * s_i + b` is `a * mean(s) + b` |
| Burst.BurstMeanAffine | tsys01.py:143-144 | dropping the ends and averaging commutes with an affine change of unit |
| Burst.BurstMeanExample | tsys01.py:143-144 | samples [10, 20, 30, 40, 50] average to 30 |
| Sensor.Fetch | tsys01.py:63-68 | the coefficients collected from a register list are the swapped words of its registers, in order, up to the first register that fails to read |
| Sensor.FetchAllProm | tsys01.py:63-68 | when every PROM register answers, the coefficients are exactly five: the swapped words of 0xAA, 0xA8, 0xA6, 0xA4, 0xA2 (k0..k4), in that order |
| Sensor.Reading | tsys01.py:96-108 | one reading succeeds iff a bus is present, the conversion write and the 3-byte read succeed, and at least five coefficients are stored; its value, converted back to Celsius, is the polynomial at the packed bytes |
| Sensor.ReadingInUnit | tsys01.py:99-108 | the unit never causes a failure, and a reading in any unit is the Celsius reading converted to that unit |
| Sensor.Rounds | tsys01.py:134-139 | the number of loop passes is the request when it lies between 0 and 10, exactly 10 for a request of 11 or more, and 0 for a negative request |
| Sensor.CollectReadings | tsys01.py:138-142 | a successful burst holds one unrounded reading per bus reply, the i-th being the reading for reply i |
| Sensor.Calls | tsys01.py:139-140 | a burst makes at most one `temperature` call per reply, and one per reply when it succeeds |
| Sensor.CollectAllSucceed | tsys01.py:139-142 | when every reply yields a reading, the burst collects exactly those readings, in order |
| Sensor.CollectFirstFailure | tsys01.py:139-142 | the first failing reply i ends the burst with that reply's exception, after exactly i + 1 `temperature` calls |
| Sensor.CollectFailsAt | tsys01.py:139-142 | the replies up to and including the first failing one end in its exception after exactly i + 1 calls |
| Sensor.CollectStopsAtFailure | tsys01.py:139-142 | once a reading has failed, later replies change neither the outcome nor the number of calls |
| Sensor.CollectInUnit | tsys01.py:139-142 | the burst in any unit is the Celsius burst with every reading converted to that unit |
| Sensor.BurstMeanInUnit | tsys01.py:139-144 | before rounding, the burst average in any unit is the Celsius burst average converted to that unit |
| Sensor.BurstOpsOnSuccess | tsys01.py:139-140 | a successful burst issues exactly one convert command and one 3-byte read per reading: n readings, n conversions |
| Sensor.BurstOutcome | tsys01.py:138-146 | the burst's result: the first exception of the loop, or the rounded mean of the trimmed readings; its properties are BurstMean, CollectReadings and the lemmas about them |
| Sensor.AfterTemperature | tsys01.py:96-108 | the measurement fields after one `temperature` call: `_adc24` changes once the block read succeeds, `_t` once the polynomial can be evaluated, `_temperature_float` only when the reading succeeds |
| Sensor.AfterTemperatures | tsys01.py:139-141 | the measurement fields after successive `temperature` calls, in reply order |
| Sensor.FailureKeepsLastReading | tsys01.py:139-141 | after the first failing reply i, `_temperature_float` holds reading i - 1, or its value before the burst when the first reply fails |
| Sensor.SerialOutcome | tsys01.py:113-119 | the serial number exists iff both serial registers answer; it is below 2^24; dropping its low byte leaves the byte-swapped word at 0xAC, and its low byte is the high byte of the word at 0xAE |
| Sensor.Tsys01.constructor | tsys01.py:37-54 | the bus handle exists only for address 0x76 or 0x77 and only if opening the bus succeeds; `_cal_data` is unset and no traffic has been issued |
| Sensor.Tsys01.ResetSensor | tsys01.py:122-125 | issues only the reset command 0x1E and returns True; `_cal_data` is unchanged; fails without a bus or when the write fails |
| Sensor.Tsys01.CalibrationData | tsys01.py:63-68 | `_cal_data` becomes the fetch result, with one PROM read per register up to and including the first that fails; it succeeds iff all five words were read |
| Sensor.Tsys01.InitializeSensor | tsys01.py:57-60 | reset and then calibration; returns True iff both succeed; the traffic is the reset followed by the PROM reads; a failed reset leaves `_cal_data` unchanged |
| Sensor.Tsys01.ReadAdc | tsys01.py:71-79 | issues the convert command 0x48 and then the 3-byte read of 0x00; on success `_adc24` is the packed reading, and otherwise it is unchanged |
| Sensor.Tsys01.Adc2Temp | tsys01.py:82-93 | `_t` becomes the polynomial in `_adc24` and the first five coefficients, and depends on nothing else; fails when fewer than five coefficients are stored |
| Sensor.Tsys01.Temperature | tsys01.py:96-110 | the outcome is that of Reading; `_temperature_float` holds the unrounded value in the chosen unit, and only the returned value is rounded to two decimals; `_adc24`, `_t` and the traffic are stated exactly |
| Sensor.Tsys01.SerialNumber | tsys01.py:113-119 | returns SerialOutcome of the register words; reads 0xAC and then 0xAE, and stops after the first failed read |
| Sensor.Tsys01.CollectSamples | tsys01.py:138-142 | the loop's outcome is CollectReadings of the replies; the traffic is one conversion per `temperature` call; `_temperature_float` ends as the last reading; on every outcome `_adc24`, `_t` and `_temperature_float` are those after the `temperature` calls made, up to and including a failing one |
| Sensor.Tsys01.BurstAvgTemperature | tsys01.py:130-146 | takes min(n, 10) readings (none for n < 0), and returns the mean of all but the first and last, rounded to two decimals, or the first exception; fewer than three readings give ZeroDivision; `_adc24`, `_t` and `_temperature_float` are those after the `temperature` calls made, on every outcome including ZeroDivision |

## Left out

- I2C transport (`smbus.SMBus`, `read_word_data`, `write_byte`,
  `read_i2c_block_data`) and the `smbus` import guard. The bus is an abstract
  register map with a write-success flag, and every ADC block is an input.
  Opening the bus is the constructor parameter `handle`.
- A device whose writes succeed on some calls and fail on others: write
  success is one flag per device.
- `time.sleep` settling delays. They are timing only.
- Console `print` diagnostics. Only the value or exception that follows each
  one is modelled.
- IEEE double arithmetic. The polynomial, the unit conversions, the mean and
  `round` are exact real arithmetic, so binary representation effects are not
  captured: a decimal tie such as 2.675, whose nearest double lies below
  it and which Python therefore rounds down, rounds up in the model.
- Rounding.Round2: models `round(x, 2)` on exact decimal values, so it does
  not capture the behaviour of `round` on the nearest binary double.
- Default arguments (`bus = 1`, `address = 0x77`, `units = 'degC'`,
  `number_samples = 10`). Every call passes its arguments explicitly.
- Non-integer and non-string arguments: `number_samples` is an integer and
  `units` a string.
- The fields `_adc24`, `_t` and `_temperature_float` are unset in the driver
  until first written. In the model they start at 0.
- Reads of `_temperature_float` before any successful measurement. These
  raise AttributeError in the driver and are not modelled.
- The driver does not check for initialisation before measuring. A
  measurement before `initialize_sensor` still issues the conversion, and
  then fails on the missing `_cal_data` (AttributeError). It does not fail up
  front, and the model follows the code.
- Sensor.Tsys01.BurstAvgTemperature: the bus replies are passed in as a
  sequence, so the model requires at least as many replies as loop passes.
- The MS5837 pressure-sensor module and the example scripts. The MS5837
  module is not part of this model, and the scripts only call the driver,
  print and sleep.
