/**
 * The TSYS01 driver object: its register map, its bus traffic, and the fields
 * `_cal_data`, `_adc24`, `_t` and `_temperature_float` that its methods set
 * one after the other.
 *
 * The I2C bus is abstract. The device answers each 16-bit register read from a
 * fixed map (a register missing from the map is a failed read) and either
 * accepts every command write or refuses every one; the three bytes returned
 * by each ADC read are an input of the call that reads them (None is a failed
 * read). Every bus operation the driver issues is appended to `ops`.
 */
module Sensor {
  import opened Outcomes
  import opened Words
  import opened Conversion
  import opened Units
  import opened Rounding
  import opened Burst

  // The TSYS01 register map.
  const ResetCommand: Byte := 0x1E
  const ConvertCommand: Byte := 0x48
  const ReadCommand: Byte := 0x00
  /** PROM addresses of k0, k1, k2, k3, k4, in the order they are read. */
  const PromAddresses: seq<int> := [0xAA, 0xA8, 0xA6, 0xA4, 0xA2]
  /** Registers holding serial-number bits 23..8 and 7..0. */
  const SerialHighRegister: int := 0xAC
  const SerialLowRegister: int := 0xAE
  /** The two I2C addresses a TSYS01 can answer on. */
  const DeviceAddresses: seq<int> := [0x76, 0x77]

  /** One operation issued on the bus. */
  datatype BusOp = WriteByte(command: Byte) | ReadWord(register: int) | ReadBlock(register: int, count: nat)

  /** The device as the bus sees it: the word each readable register returns, and whether command writes succeed. */
  datatype Bus = Bus(words: map<int, Word16>, acceptsWrites: bool)

  // ---------------------------------------------------------------------------
  // Calibration store

  /**
   * The coefficients `_calibration_data` collects from the registers regs:
   * the byte-swapped words read before the first register that fails.
   */
  function Fetch(words: map<int, Word16>, regs: seq<int>): (k: seq<Word16>)
    ensures |k| <= |regs|
    ensures forall i :: 0 <= i < |k| ==> regs[i] in words && k[i] == SwapBytes(words[regs[i]])
    ensures |k| < |regs| ==> regs[|k|] !in words
  {
    if regs == [] then []
    else
      var init := regs[..|regs| - 1];
      var prev := Fetch(words, init);
      assert forall i :: 0 <= i < |init| ==> init[i] == regs[i];
      if |prev| == |init| && regs[|regs| - 1] in words then prev + [SwapBytes(words[regs[|regs| - 1]])]
      else prev
  }

  /** The contract of Fetch determines its result. */
  lemma FetchUnique(words: map<int, Word16>, regs: seq<int>, k: seq<Word16>)
    requires |k| <= |regs|
    requires forall i :: 0 <= i < |k| ==> regs[i] in words && k[i] == SwapBytes(words[regs[i]])
    requires |k| < |regs| ==> regs[|k|] !in words
    ensures k == Fetch(words, regs)
  {
    var f := Fetch(words, regs);
    assert |f| == |k|;
  }

  /**
   * When every PROM register answers, the coefficients are exactly the five
   * swapped words, k0 from 0xAA through k4 from 0xA2.
   */
  lemma FetchAllProm(words: map<int, Word16>)
    requires forall r :: r in PromAddresses ==> r in words
    ensures Fetch(words, PromAddresses)
         == [SwapBytes(words[0xAA]), SwapBytes(words[0xA8]), SwapBytes(words[0xA6]),
             SwapBytes(words[0xA4]), SwapBytes(words[0xA2])]
  {
    var k := [SwapBytes(words[0xAA]), SwapBytes(words[0xA8]), SwapBytes(words[0xA6]),
              SwapBytes(words[0xA4]), SwapBytes(words[0xA2])];
    assert forall i :: 0 <= i < 5 ==> PromAddresses[i] in PromAddresses;
    FetchUnique(words, PromAddresses, k);
  }

  /** The coefficient list a full fetch leaves behind (empty when there is no bus). */
  function Fetched(i2c: Option<Bus>): seq<Word16>
  {
    if i2c.None? then [] else Fetch(i2c.value.words, PromAddresses)
  }

  function ReadOps(regs: seq<int>): (ops: seq<BusOp>)
    ensures |ops| == |regs|
    ensures forall i :: 0 <= i < |regs| ==> ops[i] == ReadWord(regs[i])
  {
    seq(|regs|, i requires 0 <= i < |regs| => ReadWord(regs[i]))
  }

  /** The PROM reads a fetch issues: one per register, up to and including the first that fails. */
  function CalibrationOps(i2c: Option<Bus>): seq<BusOp>
  {
    if i2c.None? then []
    else
      var n := |Fetched(i2c)|;
      ReadOps(PromAddresses[..if n < |PromAddresses| then n + 1 else n])
  }

  // ---------------------------------------------------------------------------
  // Acquisition and conversion

  /** The operations of one `_read_adc`: the convert command, then the 3-byte read unless the write failed. */
  function ConversionOps(i2c: Option<Bus>): seq<BusOp>
  {
    if i2c.None? then []
    else if !i2c.value.acceptsWrites then [WriteByte(ConvertCommand)]
    else [WriteByte(ConvertCommand), ReadBlock(ReadCommand, 3)]
  }

  /** True when the ADC conversion and read both succeed. */
  predicate AdcReadSucceeds(i2c: Option<Bus>, response: Option<Block>)
  {
    i2c.Some? && i2c.value.acceptsWrites && response.Some?
  }

  /** True when `_cal_data` holds the five words the polynomial indexes. */
  predicate Calibrated(cal: Option<seq<Word16>>)
  {
    cal.Some? && |cal.value| >= 5
  }

  /**
   * The unrounded value of one `temperature` call in the given unit, or the
   * exception it raises, checked in the order the driver runs into them.
   */
  function Reading(i2c: Option<Bus>, cal: Option<seq<Word16>>, unit: Unit, response: Option<Block>): (r: Result<real>)
    ensures r.Ok? <==> AdcReadSucceeds(i2c, response) && Calibrated(cal)
    ensures r.Ok? ==> ToCelsius(unit, r.value) == AdcToCelsius(cal.value, Pack24(response.value))
  {
    if i2c.None? then Err(NoBus)
    else if !i2c.value.acceptsWrites || response.None? then Err(Transport)
    else if cal.None? || |cal.value| < 5 then Err(NoCalibration)
    else Ok(FromCelsius(unit, AdcToCelsius(cal.value, Pack24(response.value))))
  }

  function RoundResult(r: Result<real>): Result<real>
  {
    match r
    case Ok(v) => Ok(Round2(v))
    case Err(f) => Err(f)
  }

  // ---------------------------------------------------------------------------
  // Burst averaging

  /** How many times `range(n)` runs for the clamped sample count. */
  function Rounds(numberSamples: int): (n: nat)
    ensures n <= MaxSamples
    ensures numberSamples <= MaxSamples && numberSamples >= 0 ==> n == numberSamples
    ensures numberSamples > MaxSamples ==> n == MaxSamples
    ensures numberSamples < 0 ==> n == 0
  {
    var c := ClampCount(numberSamples);
    if c < 0 then 0 else c
  }

  /** The `_temperature_float` values of successive readings, or the exception of the first that fails. */
  function CollectReadings(i2c: Option<Bus>, cal: Option<seq<Word16>>, unit: Unit, responses: seq<Option<Block>>): (r: Result<seq<real>>)
    ensures r.Ok? ==> |r.value| == |responses|
    ensures r.Ok? ==> forall i :: 0 <= i < |responses| ==> Reading(i2c, cal, unit, responses[i]) == Ok(r.value[i])
  {
    if responses == [] then Ok([])
    else
      var init := responses[..|responses| - 1];
      assert forall i :: 0 <= i < |init| ==> init[i] == responses[i];
      match CollectReadings(i2c, cal, unit, init)
      case Err(f) => Err(f)
      case Ok(prefix) =>
        match Reading(i2c, cal, unit, responses[|responses| - 1])
        case Err(f) => Err(f)
        case Ok(v) => Ok(prefix + [v])
  }

  /** How many `temperature` calls a burst makes: one per reply, up to and including the first that fails. */
  function Calls(i2c: Option<Bus>, cal: Option<seq<Word16>>, unit: Unit, responses: seq<Option<Block>>): (n: nat)
    ensures n <= |responses|
    ensures CollectReadings(i2c, cal, unit, responses).Ok? ==> n == |responses|
  {
    if responses == [] then 0
    else
      var init := responses[..|responses| - 1];
      if CollectReadings(i2c, cal, unit, init).Err? then Calls(i2c, cal, unit, init)
      else |responses|
  }

  /** ops repeated n times. */
  function Repeat(ops: seq<BusOp>, n: nat): (r: seq<BusOp>)
    ensures |r| == n * |ops|
  {
    if n == 0 then [] else Repeat(ops, n - 1) + ops
  }

  /** The bus operations of a burst: each `temperature` call issues one conversion, whether or not it then fails. */
  function BurstOps(i2c: Option<Bus>, cal: Option<seq<Word16>>, unit: Unit, responses: seq<Option<Block>>): seq<BusOp>
  {
    Repeat(ConversionOps(i2c), Calls(i2c, cal, unit, responses))
  }

  /** The driver's measurement fields `_adc24`, `_t` and `_temperature_float`. */
  datatype Readout = Readout(adc24: nat, t: real, temperatureFloat: real)

  /**
   * The measurement fields after one `temperature` call: `_adc24` changes once
   * the 3-byte read succeeds, `_t` once the polynomial can be evaluated, and
   * `_temperature_float` only when the whole reading succeeds.
   */
  function AfterTemperature(i2c: Option<Bus>, cal: Option<seq<Word16>>, unit: Unit, f: Readout, response: Option<Block>): Readout
  {
    var adc := if AdcReadSucceeds(i2c, response) then Pack24(response.value) else f.adc24;
    var t := if AdcReadSucceeds(i2c, response) && Calibrated(cal) then AdcToCelsius(cal.value, adc) else f.t;
    var reading := Reading(i2c, cal, unit, response);
    Readout(adc, t, if reading.Ok? then reading.value else f.temperatureFloat)
  }

  /** The measurement fields after `temperature` calls on the first n replies, in order. */
  function AfterTemperatures(i2c: Option<Bus>, cal: Option<seq<Word16>>, unit: Unit, f: Readout,
                             responses: seq<Option<Block>>, n: nat): Readout
    requires n <= |responses|
  {
    if n == 0 then f
    else AfterTemperature(i2c, cal, unit, AfterTemperatures(i2c, cal, unit, f, responses, n - 1), responses[n - 1])
  }

  /**
   * A failing reading leaves `_temperature_float` as the last successful
   * reading left it: after the first failing reply i it holds reading i - 1,
   * or its value before the burst when the very first reply fails.
   */
  lemma FailureKeepsLastReading(i2c: Option<Bus>, cal: Option<seq<Word16>>, unit: Unit, f: Readout,
                                responses: seq<Option<Block>>, i: nat)
    requires i < |responses|
    requires forall j :: 0 <= j < i ==> Reading(i2c, cal, unit, responses[j]).Ok?
    requires Reading(i2c, cal, unit, responses[i]).Err?
    ensures AfterTemperatures(i2c, cal, unit, f, responses, i + 1).temperatureFloat
         == if i == 0 then f.temperatureFloat else Reading(i2c, cal, unit, responses[i - 1]).value
  {
  }

  /** What `burst_avg_temperature` returns for the given bus replies. */
  function BurstOutcome(i2c: Option<Bus>, cal: Option<seq<Word16>>, unit: Unit, responses: seq<Option<Block>>): Result<real>
  {
    match CollectReadings(i2c, cal, unit, responses)
    case Err(f) => Err(f)
    case Ok(samples) => RoundResult(BurstMean(samples))
  }

  /** Once a reading has failed, later bus replies change neither the outcome nor the traffic. */
  lemma {:induction false} CollectStopsAtFailure(i2c: Option<Bus>, cal: Option<seq<Word16>>, unit: Unit,
                                                 responses: seq<Option<Block>>, k: nat, j: nat)
    requires k <= j <= |responses|
    requires CollectReadings(i2c, cal, unit, responses[..k]).Err?
    ensures CollectReadings(i2c, cal, unit, responses[..j]) == CollectReadings(i2c, cal, unit, responses[..k])
    ensures Calls(i2c, cal, unit, responses[..j]) == Calls(i2c, cal, unit, responses[..k])
  {
    if j > k {
      CollectStopsAtFailure(i2c, cal, unit, responses, k, j - 1);
      assert responses[..j][..j - 1] == responses[..j - 1];
    }
  }

  /** When every reply yields a reading, the burst collects exactly those readings, in order. */
  lemma {:induction false} CollectAllSucceed(i2c: Option<Bus>, cal: Option<seq<Word16>>, unit: Unit,
                                             responses: seq<Option<Block>>, samples: seq<real>)
    requires |samples| == |responses|
    requires forall j :: 0 <= j < |responses| ==> Reading(i2c, cal, unit, responses[j]) == Ok(samples[j])
    ensures CollectReadings(i2c, cal, unit, responses) == Ok(samples)
  {
    if responses != [] {
      var n := |responses| - 1;
      CollectAllSucceed(i2c, cal, unit, responses[..n], samples[..n]);
      assert samples == samples[..n] + [samples[n]];
    }
  }

  /**
   * A burst stops at its first failing reply i: the burst raises that
   * reply's exception, after exactly i + 1 `temperature` calls.
   */
  lemma CollectFirstFailure(i2c: Option<Bus>, cal: Option<seq<Word16>>, unit: Unit, responses: seq<Option<Block>>, i: nat)
    requires i < |responses|
    requires forall j :: 0 <= j < i ==> Reading(i2c, cal, unit, responses[j]).Ok?
    requires Reading(i2c, cal, unit, responses[i]).Err?
    ensures CollectReadings(i2c, cal, unit, responses) == Err(Reading(i2c, cal, unit, responses[i]).fault)
    ensures Calls(i2c, cal, unit, responses) == i + 1
  {
    CollectFailsAt(i2c, cal, unit, responses, i);
    CollectStopsAtFailure(i2c, cal, unit, responses, i + 1, |responses|);
    assert responses[..|responses|] == responses;
  }

  /** The replies up to and including the first failing one i end in its exception after i + 1 calls. */
  lemma CollectFailsAt(i2c: Option<Bus>, cal: Option<seq<Word16>>, unit: Unit, responses: seq<Option<Block>>, i: nat)
    requires i < |responses|
    requires forall j :: 0 <= j < i ==> Reading(i2c, cal, unit, responses[j]).Ok?
    requires Reading(i2c, cal, unit, responses[i]).Err?
    ensures CollectReadings(i2c, cal, unit, responses[..i + 1]) == Err(Reading(i2c, cal, unit, responses[i]).fault)
    ensures Calls(i2c, cal, unit, responses[..i + 1]) == i + 1
  {
    CollectPrefixSucceeds(i2c, cal, unit, responses, i);
    assert responses[..i + 1][..i] == responses[..i];
  }

  /** Replies that each yield a reading make a successful burst. */
  lemma CollectPrefixSucceeds(i2c: Option<Bus>, cal: Option<seq<Word16>>, unit: Unit, responses: seq<Option<Block>>, i: nat)
    requires i <= |responses|
    requires forall j :: 0 <= j < i ==> Reading(i2c, cal, unit, responses[j]).Ok?
    ensures CollectReadings(i2c, cal, unit, responses[..i]).Ok?
  {
    var prefix := responses[..i];
    var samples := seq(i, j requires 0 <= j < i => Reading(i2c, cal, unit, responses[j]).value);
    assert forall j :: 0 <= j < i ==> Reading(i2c, cal, unit, prefix[j]) == Ok(samples[j]);
    CollectAllSucceed(i2c, cal, unit, prefix, samples);
  }

  /** A reading in any unit is the Celsius reading converted to that unit; the unit never causes a failure. */
  lemma ReadingInUnit(i2c: Option<Bus>, cal: Option<seq<Word16>>, unit: Unit, response: Option<Block>)
    ensures Reading(i2c, cal, unit, response).Ok? == Reading(i2c, cal, Celsius, response).Ok?
    ensures Reading(i2c, cal, unit, response).Ok? ==>
              Reading(i2c, cal, unit, response).value == FromCelsius(unit, Reading(i2c, cal, Celsius, response).value)
  {
  }

  /**
   * The burst in any unit is the burst in Celsius converted to that unit:
   * every reading goes through the same affine map.
   */
  lemma {:induction false} CollectInUnit(i2c: Option<Bus>, cal: Option<seq<Word16>>, unit: Unit, responses: seq<Option<Block>>)
    requires CollectReadings(i2c, cal, Celsius, responses).Ok?
    ensures CollectReadings(i2c, cal, unit, responses)
         == Ok(Affine(CollectReadings(i2c, cal, Celsius, responses).value, Scale(unit), Offset(unit)))
  {
    if responses != [] {
      var init, last := responses[..|responses| - 1], responses[|responses| - 1];
      var a, b := Scale(unit), Offset(unit);
      CollectInUnit(i2c, cal, unit, init);
      var c := CollectReadings(i2c, cal, Celsius, init).value;
      var v := Reading(i2c, cal, Celsius, last).value;
      assert CollectReadings(i2c, cal, Celsius, responses) == Ok(c + [v]);
      assert Reading(i2c, cal, Celsius, last).Ok?;
      ReadingInUnit(i2c, cal, unit, last);
      FromCelsiusAffine(unit, v);
      assert Reading(i2c, cal, unit, last).value == a * v + b;
      assert CollectReadings(i2c, cal, unit, responses) == Ok(Affine(c, a, b) + [a * v + b]);
      AffineSnoc(c, v, a, b);
    } else {
      assert Affine([], Scale(unit), Offset(unit)) == [];
    }
  }

  /** Before rounding, a burst average in any unit is the Celsius burst average converted to that unit. */
  lemma BurstMeanInUnit(i2c: Option<Bus>, cal: Option<seq<Word16>>, unit: Unit, responses: seq<Option<Block>>)
    requires CollectReadings(i2c, cal, Celsius, responses).Ok?
    requires |responses| >= 3
    ensures CollectReadings(i2c, cal, unit, responses).Ok?
    ensures BurstMean(CollectReadings(i2c, cal, unit, responses).value)
         == Ok(FromCelsius(unit, BurstMean(CollectReadings(i2c, cal, Celsius, responses).value).value))
  {
    CollectInUnit(i2c, cal, unit, responses);
    ConvertedBurstMean(CollectReadings(i2c, cal, Celsius, responses).value, unit);
  }

  lemma ConvertedBurstMean(celsius: seq<real>, unit: Unit)
    requires |celsius| >= 3
    ensures BurstMean(Affine(celsius, Scale(unit), Offset(unit))) == Ok(FromCelsius(unit, BurstMean(celsius).value))
  {
    BurstMeanAffine(celsius, Scale(unit), Offset(unit));
    FromCelsiusAffine(unit, BurstMean(celsius).value);
  }

  /** A successful burst issues exactly one conversion, a convert command and a 3-byte read, per reading. */
  lemma BurstOpsOnSuccess(i2c: Option<Bus>, cal: Option<seq<Word16>>, unit: Unit, responses: seq<Option<Block>>)
    requires CollectReadings(i2c, cal, unit, responses).Ok?
    ensures BurstOps(i2c, cal, unit, responses)
         == Repeat([WriteByte(ConvertCommand), ReadBlock(ReadCommand, 3)], |responses|)
  {
    if responses != [] {
      assert Reading(i2c, cal, unit, responses[0]).Ok?;
    }
  }

  // ---------------------------------------------------------------------------
  // Serial number

  /** The traffic and the value of `sn` for a device whose registers answer from words. */
  function SerialOps(words: map<int, Word16>): seq<BusOp>
  {
    if SerialHighRegister !in words then [ReadWord(SerialHighRegister)]
    else [ReadWord(SerialHighRegister), ReadWord(SerialLowRegister)]
  }

  function SerialOutcome(words: map<int, Word16>): (r: Result<nat>)
    ensures r.Ok? <==> SerialHighRegister in words && SerialLowRegister in words
    ensures r.Ok? ==> r.value < 0x100_0000
    ensures r.Ok? ==> r.value / 0x100 == SwapBytes(words[SerialHighRegister])
    ensures r.Ok? ==> r.value % 0x100 == words[SerialLowRegister] / 0x100
  {
    if SerialHighRegister !in words || SerialLowRegister !in words then Err(Transport)
    else
      var s := SerialFromWords(words[SerialHighRegister], words[SerialLowRegister]);
      assert s / 0x100 == SwapBytes(words[SerialHighRegister]) by {
        var hi := words[SerialHighRegister];
        var q := s / 0x100;
        assert q / 0x100 == hi % 0x100 && q % 0x100 == hi / 0x100 by {
          assert s / 0x1_0000 == q / 0x100;
        }
        var w := SwapBytes(hi);
        assert q == (q / 0x100) * 0x100 + q % 0x100;
        assert w == (w / 0x100) * 0x100 + w % 0x100;
      }
      Ok(s)
  }

  // ---------------------------------------------------------------------------
  // The driver object

  class Tsys01 {
    /** `_bus` and `_address`, fixed at construction. */
    const busNumber: int
    const address: int
    /** `_i2c`: the bus handle, absent when the address is refused or the bus cannot be opened. */
    const i2c: Option<Bus>
    /** `_cal_data`: None until `_calibration_data` first runs. */
    var calData: Option<seq<Word16>>
    /** `_adc24`, `_t` and `_temperature_float`. */
    var adc24: nat
    var t: real
    var temperatureFloat: real
    /** Every bus operation issued so far, oldest first. */
    var ops: seq<BusOp>

    /**
     * `TSYS01(bus, address)`. The handle exists only for address 0x76 or 0x77
     * and only if opening bus number `bus` succeeds, modelled by `handle`.
     */
    constructor (bus: int, addr: int, handle: Option<Bus>)
      ensures busNumber == bus && address == addr
      ensures i2c == (if addr in DeviceAddresses then handle else None)
      ensures calData == None && ops == []
    {
      busNumber := bus;
      address := addr;
      i2c := if addr in DeviceAddresses then handle else None;
      calData := None;
      adc24, t, temperatureFloat := 0, 0.0, 0.0;
      ops := [];
    }

    /** `reset_sensor`: writes the reset command and nothing else; the coefficients stay. */
    method ResetSensor() returns (r: Result<bool>)
      modifies this`ops
      ensures calData == old(calData)
      ensures i2c.None? ==> r == Err(NoBus) && ops == old(ops)
      ensures i2c.Some? ==> ops == old(ops) + [WriteByte(ResetCommand)]
      ensures i2c.Some? ==> r == if i2c.value.acceptsWrites then Ok(true) else Err(Transport)
    {
      if i2c.None? {
        return Err(NoBus);
      }
      ops := ops + [WriteByte(ResetCommand)];
      if !i2c.value.acceptsWrites {
        return Err(Transport);
      }
      r := Ok(true);
    }

    /**
     * `_calibration_data`: clears `_cal_data`, then reads the PROM words in
     * the order k0..k4, appending each one byte-swapped; a failed read stops
     * the loop and leaves the words read before it.
     */
    method CalibrationData() returns (r: Result<()>)
      modifies this`calData, this`ops
      ensures calData == Some(Fetched(i2c))
      ensures ops == old(ops) + CalibrationOps(i2c)
      ensures r.Ok? <==> i2c.Some? && |Fetched(i2c)| == |PromAddresses|
      ensures r.Err? ==> r.fault == if i2c.None? then NoBus else Transport
    {
      calData := Some([]);
      if i2c.None? {
        return Err(NoBus);
      }
      var words := i2c.value.words;
      var i := 0;
      while i < |PromAddresses|
        invariant 0 <= i <= |PromAddresses|
        invariant calData.Some? && |calData.value| == i
        invariant forall j :: 0 <= j < i ==>
                    PromAddresses[j] in words && calData.value[j] == SwapBytes(words[PromAddresses[j]])
        invariant ops == old(ops) + ReadOps(PromAddresses[..i])
      {
        var register := PromAddresses[i];
        ops := ops + [ReadWord(register)];
        assert ReadOps(PromAddresses[..i + 1]) == ReadOps(PromAddresses[..i]) + [ReadWord(register)];
        if register !in words {
          FetchUnique(words, PromAddresses, calData.value);
          return Err(Transport);
        }
        calData := Some(calData.value + [SwapBytes(words[register])]);
        i := i + 1;
      }
      FetchUnique(words, PromAddresses, calData.value);
      assert PromAddresses[..i] == PromAddresses;
      r := Ok(());
    }

    /** `initialize_sensor`: reset, then fetch the calibration; an exception in either ends it. */
    method InitializeSensor() returns (r: Result<bool>)
      modifies this`calData, this`ops
      ensures r.Ok? <==> i2c.Some? && i2c.value.acceptsWrites && |Fetched(i2c)| == |PromAddresses|
      ensures r.Ok? ==> r.value
      ensures i2c.None? ==> r == Err(NoBus) && ops == old(ops) && calData == old(calData)
      ensures i2c.Some? && !i2c.value.acceptsWrites ==>
                r == Err(Transport) && ops == old(ops) + [WriteByte(ResetCommand)] && calData == old(calData)
      ensures i2c.Some? && i2c.value.acceptsWrites ==>
                ops == old(ops) + [WriteByte(ResetCommand)] + CalibrationOps(i2c) && calData == Some(Fetched(i2c))
      ensures r.Err? ==> r.fault == if i2c.None? then NoBus else Transport
    {
      var reset := ResetSensor();
      if reset.Err? {
        return Err(reset.fault);
      }
      var fetch := CalibrationData();
      if fetch.Err? {
        return Err(fetch.fault);
      }
      r := Ok(true);
    }

    /** `_read_adc`: issues a conversion and stores the 24-bit reading, most significant byte first. */
    method ReadAdc(response: Option<Block>) returns (r: Result<()>)
      modifies this`adc24, this`ops
      ensures ops == old(ops) + ConversionOps(i2c)
      ensures r.Ok? <==> AdcReadSucceeds(i2c, response)
      ensures r.Err? ==> r.fault == if i2c.None? then NoBus else Transport
      ensures adc24 == if r.Ok? then Pack24(response.value) else old(adc24)
    {
      if i2c.None? {
        return Err(NoBus);
      }
      ops := ops + [WriteByte(ConvertCommand)];
      if !i2c.value.acceptsWrites {
        return Err(Transport);
      }
      ops := ops + [ReadBlock(ReadCommand, 3)];
      if response.None? {
        return Err(Transport);
      }
      var b := response.value;
      adc24 := Pack24(b);
      r := Ok(());
    }

    /** `_adc2temp`: the polynomial in `_adc24 / 256` with the coefficients k0..k4 of `_cal_data`. */
    method Adc2Temp() returns (r: Result<()>)
      modifies this`t
      ensures r.Ok? <==> Calibrated(calData)
      ensures r.Err? ==> r.fault == NoCalibration && t == old(t)
      ensures r.Ok? ==> t == AdcToCelsius(calData.value, adc24)
    {
      if calData.None? || |calData.value| < 5 {
        return Err(NoCalibration);
      }
      t := AdcToCelsius(calData.value, adc24);
      r := Ok(());
    }

    /**
     * `temperature(units)`: reads the ADC, converts, keeps the unrounded value
     * in the selected unit in `_temperature_float`, and returns it rounded to
     * two decimals.
     */
    method Temperature(units: string, response: Option<Block>) returns (r: Result<real>)
      modifies this`adc24, this`t, this`temperatureFloat, this`ops
      ensures r.Ok? <==> Reading(i2c, calData, ParseUnit(units), response).Ok?
      ensures r.Ok? ==> Reading(i2c, calData, ParseUnit(units), response) == Ok(temperatureFloat)
      ensures r.Ok? ==> r.value == Round2(temperatureFloat)
      ensures r.Err? ==> r == Reading(i2c, calData, ParseUnit(units), response) && temperatureFloat == old(temperatureFloat)
      ensures ops == old(ops) + ConversionOps(i2c)
      ensures adc24 == if AdcReadSucceeds(i2c, response) then Pack24(response.value) else old(adc24)
      ensures t == if AdcReadSucceeds(i2c, response) && Calibrated(calData)
                   then AdcToCelsius(calData.value, adc24) else old(t)
    {
      var read := ReadAdc(response);
      if read.Err? {
        return Err(read.fault);
      }
      var converted := Adc2Temp();
      if converted.Err? {
        return Err(converted.fault);
      }
      var unit := ParseUnit(units);
      var temperature := FromCelsius(unit, t);
      temperatureFloat := temperature;
      r := Ok(Round2(temperature));
    }

    /** `sn`: reads the words at 0xAC and 0xAE and assembles the 24-bit serial number. */
    method SerialNumber() returns (r: Result<nat>)
      modifies this`ops
      ensures i2c.None? ==> r == Err(NoBus) && ops == old(ops)
      ensures i2c.Some? ==> r == SerialOutcome(i2c.value.words)
      ensures i2c.Some? ==> ops == old(ops) + SerialOps(i2c.value.words)
    {
      if i2c.None? {
        return Err(NoBus);
      }
      var words := i2c.value.words;
      ops := ops + [ReadWord(SerialHighRegister)];
      if SerialHighRegister !in words {
        return Err(Transport);
      }
      ops := ops + [ReadWord(SerialLowRegister)];
      if SerialLowRegister !in words {
        return Err(Transport);
      }
      r := Ok(SerialFromWords(words[SerialHighRegister], words[SerialLowRegister]));
    }

    /**
     * The sampling loop of `burst_avg_temperature`: one `temperature(units)`
     * call per bus reply, keeping each `_temperature_float`; the first
     * exception ends the loop.
     */
    method CollectSamples(units: string, responses: seq<Option<Block>>) returns (r: Result<seq<real>>)
      modifies this`adc24, this`t, this`temperatureFloat, this`ops
      ensures r == CollectReadings(i2c, calData, ParseUnit(units), responses)
      ensures ops == old(ops) + BurstOps(i2c, calData, ParseUnit(units), responses)
      ensures r.Ok? && |responses| > 0 ==> temperatureFloat == r.value[|responses| - 1]
      ensures Readout(adc24, t, temperatureFloat)
           == AfterTemperatures(i2c, calData, ParseUnit(units), old(Readout(adc24, t, temperatureFloat)),
                                responses, Calls(i2c, calData, ParseUnit(units), responses))
    {
      ghost var unit := ParseUnit(units);
      ghost var start := Readout(adc24, t, temperatureFloat);
      var samples: seq<real> := [];
      var i := 0;
      while i < |responses|
        invariant 0 <= i <= |responses|
        invariant |samples| == i
        invariant forall j :: 0 <= j < i ==> Reading(i2c, calData, unit, responses[j]) == Ok(samples[j])
        invariant ops == old(ops) + Repeat(ConversionOps(i2c), i)
        invariant i > 0 ==> temperatureFloat == samples[i - 1]
        invariant Readout(adc24, t, temperatureFloat) == AfterTemperatures(i2c, calData, unit, start, responses, i)
      {
        var reading := Temperature(units, responses[i]);
        if reading.Err? {
          CollectFirstFailure(i2c, calData, unit, responses, i);
          return Err(reading.fault);
        }
        samples := samples + [temperatureFloat];
        i := i + 1;
      }
      CollectAllSucceed(i2c, calData, unit, responses, samples);
      r := Ok(samples);
    }

    /**
     * `burst_avg_temperature(n, units)`: takes min(n, 10) readings, one per
     * bus reply, drops the first and the last, and returns the mean of the
     * rest rounded to two decimals.
     */
    method BurstAvgTemperature(numberSamples: int, units: string, responses: seq<Option<Block>>) returns (r: Result<real>)
      requires |responses| >= Rounds(numberSamples)
      modifies this`adc24, this`t, this`temperatureFloat, this`ops
      ensures r == BurstOutcome(i2c, calData, ParseUnit(units), responses[..Rounds(numberSamples)])
      ensures ops == old(ops) + BurstOps(i2c, calData, ParseUnit(units), responses[..Rounds(numberSamples)])
      ensures r.Ok? ==>
                temperatureFloat == CollectReadings(i2c, calData, ParseUnit(units), responses[..Rounds(numberSamples)]).value[Rounds(numberSamples) - 1]
      ensures Readout(adc24, t, temperatureFloat)
           == AfterTemperatures(i2c, calData, ParseUnit(units), old(Readout(adc24, t, temperatureFloat)),
                                responses[..Rounds(numberSamples)],
                                Calls(i2c, calData, ParseUnit(units), responses[..Rounds(numberSamples)]))
    {
      var rounds := Rounds(numberSamples);
      var samples := CollectSamples(units, responses[..rounds]);
      if samples.Err? {
        return Err(samples.fault);
      }
      r := RoundResult(BurstMean(samples.value));
    }
  }
}
