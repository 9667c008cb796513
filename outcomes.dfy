/** How an operation of the driver ends: a value, or the exception Python would raise. */
module Outcomes {

  /**
   * The exceptions the driver can raise.
   *   NoBus          - the I2C handle `_i2c` was never created (AttributeError)
   *   Transport      - a bus read or write failed (raised by the bus and propagated)
   *   NoCalibration  - `_cal_data` is missing or holds fewer than five words
   *                    (AttributeError or IndexError)
   *   ZeroDivision   - a burst average with nothing left to average
   */
  datatype Fault = NoBus | Transport | NoCalibration | ZeroDivision

  datatype Result<T> = Ok(value: T) | Err(fault: Fault)

  /** A Python attribute that may not have been assigned yet. */
  datatype Option<T> = None | Some(value: T)
}
