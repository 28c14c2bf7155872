/**
 Failure-carrying datatypes shared by every component.

 The Python side of the system reports failures by raising exceptions and the
 kernel drivers by returning negative errno values; both are modelled as the
 `Err` case of `Result`, carrying the exception class or the errno.
 */
module Common {

  datatype Option<+T> = None | Some(value: T)

  datatype Result<+T, +E> = Ok(value: T) | Err(error: E)

  /** The Python exception classes the monitor code can raise. */
  datatype PyError =
    | IndexError
    | KeyError
    | ValueError
    | ZeroDivisionError
    | NameError
    | UnboundLocalError

  /** What running a shell command through `os.popen(...).read()` delivered. */
  datatype Command =
    | Output(text: string)
    | ReadFailed    // `read()` raised after the pipe was opened
    | LaunchFailed  // `os.popen` itself raised, so `command` was never bound

  /** Python's `max(lo, min(hi, v))`. */
  function Clamp(v: int, lo: int, hi: int): (r: int)
    requires lo <= hi
    ensures lo <= r <= hi
    ensures lo <= v <= hi ==> r == v
    ensures v < lo ==> r == lo
    ensures v > hi ==> r == hi
  {
    if v < lo then lo else if v > hi then hi else v
  }
}
