/** The library's enumeration of modes of use (`utils/lib.py`, repeated in
    `exceptions/exception_handler.py`), read by the older cleaners. */
module Lib {
  /** Raise on bad input, or answer NaN. */
  datatype ModeOfUse = ExceptionMode | SilentMode
}
