/** Python-level values shared by every part of the model: the Option and
    Result wrappers, the library's exceptions as one datatype, and the cell
    values that flow through a table. */
module Py {

  datatype Option<+T> = None | Some(value: T)

  /** Either a normal return or a raised exception. */
  datatype Result<+T> = Ok(value: T) | Err(error: Error) {
    predicate IsFailure() { Err? }

    function PropagateFailure<U>(): Result<U>
      requires Err?
    {
      Err(error)
    }

    function Extract(): T
      requires Ok?
    {
      value
    }
  }

  /** The exceptions the cleaners raise, plus the Python built-in errors that
      escape from them (a missing dictionary key, a method called on None, an
      empty separator, unbounded recursion). */
  datatype Error =
    | CountryNotSupported
    | LanguageNotSupported
    | LegalTermsDictionaryDoesNotExist
    | LegalTermsDictionaryNotFound
    | ListOfLegalTermsAvailableDoesNotExist
    | CompanyNameIsNotAString
    | CleaningRuleNotFoundInTheDictionary
    | CompanyNameNotFoundInDataFrame
    | CountryNotFoundInDataFrame
    | FinancialCleanerError(message: string)
    | KeyError(key: string)
    | AttributeError
    | ValueError
    | RecursionError

  /** A cell of a table, or an argument handed to a cleaner: a string or a
      missing value (NaN). */
  datatype Value = Str(s: string) | Null

  /** Python's `str(v)` for a cell: a missing value prints as "nan". */
  function StrOf(v: Value): string
  {
    match v
    case Str(s) => s
    case Null => "nan"
  }
}
