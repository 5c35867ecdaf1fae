/** The base of the cleaners: an operation mode and an output letter case,
    each changed only through a setter that rejects unknown values. */
module BaseCleaner {
  import opened Py

  const ExceptionMode: string := "exception"
  const SilentMode: string := "silent"
  const LowerLetterCase: string := "lower"
  const UpperLetterCase: string := "upper"
  const TitleLetterCase: string := "title"

  const ModeMessage: string := "Operation mode must be: exception or silent"
  const LetterCaseMessage: string := "Letter case must be: lower, upper or title"

  predicate IsMode(m: string)
  {
    m == SilentMode || m == ExceptionMode
  }

  predicate IsLetterCase(c: string)
  {
    c == LowerLetterCase || c == UpperLetterCase || c == TitleLetterCase
  }

  class BaseCleaner {
    var mode: string
    var letterCase: string

    /** Both fields hold accepted values. */
    predicate Valid()
      reads this
    {
      IsMode(mode) && IsLetterCase(letterCase)
    }

    /** A new cleaner is silent and lower-cases its output. */
    constructor()
      ensures mode == SilentMode && letterCase == LowerLetterCase
      ensures Valid()
    {
      mode := SilentMode;
      letterCase := LowerLetterCase;
    }

    /** The `mode` setter: "silent" and "exception" are stored; anything else
        raises FinancialCleanerError and leaves the mode as it was. */
    method SetMode(newMode: string) returns (r: Result<()>)
      modifies this
      ensures IsMode(newMode) ==> r == Ok(()) && mode == newMode
      ensures !IsMode(newMode) ==> r == Err(FinancialCleanerError(ModeMessage)) && mode == old(mode)
      ensures letterCase == old(letterCase)
      ensures old(Valid()) ==> Valid()
    {
      if newMode != SilentMode && newMode != ExceptionMode {
        return Err(FinancialCleanerError(ModeMessage));
      }
      mode := newMode;
      return Ok(());
    }

    /** The `letter_case` setter: "lower", "upper" and "title" are stored;
        anything else raises FinancialCleanerError and leaves the case as it was. */
    method SetLetterCase(newValue: string) returns (r: Result<()>)
      modifies this
      ensures IsLetterCase(newValue) ==> r == Ok(()) && letterCase == newValue
      ensures !IsLetterCase(newValue) ==> r == Err(FinancialCleanerError(LetterCaseMessage)) && letterCase == old(letterCase)
      ensures mode == old(mode)
      ensures old(Valid()) ==> Valid()
    {
      if newValue != LowerLetterCase && newValue != UpperLetterCase && newValue != TitleLetterCase {
        return Err(FinancialCleanerError(LetterCaseMessage));
      }
      letterCase := newValue;
      return Ok(());
    }

    /** The `mode` getter: the last accepted mode. */
    method Mode() returns (m: string)
      requires Valid()
      ensures m == mode && IsMode(m)
    {
      return mode;
    }

    /** The `letter_case` getter: the last accepted letter case. */
    method LetterCase() returns (c: string)
      requires Valid()
      ensures c == letterCase && IsLetterCase(c)
    {
      return letterCase;
    }
  }
}
