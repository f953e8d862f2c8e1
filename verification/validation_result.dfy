/** The outcome of a validation check: a flag and an error message. */
module Validation {

  /** Kotlin's `ValidationResult(isValid, errorMessage = "")`. */
  datatype ValidationResult = ValidationResult(isValid: bool, errorMessage: string := "") {

    /** The documented reading of the record: the message is empty exactly when the check passed. */
    predicate WellFormed() {
      isValid <==> errorMessage == ""
    }
  }

  /** `ValidationResult.success()`. */
  function Success(): (r: ValidationResult)
    ensures r.isValid && r.errorMessage == ""
    ensures r.WellFormed()
  {
    ValidationResult(true, "")
  }

  /** `ValidationResult.error(message)`: a failure carrying `message` verbatim. */
  function Error(message: string): (r: ValidationResult)
    ensures !r.isValid && r.errorMessage == message
    ensures r.WellFormed() <==> message != ""
  {
    ValidationResult(false, message)
  }

  /** Leaving out the message gives an empty one, so a failed result can be ill-formed. */
  lemma DefaultMessageIsEmpty()
    ensures ValidationResult(false).errorMessage == ""
    ensures !ValidationResult(false).WellFormed()
  {
  }
}
