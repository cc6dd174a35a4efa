/** Values shared by every part of the model. */
module Common {

  datatype Option<+T> = None | Some(value: T)

  /** A call that either commits with a value or is rolled back with an error code. */
  datatype Result<+T, +E> = Ok(value: T) | Err(error: E)
}

/** What `strip` does. */
module Text {

  predicate IsSpace(c: char) {
    var n := c as int;
    || 0x09 <= n <= 0x0D || 0x1C <= n <= 0x20 || n in {0x85, 0xA0, 0x1680}
    || 0x2000 <= n <= 0x200A || n in {0x2028, 0x2029, 0x202F, 0x205F, 0x3000}
  }

  function Strip(s: string): string {
    if s == [] then s
    else if IsSpace(s[0]) then Strip(s[1..])
    else if IsSpace(s[|s| - 1]) then Strip(s[..|s| - 1])
    else s
  }
}

/** The verdicts of compliance findings (backend/app/compliance/verdicts.py). */
module Verdicts {

  datatype FindingVerdict = Pass | Fail | Unknown | ManualReview | NotApplicable | ProcessError
}
