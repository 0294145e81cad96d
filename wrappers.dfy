/** The optional value and the crash-or-result value shared by the other
    modules. */
module Wrappers {

  datatype Option<T> = None | Some(value: T)

  /** How the script dies: a division by a zero-length song slot
      (main.py:249), `replaced_words[0]` of an empty list (main.py:287), or
      the unbound loop variable `replace` when the loop of main.py:303 ran no
      iteration (main.py:365). */
  datatype Crash = ZeroDivisionError | IndexError | NameError

  datatype Result<T> = Ok(value: T) | Crashed(error: Crash)
}
