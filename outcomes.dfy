/** Optional values and the exceptions the modelled Python code raises. */
module Outcomes {

  datatype Option<+T> = None | Some(value: T)

  /** The Python exception classes raised by the modelled operations. */
  datatype Error =
    | ValueError      // numpy field clashes, broadcast failures, bad `descr`
    | TypeError       // `num_spp` broadcast failure, column-name mismatch in a merge
    | IndexError      // `data_form[0]` on an empty list, `sys.argv[0]` on an empty command line
    | AssertionError  // the `assert` statements of `create_intcodes`
    | SystemExit      // `sys.exit()` when a workflow is started without data files

  /** A computation that either returns a value or raises one of the errors above. */
  datatype Result<+T> = Ok(value: T) | Err(error: Error)
}
