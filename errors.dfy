/** Failure values shared by every module of the model.
    Each constructor stands for the Python exception the source raises on that path. */
module Errors {

  datatype Option<+T> = None | Some(value: T)

  datatype Error =
    /** An accessor was given a key it cannot serve; `shown` is the list of
        column names the error message offers (empty when it offers none). */
    | KeyError(shown: seq<string>)
    /** pandas raised KeyError because a frame has no column of this name. */
    | MissingColumn(name: string)
    | ValueError
    | NotImplementedError
    | FileNotFoundError
    /** The server answered with a 4xx or 5xx status code. */
    | ConnectionError
    /** The host could not be reached at all (requests' own connection error). */
    | RequestFailed
    /** The streamed response carried no Content-Length header. */
    | TypeError
    | ZeroDivisionError
    /** `next(f)` ran past the end of the attitude file. */
    | StopIteration
    /** pandas could not split a data row into the requested positional columns. */
    | ParserError
    /** An accessor was used before `load()` had set the `data` attribute. */
    | AttributeError
    /** `re.compile` refused the pattern (a repeat with nothing to repeat). */
    | PatternError

  datatype Result<+T> = Ok(value: T) | Err(error: Error)
}
