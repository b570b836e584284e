/** The esp_err_t codes that the modelled functions return. */
module Errors {
  datatype Error = Ok | InvalidArg | InvalidState | NotFound | Fail
}
