/** The service exceptions the modelled operations throw, one constructor per exception class. */
module Failures {
  datatype Failure =
    | ChartaNotFound        // ChartaNotFoundException: the id is unknown or has no lock
    | FileIsLocked          // FileIsLockedException: the lock could not be acquired in time
    | ServiceIsUnavailable  // ServiceIsUnavailableException: the waiting thread was interrupted
    | ChartaIO              // ChartaIOException: a file or fragment could not be read, written or deleted
    | IllegalArgument       // IllegalArgumentException: an image size the image constructor refuses
}
