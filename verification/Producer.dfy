/** internal/kafkaclient: what a producer can do with one message. */
module Producers {

  /** A message is accepted, refused, or lands although the caller is told of an error. */
  datatype Answer = Accepted | Refused | TimedOutAfterLanding
}
