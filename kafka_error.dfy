/**
 * The error value every admin operation returns: a librdkafka response code
 * and a human-readable message. A code other than `NoError` is a failure
 * (the C++ `Error` converts to `true` exactly then).
 */
module KafkaError {

  /**
   * librdkafka response codes. `NoError` is `RD_KAFKA_RESP_ERR_NO_ERROR`
   * (0); the two local codes the admin client raises itself are named;
   * `Other(value)` stands for any other code the library or a broker reports
   * (its numeric value, which is never 0).
   */
  /** A numeric response code other than `RD_KAFKA_RESP_ERR_NO_ERROR`. */
  type NonZero = v: int | v != 0 witness 1

  datatype ErrorCode = NoError | TimedOut | InvalidArg | Other(value: NonZero)

  datatype Error = Error(code: ErrorCode, message: string)
  {
    /** True when the error denotes a failure. */
    predicate Failed()
    {
      code != NoError
    }
  }

  /** The value `combineErrors` gives for an empty list, and `createTopics` for a completed creation. */
  const Success := Error(NoError, "Success")
}
