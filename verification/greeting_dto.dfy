/** The request and response records that carry data into and out of the use case. */
module GreetingDtos {

  /** The raw, unvalidated name supplied by the caller. */
  datatype GreetingRequest = GreetingRequest(name: string)

  /** The finished greeting. */
  datatype GreetingResponse = GreetingResponse(message: string)
}
