/** What a route handler sends back: a status code with a JSON body, or a
    status code with an error message. */
module Http {

  datatype Reply<T> = Success(status: nat, body: T) | Failure(status: nat, message: string)
}
