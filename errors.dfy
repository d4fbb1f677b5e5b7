/** The exceptions that leave the store and the service. */
module Errors {

  datatype Error =
    /** `ResourceNotFoundException`, which the service raises (despite its name)
        when an email is already taken; it carries the exception's message. */
    | ResourceNotFound(message: string)
    /** Spring Data 2.x `EmptyResultDataAccessException`: `deleteById` of an id
        that no row has. */
    | EmptyResultDataAccess(id: int)
    /** Spring Data `IncorrectResultSizeDataAccessException`: a single-result
        derived query (`findByEmail`) matched `actual` rows, more than one. */
    | IncorrectResultSize(actual: nat)
}
