/** The inputs of the two authorised operations (`bound_protocol.hpp`). */
module Operations {
  datatype RenewInput = RenewInput(bindingId: string, generation: nat, operationId: string)

  datatype ExchangeInput = ExchangeInput(
    attemptHandle: string,
    code: string,
    codeVerifier: string,
    redirectUri: string,
    operationId: string
  )

  const WIPED := ExchangeInput("", "", "", "", "")
}
