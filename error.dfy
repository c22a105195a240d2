/** The contract's own error taxonomy (`ContractError`). */
module Error {
  import opened CosmWasm

  datatype ContractError =
    | Std(std: StdError)
    | Unauthorized
    | InvalidAddress(address: string)
    | SwapNotFound
    | SwapNotResponded
}
