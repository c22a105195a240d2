/** The messages the contract accepts and the query response it returns. */
module Msg {
  import opened CosmWasm

  datatype ExecuteMsg =
    | CreateSwap(collection: Addr, tokenId: string)
    | CancelSwap(swapId: string)

  datatype QueryMsg = GetSwap(swapId: string)

  /** The answer to `GetSwap`: the three fields of the stored record. */
  datatype SwapResponse = SwapResponse(owner: Addr, collection: Addr, tokenId: string)
}
