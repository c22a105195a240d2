/**
 * The parts of the CosmWasm host interface that the swap contract touches,
 * reduced to plain values: addresses, the caller and environment records,
 * the response that an entry point returns and the directives it carries.
 */
module CosmWasm {
  import opened Wrappers

  /** An account or contract address; `Addr` wraps a string. */
  type Addr = string

  /** `MessageInfo`: who sent the call (attached funds are not modelled). */
  datatype MessageInfo = MessageInfo(sender: Addr)

  /** `Env`: only the contract's own address is read by the contract. */
  datatype Env = Env(contractAddress: Addr)

  /** One key/value attribute that a response reports. */
  datatype Attribute = Attribute(key: string, value: string)

  /** The cw721 execute message the contract sends: move `tokenId` to `recipient`. */
  datatype Cw721ExecuteMsg = TransferNft(recipient: Addr, tokenId: string)

  /**
   * `CosmosMsg::Wasm(WasmMsg::Execute { contract_addr, funds: vec![], msg })`:
   * a directive to execute `msg` on the contract at `contractAddr`. The
   * contract never attaches funds, so there is no funds field.
   */
  datatype CosmosMsg = WasmExecute(contractAddr: Addr, msg: Cw721ExecuteMsg)

  /** `Response`: the attributes in the order they are added, then the messages. */
  datatype Response = Response(attributes: seq<Attribute>, messages: seq<CosmosMsg>)

  /** The one `StdError` variant the contract constructs. */
  datatype StdError = NotFound(kind: string)

  type StdResult<T> = Result<T, StdError>
}
