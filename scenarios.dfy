/**
 * Whole-contract runs over fresh storage, following the unit tests that
 * accompany the entry points, plus the agreement of the two `get_swap`
 * definitions.
 */
module Scenarios {
  import opened Wrappers
  import opened CosmWasm
  import opened Error
  import opened State
  import Msg
  import Contract
  import Executions
  import Queries

  /** The query module and the entry-point file return the same answer for every key. */
  lemma GetSwapAgrees(store: Storage, swapId: string)
    ensures Queries.GetSwap(store, swapId) == Contract.GetSwap(store, swapId)
  {
  }

  /** Instantiation succeeds and sends no message. */
  method ProperInitialization() returns (res: Result<Response, ContractError>)
    ensures res.Ok? && res.value.messages == []
  {
    var store := new Storage();
    res := Contract.Instantiate(store, MessageInfo("creator"));
  }

  /** Before a create, "1" is unknown; the first create gets id "1" and the query returns its fields. */
  method CreateThenQuery() returns (
      before: StdResult<Msg.SwapResponse>, created: Result<Response, ContractError>, after: StdResult<Msg.SwapResponse>)
    ensures before == Err(NotFound("Swap"))
    ensures created.Ok? && created.value.messages == []
    ensures Attribute("swap_id", "1") in created.value.attributes
    ensures after == Ok(Msg.SwapResponse("swapper", "gp_collection", "123"))
  {
    var store := new Storage();
    var _ := Contract.Instantiate(store, MessageInfo("creator"));
    before := Contract.Query(store, Msg.GetSwap("1"));
    created := Contract.Execute(store, MessageInfo("swapper"), Msg.CreateSwap("gp_collection", "123"));
    after := Contract.Query(store, Msg.GetSwap("1"));
  }

  /**
   * Cancelling an unknown id fails; a swap made by "swapper" is cancelled by
   * "creator", after which the query reports it missing.
   */
  method CreateThenCancel() returns (
      missing: Result<Response, ContractError>, created: Result<Response, ContractError>,
      cancelled: Result<Response, ContractError>, after: StdResult<Msg.SwapResponse>)
    ensures missing == Err(SwapNotFound)
    ensures created.Ok? && Attribute("swap_id", "1") in created.value.attributes
    ensures cancelled.Ok?
    ensures after == Err(NotFound("Swap"))
  {
    var store := new Storage();
    var _ := Contract.Instantiate(store, MessageInfo("creator"));
    missing := Contract.Execute(store, MessageInfo("creator"), Msg.CancelSwap("1"));
    created := Contract.Execute(store, MessageInfo("swapper"), Msg.CreateSwap("gp_collection", "123"));
    cancelled := Contract.Execute(store, MessageInfo("creator"), Msg.CancelSwap("1"));
    after := Contract.Query(store, Msg.GetSwap("1"));
  }

  /** A cancelled id is not handed out again: the create after it gets "2", and "1" stays gone. */
  method IdNotReusedAfterCancel() returns (
      second: Result<Response, ContractError>, first: StdResult<Msg.SwapResponse>)
    ensures second.Ok? && Attribute("swap_id", "2") in second.value.attributes
    ensures first == Err(NotFound("Swap"))
  {
    var store := new Storage();
    var _ := Contract.Instantiate(store, MessageInfo("creator"));
    var _ := Contract.Execute(store, MessageInfo("alice"), Msg.CreateSwap("c1", "7"));
    var _ := Contract.Execute(store, MessageInfo("alice"), Msg.CancelSwap("1"));
    second := Contract.Execute(store, MessageInfo("bob"), Msg.CreateSwap("c2", "8"));
    first := Contract.Query(store, Msg.GetSwap("1"));
  }

  /**
   * The validating handlers: a create moves the token into the contract's
   * custody and a cancel sends it back to the creator; a rejected address
   * changes nothing and leaves the next create at id "1".
   */
  method EscrowAndRefund(validAddr: string -> bool) returns (
      rejected: Result<Response, ContractError>, created: Result<Response, ContractError>,
      cancelled: Result<Response, ContractError>)
    requires validAddr("gp_collection") && !validAddr("not an address")
    ensures rejected == Err(InvalidAddress("not an address"))
    ensures created.Ok? && Attribute("swap_id", "1") in created.value.attributes
    ensures created.Ok? && created.value.messages == [WasmExecute("gp_collection", TransferNft("swaps", "123"))]
    ensures cancelled.Ok? && cancelled.value.messages == [WasmExecute("gp_collection", TransferNft("swapper", "123"))]
  {
    var store := new Storage();
    var env := Env("swaps");
    var _ := Executions.Initialize(store, MessageInfo("creator"));
    rejected := Executions.CreateSwap(store, validAddr, env, MessageInfo("swapper"), "not an address", "123");
    created := Executions.CreateSwap(store, validAddr, env, MessageInfo("swapper"), "gp_collection", "123");
    cancelled := Executions.CancelSwap(store, MessageInfo("creator"), "1");
  }
}
