/** The read-only query module: a lookup that cannot change the storage. */
module Queries {
  import opened Wrappers
  import opened CosmWasm
  import opened State
  import Msg

  /** `get_swap`: the stored triple, or `NotFound` of kind "Swap" whatever the key. */
  function GetSwap(store: Storage, swapId: string): (r: StdResult<Msg.SwapResponse>)
    reads store
    ensures r.Ok? <==> swapId in store.swaps
    ensures r.Err? ==> r.error == NotFound("Swap")
    ensures r.Ok? ==> var s := store.swaps[swapId];
      r.value.owner == s.owner && r.value.collection == s.collection && r.value.tokenId == s.tokenId
  {
    match store.LoadSwap(swapId)
    case Some(swap) => Ok(Msg.SwapResponse(swap.owner, swap.collection, swap.tokenId))
    case None => Err(NotFound("Swap"))
  }
}
