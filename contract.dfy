/**
 * The exported entry points: `instantiate`, `execute` (create and cancel,
 * without address validation and without custody messages) and `query`.
 */
module Contract {
  import opened Wrappers
  import opened CosmWasm
  import opened Error
  import opened Decimal
  import opened State
  import Msg

  /** What `try_create_swap` leaves behind, given the registry and counter it started from. */
  ghost predicate CreateSwapOutcome(
    swaps0: map<string, Swap>, next0: u32, info: MessageInfo, collection: Addr, tokenId: string,
    swaps1: map<string, Swap>, config1: Option<Config>, r: Result<Response, ContractError>)
  {
    var key := NatToString(next0 as nat);
    && key !in swaps0
    && swaps1 == swaps0[key := Swap(info.sender, collection, tokenId)]
    && config1.Some? && config1.value.nextSwapId as int == next0 as int + 1
    && r == Ok(Response([Attribute("method", "create_swap"), Attribute("swap_id", key)], []))
  }

  /** What `try_cancel_swap` leaves behind: the counter never moves. */
  ghost predicate CancelSwapOutcome(
    swaps0: map<string, Swap>, config0: Option<Config>, swapId: string,
    swaps1: map<string, Swap>, config1: Option<Config>, r: Result<Response, ContractError>)
  {
    && config1 == config0
    && if swapId in swaps0 then
         swaps1 == swaps0 - {swapId} && r == Ok(Response([Attribute("method", "cancel_swap")], []))
       else
         swaps1 == swaps0 && r == Err(SwapNotFound)
  }

  /** `instantiate`: the counter starts at 1 and no message is sent. */
  method Instantiate(store: Storage, info: MessageInfo) returns (r: Result<Response, ContractError>)
    requires store.Valid() && store.config == None
    modifies store
    ensures store.Valid()
    ensures store.config == Some(Config(1)) && store.swaps == old(store.swaps)
    ensures store.issued == {}
    ensures r == Ok(Response([Attribute("method", "instantiate"), Attribute("owner", info.sender)], []))
  {
    store.SaveConfig(Config(1));
    r := Ok(Response([Attribute("method", "instantiate"), Attribute("owner", info.sender)], []));
  }

  /** `execute`: routes each message to its handler. */
  method Execute(store: Storage, info: MessageInfo, msg: Msg.ExecuteMsg)
      returns (r: Result<Response, ContractError>)
    requires store.Valid()
    requires msg.CreateSwap? ==> store.config.Some? && store.config.value.nextSwapId as int < U32_MAX
    modifies store
    ensures store.Valid()
    ensures msg.CreateSwap? ==>
      && CreateSwapOutcome(old(store.swaps), old(store.config.value.nextSwapId), info, msg.collection, msg.tokenId,
                           store.swaps, store.config, r)
      && old(store.config.value.nextSwapId) as nat !in old(store.issued)
      && store.issued == old(store.issued) + {old(store.config.value.nextSwapId) as nat}
    ensures msg.CancelSwap? ==>
      && CancelSwapOutcome(old(store.swaps), old(store.config), msg.swapId, store.swaps, store.config, r)
      && store.issued == old(store.issued)
  {
    match msg
    case CreateSwap(collection, tokenId) =>
      r := TryCreateSwap(store, info, collection, tokenId);
    case CancelSwap(swapId) =>
      r := TryCancelSwap(store, info, swapId);
  }

  /**
   * `try_create_swap`: stores the caller's offer under the decimal form of
   * the counter and then increments the counter. The `unwrap` of the counter
   * load and the `u32` increment are the two preconditions.
   */
  method TryCreateSwap(store: Storage, info: MessageInfo, collectionAddress: Addr, tokenId: string)
      returns (r: Result<Response, ContractError>)
    requires store.Valid() && store.config.Some?
    requires store.config.value.nextSwapId as int < U32_MAX
    modifies store
    ensures store.Valid()
    ensures CreateSwapOutcome(old(store.swaps), old(store.config.value.nextSwapId), info, collectionAddress, tokenId,
                              store.swaps, store.config, r)
    ensures old(store.config.value.nextSwapId) as nat !in old(store.issued)
    ensures store.issued == old(store.issued) + {old(store.config.value.nextSwapId) as nat}
  {
    var data := Swap(info.sender, collectionAddress, tokenId);

    var swapId := store.config.value.nextSwapId;
    SaveNewIdKeepsKeysIssued(store.swaps, swapId as nat, data);
    store.SaveSwap(NatToString(swapId as nat), data);

    // CONFIG.update: load the item, increment it, save it back
    var state := store.config.value;
    store.SaveConfig(Config(state.nextSwapId + 1));
    store.issued := store.issued + {swapId as nat};

    r := Ok(Response([Attribute("method", "create_swap"), Attribute("swap_id", NatToString(swapId as nat))], []));
  }

  /** `try_cancel_swap`: any caller may remove an existing swap; an unknown id is an error. */
  method TryCancelSwap(store: Storage, info: MessageInfo, swapId: string)
      returns (r: Result<Response, ContractError>)
    requires store.Valid()
    modifies store
    ensures store.Valid()
    ensures CancelSwapOutcome(old(store.swaps), old(store.config), swapId, store.swaps, store.config, r)
    ensures store.issued == old(store.issued)
  {
    if store.LoadSwap(swapId).None? {
      return Err(SwapNotFound);
    }

    store.RemoveSwap(swapId);

    r := Ok(Response([Attribute("method", "cancel_swap")], []));
  }

  /** `query`: answers `GetSwap` from the stored record (before serialisation). */
  function Query(store: Storage, msg: Msg.QueryMsg): (r: StdResult<Msg.SwapResponse>)
    reads store
    ensures r.Ok? <==> msg.swapId in store.swaps
    ensures r.Err? ==> r.error == NotFound("Swap")
    ensures r.Ok? ==> var s := store.swaps[msg.swapId];
      r.value == Msg.SwapResponse(s.owner, s.collection, s.tokenId)
  {
    match msg
    case GetSwap(swapId) => GetSwap(store, swapId)
  }

  /** `get_swap` in this file: the stored triple, or `NotFound` of kind "Swap". */
  function GetSwap(store: Storage, swapId: string): (r: StdResult<Msg.SwapResponse>)
    reads store
    ensures r.Ok? <==> swapId in store.swaps
    ensures r.Err? ==> r.error == NotFound("Swap")
    ensures r.Ok? ==> var s := store.swaps[swapId];
      r.value == Msg.SwapResponse(s.owner, s.collection, s.tokenId)
  {
    match store.LoadSwap(swapId)
    case Some(swap) => Ok(Msg.SwapResponse(swap.owner, swap.collection, swap.tokenId))
    case None => Err(NotFound("Swap"))
  }
}
