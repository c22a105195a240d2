/**
 * The second, validating variant of the handlers (a private module that the
 * exported entry points do not call): create checks the collection address
 * and asks the collection to move the token into the contract's custody;
 * cancel asks it to hand the token back to the swap's owner.
 */
module Executions {
  import opened Wrappers
  import opened CosmWasm
  import opened Error
  import opened Decimal
  import opened State

  /** The transfer that `create_swap` requests: `tokenId` of `collection` into `custodian`'s hands. */
  function CustodyDirective(collection: Addr, custodian: Addr, tokenId: string): CosmosMsg {
    WasmExecute(collection, TransferNft(custodian, tokenId))
  }

  /** The transfer that `cancel_swap` requests: the swapped token back to its owner. */
  function RefundDirective(swap: Swap): CosmosMsg {
    WasmExecute(swap.collection, TransferNft(swap.owner, swap.tokenId))
  }

  /** `initialize`: the counter starts at 1 and no message is sent. */
  method Initialize(store: Storage, info: MessageInfo) returns (r: Result<Response, ContractError>)
    requires store.Valid() && store.config == None
    modifies store
    ensures store.Valid()
    ensures store.config == Some(Config(1)) && store.swaps == old(store.swaps)
    ensures store.issued == {}
    ensures r == Ok(Response([Attribute("method", "instantiate"), Attribute("owner", info.sender)], []))
  {
    store.SaveConfig(Config(1));
    r := Ok(Response([Attribute("method", "instantiate"), Attribute("owner", info.sender)], []));
  }

  /**
   * `create_swap`. `validAddr` stands for the host's `addr_validate`, whose
   * rules are not part of this model; an accepted address is returned as
   * given. Validation comes before any storage access, so the counter is only
   * required to be loadable and incrementable when the address is accepted.
   */
  method CreateSwap(
    store: Storage, validAddr: string -> bool, env: Env, info: MessageInfo, collection: string, tokenId: string)
      returns (r: Result<Response, ContractError>)
    requires store.Valid()
    requires validAddr(collection) ==>
      store.config.Some? && store.config.value.nextSwapId as int < U32_MAX
    modifies store
    ensures store.Valid()
    ensures !validAddr(collection) ==>
      && r == Err(InvalidAddress(collection))
      && store.swaps == old(store.swaps) && store.config == old(store.config)
      && store.issued == old(store.issued)
    ensures validAddr(collection) ==>
      var next := old(store.config.value.nextSwapId);
      var key := NatToString(next as nat);
      && key !in old(store.swaps)
      && store.swaps == old(store.swaps)[key := Swap(info.sender, collection, tokenId)]
      && store.config.Some? && store.config.value.nextSwapId as int == next as int + 1
      && next as nat !in old(store.issued)
      && store.issued == old(store.issued) + {next as nat}
      && r == Ok(Response([Attribute("method", "create_swap"), Attribute("swap_id", key)],
                          [CustodyDirective(collection, env.contractAddress, tokenId)]))
  {
    if !validAddr(collection) {
      return Err(InvalidAddress(collection));
    }
    var validated: Addr := collection;

    var swap := Swap(info.sender, validated, tokenId);

    var swapId := store.config.value.nextSwapId;
    SaveNewIdKeepsKeysIssued(store.swaps, swapId as nat, swap);
    store.SaveSwap(NatToString(swapId as nat), swap);

    // CONFIG.update: load the item, increment it, save it back
    var state := store.config.value;
    store.SaveConfig(Config(state.nextSwapId + 1));
    store.issued := store.issued + {swapId as nat};

    var transfer := CustodyDirective(swap.collection, env.contractAddress, tokenId);
    r := Ok(Response([Attribute("method", "create_swap"), Attribute("swap_id", NatToString(swapId as nat))],
                     [transfer]));
  }

  /**
   * `cancel_swap`: neither the caller (`info` is unused) nor the counter is
   * consulted; an existing swap is removed and its token is sent back to its
   * owner.
   */
  method CancelSwap(store: Storage, info: MessageInfo, swapId: string) returns (r: Result<Response, ContractError>)
    requires store.Valid()
    modifies store
    ensures store.Valid()
    ensures store.config == old(store.config) && store.issued == old(store.issued)
    ensures swapId !in old(store.swaps) ==>
      r == Err(SwapNotFound) && store.swaps == old(store.swaps)
    ensures swapId in old(store.swaps) ==>
      && store.swaps == old(store.swaps) - {swapId}
      && r == Ok(Response([Attribute("method", "cancel_swap")], [RefundDirective(old(store.swaps)[swapId])]))
  {
    var swap;
    match store.LoadSwap(swapId)
    case None =>
      return Err(SwapNotFound);
    case Some(s) =>
      swap := s;

    store.RemoveSwap(swapId);

    var transfer := RefundDirective(swap);
    r := Ok(Response([Attribute("method", "cancel_swap")], [transfer]));
  }
}
