# Escrow swap registry of the `swaps` CosmWasm contract

This project models the registry at the heart of the `swaps` contract and
proves properties of the model. The registry is a table of swap offers. Each
offer is a triple: the owner, an NFT collection address and a token id. It is
stored under the decimal string of a numeric id. A `u32` counter, stored apart
from the table, hands out those ids.

The operations modelled:

- `instantiate` / `initialize` set the counter to 1.
- `try_create_swap` / `create_swap` store the caller's offer under the
  counter's decimal string and increment the counter.
- `try_cancel_swap` / `cancel_swap` remove an offer. An unknown id fails with
  `SwapNotFound`.
- `get_swap` (in two files) reads an offer back. An unknown id fails with
  `NotFound { kind: "Swap" }`.

There are two variants of create and cancel:

- The exported file `contract.rs` does no validation and sends no message.
- The private `executions.rs` checks the collection address. Its create asks
  the collection to transfer the token into the contract's custody. Its cancel
  asks the collection to transfer the token back to the owner.

Modules follow the source files:

- `State` holds the `Swap` record, the `Config` counter and the `Storage`
  class. `Storage` stands for `deps.storage`. It has two real fields, the
  `SWAPS` map and the `CONFIG` item, and the ghost field `issued` described
  below.
- `Contract`, `Executions` and `Queries` hold the handlers.
- `Decimal` gives the `to_string` rendering of ids and its inverse.
- `CosmWasm`, `Error` and `Msg` give the host types, `ContractError` and the
  messages.
- `Scenarios` holds runs over fresh storage. Three of them replay the unit
  tests of `contract.rs`. Two more run create, cancel and create again, and
  the escrow and refund path of the validating handlers. It also holds the
  lemma that the two `get_swap` definitions agree.

The state-changing handlers are module-level methods. Each takes a
`store: Storage` argument and may modify it. They perform the source's storage
writes in the source's order.

`Storage` also carries a ghost field `issued`: every id handed out so far,
including ids whose record has been cancelled. Each create adds its id to
`issued`; a cancel leaves it as it was.

The class invariant `Storage.Valid` has these parts:

- before instantiation, the map and `issued` are empty;
- after it, the counter is at least 1;
- `issued` is exactly the set of ids in `[1, next_swap_id)`;
- every stored key is the decimal form of an id in `[1, next_swap_id)`.

From that invariant and the injectivity of the decimal rendering, the
handlers' contracts state three things:

- a create never overwrites a record;
- a cancel never moves the counter;
- a create's id was not in `issued` before the call, and afterwards `issued`
  is the old set plus that id. So no id is handed out twice, whatever the
  sequence of creates and cancels.

Modelling choices:

- The `.unwrap()` on the counter load is a precondition: the contract has
  been instantiated.
- The `u32` increment is a precondition: `next_swap_id < 2^32 - 1`. The counter
  is a `u32` newtype, so the verifier enforces this bound.
- The host's `addr_validate` becomes a parameter `validAddr: string -> bool`.
  An accepted address is kept as given.
- Instantiation requires storage that has no counter yet. The host
  instantiates a contract once, on empty storage.

A stored swap is only the triple. The code has no responder side, and no
respond or finalize operation. A cancel of a missing id fails with
`SwapNotFound`.

## Model

| member | source | states |
|---|---|---|
| Decimal.NatToString | contracts/swaps/src/contract.rs:62 | the key `to_string` gives an id is a non-empty string of digits, with no leading zero unless the id is 0 |
| Decimal.ParseNatToString | contracts/swaps/src/contract.rs:62 | reading the decimal key back gives the id it was made from |
| Decimal.NatToStringOfParse | contracts/swaps/src/contract.rs:62 | every canonical decimal string is the rendering of the number it denotes, so ids and keys are in one-to-one correspondence |
| Decimal.NatToStringInjective | contracts/swaps/src/executions.rs:52 | two ids get the same key if and only if they are equal |
| State.IssuedKeyIsDecimalId | contracts/swaps/src/contract.rs:61-65 | a key counts as issued exactly when it is the decimal string of some id n with 1 <= n < next_swap_id |
| State.FreshIdNotStored | contracts/swaps/src/contract.rs:61-67 | when every key is issued, no id at or above the counter has a record, so ids not yet handed out are free |
| State.SaveNewIdKeepsKeysIssued | contracts/swaps/src/contract.rs:61-67 | saving under the counter's key never overwrites a record, and after the counter is incremented every key is still an issued id |
| State.Storage.constructor | contracts/swaps/src/state.rs:14-20 | storage before instantiation: no swaps and no counter, which satisfies the invariant |
| State.Storage.LoadSwap | contracts/swaps/src/state.rs:14 | `SWAPS.load` finds a record exactly when the key is stored, and then returns that stored record |
| State.Storage.SaveSwap | contracts/swaps/src/state.rs:14 | `SWAPS.save` replaces the record under that one key and leaves the counter alone |
| State.Storage.RemoveSwap | contracts/swaps/src/state.rs:14 | `SWAPS.remove` drops that one key and leaves the counter alone |
| State.Storage.SaveConfig | contracts/swaps/src/state.rs:18-20 | `CONFIG.save` replaces the singleton counter and leaves the map alone |
| Contract.Instantiate | contracts/swaps/src/contract.rs:17-31 | the counter becomes 1, the map is unchanged, no message is sent, and the invariant holds |
| Contract.Execute | contracts/swaps/src/contract.rs:34-47 | `CreateSwap` has exactly the effect and answer of `try_create_swap`; `CancelSwap` has exactly those of `try_cancel_swap`, including their effect on the issued ids |
| Contract.TryCreateSwap | contracts/swaps/src/contract.rs:49-72 | the triple (sender, collection, token_id) is stored under the decimal counter. That key was free, every other record is unchanged, the counter grows by exactly 1, `swap_id` reports the pre-increment id and no message is sent. The id had never been handed out and is now added to the issued ids |
| Contract.TryCancelSwap | contracts/swaps/src/contract.rs:74-89 | an unknown id gives `SwapNotFound` with nothing written. A known id is removed, and only that id, whoever the caller is. The counter and the issued ids never change |
| Contract.Query | contracts/swaps/src/contract.rs:92-96 | a `GetSwap` query succeeds exactly when its id is stored, and then answers with the stored owner, collection and token; otherwise it fails with `NotFound` of kind "Swap" |
| Contract.GetSwap | contracts/swaps/src/contract.rs:98-115 | the lookup succeeds exactly when the id is stored and then returns the stored owner, collection and token; otherwise it fails with `NotFound` of kind "Swap" |
| Executions.Initialize | contracts/swaps/src/executions.rs:13-27 | the counter becomes 1, the map is unchanged, no message is sent |
| Executions.CreateSwap | contracts/swaps/src/executions.rs:29-70 | an address that fails validation gives `InvalidAddress` carrying that address, with no write. Otherwise: the triple is stored under the free decimal key of the counter, the counter grows by 1, the id (never handed out before) is added to the issued ids and reported, and exactly one `TransferNft` sends the token from the collection to the contract's own address |
| Executions.CancelSwap | contracts/swaps/src/executions.rs:72-97 | an unknown id gives `SwapNotFound` with no write and no message. A known id is removed and exactly one `TransferNft` returns the record's token to the record's owner through the record's collection. Caller and counter play no part |
| Queries.GetSwap | contracts/swaps/src/queries.rs:5-20 | from read-only storage: success exactly when the id is stored, with the stored three fields; otherwise `NotFound` of kind "Swap" whatever the key |
| Scenarios.GetSwapAgrees | contracts/swaps/src/queries.rs:5-20 | the query module's `get_swap` and the entry-point file's `get_swap` agree on every key |
| Scenarios.ProperInitialization | contracts/swaps/src/contract.rs:125-134 | instantiation succeeds and sends no message |
| Scenarios.CreateThenQuery | contracts/swaps/src/contract.rs:136-177 | id "1" is unknown before the first create; that create reports id "1"; afterwards the query returns swapper, gp_collection, 123 |
| Scenarios.CreateThenCancel | contracts/swaps/src/contract.rs:179-249 | cancelling an unknown id fails with `SwapNotFound`; "creator" cancels the swap that "swapper" made; afterwards the query fails with `NotFound` of kind "Swap" |
| Scenarios.IdNotReusedAfterCancel | contracts/swaps/src/contract.rs:61-86 | after create then cancel of id "1", the next create gets id "2" and "1" stays absent |
| Scenarios.EscrowAndRefund | contracts/swaps/src/executions.rs:36-96 | a rejected address writes nothing, so the next create still gets id "1"; a create sends the token into custody and a cancel sends it back to its creator |

## Left out

- `set_contract_version` (cw2 metadata), `to_binary`/`from_binary`, serde and JSON schema are not modelled. `Contract.Query` returns the response value unserialised.
- The schema generator program writes files, so it is not modelled.
- Funds on `MessageInfo` and on the emitted `WasmMsg::Execute` are not modelled. The contract never reads or attaches any.
- The unused `_env` parameters of `instantiate`, `execute`, `query`, `initialize` and `cancel_swap` are not modelled.
- The empty `_msg: InstantiateMsg` parameter of `instantiate` and of `initialize` is not modelled. It carries no fields.
- The host's `addr_validate` rules are not visible. They become the parameter `validAddr`.
- Executing the emitted `TransferNft`, and the host rolling back the transaction when that execution fails, are not modelled. Directives are only returned values.
- Contract.TryCreateSwap: the overflow of the `u32` increment at `next_swap_id = 2^32 - 1` is excluded by a precondition. It is not modelled as a panic or as wrap-around, because which one happens depends on build settings that are not part of this model.
- Executions.CreateSwap: the same `u32` precondition applies, for the same reason.
- Contract.Execute: the same `u32` precondition applies to its `CreateSwap` branch.
- Contract.TryCreateSwap: the `.unwrap()` on the counter load is a precondition (the contract is instantiated), not a panic.
- Executions.CreateSwap: the same `.unwrap()` precondition applies.
- Contract.Execute: the same `.unwrap()` precondition applies to its `CreateSwap` branch.
- The not-found error of `SWAPS.load` is not modelled; `State.Storage.LoadSwap` returns `None` instead. Its text names a library type, and every caller discards it.
- Storage-level serialisation errors from `save` and `update` cannot arise in the model.
- Respond, finalize and two-sided swaps are not modelled. The integration tests exercise them, but their messages and fields do not exist in the contract's message and state definitions.
