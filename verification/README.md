# TeamIndex verification

A Dafny model of the parts of TeamIndex that hold, count and place money, with proofs about every input, every run or
every interleaving:

- **The Polygon pUSD vault** (`contracts/TeamIndexPUSDVaultV2.sol`): an ERC-4626 vault that allocates capital to a
  Deposit Wallet under proposal budgets, takes outside valuations, recognises returned capital and pays redemptions
  asynchronously. `PusdVault` is the vault as a state machine, one function per external call; `PusdVaultContract` is
  the contract as a class whose methods are proved to compute it; `PusdVaultInvariant`, `PusdVaultPrice`,
  `PusdVaultAccounts` and `PusdVaultValuation` prove what runs of any calls by any callers keep, and `PusdVaultEffects`
  what each call does to every account and field, and exactly when it is accepted.
- **The USDC vault** (`contracts/USDC4626Vault.sol`): entry and exit fees, signed PnL, share price, and the four address
  lists (`FeeVault`, `FeeVaultEffects`, `AddressLists`, `FeeVaultContract`).
- **The share exchange** (`contracts/ShareExchange.sol`): escrow and partial fills (`ShareExchange`,
  `ShareExchangeEffects`, `ShareExchangeContract`).
- **The allocation engine** (`src/polymarket/allocationEngine.ts`): Gauss-Jordan elimination (`LinearSolver`), the Kelly
  active set (`KellyDirection`), water-filling (`WaterFill`), the correlation burden (`CorrelationBurden`), group passes
  (`GroupCaps`) and the whole projection (`ConstraintProjection`, `ProjectionEffects`).
- **The block cursor** (`src/workers`, `src/onchain/ethersLogChunks.ts`): the lease protocol as interleaved database
  steps (`CursorLease`), what the lease excludes (`CursorExclusion`), the ticker as a class that refines it (`VaultSyncTicker`), chunked log queries (`LogChunks`).
- **Canonical text and money**: `stableJson` (`StableJson`) and a JSON reader that reads it back (`JsonReader`), decimal text (`Money`), the order-book walk (`OrderBook`).

`MulDiv`, `Reals`, `ShareToken`, `Sorting`, `Text` and `Wrappers` are shared.

## What the model takes for granted

- OpenZeppelin 5 contracts behave as published: `Math.mulDiv` is exact, the share conversions are
  `a * (S + 1) / (A + 1)` and `s * (A + 1) / (S + 1)` with the stated rounding, and the ERC-20 base checks zero addresses,
  balances and allowances. Naturals are unbounded: 256-bit overflow is not modelled.
- Tokens take no transfer fee. In the vaults, `pulled` is the token's answer to the payer's `transferFrom`; pUSD or USDC
  sent straight to a vault is an environment step (`PusdArrives`, `UsdcArrives`). In the exchange all balances are
  modelled and `approved` is the caller's allowance.
- Nobody calls as the vault or as the exchange (`Genuine`).
- JavaScript numbers that carry amounts, weights and prices are reals; the engine's tolerances (1e-6, 1e-9, 1e-12) keep
  their values. Strings are sequences of UTF-16 code units.
- In `StableJson` a finite number stands for its printed text, which JavaScript makes the same exactly for equal numbers.
- In the cursor protocol every database call is one atomic step, clocks are arbitrary integers, a worker may stop between
  any two steps, and worker ids never repeat.

## What the proofs found

Each comes with the exact condition, one that can be read off before the call, and an instance.

- Making a redemption claimable while returned pUSD is not yet synced keeps the settled price if and only if syncing first
  would not change the payout (`MakeClaimableSettledPriceIff`; instance `UnsyncedReturnLowersSettledPrice`).
- A return stays unsynced through a call if and only if that call is none of deposit, mint, withdrawal, redemption, claim and
  allocation, or its conditions are not met (`ReturnSurvivesIff`). A return that did not survive is never recognised,
  whatever follows, so the outside principal is never reduced by it (`SwallowedReturnIsLost`; instance `ReturnSwallowedByDeposit`).
- An allocation leaves total assets alone if and only if the Deposit Wallet is not the vault itself
  (`AllocateKeepsAssetsIff`; instance `AllocationToItselfCountsTwice`).
- An entry into the USDC vault keeps the share price if and only if cash, open positions, PnL and the fee that stays are
  together not negative, or it issues no shares (`EntryKeepsPriceIff`; instance `UnderWaterEntryLowersPrice`).
- `maxWithdraw` of the USDC vault looks at neither the exit fee nor the cash, and a withdrawal needs both
  (`WithdrawIff`; instances `MaxWithdrawIgnoresFee`, `MaxWithdrawIgnoresCash`).
- A mint within `maxMint` of the USDC vault ends within the deposit cap if and only if the cap also has room for an entry
  fee that stays in the vault (`MintRespectsCapIff`; instance `MintPassesCap`).
- A decimal text printed from an amount parses back if and only if the amount is not negative (`RoundTripIff`; instance
  `NegativeDoesNotParse`).
- `stableJson` prints a big integer as its digits in quotes, so it shares its text with that string and with nothing else
  (`BigIntCollidesWithItsDigits`; instance `TwelvePrintsTwice`).

## Model

| member | source | states |
|---|---|---|
| PusdVaultInvariant.InitialIsValid | contracts/TeamIndexPUSDVaultV2.sol:114-149 | initialization establishes the vault's invariant |
| PusdVaultContract.Deploy | contracts/TeamIndexPUSDVaultV2.sol:109-149 | deploying and initializing succeeds exactly on non-zero addresses, the asset's included, limits within bounds and a positive age, and gives a vault in that state |
| PusdVaultContract.TeamIndexPUSDVaultV2.CallKeeps | contracts/TeamIndexPUSDVaultV2.sol:161-444 | of the object: every call the methods perform keeps the invariant and, but for syncs and valuations, the share price |
| PusdVaultInvariant.StepKeepsValid | contracts/TeamIndexPUSDVaultV2.sol:161-444 | every external call keeps: supply is the sum of balances, claimable debt is the sum over claimable requests and covered by pUSD, accounted cash is at most the balance, the vault's own shares cover all pending requests, and no allowance exists on them |
| PusdVaultInvariant.RunKeepsValid | contracts/TeamIndexPUSDVaultV2.sol:161-444 | so does every run of calls by any callers |
| PusdVaultInvariant.ClampsAreDead | contracts/TeamIndexPUSDVaultV2.sol:165-173 | the truncating branches of `freeCash` and `totalAssets` are never taken |
| PusdVaultInvariant.ClaimableIsPayable | contracts/TeamIndexPUSDVaultV2.sol:390-399 | a claimable request can be claimed in every reachable state, paused or not, for its fixed amount, at least `minAssets` |
| PusdVaultInvariant.PendingIsCancellable | contracts/TeamIndexPUSDVaultV2.sol:364-370 | the owner of a pending request can always cancel it and gets exactly the escrowed shares |
| PusdVaultInvariant.MakeClaimableIff | contracts/TeamIndexPUSDVaultV2.sol:372-388 | making a request claimable fails only for the stated reasons, never for lack of escrowed shares |
| PusdVaultPrice.StepKeepsPrice | contracts/TeamIndexPUSDVaultV2.sol:208-304 | no call but a sync or an outside valuation lowers (totalAssets + 1) / (totalSupply + 1) |
| PusdVaultPrice.PriceNeverFalls | contracts/TeamIndexPUSDVaultV2.sol:208-399 | over any run of such calls and raw pUSD arrivals the share price never falls |
| PusdVaultPrice.QueuedPayoutNeverShrinks | contracts/TeamIndexPUSDVaultV2.sol:341-388 | waiting behind other redemptions never shrinks the payout of queued shares |
| PusdVaultPrice.AllocateKeepsAssetsIff | contracts/TeamIndexPUSDVaultV2.sol:277-304 | an allocation leaves total assets unchanged exactly when the Deposit Wallet is not the vault; if it is, they grow by the amount |
| PusdVaultPrice.AllocationToItselfCountsTwice | contracts/TeamIndexPUSDVaultV2.sol:277-304 | a concrete vault that is its own Deposit Wallet lifts 200 to 300 |
| PusdVaultPrice.MakeClaimableSettledPriceIff | contracts/TeamIndexPUSDVaultV2.sol:372-388 | making a redemption claimable keeps the price with unsynced returns taken off exactly when a sync first would leave the payout as it is |
| PusdVaultPrice.UnsyncedReturnLowersSettledPrice | contracts/TeamIndexPUSDVaultV2.sol:372-388 | an unsynced return makes one concrete redemption overpay |
| PusdVaultPrice.StepKeepsSettledPriceIff | contracts/TeamIndexPUSDVaultV2.sol:208-399 | any call but an outside valuation, syncs included, keeps the settled price exactly when it does not overpay a redemption in that sense |
| PusdVaultPrice.SettledPriceNeverFalls | contracts/TeamIndexPUSDVaultV2.sol:208-399 | over any run without overpaid redemptions and valuations the settled price never falls |
| PusdVaultPrice.SettledPayoutNeverShrinks | contracts/TeamIndexPUSDVaultV2.sol:306-388 | nor does what any number of shares would be paid after a sync |
| PusdVaultAccounts.RequestEndsOnce | contracts/TeamIndexPUSDVaultV2.sol:341-399 | over any run a request keeps its terms, moves only forward, takes pUSD out of the vault at most once, its fixed amount, or gives its owner shares at most once, the escrowed number |
| PusdVaultAccounts.PendingOutcome | contracts/TeamIndexPUSDVaultV2.sol:341-399 | a pending request ends with all shares back at its owner and no pUSD out, or at least `minAssets` out and no shares back |
| PusdVaultAccounts.BudgetConserved | contracts/TeamIndexPUSDVaultV2.sol:265-304 | what is sent under a proposal plus what remains equals what remained, unless the owner revokes the rest |
| PusdVaultAccounts.ActivationCapsSpending | contracts/TeamIndexPUSDVaultV2.sol:265-304 | since its last activation a proposal never sends more than the activated amount |
| PusdVaultAccounts.OutstandingIsAllocatedMinusRecognised | contracts/TeamIndexPUSDVaultV2.sol:293-318 | outstanding external capital is all allocations minus all recognised principal, over any run |
| PusdVaultAccounts.AllocationWithinLimits | contracts/TeamIndexPUSDVaultV2.sol:277-304 | an allocation keeps external value within its configured share (at most 80 %) of total assets and free cash above the idle reserve, whatever the Deposit Wallet, and total assets as they are if that is not the vault |
| PusdVaultAccounts.ReturnThenSync | contracts/TeamIndexPUSDVaultV2.sol:309-318 | a return, calls that leave the accounting alone and a sync change total assets by max(0, r - external value) and principal by min(r, outstanding) |
| PusdVaultAccounts.RecognisedHasArrived | contracts/TeamIndexPUSDVaultV2.sol:252-318 | over any run, recognised principal and what waits for a sync are at most what waited and what was sent to the vault |
| PusdVaultAccounts.ReturnSurvivesIff | contracts/TeamIndexPUSDVaultV2.sol:252-263 | a return stays unsynced through a call exactly when the call does not reset the accounted cash or its conditions are not met; else nothing is left to sync |
| PusdVaultAccounts.AcceptsIff | contracts/TeamIndexPUSDVaultV2.sol:208-304 | those conditions, as each call's guards state them, are exactly when it succeeds |
| PusdVaultAccounts.SwallowedReturnIsLost | contracts/TeamIndexPUSDVaultV2.sol:309-318 | with nothing to sync, no principal is recognised over any run in which no more pUSD is sent |
| PusdVaultAccounts.ReturnSwallowedByDeposit | contracts/TeamIndexPUSDVaultV2.sol:252-255 | a concrete return of all principal, then a deposit of 1: the principal stays outstanding over any run without more pUSD or allocations |
| PusdVaultAccounts.EntryIff | contracts/TeamIndexPUSDVaultV2.sol:180-228 | a deposit or mint is accepted exactly within `maxDeposit` or `maxMint` |
| PusdVaultAccounts.WithdrawIff | contracts/TeamIndexPUSDVaultV2.sol:198-239 | a withdrawal is accepted exactly within `maxWithdraw`, which never burns more than the holder has |
| PusdVaultAccounts.RedeemIff | contracts/TeamIndexPUSDVaultV2.sol:203-250 | a redemption is accepted exactly within `maxRedeem`, which always passes the idle-cash guard |
| PusdVaultAccounts.EntryRespectsCap | contracts/TeamIndexPUSDVaultV2.sol:180-228 | no accepted entry lifts total assets above a non-zero deposit cap |
| PusdVaultAccounts.DepositThenRedeemNeverGains | contracts/TeamIndexPUSDVaultV2.sol:208-250 | redeeming the shares of a deposit at once never pays more than was deposited |
| PusdVaultValuation.RunMovesRecord | contracts/TeamIndexPUSDVaultV2.sol:320-339 | over any run the valuation number never falls and no valuation is dated after the clock; while the number stands, so do the reserved collateral and the snapshot |
| PusdVaultValuation.RecordedValuationIsFinal | contracts/TeamIndexPUSDVaultV2.sol:320-332 | a recorded valuation, and any numbered no higher, is refused for ever |
| PusdVaultEffects.EntryEffect | contracts/TeamIndexPUSDVaultV2.sol:208-255 | an entry credits its receiver alone, adds what was paid to the cash and touches nothing else; a deposit issues the most shares its pUSD is worth, a mint takes the least pUSD its shares are worth |
| PusdVaultEffects.DepositAcceptedIff | contracts/TeamIndexPUSDVaultV2.sol:175-217 | a deposit is accepted exactly by a running vault with a fresh valuation, from a payer who pays, for a receiver, within the cap |
| PusdVaultEffects.MintAcceptedIff | contracts/TeamIndexPUSDVaultV2.sol:175-228 | so is a mint, by the price of its shares |
| PusdVaultEffects.ExitEffect | contracts/TeamIndexPUSDVaultV2.sol:230-263 | an exit debits its holder alone and takes the pUSD out of the cash; a withdrawal burns the fewest shares, a redemption pays the most pUSD |
| PusdVaultEffects.WithdrawalAcceptedIff | contracts/TeamIndexPUSDVaultV2.sol:198-239 | a withdrawal is accepted exactly when the holder's shares, the caller's allowance and the cash not owed cover it |
| PusdVaultEffects.RedemptionAcceptedIff | contracts/TeamIndexPUSDVaultV2.sol:203-250 | a redemption likewise |
| PusdVaultEffects.TransferEffect | contracts/TeamIndexPUSDVaultV2.sol:18-24 | the inherited transfers move exactly the shares there are, within the allowance |
| PusdVaultEffects.AllowanceStep | contracts/TeamIndexPUSDVaultV2.sol:257-263 | one call sets an allowance by its own approval, lowers it by what its spender takes, and touches no other pair's |
| PusdVaultEffects.AllowanceIsUsedUp | contracts/TeamIndexPUSDVaultV2.sol:257-263 | over any run without a new approval, shares taken by a spender plus the allowance left equal the allowance there was; an unlimited one stays |
| PusdVaultEffects.AllocationAcceptedIff | contracts/TeamIndexPUSDVaultV2.sol:277-292 | an allocation is accepted exactly from operator or owner, with a fresh valuation, within budget, external share, free cash and idle reserve |
| PusdVaultEffects.AllocationEffect | contracts/TeamIndexPUSDVaultV2.sol:293-304 | it moves its amount from budget and cash to value and principal outside; other proposals stand |
| PusdVaultEffects.SyncEffect | contracts/TeamIndexPUSDVaultV2.sol:309-318 | a sync answers what came and takes it off principal and value outside, as far as they go |
| PusdVaultEffects.ValuationAcceptedIff | contracts/TeamIndexPUSDVaultV2.sol:320-332 | a valuation is accepted exactly from valuator or owner, with a higher number, a snapshot and a date not in the future |
| PusdVaultEffects.ValuationEffect | contracts/TeamIndexPUSDVaultV2.sol:333-339 | total assets are then its value and the cash not owed, and the record is what it states |
| PusdVaultEffects.SettingsStep | contracts/TeamIndexPUSDVaultV2.sol:401-444 | settings change only by their own setters, called by the owner, to the values given |
| PusdVaultEffects.BudgetChanges | contracts/TeamIndexPUSDVaultV2.sol:265-275 | budgets change only by allocations and by the owner's activations and revocations |
| PusdVaultEffects.RequestAcceptedIff | contracts/TeamIndexPUSDVaultV2.sol:341-351 | a redemption request is accepted exactly for some shares the holder has and the caller may spend, with a receiver |
| PusdVaultEffects.RequestEffect | contracts/TeamIndexPUSDVaultV2.sol:350-362 | it records owner, receiver, shares and minimum of the call under a new id, and moves the shares from the holder to the vault |
| PusdVaultEffects.CancellationEffect | contracts/TeamIndexPUSDVaultV2.sol:364-370 | a cancellation by the owner gives exactly the shares back |
| PusdVaultEffects.PayoutAcceptedIff | contracts/TeamIndexPUSDVaultV2.sol:372-381 | making a request claimable is accepted exactly when its shares are worth the minimum and the cash not owed covers them |
| PusdVaultEffects.PayoutEffect | contracts/TeamIndexPUSDVaultV2.sol:381-388 | it fixes and owes the most pUSD the shares are worth, and burns them |
| PusdVaultEffects.ClaimEffect | contracts/TeamIndexPUSDVaultV2.sol:390-399 | a claim, from anyone, pays the fixed amount to the receiver |
| PusdVaultEffects.RequestIsHonoured | contracts/TeamIndexPUSDVaultV2.sol:341-399 | from the call that files a request over any run: claimed, it took at least the caller's minimum out of the vault for the caller's receiver; cancelled, the holder got all shares back |
| PusdVaultContract.TeamIndexPUSDVaultV2.DepositAssets | contracts/TeamIndexPUSDVaultV2.sol:208-217 | the method answers and leaves storage as the state machine's deposit does |
| PusdVaultContract.TeamIndexPUSDVaultV2.WithdrawAssets | contracts/TeamIndexPUSDVaultV2.sol:230-239 | likewise for a withdrawal |
| PusdVaultContract.TeamIndexPUSDVaultV2.AllocateToDepositWallet | contracts/TeamIndexPUSDVaultV2.sol:277-307 | likewise for an allocation |
| PusdVaultContract.TeamIndexPUSDVaultV2.SyncReturned | contracts/TeamIndexPUSDVaultV2.sol:309-318 | likewise for a sync |
| PusdVaultContract.TeamIndexPUSDVaultV2.RecordExternalValuation | contracts/TeamIndexPUSDVaultV2.sol:320-339 | likewise for an outside valuation |
| PusdVaultContract.TeamIndexPUSDVaultV2.RequestRedemption | contracts/TeamIndexPUSDVaultV2.sol:341-362 | likewise for a redemption request |
| PusdVaultContract.TeamIndexPUSDVaultV2.CancelRequest | contracts/TeamIndexPUSDVaultV2.sol:364-370 | likewise for a cancellation |
| PusdVaultContract.TeamIndexPUSDVaultV2.MakeRedemptionClaimable | contracts/TeamIndexPUSDVaultV2.sol:372-388 | likewise for making a request claimable |
| PusdVaultContract.TeamIndexPUSDVaultV2.ClaimRequest | contracts/TeamIndexPUSDVaultV2.sol:390-399 | likewise for a claim |
| FeeVault.FeesAgree | contracts/USDC4626Vault.sol:251-259 | feeOnTotal(a + feeOnRaw(a)) = feeOnRaw(a) for every amount and rate |
| FeeVault.NetPlusFeeFits | contracts/USDC4626Vault.sol:251-259 | with n = t - feeOnTotal(t), n + feeOnRaw(n) is at most t |
| FeeVault.MintOfDepositCostsNoMore | contracts/USDC4626Vault.sol:231-239 | minting the shares a deposit would give costs no more than the deposit |
| FeeVault.RedeemOfWithdrawPaysNoLess | contracts/USDC4626Vault.sol:241-249 | redeeming the shares a withdrawal would burn pays no less than the withdrawal |
| FeeVault.EntryKeepsPriceIff | contracts/USDC4626Vault.sol:231-276 | for any fee recipient, an entry keeps the share price exactly when cash + open + PnL + the fee that stays is not negative or no shares are issued |
| FeeVault.UnderWaterEntryLowersPrice | contracts/USDC4626Vault.sol:193-196 | a concrete vault under water sells shares too cheaply |
| FeeVault.EntryKeepsPrice | contracts/USDC4626Vault.sol:261-276 | not under water, entries keep the price and the vault afloat, wherever the fee goes |
| FeeVault.ExitKeepsPrice | contracts/USDC4626Vault.sol:278-301 | exits never lower the price |
| FeeVault.PriceNeverFalls | contracts/USDC4626Vault.sol:231-301 | over any run of the four entry points, share transfers, fee changes and USDC arrivals the price never falls |
| FeeVault.RunKeepsLedger | contracts/USDC4626Vault.sol:261-345 | over any run supply is the sum of all balances |
| FeeVault.WithdrawIff | contracts/USDC4626Vault.sol:219-301 | a withdrawal is accepted exactly when not paused, amount plus fee fit `maxWithdraw`, the cash covers the amount and the fee that leaves, and the caller may spend the shares |
| FeeVault.RedeemIff | contracts/USDC4626Vault.sol:224-301 | a redemption is accepted exactly within `maxRedeem`, with cash for what it pays and the fee that leaves, and a spendable allowance |
| FeeVault.MaxWithdrawIgnoresFee | contracts/USDC4626Vault.sol:219-222 | a concrete holder is refused what `maxWithdraw` promises, for the fee |
| FeeVault.MaxWithdrawIgnoresCash | contracts/USDC4626Vault.sol:219-222 | and another, without any fee, for lack of cash |
| FeeVault.DepositRespectsCap | contracts/USDC4626Vault.sol:198-206 | a deposit of something ends within a non-zero cap, wherever its fee goes |
| FeeVault.MintRespectsCapIff | contracts/USDC4626Vault.sol:208-217 | a mint ends within it exactly when price and the fee that stays in the vault fit, and always when none stays |
| FeeVault.MintPassesCap | contracts/USDC4626Vault.sol:208-217 | a concrete vault that collects its own fee passes its cap of 200 by what `maxMint` allows |
| FeeVaultEffects.EntryEffect | contracts/USDC4626Vault.sol:231-276 | an entry credits its receiver alone; the cash grows by what was paid less the fee if it leaves; net of the fee a deposit issues the most shares, a mint takes the least assets |
| FeeVaultEffects.EntryAcceptedIff | contracts/USDC4626Vault.sol:198-217 | an entry is accepted exactly by a running vault, from a payer who pays, for a receiver, within the cap |
| FeeVaultEffects.ExitEffect | contracts/USDC4626Vault.sol:241-301 | an exit debits its holder alone and takes payment and fee out of the cash; the shares are priced at payment and fee |
| FeeVaultEffects.WithdrawalAcceptedIff | contracts/USDC4626Vault.sol:219-301 | a withdrawal is accepted exactly when payment and fee fit the worth of the holder's shares, the caller's allowance and the cash |
| FeeVaultEffects.RedemptionAcceptedIff | contracts/USDC4626Vault.sol:224-301 | a redemption likewise, for what its shares are worth less the fee in it |
| FeeVaultEffects.TransferEffect | contracts/USDC4626Vault.sol:24-30 | the inherited transfers move exactly the shares there are, within the allowance |
| FeeVaultEffects.AllowanceStep | contracts/USDC4626Vault.sol:285-287 | one call sets an allowance by its own approval, lowers it by what its spender takes, and touches no other pair's |
| FeeVaultEffects.AllowanceIsUsedUp | contracts/USDC4626Vault.sol:285-287 | over any run without a new approval, shares taken by a spender plus the allowance left equal the allowance there was; an unlimited one stays |
| FeeVaultEffects.FeesStep | contracts/USDC4626Vault.sol:549-559 | fees change only by the owner's setter, at most 5 %, with a recipient if there are any |
| FeeVaultContract.Deploy | contracts/USDC4626Vault.sol:139-173 | deploying succeeds exactly with an asset and an owner |
| FeeVaultContract.USDC4626Vault.CallKeeps | contracts/USDC4626Vault.sol:231-301 | of the object: every call the methods perform keeps the ledger and, above water, the share price |
| FeeVaultContract.USDC4626Vault.ListCallKeeps | contracts/USDC4626Vault.sol:373-506 | and every list call performed keeps each list the mirror of its mapping |
| FeeVaultContract.USDC4626Vault.Pull | contracts/USDC4626Vault.sol:261-276 | the deposit hook pulls, forwards the fee and mints as the state machine says |
| FeeVaultContract.USDC4626Vault.Push | contracts/USDC4626Vault.sol:278-301 | the withdraw hook spends, burns and pays as the state machine says |
| FeeVaultContract.USDC4626Vault.UpdateFeeConfig | contracts/USDC4626Vault.sol:549-559 | the fee setter as the state machine says |
| AddressLists.RemoveAddress | contracts/USDC4626Vault.sol:611-620 | the loop leaves the list with swap-and-pop at the first occurrence |
| AddressLists.RemovedAt | contracts/USDC4626Vault.sol:611-620 | the last address takes the place of the first occurrence, all others keep theirs |
| AddressLists.RemoveKeepsMirror | contracts/USDC4626Vault.sol:611-620 | swap-and-pop keeps a list and its mapping equal and free of duplicates |
| AddressLists.ListsAlwaysMirror | contracts/USDC4626Vault.sol:373-506 | after any run of add, remove and set calls each of the four lists holds exactly the flagged addresses, once each |
| AddressLists.OperatorRecords | contracts/USDC4626Vault.sol:416-451 | each call touches the record of its own operator and its own field alone |
| AddressLists.FlagsStep | contracts/USDC4626Vault.sol:373-506 | each call sets or clears its own account's flag in its own list alone |
| FeeVaultContract.USDC4626Vault.UpdateTradingWallet | contracts/USDC4626Vault.sol:373-382 | the wallet setter as the registry machine says |
| FeeVaultContract.USDC4626Vault.RemoveAuthorizedOperator | contracts/USDC4626Vault.sol:423-428 | operator removal as the registry machine says |
| FeeVaultContract.USDC4626Vault.ResetOperatorAllocation | contracts/USDC4626Vault.sol:447-451 | likewise the reset of an operator's allocation |
| ShareExchange.StepKeepsValid | contracts/ShareExchange.sol:68-161 | every call keeps: the exchange holds at least the remaining shares of all orders of each token, an order is active exactly while shares remain, the fee is at most 5 % |
| ShareExchange.RunKeepsValid | contracts/ShareExchange.sol:68-161 | so does every run |
| ShareExchange.BuyIff | contracts/ShareExchange.sol:111-134 | a purchase succeeds exactly when not paused, the order offers the shares and the buyer can pay: the exchange's own transfers never fail |
| ShareExchange.CancelIff | contracts/ShareExchange.sol:136-147 | a cancellation succeeds exactly for an active order and its seller or the owner, even when paused |
| ShareExchange.BuyMoves | contracts/ShareExchange.sol:111-134 | fee and proceeds add up to what the buyer pays, shares leave the escrow, no other balance moves |
| ShareExchange.PartialFills | contracts/ShareExchange.sol:82-153 | over any run, k purchases of q shares cost between ceil(q * price / unit) and that plus k - 1; shares bought, given back and left add up |
| ShareExchangeEffects.CreationAcceptedIff | contracts/ShareExchange.sol:82-97 | an order is accepted exactly for an enabled token with at most 36 decimals, positive shares and price, and shares the seller has and lets go |
| ShareExchangeEffects.CreationEffect | contracts/ShareExchange.sol:97-109 | it is recorded with the terms of the call under a new number; the shares go to the exchange, nothing else moves |
| ShareExchangeEffects.PurchaseEffect | contracts/ShareExchange.sol:111-134 | a purchase takes its shares off the order alone, for the least payment that covers them and the least fee that covers its rate |
| ShareExchangeEffects.CancellationEffect | contracts/ShareExchange.sol:136-147 | a cancellation gives what is left to the seller, whoever cancels |
| ShareExchangeEffects.SettingsStep | contracts/ShareExchange.sol:68-80 | settings change only by their own setters, called by the owner, to the values given |
| ShareExchangeContract.Deploy | contracts/ShareExchange.sol:60-66 | deploying succeeds exactly with a USDC token, an owner and a fee recipient, and starts solvent |
| ShareExchangeContract.Exchange.CallKeeps | contracts/ShareExchange.sol:68-161 | of the object: every call the methods perform keeps it solvent |
| ShareExchangeContract.Exchange.CreateOrder | contracts/ShareExchange.sol:82-109 | the method does what the state machine's new order does |
| ShareExchangeContract.Exchange.BuyShares | contracts/ShareExchange.sol:111-134 | likewise for a purchase, with its four transfers in order and a full revert |
| ShareExchangeContract.Exchange.CancelOrder | contracts/ShareExchange.sol:136-147 | likewise for a cancellation |
| LinearSolver.SolveLinear | src/polymarket/allocationEngine.ts:103-123 | a non-null answer solves A x = b for the matrix passed in and is the only solution; null is given exactly when elimination with partial pivoting meets a column without an entry of at least 1e-12 |
| LinearSolver.FindPivot | src/polymarket/allocationEngine.ts:108-112 | the pivot row is the first with the largest entry of the column |
| LinearSolver.EliminationIsSound | src/polymarket/allocationEngine.ts:107-121 | after any number of columns the system has the solutions of the original and is reduced |
| LinearSolver.RefusedIsNearlySingular | src/polymarket/allocationEngine.ts:112 | a refused matrix sends some vector with an entry of one to something everywhere below 1e-12 |
| LinearSolver.UniqueSolutionMeansRegular | src/polymarket/allocationEngine.ts:103-123 | a singular matrix is never given an answer |
| KellyDirection.ActiveSetWeights | src/polymarket/allocationEngine.ts:399-418 | the active sets start with all markets and are pruned by the only solution of their equations; the weights are that solution on the last set, or the diagonal fallback exactly when its equations are refused, and the loop ends exactly when nothing or everything is pruned, at a refusal, or after four passes |
| KellyDirection.TraceIsDetermined | src/polymarket/allocationEngine.ts:399-418 | this fixes passes, weights and the reason for ending |
| KellyDirection.PositiveSolutionIsKept | src/polymarket/allocationEngine.ts:404-418 | when the equations of all markets have one solution and it clears the floor everywhere, the loop ends with it at once |
| KellyDirection.FallbackSolvesDiagonal | src/polymarket/allocationEngine.ts:408-411 | the fallback solves each active market's own equation, as far as that has a solution that is not negative |
| KellyDirection.Direction | src/polymarket/allocationEngine.ts:399-422 | the direction is those weights clamped and scaled, non-negative with sum one or all zero, and when nothing was pruned it solves S_AA w = mu_A up to one positive factor |
| KellyDirection.StableDirectionSolves | src/polymarket/allocationEngine.ts:419-421 | clamping and scaling a positive solution keeps it a solution up to that factor |
| WaterFill.Fill | src/polymarket/allocationEngine.ts:709-733 | the loop ends with all markets at one water level, overspends by at most 1e-9 for each capped market, and its n + 1 rounds suffice |
| WaterFill.FillRound | src/polymarket/allocationEngine.ts:716-732 | one round raises the common level by what remains over the open weight |
| WaterFill.ClosedForm | src/polymarket/allocationEngine.ts:709-733 | each amount is min(cap, level * weight), exact for open markets, within 1e-9 for capped ones |
| WaterFill.LevelledIsMaxMin | src/polymarket/allocationEngine.ts:709-733 | the amounts are max-min fair: a plan within the caps that spends no more and gives one market more takes it from one that stood no higher, to 1e-9 |
| GroupCaps.ApplyGroup | src/polymarket/allocationEngine.ts:735-751 | the pass over collected groups scales each over-budget group by its own factor, whatever order the groups come in |
| GroupCaps.GroupPassLimits | src/polymarket/allocationEngine.ts:735-751 | after a pass every group is within its budget to 1e-9 |
| GroupCaps.ApplyTotal | src/polymarket/allocationEngine.ts:753-759 | the total pass scales the whole book when it is over |
| ConstraintProjection.CapBounds | src/polymarket/allocationEngine.ts:681-707 | a market cap stays between its bounds: 8 % of NAV, liquidity and depth shares, and at most 70 % lost to correlation |
| ConstraintProjection.CapIs | src/polymarket/allocationEngine.ts:695-706 | it is exactly the least of 8 % of NAV shrunk by 70 % of the burden, 10 % of the liquidity and half of the depth, and put down to what sets it |
| CorrelationBurden.BurdenIsAverage | src/polymarket/allocationEngine.ts:681-691 | the burden is the weighted average of the other markets' positive correlations |
| CorrelationBurden.NoBurdenIff | src/polymarket/allocationEngine.ts:681-691 | it is none exactly without other markets to speak of, or with none positively correlated |
| CorrelationBurden.FullBurdenIff | src/polymarket/allocationEngine.ts:681-691 | it is full exactly for a duplicate of all other markets |
| CorrelationBurden.BurdenMonotone | src/polymarket/allocationEngine.ts:681-691 | it never falls when correlations rise, and heeds neither negative ones nor the market's own entry |
| ConstraintProjection.PassesKeepLimits | src/polymarket/allocationEngine.ts:735-759 | no later pass breaks an earlier limit, for arbitrarily overlapping events and clusters |
| ConstraintProjection.ProjectConstraints | src/polymarket/allocationEngine.ts:668-762 | all limits, 8, 15, 25 and 80 % of NAV, hold at once at the end, a market that duplicates all others gets at most 2.4 %, and the amounts are the passes applied to a fill at one level |
| ProjectionEffects.PassesAre | src/polymarket/allocationEngine.ts:735-759 | events, then clusters, then the whole book: each sum over its budget is scaled to it, market by market, on what the pass before left; a market is reported as bound by the last limit that bound it |
| ProjectionEffects.EventEndsAtBudget | src/polymarket/allocationEngine.ts:745-748 | an event over its budget ends a pass with exactly the budget, any other as it was |
| CursorLease.StepKeepsInv | src/workers/chainEventCursor.ts:43-121 | every database step keeps: each block a worker, the pool or the row relies on was in a finished sync, and the holder never stands behind the row |
| CursorLease.StepMovesForward | src/workers/chainEventCursor.ts:89-121 | the cursor only moves forward, and only by its holder's step |
| CursorLease.CursorIsSafe | src/workers/vaultSyncTicker.ts:120-167 | in every interleaving of workers, crashes and takeovers, every block after the start and up to the cursor was in a finished sync, and the cursor never goes back |
| CursorExclusion.LockIff | src/workers/chainEventCursor.ts:60-87 | a claim succeeds exactly when no cooldown runs and the row is not locked, or locked since before the stale limit; then it names worker and time |
| CursorExclusion.HolderKeepsRow | src/workers/chainEventCursor.ts:71-76 | over any run in which the holder does not end its turn and no claim takes a lock of its age for stale, the row stays as it is |
| CursorExclusion.TakeoverNeedsStaleLock | src/workers/chainEventCursor.ts:71-76 | another worker holds the row only after taking the holder's lock for stale, or after the holder's turn |
| CursorExclusion.CooldownKeepsRow | src/workers/chainEventCursor.ts:64-69 | nobody gets the row before a recorded cooldown is over |
| CursorExclusion.EndingIs | src/workers/chainEventCursor.ts:89-121 | the holder's completion puts the cursor at the last block of its range and frees the row; its failure keeps the cursor and records the cooldown; anyone else's do nothing |
| CursorExclusion.FirstRow | src/workers/vaultSyncTicker.ts:121 | a first row starts at the last synced block, else the configured one, else 2001 back |
| CursorExclusion.ReadingIs | src/workers/vaultSyncTicker.ts:138-139 | a worker goes on from the later of the cursor and the last synced block it read |
| CursorExclusion.SyncRange | src/workers/vaultSyncTicker.ts:145-146 | its sync covers the next blocks, as many as it may and as there are |
| VaultSyncTicker.TurnIsItsSteps | src/workers/vaultSyncTicker.ts:115-173 | a pool's turn taken at once is the machine's database steps taken one by one, whatever happened since the pool was read |
| VaultSyncTicker.TurnOutcome | src/workers/vaultSyncTicker.ts:115-173 | what a whole turn leaves in the row and as last synced block, case by case, in their fields |
| VaultSyncTicker.TurnCounts | src/workers/vaultSyncTicker.ts:134-184 | a turn counts as claimed, synced or rate limited exactly in these cases |
| VaultSyncTicker.VaultSync.Claim | src/workers/chainEventCursor.ts:43-87 | upsert, compare-and-set and read-back on the table |
| VaultSyncTicker.VaultSync.Complete | src/workers/chainEventCursor.ts:89-104 | completion, guarded by the holder |
| VaultSyncTicker.VaultSync.Fail | src/workers/chainEventCursor.ts:106-121 | failure, guarded by the holder |
| VaultSyncTicker.VaultSync.SyncPool | src/workers/vaultSyncTicker.ts:100-187 | one turn takes the machine's steps and no others, however stale its reading of the last synced block, and leaves other pools alone |
| VaultSyncTicker.VaultSync.ReadPools | src/workers/vaultSyncTicker.ts:94-97 | the tick reads all pools at its start: the machine's first step for each |
| VaultSyncTicker.VaultSync.Tick | src/workers/vaultSyncTicker.ts:87-201 | a tick reads all pools, then serves them in order, those with a known vault, from that reading; it refines the machine for each, counts the claims, and stops early exactly when `poolsPerTick` are claimed or the last turn was rate limited; no cursor goes back |
| LogChunks.QueryWithRetry | src/onchain/ethersLogChunks.ts:121-153 | a query is delivered exactly when some request within the retries is and all before it met rate limits; else the last met another error or the retries ran out |
| LogChunks.QueryInChunks | src/onchain/ethersLogChunks.ts:155-177 | the result is the logs of the whole range, in order and once each, exactly when as many queries as there are chunks are delivered in a row, each within its retries; the chunks partition the range |
| LogChunks.ChunkCountIs | src/onchain/ethersLogChunks.ts:162-169 | the number of chunks is the number of blocks over the chunk size, rounded up |
| LogChunks.EachBlockOnce | src/onchain/ethersLogChunks.ts:155-177 | every block of the range is in exactly one chunk |
| JsonReader.StableIsCanonical | src/polymarket/stableJson.ts:1-11 | two values print the same text exactly when they mean the same JSON, objects read as maps |
| JsonReader.TextReadsBack | src/polymarket/stableJson.ts:1-11 | the text is JSON by RFC 8259, sections 3 to 7, and reads back as what the value means |
| StableJson.KeysAscend | src/polymarket/stableJson.ts:7-8 | keys are printed in ascending order of their code units |
| JsonReader.TextIsPrefixFree | src/polymarket/stableJson.ts:1-11 | a value's text fixes its meaning and where it ends, when the end of the text, a comma or a closing bracket follows |
| StableJson.SortedKeysByKeySet | src/polymarket/stableJson.ts:7-8 | the order in which an object holds its keys does not matter |
| JsonReader.EscapeIsPrefixFree | src/polymarket/stableJson.ts:9 | an escaped string fixes the string and where it ends |
| JsonReader.BigIntCollidesWithItsDigits | src/polymarket/stableJson.ts:3 | a big integer shares its text with exactly its decimal string |
| JsonReader.TwelvePrintsTwice | src/polymarket/stableJson.ts:3 | for instance 12 and its string |
| Money.ParsesIff | src/polymarket/money.ts:1-8 | parsing gives v exactly for an unsigned decimal that is v units of 10^-decimals |
| Money.DecimalIff | src/polymarket/money.ts:1-8 | a decimal is a row of digits, or two with a dot between them |
| Money.RefusalIs | src/polymarket/money.ts:1-8 | what is no decimal is refused as invalid, a decimal with a digit too fine for too many decimals |
| Text.TrimIs | src/polymarket/money.ts:2 | trimming cuts the spaces at both ends and nothing else |
| Money.RoundTripIff | src/polymarket/money.ts:1-15 | printing and parsing are inverse exactly for amounts that are not negative, at any number of decimals |
| Money.NegativeDoesNotParse | src/polymarket/money.ts:1-15 | for instance -15 tenths print as `-1.-5`, which does not parse |
| Money.PrintsNormalForm | src/polymarket/money.ts:1-15 | printing a parsed text gives it without leading zeros, trailing zeros or an idle dot |
| OrderBook.NoPlanBeatsGreedy | src/limitless/limitlessOrderClient.ts:172-197 | no purchase plan that costs at most what was spent gets more shares |
| OrderBook.GreedyIsAPlan | src/limitless/limitlessOrderClient.ts:172-197 | what is reported is the outcome of a plan on the book as given |
| OrderBook.SpendsWhatItCan | src/limitless/limitlessOrderClient.ts:172-197 | it spends the budget or the whole depth, whichever is less, to 1e-12 |
| OrderBook.FullyFilledIff | src/limitless/limitlessOrderClient.ts:193-194 | fully filled exactly when the ask depth is at least the budget less 1e-9 |
| OrderBook.AverageIsAtMostWorst | src/limitless/limitlessOrderClient.ts:193-196 | the average price is at most the worst price |
| OrderBook.AveragePays | src/limitless/limitlessOrderClient.ts:193-196 | the average price pays for exactly the shares bought with exactly the money spent |
| OrderBook.WorstPriceWithinIff | src/limitless/limitlessOrderClient.ts:172-197 | the worst price stays within a bound exactly when no level lies above it or the depth up to it covers the budget to 1e-12 |
| OrderBook.CoveredBudgetStaysWithinSlippage | src/limitless/limitlessOrderClient.ts:239-252 | on positive levels, depth within the slippage that covers the budget keeps the worst price within it |
| OrderBook.SimulateMarketBuy | src/limitless/limitlessOrderClient.ts:172-197 | the loop computes the walk these are about |
| OrderBook.CalculateDepthAtSlippage | src/limitless/limitlessOrderClient.ts:239-252 | the loop sums the cost of all levels within the slippage |

## Left out

- ercWeights: square roots and an iteration without a closed form; risk-parity weights enter the projection as arbitrary weights.
- Scoring, feature and reason-string heuristics of the allocation engine, and the blending of weights in `runAllocationEngine`.
- Float rounding, overflow of 256-bit integers, gas, reentrancy and events.
- UUPS upgrades, `_disableInitializers` and the proxy of both vaults beyond one initialization.
- `executeWhitelistedCall`, `fundTradingWallet`, the rescue functions, spending caps of operators, order signers and ERC-1271 checks of the USDC vault: arbitrary external calls and signatures.
- `setPoolValuation`, `setDepositCap`, `setValuator`, pausing and ownership changes of the USDC vault as steps: a valuation may set the price to anything; the entry points are stated for every value of these fields.
- Token contracts that take a fee on transfer or call back.
- `undefined`, functions, `toJSON` and sparse arrays in `stableJson`.
- Not-finite prices and sizes in an order book, which `simulateMarketBuy` drops and `calculateDepthAtSlippage` does not.
- Retry delays, jitter and pauses between log queries; splitting of syncs by event filter; the database writes of a sync other than the last synced block.
- The admin sync route (src/server/http.ts), which sets the last synced block freely and lies outside the lease protocol.
- VaultSyncTicker.VaultSync.Tick: takes each pool's turn at once and lets no other ticker in between; interleavings are the subject of `CursorLease.CursorIsSafe`, and `VaultSyncTicker.VaultSync.SyncPool` allows any history between reading and turn. The price recalculation after a tick is not modelled.
- `BaseDepositReceiver`, `ChilizDepositReceiver`, `TeamIndexRegistryV2`, `TeamIndexDepositEscrowV2`, the factories and `WrappedVaultShare`: sums over records like the pUSD vault's, with less state.
- Trade execution services, network clients, database queries and routes.
