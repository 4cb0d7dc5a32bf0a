# simex exchange engine, modelled in Dafny

A model of the simulated currency exchange's state engine (`src/exchange.rs`)
and of the receive-timeout arithmetic of its communication layer
(`src/com.rs`).

The exchange replays rate snapshots along a logical clock:

- `Tick` loads the snapshot at index `time` into a cache, adds that
  snapshot's base currencies to the set of known currencies, and then
  advances `time` by one. So after any tick the cache holds snapshot
  `time - 1`, and before the first tick it is empty. `Query(c)`, which is
  `QueryAt(c, time)`, therefore answers from snapshot `time - 1`. A query at
  any other time loads snapshot `t` afresh. This off-by-one is kept as the
  code has it and is stated outright in the contracts of `QueryAt` and
  `Query`.
- Parsing a snapshot (`Parse`, `LoadRecords`) groups records by lower-cased
  base currency, and a later duplicate pair overwrites an earlier one. Two
  kinds of malformed record abort the load: a pair that does not split on
  `_` into exactly two pieces, and a rate that does not parse. Both are
  checked before the filter that skips codes not exactly three characters
  long.
- `QueryHistory(c, age)` returns `age / 1000` entries, one per past tick.
  Their timestamps are 1000 apart, and an entry is an empty table when `c`
  has no table at that tick.
- The ledger maps payment addresses to transactions.
  `InitiateTransaction` stores a pending order, overwriting any earlier
  entry at that address. `FinalizeTransaction` settles at the rate cached
  at finalize time and marks the transaction complete. An already complete
  transaction is settled again, not rejected. An unknown address yields
  `("xxx", 0.0)`.

A Rust panic (`unwrap`, `assert!`, an out-of-range index) becomes an `Err` or
`Fail` result, and the object is left unchanged. The class invariant
`Exchange.Exchange.Valid` ties the cache and the currency set to the
snapshots loaded so far. It implies that no past snapshot can fail to load,
so `QueryHistory` never aborts.

Behaviour kept as the code has it:

- Malformed pairs and unparsable rates abort the load; they are not skipped.
- A record whose two codes are equal (`btc_btc`) puts the base into its
  own table; only the code lengths are filtered, so nothing rejects it
  (`Snapshot.SelfQuoteKept`).
- A second payment confirmation for a completed transaction recomputes the
  settlement; it does not return a zero amount.
- The receive timeout is not floored at zero by the code itself. For a
  deadline that has already passed, `deadline - Instant::now()` panics
  before Rust 1.60 and saturates to a zero `Duration` from 1.60 on, so
  `set_rcvtimeo(0)` is called. The model leaves this case out:
  `ReceiveTimeout` requires `now <= deadline`.
- There is no side-channel endpoint and no two-socket poll in the code, so
  none is modelled.

Files: `wrappers.dfy` (Option/Result/Outcome), `prism.dfy` (the `Rate` and
`Invoice` messages), `text.dfy` (ASCII lower-casing, splitting on a
character), `snapshot.dfy` (record parsing, `find_or_insert`),
`exchange.dfy` (the `Exchange` class and the ledger settlement), `com.dfy`
(timeout arithmetic).

## Model

| member | source | states |
|---|---|---|
| Text.LowerChar | src/exchange.rs:104-105 | an ASCII upper-case letter becomes its lower-case letter (32 code points on) and every other character is kept; the result is never upper-case |
| Text.Lower | src/exchange.rs:104-105 | lower-casing keeps the length and lower-cases each character in place |
| Text.LowerIsLower | src/exchange.rs:104-105 | lower-casing yields text with no upper-case ASCII letter and is idempotent |
| Text.JoinSplit | src/exchange.rs:101 | joining the pieces of a split with the separator gives back the original pair text |
| Text.Split | src/exchange.rs:101-102 | a split yields one piece more than there are separators and no piece contains the separator, so the pair splits into two pieces exactly when it has one `_` |
| Text.SplitTwoAt | src/exchange.rs:101-102 | when the pair splits into two pieces, it is the first piece, `_`, the second piece, and the first piece has length k exactly when `_` stands at index k |
| Snapshot.Decode | src/exchange.rs:100-111 | a record aborts the load exactly when its pair does not have exactly one `_` (MalformedPair, checked first) or its rate does not parse (MalformedRate); an accepted record has lower-case three-character base and target codes and carries the parsed rate |
| Snapshot.DecodeShape | src/exchange.rs:101-111 | a record that does not abort is accepted exactly when its pair has seven characters with `_` at index 3, and is skipped otherwise; the base and target are the lower-cased three characters on either side of the `_` |
| Snapshot.SelfQuoteKept | src/exchange.rs:104-113 | the one-record snapshot `btc_btc` at 1.0 parses to a `btc` table holding `btc` at 1.0: a base may quote itself |
| Snapshot.Parse | src/exchange.rs:99-116 | parsing the records of a snapshot only ever aborts with a malformed pair or a malformed rate |
| Snapshot.ParseLookup | src/exchange.rs:99-116 | every entry of the parsed tables is the rate of the last accepted record for that base→target pair, and there are no other entries: records with a shared base accumulate into one table, and later duplicates win |
| Snapshot.ParseKeys | src/exchange.rs:108-113 | the base keys of the parsed tables are exactly the bases of accepted records |
| Snapshot.ParseWellFormed | src/exchange.rs:104-113 | every base and target key is a lower-case three-character code, and each base maps to a non-empty table stamped zero |
| Snapshot.ParseFailure | src/exchange.rs:101-106 | loading aborts exactly when some record is rejected, and with the error of the first rejected record |
| Snapshot.ParseAbortIsFinal | src/exchange.rs:102-106 | once a prefix of the records has aborted, the whole snapshot aborts with that error |
| Snapshot.ParseStep | src/exchange.rs:99-116 | step lemma for `LoadRecords`: one pass of the loop body extends the parse of the records before it, keeping an abort and otherwise applying the record to the tables so far |
| Snapshot.FindOrInsert | src/exchange.rs:40-48 | returns the existing value at the key, or the default when the key is absent; the new map is the old one with the key bound to that value, so no other key is added or changed |
| Snapshot.LoadRecords | src/exchange.rs:97-118 | the record loop returns exactly `Parse(records)`: the tables, or the first record's abort |
| Exchange.SeenQuotes | src/exchange.rs:83-85 | a currency is known after `n` ticks exactly when an accepted record of one of the first `n` snapshots quotes it as base |
| Exchange.SeenGrows | src/exchange.rs:80-88 | the set of known currencies never shrinks as the clock advances |
| Exchange.Settle | src/exchange.rs:178-197 | unknown address: ("xxx", 0.0) and the ledger unchanged; known address: pays the order's target at current rate × amount, or aborts when the current tables lack the pair; marks only that entry complete with its order unchanged; never adds or removes an entry |
| Exchange.SettleTwice | src/exchange.rs:178-194 | re-finalizing an already settled transaction is not rejected: against the same rates it returns the same payout and leaves the ledger as it was |
| Exchange.InitiateThenSettle | src/exchange.rs:154-194 | an order just placed at an address settles at the rate of the tables current at settlement, paying its target currency |
| Exchange.Exchange.constructor | src/exchange.rs:51-62 | a new exchange starts at time 0 with no transactions, no known currencies and an empty cache, and satisfies the invariant |
| Exchange.Exchange.GetCurrencies | src/exchange.rs:76-78 | the currencies returned are exactly those quoted as base by an accepted record of a snapshot loaded so far |
| Exchange.Exchange.LoadData | src/exchange.rs:90-119 | loading snapshot `t` aborts with IndexOutOfRange when there is none, and otherwise returns that snapshot's parse |
| Exchange.Exchange.Tick | src/exchange.rs:80-88 | on success: the cache is the snapshot at the old time, the currencies become the old set ∪ its keys, time grows by exactly 1, the ledger is untouched; on an abort nothing changes; the invariant is kept |
| Exchange.Exchange.QueryAt | src/exchange.rs:140-152 | at `t == time` the answer is snapshot `time - 1`'s table (unavailable before the first tick); otherwise snapshot `t`'s, loaded afresh; past snapshots never abort; a missing currency is "data unavailable" |
| Exchange.Exchange.Query | src/exchange.rs:122-124 | the current answer equals a query at time `time - 1` and is unavailable before the first tick; it never aborts |
| Exchange.Exchange.QueryHistory | src/exchange.rs:126-138 | exactly `age/1000` entries; entry k is stamped `(time - age/1000 + k) * 1000`, 1000 more than the previous one; it holds that tick's table of the currency, or an empty table when the lookup failed |
| Exchange.Exchange.InitiateTransaction | src/exchange.rs:154-176 | the address now holds the pending order, overwriting any earlier entry; all other entries, the clock, cache and currencies are unchanged; the invoice is {address, from, amount} |
| Exchange.Exchange.FinalizeTransaction | src/exchange.rs:178-198 | the result and the new ledger are exactly `Settle` against the cache; a payout is the order's target at `Query(from)`'s rate × amount; on an abort the ledger is unchanged; clock, cache and currencies never change |
| Com.Until | src/com.rs:42 | the remaining time splits into whole seconds and a sub-second part below one second whose total is `deadline - now` |
| Com.MillisRoundsDown | src/com.rs:43 | the sub-second part contributes 0..999 ms, and the millisecond count is the remaining time rounded down: it never exceeds it and falls short by less than 1 ms |
| Com.AsI32 | src/com.rs:47 | the cast keeps the value modulo 2^32 in the i32 range, and leaves values below 2^31 unchanged |
| Com.ReceiveTimeout | src/com.rs:40-47 | the timeout handed to the socket is an i32; when the remaining time fits, it is the remaining whole milliseconds, rounded down |

## Left out

- File and JSON handling in `load_data`: opening and reading the file,
  `json::parse`, and the `unwrap` on a missing or non-string `pair` or `rate`
  field. A snapshot is given as its sequence of records.
- `read_dir` and the sort in `Exchange::new`. The snapshots are given as a
  sequence in sorted order.
- `f64::from_str` is not modelled. A record carries the outcome of that
  parse, with `None` for a failure.
- Rates and amounts are `real`, with no floating-point rounding.
- `to_lowercase` and `len()` are modelled for ASCII text only. Non-ASCII
  lower-casing and byte lengths are not modelled.
- Random address generation in `initiate_transaction` is not modelled. The
  address is a parameter; the source generates 16 random alphanumerics.
- Panics are modelled as error results that leave the object unchanged. The
  process abort itself is not modelled.
- Com.ReceiveTimeout: requires `now <= deadline`. A deadline that has
  already passed is not modelled: it panics before Rust 1.60 and gives a
  zero timeout from 1.60 on.
- Exchange.Exchange.QueryHistory: requires `age / 1000 <= time`. The usize
  subtraction in the source underflows otherwise.
- Integers are unbounded. The `u64` products `i * 1000` and
  `as_secs() * 1000` are not checked for overflow.
- Snapshot.FindOrInsert: returns the updated map and the value instead of a
  mutable reference. The caller writes the changed value back into the map.
- `get_currencies` returns a set. The order in which the hash set yields
  them is not modelled.
- `query` takes `&mut self` in the source but changes nothing, so it is
  modelled as a read-only function.
- Logging and the commented-out `load_history` are not modelled.
- In `src/com.rs`, the sockets are not modelled: construction, `bind`,
  `broadcast_rates`, `reply`, `set_rcvtimeo` itself and
  `ExchangeRequest::receive` are foreign calls into ZeroMQ and `prism`.
  `Instant::now()` becomes the parameter `now`.
- `src/main.rs` is not part of this model. Its stub `Exchange` does not use
  `src/exchange.rs`.
