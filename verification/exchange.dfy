/** The exchange state engine of src/exchange.rs: a logical clock that steps
    through rate snapshots, a cache of the snapshot last loaded, the set of
    currencies seen so far, rate queries against the cache or against past
    snapshots, and a ledger of conversion orders keyed by payment address.

    The snapshot directory is replaced by the sequence `snapshots` (index
    order is the sorted file order), and the random payment address is an
    argument of `InitiateTransaction`. */
module Exchange {
  import opened Wrappers
  import opened Prism
  import opened Snapshot

  /** A conversion order: pay `amount` of `from`, receive `to` at `destination`. */
  datatype Order = Order(from: string, to: string, amount: real, destination: string)

  /** An order and whether its payment has been confirmed. */
  datatype Transaction = Transaction(order: Order, complete: bool)

  /** Transactions keyed by payment address. */
  type Ledger = map<string, Transaction>

  /** Why a rate query fails: the currency has no table at that time
      ("data unavailable"), or loading the snapshot aborted. */
  datatype QueryError = Unavailable | LoadFailed(cause: LoadError)

  /** Why settling a known transaction aborts: no table for the currency
      paid in, or no rate from it to the currency ordered. */
  datatype FinalizeError = RateUnavailable(currency: string) | TargetMissing(from: string, to: string)

  /** The tables of snapshot `t`, as `load_data(t)` produces them. */
  function LoadSnapshot(snapshots: seq<seq<Record>>, t: nat): Result<Tables, LoadError>
  {
    if t < |snapshots| then Parse(snapshots[t]) else Err(IndexOutOfRange(t))
  }

  /** The table of currency `c` in `tables`, or "data unavailable". */
  function TableOf(tables: Tables, c: string): Result<map<string, real>, QueryError>
  {
    if c in tables then Ok(tables[c].values) else Err(Unavailable)
  }

  /** The table of currency `c` in snapshot `t`, loading it afresh. */
  function SnapshotQuery(snapshots: seq<seq<Record>>, t: nat, c: string): Result<map<string, real>, QueryError>
  {
    match LoadSnapshot(snapshots, t)
    case Err(e) => Err(LoadFailed(e))
    case Ok(tables) => TableOf(tables, c)
  }

  /** The table of a query result, or the empty table when the query failed. */
  function OrEmpty(r: Result<map<string, real>, QueryError>): map<string, real>
  {
    if r.Ok? then r.value else map[]
  }

  /** The first `n` snapshots exist and load without aborting. */
  ghost predicate Loadable(snapshots: seq<seq<Record>>, n: nat)
  {
    n <= |snapshots| && forall i :: 0 <= i < n ==> Parse(snapshots[i]).Ok?
  }

  /** The cache after `n` ticks: the tables of snapshot `n - 1`, empty
      before the first tick. */
  ghost function Cache(snapshots: seq<seq<Record>>, n: nat): Tables
    requires Loadable(snapshots, n)
  {
    if n == 0 then map[] else Parse(snapshots[n - 1]).value
  }

  /** The currencies known after `n` ticks: the base keys of snapshots 0 .. n-1. */
  ghost function Seen(snapshots: seq<seq<Record>>, n: nat): set<string>
    requires Loadable(snapshots, n)
  {
    if n == 0 then {} else Seen(snapshots, n - 1) + Parse(snapshots[n - 1]).value.Keys
  }

  /** A currency is known after `n` ticks exactly when an accepted record of
      one of the first `n` snapshots quotes it as its base. */
  lemma {:induction false} SeenQuotes(snapshots: seq<seq<Record>>, n: nat)
    requires Loadable(snapshots, n)
    ensures forall c :: c in Seen(snapshots, n) <==> exists i, j :: 0 <= i < n && Quotes(snapshots[i], j, c)
  {
    if n > 0 {
      SeenQuotes(snapshots, n - 1);
      ParseKeys(snapshots[n - 1]);
      forall c | c in Seen(snapshots, n) ensures exists i, j :: 0 <= i < n && Quotes(snapshots[i], j, c) {
        if c !in Seen(snapshots, n - 1) {
          var j :| Quotes(snapshots[n - 1], j, c);
          assert 0 <= n - 1 < n && Quotes(snapshots[n - 1], j, c);
        }
      }
      forall c | exists i, j :: 0 <= i < n && Quotes(snapshots[i], j, c) ensures c in Seen(snapshots, n) {
        var i, j :| 0 <= i < n && Quotes(snapshots[i], j, c);
        if i < n - 1 {
          assert c in Seen(snapshots, n - 1);
        }
      }
    }
  }

  /** The set of known currencies never shrinks as the clock advances. */
  lemma {:induction false} SeenGrows(snapshots: seq<seq<Record>>, n: nat, m: nat)
    requires n <= m && Loadable(snapshots, m)
    ensures Loadable(snapshots, n) && Seen(snapshots, n) <= Seen(snapshots, m)
    decreases m - n
  {
    if n < m {
      SeenGrows(snapshots, n, m - 1);
    }
  }

  /** What `finalize_transaction` returns: the currency paid out and the amount. */
  datatype Payout = Payout(currency: string, amount: real)

  /** The ledger after a settlement, and the payout. */
  datatype Settlement = Settlement(ledger: Ledger, payout: Payout)

  /** Settlement of the payment made to `address`, against the rate tables
      `current`. An unknown address yields ("xxx", 0.0) and the ledger
      unchanged. A known one yields its order's target and the current rate
      times the amount, and marks the transaction complete with its order
      unchanged, whether or not it was complete before; it aborts when the
      current tables have no rate for the order's pair. Only that entry
      changes and none is ever added or removed. */
  function Settle(ledger: Ledger, current: Tables, address: string): (r: Result<Settlement, FinalizeError>)
    ensures address !in ledger ==> r == Ok(Settlement(ledger, Payout("xxx", 0.0)))
    ensures r.Ok? ==> r.value.ledger.Keys == ledger.Keys
    ensures r.Ok? ==> forall a :: a in ledger && a != address ==> r.value.ledger[a] == ledger[a]
    ensures r.Ok? && address in ledger ==>
      && r.value.ledger[address] == Transaction(ledger[address].order, true)
      && r.value.payout.currency == ledger[address].order.to
    ensures address in ledger ==>
      var o := ledger[address].order;
      && (r.Ok? <==> Lookup(current, o.from, o.to).Some?)
      && (r.Ok? ==> r.value.payout.amount == Lookup(current, o.from, o.to).value * o.amount)
  {
    if address !in ledger then Ok(Settlement(ledger, Payout("xxx", 0.0)))
    else
      var o := ledger[address].order;
      match TableOf(current, o.from)
      case Err(_) => Err(RateUnavailable(o.from))
      case Ok(data) =>
        if o.to !in data then Err(TargetMissing(o.from, o.to))
        else Ok(Settlement(ledger[address := Transaction(o, true)], Payout(o.to, data[o.to] * o.amount)))
  }

  /** Re-finalizing an already settled transaction is not rejected: against
      the same rates it yields the same payout again and leaves the ledger
      as it was. */
  lemma SettleTwice(ledger: Ledger, current: Tables, address: string)
    requires Settle(ledger, current, address).Ok?
    ensures var s := Settle(ledger, current, address).value;
            Settle(s.ledger, current, address) == Ok(s)
  {
    var s := Settle(ledger, current, address).value;
    if address in ledger {
      var o := ledger[address].order;
      assert s.ledger == ledger[address := Transaction(o, true)];
      assert s.ledger[address := Transaction(o, true)] == s.ledger;
      var again := Settle(s.ledger, current, address);
      assert again.value.ledger == s.ledger;
      assert again.value.payout == s.payout;
    }
  }

  /** An order just placed at `address` settles, when the rate exists, at
      the rate of the tables current at settlement time. */
  lemma InitiateThenSettle(ledger: Ledger, current: Tables, address: string, o: Order)
    requires Lookup(current, o.from, o.to).Some?
    ensures Settle(ledger[address := Transaction(o, false)], current, address)
         == Ok(Settlement(ledger[address := Transaction(o, true)], Payout(o.to, Lookup(current, o.from, o.to).value * o.amount)))
  {
    var placed := ledger[address := Transaction(o, false)];
    var s := Settle(placed, current, address);
    assert placed[address].order == o;
    assert s.value.ledger == ledger[address := Transaction(o, true)];
    assert s.value.payout == Payout(o.to, Lookup(current, o.from, o.to).value * o.amount);
  }

  class Exchange {
    /** The snapshots in sorted file order; index `t` is logical time `t`. */
    const snapshots: seq<seq<Record>>
    var time: nat
    var pending: Ledger
    var currencies: set<string>
    var currentData: Tables

    /** The cache holds the snapshot loaded by the last tick (the one
        before `time`), and the currency set every base key loaded so far. */
    ghost predicate Valid()
      reads this
    {
      && Loadable(snapshots, time)
      && currentData == Cache(snapshots, time)
      && currencies == Seen(snapshots, time)
    }

    /** `Exchange::new`: clock at zero, no transactions, nothing loaded. */
    constructor (snapshots: seq<seq<Record>>)
      ensures Valid()
      ensures this.snapshots == snapshots
      ensures time == 0 && pending == map[] && currencies == {} && currentData == map[]
    {
      this.snapshots := snapshots;
      time := 0;
      pending := map[];
      currencies := {};
      currentData := map[];
    }

    /** `get_currencies`: every currency quoted as a base by an accepted
        record of a snapshot loaded so far, and no other. */
    function GetCurrencies(): (r: set<string>)
      reads this
      requires Valid()
      ensures forall c :: c in r <==> exists i, j :: 0 <= i < time && Quotes(snapshots[i], j, c)
    {
      SeenQuotes(snapshots, time);
      currencies
    }

    /** `load_data`: aborts when there is no snapshot at `t` or a record is
        malformed. */
    method LoadData(t: nat) returns (r: Result<Tables, LoadError>)
      ensures r == LoadSnapshot(snapshots, t)
    {
      if t >= |snapshots| {
        return Err(IndexOutOfRange(t));
      }
      r := LoadRecords(snapshots[t]);
    }

    /** `tick`: caches the snapshot at the current time, adds its base
        currencies to the known ones, then advances the clock by one. The
        ledger is untouched. When loading aborts nothing changes. */
    method Tick() returns (outcome: Outcome<LoadError>)
      requires Valid()
      modifies this
      ensures Valid()
      ensures pending == old(pending)
      ensures outcome.Pass? <==> old(LoadSnapshot(snapshots, time)).Ok?
      ensures outcome.Pass? ==>
        && time == old(time) + 1
        && currentData == Parse(snapshots[old(time)]).value
        && currencies == old(currencies) + currentData.Keys
      ensures outcome.Fail? ==>
        && outcome.error == old(LoadSnapshot(snapshots, time)).error
        && time == old(time) && currentData == old(currentData) && currencies == old(currencies)
    {
      var loaded := LoadData(time);
      if loaded.Err? {
        return Fail(loaded.error);
      }
      currentData := loaded.value;
      var keys := currentData.Keys;
      while keys != {}
        invariant keys <= currentData.Keys
        invariant currencies == old(currencies) + (currentData.Keys - keys)
        invariant time == old(time) && pending == old(pending) && currentData == loaded.value
        decreases keys
      {
        var c :| c in keys;
        currencies := currencies + {c};
        keys := keys - {c};
      }
      time := time + 1;
      return Pass;
    }

    /** `query_at`: at the current time the answer comes from the cache,
        which holds snapshot `time - 1` (nothing before the first tick);
        at any other time snapshot `t` is loaded afresh. Past snapshots
        always load; a missing currency is "data unavailable". */
    function QueryAt(c: string, t: nat): (r: Result<map<string, real>, QueryError>)
      reads this
      requires Valid()
      ensures t == time ==> r == (if time == 0 then Err(Unavailable) else SnapshotQuery(snapshots, time - 1, c))
      ensures t != time ==> r == SnapshotQuery(snapshots, t, c)
      ensures t < time && r.Err? ==> r.error == Unavailable
    {
      if t == time then TableOf(currentData, c) else SnapshotQuery(snapshots, t, c)
    }

    /** `query`: the rates of `c` "now", which are those of snapshot
        `time - 1`, the same answer as a query at time `time - 1`. */
    function Query(c: string): (r: Result<map<string, real>, QueryError>)
      reads this
      requires Valid()
      ensures time == 0 ==> r == Err(Unavailable)
      ensures time > 0 ==> r == QueryAt(c, time - 1) && r == SnapshotQuery(snapshots, time - 1, c)
      ensures !r.Err? || r.error == Unavailable
    {
      QueryAt(c, time)
    }

    /** `query_history`: one entry per tick `time - age/1000 .. time - 1`,
        stamped with that tick in milliseconds, holding that snapshot's
        table of `c`, or an empty table when `c` is unavailable there. */
    method QueryHistory(c: string, age: nat) returns (history: seq<Rate>)
      requires Valid()
      requires age / 1000 <= time
      ensures |history| == age / 1000
      ensures forall k :: 0 <= k < |history| ==> history[k].timestamp == (time - age / 1000 + k) * 1000
      ensures forall k :: 0 < k < |history| ==> history[k].timestamp == history[k - 1].timestamp + 1000
      ensures forall k :: 0 <= k < |history| ==>
        && history[k].values == OrEmpty(QueryAt(c, time - age / 1000 + k))
        && history[k].values == OrEmpty(SnapshotQuery(snapshots, time - age / 1000 + k, c))
        && (QueryAt(c, time - age / 1000 + k).Err? ==> history[k].values == map[])
    {
      var start := time - age / 1000;
      history := [];
      for i := start to time
        invariant |history| == i - start
        invariant forall k :: 0 <= k < |history| ==>
          history[k] == Rate(OrEmpty(SnapshotQuery(snapshots, start + k, c)), (start + k) * 1000)
      {
        var values := match QueryAt(c, i) case Err(_) => map[] case Ok(x) => x;
        history := history + [Rate(values, i * 1000)];
      }
    }

    /** `initiate_transaction`: records a pending order under `address`,
        replacing any earlier entry there, and returns the invoice asking
        for `amount` of `from` at that address. */
    method InitiateTransaction(from: string, to: string, amount: real, destination: string, address: string)
      returns (invoice: Invoice)
      requires Valid()
      modifies this
      ensures Valid()
      ensures pending == old(pending)[address := Transaction(Order(from, to, amount, destination), false)]
      ensures time == old(time) && currencies == old(currencies) && currentData == old(currentData)
      ensures invoice == Invoice(address, from, amount)
    {
      pending := pending[address := Transaction(Order(from, to, amount, destination), false)];
      invoice := Invoice(address, from, amount);
    }

    /** `finalize_transaction`: settles the transaction at `address` against
        the current rates (see `Settle`). It aborts, changing nothing, when
        the current rates lack the order's currencies. */
    method FinalizeTransaction(address: string) returns (r: Result<Payout, FinalizeError>)
      requires Valid()
      modifies this
      ensures Valid()
      ensures time == old(time) && currencies == old(currencies) && currentData == old(currentData)
      ensures Settle(old(pending), currentData, address) == if r.Ok? then Ok(Settlement(pending, r.value)) else Err(r.error)
      ensures r.Err? ==> pending == old(pending)
      ensures address in old(pending) && r.Ok? ==>
        var o := old(pending)[address].order;
        Query(o.from).Ok? && o.to in Query(o.from).value && r.value == Payout(o.to, Query(o.from).value[o.to] * o.amount)
    {
      if address !in pending {
        return Ok(Payout("xxx", 0.0));
      }
      var transaction := pending[address];
      var data := Query(transaction.order.from);
      if data.Err? {
        return Err(RateUnavailable(transaction.order.from));
      }
      if transaction.order.to !in data.value {
        return Err(TargetMissing(transaction.order.from, transaction.order.to));
      }
      assert data == TableOf(currentData, transaction.order.from);
      var amount := data.value[transaction.order.to] * transaction.order.amount;
      pending := pending[address := Transaction(transaction.order, true)];
      assert Query(transaction.order.from) == data;
      ghost var settled := Settle(old(pending), currentData, address);
      assert settled.value.ledger == pending;
      assert settled.value.payout == Payout(transaction.order.to, amount);
      return Ok(Payout(transaction.order.to, amount));
    }
  }
}
