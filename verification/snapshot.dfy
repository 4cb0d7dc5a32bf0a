/** Parsing of one rate snapshot into per-base-currency rate tables: the
    record loop of `Exchange::load_data` and the `find_or_insert` helper
    (src/exchange.rs). Reading the file and decoding its JSON are not
    modelled: a snapshot is given as its sequence of records. */
module Snapshot {
  import opened Wrappers
  import opened Prism
  import opened Text

  /** One record of a snapshot: its `pair` field ("XXX_YYY") and the outcome
      of parsing its `rate` field as a floating-point number (`None` when
      that parse fails). */
  datatype Record = Record(pair: string, rate: Option<real>)

  /** Why loading a snapshot aborts. */
  datatype LoadError =
    | IndexOutOfRange(index: nat)   // no snapshot at this index
    | MalformedPair(pair: string)   // the pair does not split into two codes
    | MalformedRate(pair: string)   // the rate text is not a number

  /** Rate tables keyed by base currency. */
  type Tables = map<string, Rate>

  /** A three-character lower-case currency code. */
  predicate IsCode(s: string) {
    |s| == 3 && IsLower(s)
  }

  /** What one record contributes: an abort, nothing, or one table entry. */
  datatype Decoded =
    | Reject(error: LoadError)
    | Skip
    | Entry(base: string, target: string, value: real)

  /** The handling of one record. The pair must split on '_' into exactly
      two pieces and the rate must parse, in that order, or loading aborts;
      only then are records whose lower-cased codes are not both three
      characters long skipped. */
  function Decode(r: Record): (d: Decoded)
    ensures d.Reject? <==> Count(r.pair, '_') != 1 || r.rate.None?
    ensures d.Reject? && Count(r.pair, '_') != 1 ==> d.error == MalformedPair(r.pair)
    ensures d.Reject? && Count(r.pair, '_') == 1 ==> d.error == MalformedRate(r.pair)
    ensures d.Entry? ==> IsCode(d.base) && IsCode(d.target) && r.rate == Some(d.value)
  {
    var parts := Split(r.pair, '_');
    if |parts| != 2 then Reject(MalformedPair(r.pair))
    else if r.rate.None? then Reject(MalformedRate(r.pair))
    else
      var base := Lower(parts[0]);
      var target := Lower(parts[1]);
      LowerIsLower(parts[0]);
      LowerIsLower(parts[1]);
      if |base| != 3 || |target| != 3 then Skip else Entry(base, target, r.rate.value)
  }

  /** Which records are accepted, in terms of the pair text alone: among
      those that do not abort, exactly the seven-character pairs with '_'
      at index 3, whose base and target are the lower-cased text on either
      side of it. Every other record that does not abort is skipped. */
  lemma DecodeShape(r: Record)
    ensures Decode(r).Entry? <==> !Decode(r).Reject? && |r.pair| == 7 && r.pair[3] == '_'
    ensures Decode(r).Entry? ==>
      Decode(r).base == Lower(r.pair[..3]) && Decode(r).target == Lower(r.pair[4..])
  {
    var parts := Split(r.pair, '_');
    if |parts| == 2 {
      SplitTwoAt(r.pair, '_', 3);
      if |parts[0]| == 3 {
        assert parts[0] == r.pair[..3] && parts[1] == r.pair[4..];
      }
    }
  }

  /** Nothing filters a record whose two codes are equal: "btc_btc" at 1.0
      puts the base "btc" into its own table. */
  lemma SelfQuoteKept()
    ensures Parse([Record("btc_btc", Some(1.0))]) == Ok(map["btc" := Rate(map["btc" := 1.0], 0)])
  {
    var r := Record("btc_btc", Some(1.0));
    assert Count(r.pair, '_') == 1;
    DecodeShape(r);
    LowerIsLower("btc");
    assert r.pair[..3] == "btc" && r.pair[4..] == "btc";
    assert Decode(r) == Entry("btc", "btc", 1.0);
    assert [r][..0] == [];
  }

  /** The tables after one more record (the body of the loop). */
  function Apply(m: Tables, d: Decoded): Result<Tables, LoadError>
  {
    match d
    case Reject(e) => Err(e)
    case Skip => Ok(m)
    case Entry(base, target, value) =>
      var rate := if base in m then m[base] else DefaultRate;
      Ok(m[base := rate.(values := rate.values[target := value])])
  }

  /** Reference definition of one entry: the rate of the LAST accepted
      record for `base` -> `target`, if any. */
  function LastRate(records: seq<Record>, base: string, target: string): Option<real>
    decreases |records|
  {
    if records == [] then None
    else
      var d := Decode(records[|records| - 1]);
      if d.Entry? && d.base == base && d.target == target then Some(d.value)
      else LastRate(records[..|records| - 1], base, target)
  }

  /** Record `j` of `records` is accepted and quotes base currency `base`. */
  predicate Quotes(records: seq<Record>, j: int, base: string) {
    0 <= j < |records| && Decode(records[j]).Entry? && Decode(records[j]).base == base
  }

  /** The entry of `tables` for `base` -> `target`, if any. */
  function Lookup(tables: Tables, base: string, target: string): Option<real>
  {
    if base in tables && target in tables[base].values then Some(tables[base].values[target]) else None
  }

  /** Every entry of the parsed tables is the last rate given for its pair
      (so records sharing a base accumulate into one table, and a later
      duplicate overwrites an earlier one). */
  lemma {:induction false} ParseLookup(records: seq<Record>, base: string, target: string)
    requires Parse(records).Ok?
    ensures Lookup(Parse(records).value, base, target) == LastRate(records, base, target)
    decreases |records|
  {
    if records != [] {
      var init := records[..|records| - 1];
      ParseLookup(init, base, target);
    }
  }

  /** The base keys are exactly the bases of accepted records. */
  lemma {:induction false} ParseKeys(records: seq<Record>)
    requires Parse(records).Ok?
    ensures forall base :: base in Parse(records).value <==> exists j :: Quotes(records, j, base)
    decreases |records|
  {
    if records != [] {
      var n := |records| - 1;
      var init := records[..n];
      ParseKeys(init);
      var m := Parse(init).value;
      var d := Decode(records[n]);
      assert Parse(records).value.Keys == if d.Entry? then m.Keys + {d.base} else m.Keys;
      forall base | base in Parse(records).value ensures exists j :: Quotes(records, j, base) {
        if base in m {
          var j :| Quotes(init, j, base);
          assert records[j] == init[j];
          assert Quotes(records, j, base);
        } else {
          assert Quotes(records, n, base);
        }
      }
      forall base | exists j :: Quotes(records, j, base) ensures base in Parse(records).value {
        var j :| Quotes(records, j, base);
        if j < n {
          assert records[j] == init[j];
          assert Quotes(init, j, base);
        }
      }
    }
  }

  /** Tables that only hold lower-case three-character codes, each base
      mapping to a non-empty table stamped zero. */
  predicate WellFormed(m: Tables) {
    forall base :: base in m ==>
      && IsCode(base)
      && m[base].values != map[]
      && m[base].timestamp == 0
      && forall target :: target in m[base].values ==> IsCode(target)
  }

  /** Parsed tables are well formed. */
  lemma {:induction false} ParseWellFormed(records: seq<Record>)
    requires Parse(records).Ok?
    ensures WellFormed(Parse(records).value)
    decreases |records|
  {
    if records != [] {
      var init := records[..|records| - 1];
      ParseWellFormed(init);
      var m := Parse(init).value;
      var d := Decode(records[|records| - 1]);
      if d.Entry? {
        var rate := if d.base in m then m[d.base] else DefaultRate;
        var updated := rate.(values := rate.values[d.target := d.value]);
        assert d.target in updated.values;
        assert forall target :: target in updated.values ==> target == d.target || target in rate.values;
        assert Apply(m, d).value == m[d.base := updated];
      }
    }
  }

  /** The tables a snapshot parses to, record by record from the first.
      Only a malformed pair or rate aborts it. */
  function Parse(records: seq<Record>): (r: Result<Tables, LoadError>)
    ensures r.Err? ==> r.error.MalformedPair? || r.error.MalformedRate?
    decreases |records|
  {
    if records == [] then Ok(map[])
    else
      match Parse(records[..|records| - 1])
      case Err(e) => Err(e)
      case Ok(m) => Apply(m, Decode(records[|records| - 1]))
  }

  /** Loading aborts exactly when some record is rejected, and then with the
      error of the FIRST rejected record. */
  lemma {:induction false} ParseFailure(records: seq<Record>)
    ensures Parse(records).Err? <==> exists j :: 0 <= j < |records| && Decode(records[j]).Reject?
    ensures Parse(records).Err? ==> exists j :: && 0 <= j < |records|
                                              && Decode(records[j]) == Reject(Parse(records).error)
                                              && forall i :: 0 <= i < j ==> !Decode(records[i]).Reject?
    decreases |records|
  {
    if records != [] {
      var n := |records| - 1;
      var init := records[..n];
      ParseFailure(init);
      assert forall j :: 0 <= j < n ==> init[j] == records[j];
      if Parse(init).Err? {
        var j :| && 0 <= j < n && Decode(init[j]) == Reject(Parse(init).error)
                 && forall i :: 0 <= i < j ==> !Decode(init[i]).Reject?;
        assert Decode(records[j]) == Reject(Parse(records).error);
      }
    }
  }

  /** Once a prefix has aborted, the whole snapshot aborts with the same error. */
  lemma {:induction false} ParseAbortIsFinal(records: seq<Record>, k: nat)
    requires k <= |records|
    requires Parse(records[..k]).Err?
    ensures Parse(records) == Parse(records[..k])
    decreases |records|
  {
    if k < |records| {
      var init := records[..|records| - 1];
      assert init[..k] == records[..k];
      ParseAbortIsFinal(init, k);
    } else {
      assert records[..k] == records;
    }
  }

  /** `find_or_insert`: the value at `key`, inserting `default` first when
      the key is absent. Afterwards the map is the old one with `key` bound
      to that value: no other key is added or changed. */
  method FindOrInsert<K, V>(m: map<K, V>, key: K, default: V) returns (m': map<K, V>, v: V)
    ensures v == if key in m then m[key] else default
    ensures m' == m[key := v]
  {
    if key !in m {
      m' := m[key := default];
    } else {
      m' := m;
    }
    v := m'[key];
  }

  /** One more record extends the parse of a prefix by `Apply`. */
  lemma ParseStep(records: seq<Record>, i: nat)
    requires i < |records|
    ensures Parse(records[..i + 1]) == match Parse(records[..i])
      case Err(e) => Err(e)
      case Ok(m) => Apply(m, Decode(records[i]))
  {
    assert records[..i + 1][..i] == records[..i];
  }

  /** The record loop of `load_data`: builds the tables one record at a
      time and aborts on the first malformed record. */
  method LoadRecords(records: seq<Record>) returns (r: Result<Tables, LoadError>)
    ensures r == Parse(records)
  {
    var tables: Tables := map[];
    var i := 0;
    while i < |records|
      invariant 0 <= i <= |records|
      invariant Parse(records[..i]) == Ok(tables)
    {
      ParseStep(records, i);
      var parts := Split(records[i].pair, '_');
      if |parts| != 2 {
        ParseAbortIsFinal(records, i + 1);
        return Err(MalformedPair(records[i].pair));
      }
      var base := Lower(parts[0]);
      var target := Lower(parts[1]);
      if records[i].rate.None? {
        ParseAbortIsFinal(records, i + 1);
        return Err(MalformedRate(records[i].pair));
      }
      var value := records[i].rate.value;
      if |base| != 3 || |target| != 3 {
        assert Decode(records[i]) == Skip;
        i := i + 1;
        continue;
      }
      assert Decode(records[i]) == Entry(base, target, value);
      ghost var before := tables;
      var rate;
      tables, rate := FindOrInsert(tables, base, DefaultRate);
      tables := tables[base := rate.(values := rate.values[target := value])];
      assert tables == before[base := rate.(values := rate.values[target := value])];
      i := i + 1;
    }
    assert records[..i] == records;
    return Ok(tables);
  }
}
