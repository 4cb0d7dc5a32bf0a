/** The two message records of the `prism` crate that the exchange engine
    builds. Only the fields the engine reads or writes are modelled. */
module Prism {

  /** The rates of one base currency: target code to conversion factor,
      and the logical time in milliseconds. */
  datatype Rate = Rate(values: map<string, real>, timestamp: nat)

  /** `Rate::default()`: no targets, timestamp zero. */
  const DefaultRate: Rate := Rate(map[], 0)

  /** What a client must pay, and to which address, to trigger a conversion. */
  datatype Invoice = Invoice(address: string, currency: string, amount: real)
}
