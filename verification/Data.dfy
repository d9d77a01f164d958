/** The records that are passed between the parts of the bot detector. */
module Data {

  newtype byte = x: int | 0 <= x < 256

  type Bytes = seq<byte>

  datatype Option<+T> = None | Some(value: T)

  /** An autonomous system: its number and the network, in CIDR notation, an address was found in. */
  datatype ASN = ASN(number: int, network: Bytes, cidr: Bytes)

  /** An HTTP request. Times are nanoseconds. */
  datatype Request = Request(url: string, userAgent: string, source: Bytes, time: int, asn: ASN, isApp: bool)

  /** Why something was blocked: which test it failed. */
  datatype Reason = Unblocked | TooManyRequests | TooManyAndRatio | ByNetwork | GroupTooMany

  /** The whitelist rules in force at one moment, as a predicate on address, hostname and autonomous system. */
  type Rules = (Bytes, string, ASN) -> bool

  /** Aggregated request counts of one address. */
  datatype Stats = Stats(total: int, app: int, other: int, ratio: real)

  /** The share of app requests; 0 when there are no requests. */
  function RatioOf(app: int, total: int): real
  {
    if total > 0 then app as real / total as real else 0.0
  }

  lemma RatioIs(app: int, total: int)
    requires total > 0
    ensures RatioOf(app, total) * total as real == app as real
  {
    var a, t := app as real, total as real;
    assert a / t * t == a;
  }

  lemma RatioInUnit(app: int, total: int)
    requires 0 <= app <= total
    ensures 0.0 <= RatioOf(app, total) <= 1.0
  {
    if total > 0 {
      var a, t := app as real, total as real;
      assert a / t * t == a;
      assert (1.0 - a / t) * t == t - a;
    }
  }
}
