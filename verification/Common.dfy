/** Shared value types and a few facts about sequences. */
module Common {
  datatype Option<+T> = None | Some(value: T)

  /** The SQL function COALESCE on two arguments. */
  function Coalesce<T>(first: Option<T>, second: Option<T>): Option<T> {
    if first.Some? then first else second
  }

  /** The one key a plain JavaScript object does not keep: its setter ignores numbers, its getter gives an object. */
  const PROTO := "__proto__"

  /** Array.prototype.join. */
  function Join(parts: seq<string>, separator: string): string {
    if parts == [] then ""
    else if |parts| == 1 then parts[0]
    else parts[0] + separator + Join(parts[1..], separator)
  }

  /** String(n) */
  function Decimal(n: nat): (r: string)
    ensures r != ""
  {
    if n < 10 then [(48 + n) as char] else Decimal(n / 10) + [(48 + n % 10) as char]
  }

  /** Said with names, so that a proof need not search for it. */
  lemma Assoc<T>(a: seq<T>, b: seq<T>, c: seq<T>)
    ensures (a + b) + c == a + (b + c)
  {
  }
}
