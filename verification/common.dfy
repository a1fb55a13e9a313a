/** Types shared by every component of the model. */
module Common {
  /** A database identifier; a UUID compares like the 128-bit number it spells. */
  type Id = nat

  /** A point in time, in microseconds, the resolution of a Postgres timestamp. */
  type Time = int

  const SECOND: Time := 1_000_000

  datatype Option<+T> = None | Some(value: T) {
    function GetOr(default: T): T {
      if Some? then value else default
    }
  }

  datatype Result<+T, +E> = Ok(value: T) | Err(error: E)

  function Last<T>(s: seq<T>): T
    requires s != []
  {
    s[|s| - 1]
  }

  function Front<T>(s: seq<T>): seq<T>
    requires s != []
  {
    s[..|s| - 1]
  }

  function Pow2(n: nat): (p: nat)
    ensures p >= 1
  {
    if n == 0 then 1 else 2 * Pow2(n - 1)
  }
}
