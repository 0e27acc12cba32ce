/** Types shared by every model of the project. */
module Common {

  /** A value that may be absent, as SQL NULL or `undefined`. */
  datatype Option<+T> = None | Some(value: T) {
    function GetOr(fallback: T): T {
      match this
      case Some(v) => v
      case None => fallback
    }
  }

  /** The outcome of one database transaction: committed, or rolled back with an error. */
  datatype Result<+T, +E> = Ok(value: T) | Err(error: E)

  /** `parts.join(separator)`. */
  function Join(parts: seq<string>, separator: string): string {
    if parts == [] then ""
    else if |parts| == 1 then parts[0]
    else Join(parts[..|parts| - 1], separator) + separator + parts[|parts| - 1]
  }

  lemma {:induction false} JoinConcat(a: seq<string>, b: seq<string>, separator: string)
    requires a != [] && b != []
    ensures Join(a + b, separator) == Join(a, separator) + separator + Join(b, separator)
  {
    var k := |b| - 1;
    assert (a + b)[..|a| + k] == a + b[..k];
    if k == 0 {
      assert a + b[..0] == a;
    } else {
      JoinConcat(a, b[..k], separator);
      assert (a + b)[|a| + k] == b[k] && |a + b| > 1;
      assert Join(a + b, separator) == Join(a + b[..k], separator) + separator + b[k];
      assert Join(b, separator) == Join(b[..k], separator) + separator + b[k];
    }
  }

  /** White space and line ends, as `\s` and `trim` take them. */
  predicate IsSpace(c: char) {
    || '\U{0009}' <= c <= '\U{000d}' || c == ' ' || c == '\U{00a0}' || c == '\U{1680}' || '\U{2000}' <= c <= '\U{200a}'
    || c == '\U{2028}' || c == '\U{2029}' || c == '\U{202f}' || c == '\U{205f}' || c == '\U{3000}' || c == '\U{feff}'
  }

  // ---------- arithmetic ----------

  function Min(a: int, b: int): int { if a <= b then a else b }

  function Pow2(n: nat): nat { if n == 0 then 1 else 2 * Pow2(n - 1) }

  /** `p / q` to the nearest integer, half up. */
  function RoundDiv(p: int, q: int): (r: int)
    requires q > 0
    ensures 2 * q * r <= 2 * p + q < 2 * q * r + 2 * q
  {
    DivBounds(2 * p + q, 2 * q);
    (2 * p + q) / (2 * q)
  }

  lemma DivBounds(x: int, d: int)
    requires d > 0
    ensures d * (x / d) <= x < d * (x / d) + d
  {
  }

  // ---------- sums over a list of keys ----------

  function SumOver(keys: seq<string>, g: string -> int): int {
    if keys == [] then 0
    else
      var k := |keys| - 1;
      SumOver(keys[..k], g) + g(keys[k])
  }

  ghost predicate Distinct(keys: seq<string>) {
    forall i, j :: 0 <= i < j < |keys| ==> keys[i] != keys[j]
  }

  lemma {:induction false} SumOverEqual(keys: seq<string>, g: string -> int, h: string -> int)
    requires forall c :: c in keys ==> g(c) == h(c)
    ensures SumOver(keys, g) == SumOver(keys, h)
  {
    if keys != [] {
      assert keys[|keys| - 1] in keys;
      SumOverEqual(keys[..|keys| - 1], g, h);
    }
  }

  lemma {:induction false} SumOverPlus(keys: seq<string>, g: string -> int, h: string -> int, sum: string -> int)
    requires forall c :: c in keys ==> sum(c) == g(c) + h(c)
    ensures SumOver(keys, sum) == SumOver(keys, g) + SumOver(keys, h)
  {
    if keys != [] {
      assert keys[|keys| - 1] in keys;
      SumOverPlus(keys[..|keys| - 1], g, h, sum);
    }
  }

  /** Raising the figure of one key by `v` raises the sum by `v`, if the keys are distinct. */
  lemma {:induction false} SumOverPoint(keys: seq<string>, g: string -> int, h: string -> int, key: string, v: int)
    requires Distinct(keys)
    requires forall c :: c in keys ==> h(c) == g(c) + (if c == key then v else 0)
    ensures SumOver(keys, h) == SumOver(keys, g) + (if key in keys then v else 0)
  {
    if keys != [] {
      var k := |keys| - 1;
      assert keys[k] in keys && keys == keys[..k] + [keys[k]];
      SumOverPoint(keys[..k], g, h, key, v);
    }
  }
}
