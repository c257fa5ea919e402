/** Datatypes and sequence vocabulary shared by the modules of this project. */
module Common {

  datatype Option<+T> = None | Some(value: T) {
    function GetOr(default: T): T {
      if Some? then value else default
    }
  }

  datatype Result<+T, +E> = Ok(value: T) | Err(error: E)

  function Max(a: int, b: int): int {
    if a >= b then a else b
  }

  function Min(a: int, b: int): int {
    if a <= b then a else b
  }

  /** Division is the only quotient with a small remainder. */
  lemma QuotientUnique(m: nat, d: nat, q: nat, r: nat)
    requires r < d && m == d * q + r
    ensures m / d == q
  {
    var p, t := m / d, m % d;
    assert m == d * p + t && t < d;
    if p > q {
      Multiples(d, p, q);
    } else if p < q {
      Multiples(d, q, p);
    }
  }

  lemma Multiples(d: nat, p: nat, q: nat)
    requires p > q
    ensures d * p >= d * q + d
  {
    var m: nat := p - q - 1;
    assert d * (q + 1 + m) == d * q + d + d * m;
  }
}
