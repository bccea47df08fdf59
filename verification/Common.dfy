/** Byte strings and the small generic types every layer shares. */
module Common {
  type Byte = b: int | 0 <= b < 256
  type Bytes = seq<Byte>

  /** Rust's `Option`. */
  datatype Option<+T> = None | Some(value: T)

  /** Rust's `Result`. */
  datatype Result<+T, +E> = Ok(value: T) | Err(error: E)

  function Zeros(n: nat): (z: Bytes)
    ensures |z| == n && forall i | 0 <= i < n :: z[i] == 0
  {
    seq(n, _ => 0)
  }

  function Flatten(parts: seq<Bytes>): Bytes {
    if parts == [] then [] else parts[0] + Flatten(parts[1..])
  }

  lemma {:induction false} FlattenAppend(a: seq<Bytes>, b: seq<Bytes>)
    ensures Flatten(a + b) == Flatten(a) + Flatten(b)
  {
    if a == [] {
      assert a + b == b;
    } else {
      FlattenAppend(a[1..], b);
      assert (a + b)[0] == a[0] && (a + b)[1..] == a[1..] + b;
      Associative(a[0], Flatten(a[1..]), Flatten(b));
    }
  }

  lemma Associative<T>(a: seq<T>, b: seq<T>, c: seq<T>)
    ensures a + (b + c) == (a + b) + c
  {
  }

  lemma FlattenOne(x: Bytes)
    ensures Flatten([x]) == x
  {
    assert [x][1..] == [];
  }

  /** Stepping a counter by one either advances its residue or wraps it to 0. */
  lemma ModSucc(n: nat, d: nat)
    requires d >= 1
    ensures (n + 1) % d == if n % d + 1 == d then 0 else n % d + 1
    ensures (n + 1) / d == if n % d + 1 == d then n / d + 1 else n / d
  {
    var q, r := n / d, n % d;
    assert n == q * d + r;
    if r + 1 == d {
      assert n + 1 == (q + 1) * d;
      DivModUnique(n + 1, d, q + 1, 0);
    } else {
      DivModUnique(n + 1, d, q, r + 1);
    }
  }

  lemma DivModUnique(n: nat, d: nat, q: nat, r: nat)
    requires d >= 1 && r < d && n == q * d + r
    ensures n / d == q && n % d == r
  {
    var q', r' := n / d, n % d;
    assert n == q' * d + r';
    if q > q' {
      AtLeastOne(q - q', d);
    } else if q < q' {
      AtLeastOne(q' - q, d);
    }
  }

  lemma AtLeastOne(a: nat, d: nat)
    requires a >= 1
    ensures a * d >= d
  {
  }
}
