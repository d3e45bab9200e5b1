/** Fixed-width integers, byte strings and result types shared by all components. */
module Common {
  const TWO_16: int := 0x1_0000
  const TWO_32: int := 0x1_0000_0000
  const TWO_64: int := 0x1_0000_0000_0000_0000

  type byte = x: int | 0 <= x < 0x100
  type uint16 = x: int | 0 <= x < 0x1_0000
  type uint32 = x: int | 0 <= x < 0x1_0000_0000
  type uint64 = x: int | 0 <= x < 0x1_0000_0000_0000_0000
  type int32 = x: int | -0x8000_0000 <= x < 0x8000_0000
  type int64 = x: int | -0x8000_0000_0000_0000 <= x < 0x8000_0000_0000_0000

  /** The bytes of a std::string. */
  type Text = seq<byte>

  datatype Option<+T> = None | Some(value: T)

  datatype Result<+T, +E> = Ok(value: T) | Err(error: E)

  /** The bytes of a string literal of the program. */
  function Ascii(s: string): Text {
    seq(|s|, i requires 0 <= i < |s| => (s[i] as int) % 0x100)
  }

  /** The int32 of the same 32 bits. */
  function FromUnsigned(u: uint32): int32 {
    if u < 0x8000_0000 then u else u - TWO_32
  }

  /** Increment of a uint64 counter, which wraps. */
  function Inc64(x: uint64): uint64 {
    (x + 1) % TWO_64
  }

  /** k increments. */
  function Add64(x: uint64, k: nat): uint64 {
    (x + k) % TWO_64
  }

  lemma Add64Step(x: uint64, k: nat)
    ensures Inc64(Add64(x, k)) == Add64(x, k + 1)
  {
  }

  lemma RemainderIs(n: nat, q: nat, r: uint64)
    requires n == q * TWO_64 + r
    ensures n % TWO_64 == r
  {
  }

  /** Adding to a wrapped count wraps like adding to the count itself. */
  lemma Add64Counts(n: nat, k: nat)
    ensures Add64(n % TWO_64, k) == (n + k) % TWO_64
  {
    var m := n % TWO_64 + k;
    RemainderIs(n + k, n / TWO_64 + m / TWO_64, m % TWO_64);
  }

  lemma Inc64Counts(n: nat)
    ensures Inc64(n % TWO_64) == (n + 1) % TWO_64
  {
  }

  function Init<T>(s: seq<T>): seq<T>
    requires s != []
  {
    s[..|s| - 1]
  }

  function Last<T>(s: seq<T>): T
    requires s != []
  {
    s[|s| - 1]
  }

  /** The first i + 1 entries are the first i and one more. */
  lemma OneMore<T>(s: seq<T>, i: nat)
    requires i < |s|
    ensures s[..i + 1] != [] && Init(s[..i + 1]) == s[..i] && Last(s[..i + 1]) == s[i]
  {
  }

  function Flatten<T>(pieces: seq<seq<T>>): seq<T> {
    if pieces == [] then [] else Flatten(Init(pieces)) + Last(pieces)
  }

  lemma Associative<T>(a: seq<T>, b: seq<T>, c: seq<T>)
    ensures a + b + c == a + (b + c)
  {
  }

  /** Positions in increasing order. */
  ghost predicate Ascending(positions: seq<nat>) {
    forall i, j | 0 <= i < j < |positions| :: positions[i] < positions[j]
  }

  /** ys is made, in order, of exactly the chosen elements of xs, which stand at the positions. */
  ghost predicate Picked<A, B>(
      xs: seq<A>, ys: seq<B>, positions: seq<nat>, chosen: A -> bool, made: (nat, A, B) -> bool)
  {
    && Ascending(positions) && |positions| == |ys|
    && (forall k :: k in positions <==> 0 <= k < |xs| && chosen(xs[k]))
    && (forall j | 0 <= j < |positions| :: positions[j] < |xs| && made(positions[j], xs[positions[j]], ys[j]))
  }

  lemma PickedNone<A, B>(xs: seq<A>, x: A, ys: seq<B>, positions: seq<nat>, chosen: A -> bool, made: (nat, A, B) -> bool)
    requires Picked(xs, ys, positions, chosen, made) && !chosen(x)
    ensures Picked(xs + [x], ys, positions, chosen, made)
  {
    forall k ensures k in positions <==> 0 <= k < |xs + [x]| && chosen((xs + [x])[k]) {
      assert 0 <= k < |xs| ==> (xs + [x])[k] == xs[k];
    }
  }

  lemma PickedOne<A, B>(
      xs: seq<A>, x: A, ys: seq<B>, y: B, positions: seq<nat>, chosen: A -> bool, made: (nat, A, B) -> bool)
    requires Picked(xs, ys, positions, chosen, made) && chosen(x) && made(|xs|, x, y)
    ensures Picked(xs + [x], ys + [y], positions + [|xs|], chosen, made)
  {
    var more := positions + [|xs|];
    forall i | 0 <= i < |positions| ensures positions[i] < |xs| {
      assert positions[i] in positions;
    }
    forall k ensures k in more <==> 0 <= k < |xs + [x]| && chosen((xs + [x])[k]) {
      assert 0 <= k < |xs| ==> (xs + [x])[k] == xs[k];
      assert k in more <==> k in positions || k == |xs|;
    }
  }

  ghost predicate NoDuplicates<T>(s: seq<T>) {
    forall i, j | 0 <= i < j < |s| :: s[i] != s[j]
  }

  function Lookup<K, V>(m: map<K, V>, k: K): Option<V> {
    if k in m then Some(m[k]) else None
  }

  lemma SameLookups<K, V>(m: map<K, V>, n: map<K, V>)
    requires forall k :: Lookup(m, k) == Lookup(n, k)
    ensures m == n
  {
    forall k ensures k in m <==> k in n {
      assert Lookup(m, k) == Lookup(n, k);
    }
    forall k | k in m ensures m[k] == n[k] {
      assert Lookup(m, k) == Lookup(n, k);
    }
  }
}
