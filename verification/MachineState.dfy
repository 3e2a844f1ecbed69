/** Byte memories and the machine state that VEX, p-code and AIL programs run on. */
module MachineState {
  import opened BitVec

  datatype Endness = LE | BE

  type Byte = b: nat | b < 256

  /** Bytes never written read as zero. */
  type Memory = map<int, Byte>

  function At(m: Memory, a: int): Byte { if a in m then m[a] else 0 }

  function Read(m: Memory, a: int, n: nat): (bs: seq<Byte>)
    ensures |bs| == n
    decreases n
  {
    if n == 0 then [] else [At(m, a)] + Read(m, a + 1, n - 1)
  }

  lemma {:induction false} ReadAgrees(m: Memory, m': Memory, a: int, n: nat)
    requires forall k :: a <= k < a + n ==> At(m', k) == At(m, k)
    ensures Read(m', a, n) == Read(m, a, n)
    decreases n
  {
    if n > 0 { ReadAgrees(m, m', a + 1, n - 1); }
  }

  function Write(m: Memory, a: int, bs: seq<Byte>): Memory
    decreases |bs|
  {
    if bs == [] then m else Write(m[a := bs[0]], a + 1, bs[1..])
  }

  lemma {:induction false} WriteAt(m: Memory, a: int, bs: seq<Byte>, k: int)
    ensures At(Write(m, a, bs), k) == if a <= k < a + |bs| then bs[k - a] else At(m, k)
    decreases |bs|
  {
    if bs != [] { WriteAt(m[a := bs[0]], a + 1, bs[1..], k); }
  }

  /** The n low bytes of a value, least significant first. */
  function Bytes(v: nat, n: nat): (bs: seq<Byte>)
    ensures |bs| == n
  {
    if n == 0 then [] else [v % 256] + Bytes(v / 256, n - 1)
  }

  function Value(bs: seq<Byte>): nat
  {
    if bs == [] then 0 else bs[0] + 256 * Value(bs[1..])
  }

  function Reverse(bs: seq<Byte>): (r: seq<Byte>)
    ensures |r| == |bs|
  {
    if bs == [] then [] else Reverse(bs[1..]) + [bs[0]]
  }

  function Ordered(bs: seq<Byte>, end: Endness): (r: seq<Byte>)
    ensures |r| == |bs|
  {
    if end == LE then bs else Reverse(bs)
  }

  function LoadValue(m: Memory, a: int, n: nat, end: Endness): nat { Value(Ordered(Read(m, a, n), end)) }

  function StoreValue(m: Memory, a: int, v: nat, n: nat, end: Endness): Memory
  {
    Write(m, a, Ordered(Bytes(v, n), end))
  }

  lemma {:induction false} ValueInRange(bs: seq<Byte>)
    ensures Value(bs) < Pow2(8 * |bs|)
  {
    if bs != [] {
      ValueInRange(bs[1..]);
      Pow2Sum(8, 8 * |bs[1..]|);
      Pow2Of8();
    }
  }

  lemma {:induction false} LoadInRange(m: Memory, a: int, n: nat, end: Endness)
    ensures LoadValue(m, a, n, end) < Pow2(8 * n)
  {
    ValueInRange(Ordered(Read(m, a, n), end));
  }

  lemma {:induction false} ValueOfBytes(v: nat, n: nat)
    requires v < Pow2(8 * n)
    ensures Value(Bytes(v, n)) == v
  {
    if n > 0 {
      Pow2Sum(8, 8 * (n - 1));
      Pow2Of8();
      ValueOfBytes(v / 256, n - 1);
      assert Bytes(v, n)[1..] == Bytes(v / 256, n - 1);
    }
  }

  lemma {:induction false} BytesOfValue(bs: seq<Byte>)
    ensures Bytes(Value(bs), |bs|) == bs
  {
    if bs != [] {
      BytesOfValue(bs[1..]);
      ModUnique(Value(bs), 256, Value(bs[1..]), bs[0]);
    }
  }

  lemma {:induction false} ReverseOfSnoc(bs: seq<Byte>, b: Byte)
    ensures Reverse(bs + [b]) == [b] + Reverse(bs)
  {
    if bs != [] {
      ReverseOfSnoc(bs[1..], b);
      assert (bs + [b])[1..] == bs[1..] + [b];
    }
  }

  lemma {:induction false} ReverseTwice(bs: seq<Byte>)
    ensures Reverse(Reverse(bs)) == bs
  {
    if bs != [] {
      ReverseTwice(bs[1..]);
      ReverseOfSnoc(Reverse(bs[1..]), bs[0]);
    }
  }

  lemma {:induction false} OrderedTwice(bs: seq<Byte>, end: Endness)
    ensures Ordered(Ordered(bs, end), end) == bs
  {
    ReverseTwice(bs);
  }

  lemma {:induction false} ReadOfWrite(m: Memory, a: int, bs: seq<Byte>)
    ensures Read(Write(m, a, bs), a, |bs|) == bs
    decreases |bs|
  {
    if bs != [] {
      ReadOfWrite(m[a := bs[0]], a + 1, bs[1..]);
      WriteAt(m, a, bs, a);
    }
  }

  lemma {:induction false} ReadElsewhere(m: Memory, a: int, bs: seq<Byte>, b: int, n: nat)
    requires b + n <= a || a + |bs| <= b
    ensures Read(Write(m, a, bs), b, n) == Read(m, b, n)
  {
    forall k | b <= k < b + n ensures At(Write(m, a, bs), k) == At(m, k) { WriteAt(m, a, bs, k); }
    ReadAgrees(m, Write(m, a, bs), b, n);
  }

  /** What was stored is loaded back. */
  lemma {:induction false} LoadOfStore(m: Memory, a: int, v: nat, n: nat, end: Endness)
    requires v < Pow2(8 * n)
    ensures LoadValue(StoreValue(m, a, v, n, end), a, n, end) == v
  {
    ReadOfWrite(m, a, Ordered(Bytes(v, n), end));
    OrderedTwice(Bytes(v, n), end);
    ValueOfBytes(v, n);
  }

  lemma {:induction false} LoadElsewhere(m: Memory, a: int, v: nat, n: nat, b: int, k: nat, end: Endness)
    requires b + k <= a || a + n <= b
    ensures LoadValue(StoreValue(m, a, v, n, end), b, k, end) == LoadValue(m, b, k, end)
  {
    ReadElsewhere(m, a, Ordered(Bytes(v, n), end), b, k);
  }

  ghost predicate SameBytes(m: Memory, m': Memory) { forall k :: At(m, k) == At(m', k) }

  lemma {:induction false} BytesOfWrapped(v: nat, n: nat)
    ensures Bytes(Wrap(v, 8 * n), n) == Bytes(v, n)
  {
    if n > 0 {
      var p := Pow2(8 * (n - 1));
      Pow2Sum(8, 8 * (n - 1));
      Pow2Of8();
      LowByte(v, 256, p);
      BytesOfWrapped(v / 256, n - 1);
    }
  }

  lemma {:induction false} LowByte(v: nat, m: nat, p: nat)
    requires m > 0 && p > 0 && m * p > 0
    ensures (v % (m * p)) % m == v % m && (v % (m * p)) / m == (v / m) % p
  {
    var q, r: int, s: int := v / m / p, v / m % p, v % m;
    ProductOfSum(m, p, q, r, s);
    ProductBound(m, p, r, s);
    ModUnique(v, m * p, q, m * r + s);
    ModUnique(m * r + s, m, r, s);
    DivUnique(m * r + s, m, r, s);
  }

  lemma {:induction false} ProductOfSum(m: int, p: int, q: int, r: int, s: int)
    ensures m * (p * q + r) + s == (m * p) * q + (m * r + s)
  {
    assert m * (p * q) == (m * p) * q;
  }

  lemma {:induction false} ProductBound(m: int, p: int, r: int, s: int)
    requires 0 <= r < p && 0 <= s < m
    ensures 0 <= m * r + s < m * p
  {
    ProductAtLeast(p, m, r + 1);
    assert (r + 1) * m == m * r + m;
    assert m * r >= 0 by { ProductAtLeast(r, m, 0); }
  }

  lemma {:induction false} DivTwice(v: nat, m: nat, p: nat)
    requires m > 0 && p > 0 && m * p > 0
    ensures v / m / p == v / (m * p)
  {
    var q, r: int, s: int := v / m / p, v / m % p, v % m;
    ProductOfSum(m, p, q, r, s);
    ProductBound(m, p, r, s);
    DivUnique(v, m * p, q, m * r + s);
  }

  lemma {:induction false} BytesAt(v: nat, n: nat, k: nat)
    requires k < n
    ensures Bytes(v, n)[k] == v / Pow2(8 * k) % 256
  {
    if k > 0 {
      Pow2Sum(8, 8 * (k - 1));
      Pow2Of8();
      BytesAt(v / 256, n - 1, k - 1);
      DivTwice(v, 256, Pow2(8 * (k - 1)));
    }
  }

  lemma {:induction false} ReverseAt(bs: seq<Byte>, k: nat)
    requires k < |bs|
    ensures Reverse(bs)[k] == bs[|bs| - 1 - k]
  {
    if k < |bs| - 1 { ReverseAt(bs[1..], k); }
  }

  /** The byte of a value that lies k bytes into its place. */
  function StoredByte(v: nat, n: nat, end: Endness, k: nat): nat
    requires k < n
  {
    v / Pow2(8 * if end == LE then k else n - 1 - k) % 256
  }

  lemma {:induction false} StoreValueAt(m: Memory, a: int, v: nat, n: nat, end: Endness, k: nat)
    requires k < n
    ensures At(StoreValue(m, a, v, n, end), a + k) == StoredByte(v, n, end, k)
  {
    WriteAt(m, a, Ordered(Bytes(v, n), end), a + k);
    if end == LE {
      BytesAt(v, n, k);
    } else {
      ReverseAt(Bytes(v, n), k);
      BytesAt(v, n, n - 1 - k);
    }
  }

  /** A store changes no byte exactly when its place holds the value already. */
  lemma {:induction false} StoreChangesNothing(m: Memory, a: int, v: nat, n: nat, end: Endness)
    ensures SameBytes(StoreValue(m, a, v, n, end), m) <==> LoadValue(m, a, n, end) == Wrap(v, 8 * n)
  {
    var bs, m' := Ordered(Bytes(v, n), end), StoreValue(m, a, v, n, end);
    BytesOfWrapped(v, n);
    if SameBytes(m', m) {
      ReadAgrees(m, m', a, n);
      ReadOfWrite(m, a, bs);
      OrderedTwice(Bytes(v, n), end);
      ValueOfBytes(Wrap(v, 8 * n), n);
    }
    if LoadValue(m, a, n, end) == Wrap(v, 8 * n) {
      BytesOfValue(Ordered(Read(m, a, n), end));
      OrderedTwice(Read(m, a, n), end);
      assert bs == Read(m, a, n);
      forall k ensures At(m', k) == At(m, k) {
        WriteAt(m, a, bs, k);
        if a <= k < a + n { ReadAt(m, a, n, k); }
      }
    }
  }

  lemma {:induction false} ReadAt(m: Memory, a: int, n: nat, k: int)
    requires a <= k < a + n
    ensures Read(m, a, n)[k - a] == At(m, k)
    decreases n
  {
    if k > a { ReadAt(m, a + 1, n - 1, k); }
  }

  /** What was stored is loaded back, cut to its size. */
  lemma {:induction false} LoadOfStored(m: Memory, a: int, v: nat, n: nat, end: Endness)
    ensures LoadValue(StoreValue(m, a, v, n, end), a, n, end) == Wrap(v, 8 * n)
  {
    BytesOfWrapped(v, n);
    LoadOfStore(m, a, Wrap(v, 8 * n), n, end);
  }

  lemma {:induction false} SameLoad(m: Memory, m': Memory, a: int, n: nat, end: Endness, k: int)
    requires LoadValue(m, a, n, end) == LoadValue(m', a, n, end) && a <= k < a + n
    ensures At(m, k) == At(m', k)
  {
    BytesOfValue(Ordered(Read(m, a, n), end));
    BytesOfValue(Ordered(Read(m', a, n), end));
    OrderedTwice(Read(m, a, n), end);
    OrderedTwice(Read(m', a, n), end);
    ReadAt(m, a, n, k);
    ReadAt(m', a, n, k);
  }

  lemma {:induction false} OutsideStore(m: Memory, a: int, v: nat, n: nat, end: Endness, k: int)
    requires !(a <= k < a + n)
    ensures At(StoreValue(m, a, v, n, end), k) == At(m, k)
  {
    WriteAt(m, a, Ordered(Bytes(v, n), end), k);
  }

  /** Two stores, wherever they are, leave the same bytes exactly when each finds its own value after the other. */
  lemma {:induction false} StoresAgree(m: Memory, a: int, v: nat, b: int, w: nat, n: nat, end: Endness)
    ensures var m1, m2 := StoreValue(m, a, v, n, end), StoreValue(m, b, w, n, end);
            SameBytes(m1, m2) <==> LoadValue(m2, a, n, end) == Wrap(v, 8 * n) && LoadValue(m1, b, n, end) == Wrap(w,
                8 * n)
  {
    var m1, m2 := StoreValue(m, a, v, n, end), StoreValue(m, b, w, n, end);
    LoadOfStored(m, a, v, n, end);
    LoadOfStored(m, b, w, n, end);
    if SameBytes(m1, m2) {
      ReadAgrees(m1, m2, a, n);
      ReadAgrees(m1, m2, b, n);
    }
    if LoadValue(m2, a, n, end) == Wrap(v, 8 * n) && LoadValue(m1, b, n, end) == Wrap(w, 8 * n) {
      forall k ensures At(m1, k) == At(m2, k) {
        if a <= k < a + n {
          SameLoad(m1, m2, a, n, end, k);
        } else if b <= k < b + n {
          SameLoad(m1, m2, b, n, end, k);
        } else {
          OutsideStore(m, a, v, n, end, k);
          OutsideStore(m, b, w, n, end, k);
        }
      }
    }
  }

  /** Stores to places apart leave the same bytes exactly when neither changes any. */
  lemma {:induction false} StoresApart(m: Memory, a: int, v: nat, b: int, w: nat, n: nat, end: Endness)
    requires a + n <= b || b + n <= a
    ensures SameBytes(StoreValue(m, a, v, n, end), StoreValue(m, b, w, n, end))
       <==> LoadValue(m, a, n, end) == Wrap(v, 8 * n) && LoadValue(m, b, n, end) == Wrap(w, 8 * n)
  {
    StoresAgree(m, a, v, b, w, n, end);
    LoadElsewhere(m, a, v, n, b, n, end);
    LoadElsewhere(m, b, w, n, a, n, end);
  }

  /** Temps, the register file and the memory. */
  datatype State = State(temps: map<nat, nat>, regs: Memory, mem: Memory)
  {
    function Temp(t: nat): nat { if t in temps then temps[t] else 0 }
  }

  /** How a run of a block ends. */
  datatype Outcome =
    | Fault                            // division by zero
    | Trapped(state: State)            // left through an exit that AIL does not represent
    | Fell(state: State)               // ran past the last statement
    | Jumped(state: State, addr: nat)
    | Called(state: State, addr: nat)
    | Returned(state: State)
}
