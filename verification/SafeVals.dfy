/** hub/safevals.go: integers that are only ever touched by one atomic operation at a time. */
module SafeVals {

  const WORD32 := 0x1_0000_0000
  const WORD64 := 0x1_0000_0000_0000_0000
  const HALF64 := 0x8000_0000_0000_0000

  const BITS32: nat := 32
  const BITS64: nat := 64

  newtype uint32 = x: int | 0 <= x < WORD32
  newtype int64 = x: int | -HALF64 <= x < HALF64

  function Pow2(n: nat): nat {
    if n == 0 then 1 else 2 * Pow2(n - 1)
  }

  /** Go's unary `^` on an n-bit word, one bit at a time. */
  function Flip(x: nat, n: nat): nat {
    if n == 0 then 0 else 1 - x % 2 + 2 * Flip(x / 2, n - 1)
  }

  lemma {:induction false} FlipComplements(x: nat, n: nat)
    requires x < Pow2(n)
    ensures Flip(x, n) == Pow2(n) - 1 - x
  {
    if n != 0 {
      FlipComplements(x / 2, n - 1);
    }
  }

  lemma {:induction false} Pow2Sum(a: nat, b: nat)
    ensures Pow2(a + b) == Pow2(a) * Pow2(b)
  {
    if a != 0 {
      Pow2Sum(a - 1, b);
      assert Pow2(a + b) == 2 * Pow2(a - 1 + b);
    }
  }

  lemma WordSizes()
    ensures Pow2(BITS32) == WORD32 && Pow2(BITS64) == WORD64
  {
    assert Pow2(8) == 256;
    Pow2Sum(8, 8);
    Pow2Sum(16, 16);
    Pow2Sum(32, 32);
  }

  lemma Congruent(a: int, b: int, k: int, m: int)
    requires m > 0 && a == b + k * m
    ensures a % m == b % m
  {
    var d := a / m - b / m - k;
    assert d * m == (a / m) * m - (b / m) * m - k * m;
    assert d * m == b % m - a % m;
    MultipleBounds(d, m);
  }

  lemma MultipleBounds(d: int, m: int)
    requires m > 0
    ensures d >= 1 ==> d * m >= m
    ensures d <= -1 ==> d * m <= -m
  {
  }

  // ----- uint32 -----

  /** What is left of an unbounded result in an unsigned 32-bit word. */
  function Wrap32(v: int): uint32 {
    (v % WORD32) as uint32
  }

  /** atomic.AddUint32: the carry out of the word is dropped. */
  function AddU32(i: uint32, x: uint32): uint32 {
    var sum := i as int + x as int;
    (if sum >= WORD32 then sum - WORD32 else sum) as uint32
  }

  /** `^uint32(y)` */
  function NotU32(y: uint32): (r: uint32)
    ensures r as int == WORD32 - 1 - y as int
  {
    WordSizes();
    FlipComplements(y as int, BITS32);
    Flip(y as int, BITS32) as uint32
  }

  /** `i + ^uint32(x-1)`, where `x-1` is all ones when x is 0. */
  function SubU32(i: uint32, x: uint32): uint32 {
    AddU32(i, NotU32(if x == 0 then (WORD32 - 1) as uint32 else x - 1))
  }

  /** The complement trick is exact subtraction with borrow, for x == 0 too. */
  lemma SubU32IsExact(i: uint32, x: uint32)
    ensures SubU32(i, x) as int == if i >= x then i as int - x as int else i as int - x as int + WORD32
  {
  }

  lemma Residue32(v: int, k: int, r: uint32)
    requires v == r as int + k * WORD32
    ensures Wrap32(v) == r
  {
    Congruent(v, r as int, k, WORD32);
  }

  lemma AddU32IsModular(i: uint32, x: uint32)
    ensures AddU32(i, x) == Wrap32(i as int + x as int)
  {
    var r := AddU32(i, x);
    Residue32(i as int + x as int, if r as int == i as int + x as int then 0 else 1, r);
  }

  /** So it is subtraction modulo 2^32. */
  lemma SubU32IsModular(i: uint32, x: uint32)
    ensures SubU32(i, x) == Wrap32(i as int - x as int)
  {
    SubU32IsExact(i, x);
    Residue32(i as int - x as int, if i >= x then 0 else -1, SubU32(i, x));
  }

  /** Wrapping an operand first does not change a wrapped sum. */
  lemma Wrap32Absorbs(a: int, b: int)
    ensures Wrap32(Wrap32(a) as int + b) == Wrap32(a + b)
  {
    assert a == WORD32 * (a / WORD32) + a % WORD32;
    Congruent(a + b, Wrap32(a) as int + b, a / WORD32, WORD32);
  }

  // ----- int64 -----

  /** The bit pattern of a signed word. */
  function Bits64(v: int64): (r: nat)
    ensures r < WORD64
  {
    if v >= 0 then v as int else v as int + WORD64
  }

  /** The signed word with the given bit pattern. */
  function Signed64(bits: nat): int64
    requires bits < WORD64
  {
    (if bits < HALF64 then bits else bits - WORD64) as int64
  }

  /** What is left of an unbounded result in a signed 64-bit word. */
  function Wrap64(v: int): int64 {
    Signed64(v % WORD64)
  }

  /** atomic.AddInt64: bit patterns are added, and the carry out of the word is dropped. */
  function AddI64(i: int64, x: int64): int64 {
    var sum := Bits64(i) + Bits64(x);
    Signed64(if sum >= WORD64 then sum - WORD64 else sum)
  }

  /** `^int64(y)`: every bit of the pattern of y flipped. */
  function NotI64(y: int64): (r: int64)
    ensures r as int == -1 - y as int
  {
    WordSizes();
    FlipComplements(Bits64(y), BITS64);
    Signed64(Flip(Bits64(y), BITS64))
  }

  /** `i + ^int64(x-1)`, where `x-1` wraps around at the smallest x. */
  function SubI64(i: int64, x: int64): int64 {
    AddI64(i, NotI64(if x as int == -HALF64 then (HALF64 - 1) as int64 else x - 1))
  }

  /** How many words of 2^64 a result is off. */
  function Overflow(v: int): int {
    if v >= HALF64 then 1 else if v < -HALF64 then -1 else 0
  }

  lemma AddI64IsExact(i: int64, x: int64)
    ensures AddI64(i, x) as int == i as int + x as int - Overflow(i as int + x as int) * WORD64
  {
  }

  /** Two's-complement subtraction: exact whenever the true difference fits. */
  lemma SubI64IsExact(i: int64, x: int64)
    ensures SubI64(i, x) as int == i as int - x as int - Overflow(i as int - x as int) * WORD64
  {
    var y := if x as int == -HALF64 then (HALF64 - 1) as int64 else x - 1;
    AddI64IsExact(i, NotI64(y));
  }

  lemma Residue64(v: int, k: int, r: int64)
    requires v == r as int + k * WORD64
    ensures Wrap64(v) == r
  {
    Congruent(v, Bits64(r), if r >= 0 then k else k - 1, WORD64);
  }

  lemma AddI64IsModular(i: int64, x: int64)
    ensures AddI64(i, x) == Wrap64(i as int + x as int)
  {
    AddI64IsExact(i, x);
    Residue64(i as int + x as int, Overflow(i as int + x as int), AddI64(i, x));
  }

  lemma SubI64IsModular(i: int64, x: int64)
    ensures SubI64(i, x) == Wrap64(i as int - x as int)
  {
    SubI64IsExact(i, x);
    Residue64(i as int - x as int, Overflow(i as int - x as int), SubI64(i, x));
  }

  /** Nothing is lost as long as the true value fits. */
  lemma Wrap64Fits(v: int64)
    ensures Wrap64(v as int) == v
  {
    Residue64(v as int, 0, v);
  }

  // ----- whole runs -----

  datatype Op<T> = Add(x: T) | Sub(x: T) | Inc | Dec | Load

  function AmountU32(op: Op<uint32>): int {
    match op
    case Add(x) => x as int
    case Sub(x) => -(x as int)
    case Inc => 1
    case Dec => -1
    case Load => 0
  }

  function AmountI64(op: Op<int64>): int {
    match op
    case Add(x) => x as int
    case Sub(x) => -(x as int)
    case Inc => 1
    case Dec => -1
    case Load => 0
  }

  /** Sum added minus sum subtracted. */
  function Net<T>(ops: seq<Op<T>>, amount: Op<T> -> int): int {
    if ops == [] then 0 else amount(ops[0]) + Net(ops[1..], amount)
  }

  function StepU32(i: uint32, op: Op<uint32>): uint32 {
    match op
    case Add(x) => AddU32(i, x)
    case Sub(x) => SubU32(i, x)
    case Inc => AddU32(i, 1)
    case Dec => SubU32(i, 1)
    case Load => i
  }

  function StepI64(i: int64, op: Op<int64>): int64 {
    match op
    case Add(x) => AddI64(i, x)
    case Sub(x) => SubI64(i, x)
    case Inc => AddI64(i, 1)
    case Dec => SubI64(i, 1)
    case Load => i
  }

  function RunU32(i: uint32, ops: seq<Op<uint32>>): uint32
    decreases ops
  {
    if ops == [] then i else RunU32(StepU32(i, ops[0]), ops[1..])
  }

  function RunI64(i: int64, ops: seq<Op<int64>>): int64
    decreases ops
  {
    if ops == [] then i else RunI64(StepI64(i, ops[0]), ops[1..])
  }

  lemma StepU32Offset(i: uint32, op: Op<uint32>) returns (k: int)
    ensures i as int + AmountU32(op) == StepU32(i, op) as int + k * WORD32
  {
    if op.Sub? { SubU32IsExact(i, op.x); }
    if op.Dec? { SubU32IsExact(i, 1); }
    var v := i as int + AmountU32(op);
    k := if v >= WORD32 then 1 else if v < 0 then -1 else 0;
  }

  lemma {:induction false} RunU32Offset(i: uint32, ops: seq<Op<uint32>>) returns (k: int)
    ensures i as int + Net(ops, AmountU32) == RunU32(i, ops) as int + k * WORD32
    decreases ops
  {
    if ops == [] {
      k := 0;
    } else {
      var first := StepU32Offset(i, ops[0]);
      var rest := RunU32Offset(StepU32(i, ops[0]), ops[1..]);
      k := first + rest;
    }
  }

  /** However the calls of any number of goroutines interleave, a uint32 ends at the initial
      value plus the sum added minus the sum subtracted, modulo 2^32. */
  lemma RunU32Conserves(i: uint32, ops: seq<Op<uint32>>)
    ensures RunU32(i, ops) == Wrap32(i as int + Net(ops, AmountU32))
  {
    var k := RunU32Offset(i, ops);
    Residue32(i as int + Net(ops, AmountU32), k, RunU32(i, ops));
  }

  lemma StepI64Offset(i: int64, op: Op<int64>) returns (k: int)
    ensures i as int + AmountI64(op) == StepI64(i, op) as int + k * WORD64
  {
    match op {
      case Add(x) => AddI64IsExact(i, x);
      case Sub(x) => SubI64IsExact(i, x);
      case Inc => AddI64IsExact(i, 1);
      case Dec => SubI64IsExact(i, 1);
      case Load =>
    }
    k := Overflow(i as int + AmountI64(op));
  }

  lemma {:induction false} RunI64Offset(i: int64, ops: seq<Op<int64>>) returns (k: int)
    ensures i as int + Net(ops, AmountI64) == RunI64(i, ops) as int + k * WORD64
    decreases ops
  {
    if ops == [] {
      k := 0;
    } else {
      var first := StepI64Offset(i, ops[0]);
      var rest := RunI64Offset(StepI64(i, ops[0]), ops[1..]);
      k := first + rest;
    }
  }

  /** The same in two's complement for an int64. */
  lemma RunI64Conserves(i: int64, ops: seq<Op<int64>>)
    ensures RunI64(i, ops) == Wrap64(i as int + Net(ops, AmountI64))
  {
    var k := RunI64Offset(i, ops);
    Residue64(i as int + Net(ops, AmountI64), k, RunI64(i, ops));
  }

  // ----- the types themselves -----

  class SafeUint32 {
    var v: uint32

    constructor ()
      ensures v == 0
    {
      v := 0;
    }

    method Add(x: uint32) returns (r: uint32)
      modifies this
      ensures r == v && v == Wrap32(old(v) as int + x as int)
      ensures old(v) as int + x as int < WORD32 ==> v as int == old(v) as int + x as int
    {
      AddU32IsModular(v, x);
      v := AddU32(v, x);
      r := v;
    }

    method Sub(x: uint32) returns (r: uint32)
      modifies this
      ensures r == v && v == Wrap32(old(v) as int - x as int)
      ensures old(v) >= x ==> v as int == old(v) as int - x as int
    {
      SubU32IsModular(v, x);
      SubU32IsExact(v, x);
      v := SubU32(v, x);
      r := v;
    }

    method Inc() returns (r: uint32)
      modifies this
      ensures r == v && v == Wrap32(old(v) as int + 1)
      ensures old(v) as int + 1 < WORD32 ==> v as int == old(v) as int + 1
    {
      r := Add(1);
    }

    method Dec() returns (r: uint32)
      modifies this
      ensures r == v && v == Wrap32(old(v) as int - 1)
      ensures old(v) > 0 ==> v as int == old(v) as int - 1
    {
      r := Sub(1);
    }

    method Load() returns (r: uint32)
      ensures r == v
    {
      r := v;
    }
  }

  class SafeInt64 {
    var v: int64

    constructor ()
      ensures v == 0
    {
      v := 0;
    }

    method Add(x: int64) returns (r: int64)
      modifies this
      ensures r == v && v == Wrap64(old(v) as int + x as int)
      ensures -HALF64 <= old(v) as int + x as int < HALF64 ==> v as int == old(v) as int + x as int
    {
      AddI64IsModular(v, x);
      AddI64IsExact(v, x);
      v := AddI64(v, x);
      r := v;
    }

    method Sub(x: int64) returns (r: int64)
      modifies this
      ensures r == v && v == Wrap64(old(v) as int - x as int)
      ensures -HALF64 <= old(v) as int - x as int < HALF64 ==> v as int == old(v) as int - x as int
    {
      SubI64IsModular(v, x);
      SubI64IsExact(v, x);
      v := SubI64(v, x);
      r := v;
    }

    method Inc() returns (r: int64)
      modifies this
      ensures r == v && v == Wrap64(old(v) as int + 1)
    {
      r := Add(1);
    }

    method Dec() returns (r: int64)
      modifies this
      ensures r == v && v == Wrap64(old(v) as int - 1)
    {
      r := Sub(1);
    }

    method Load() returns (r: int64)
      ensures r == v
    {
      r := v;
    }
  }

  /** A shared pointer; P is a nullable reference or any other value with equality. */
  class SafePointer<P(==)> {
    var p: P

    constructor (initial: P)
      ensures p == initial
    {
      p := initial;
    }

    method Load() returns (r: P)
      ensures r == p
    {
      r := p;
    }

    method Cas(oldp: P, newp: P) returns (won: bool)
      modifies this
      ensures won <==> old(p) == oldp
      ensures p == if won then newp else old(p)
    {
      won := p == oldp;
      if won {
        p := newp;
      }
    }

    method Store(newp: P)
      modifies this
      ensures p == newp
    {
      p := newp;
    }
  }
}
