/** The wire format of protocol buffers as the generated code writes and reads it: base-128
    varints, tags, length-delimited records and the skipping of unknown fields. */
module Wire {

  type Byte = b: int | 0 <= b < 0x100

  const TWO32: int := 0x1_0000_0000
  const TWO63: int := 0x8000_0000_0000_0000
  const TWO64: int := 0x1_0000_0000_0000_0000

  type U64 = v: int | 0 <= v < TWO64

  datatype WireError =
    | IntOverflow
    | UnexpectedEOF
    | InvalidLength
    | EndGroup
    | IllegalTag
    | WrongWireType
    | UnexpectedEndOfGroup
    | IllegalWireType

  datatype Result<+T> = Ok(value: T) | Err(error: WireError) {
    predicate IsFailure() { Err? }

    function PropagateFailure<U>(): Result<U>
      requires Err?
    {
      Err(error)
    }

    function Extract(): T
      requires Ok?
    {
      value
    }
  }

  /** Conversions of Go between 64-bit and 32-bit integers. */
  function ToInt64(v: U64): int { if v < TWO63 then v else v - TWO64 }

  function ToInt32(v: U64): (r: int)
    ensures -0x8000_0000 <= r < 0x8000_0000
  {
    var low := v % TWO32;
    if low < 0x8000_0000 then low else low - TWO32
  }

  function FromInt32(t: int): U64
    requires -0x8000_0000 <= t < 0x8000_0000
  {
    if t < 0 then t + TWO64 else t
  }

  lemma Int32RoundTrip(t: int)
    requires -0x8000_0000 <= t < 0x8000_0000
    ensures ToInt32(FromInt32(t)) == t
  {
  }

  // ----- Varints -----

  function Varint(v: nat): (s: seq<Byte>)
    ensures s != []
  {
    if v < 0x80 then [v] else [v % 0x80 + 0x80] + Varint(v / 0x80)
  }

  /** Number of bits of `v`. */
  function Len64(v: nat): nat { if v == 0 then 0 else 1 + Len64(v / 2) }

  /** `sovAst` and `sovToken`: the size of the varint of `v`. */
  function Sov(v: nat): nat { (Len64(if v % 2 == 0 then v + 1 else v) + 6) / 7 }

  lemma Len64Halves(v: nat)
    requires v >= 0x80
    ensures Len64(v) == 7 + Len64(v / 0x80)
  {
    var v1 := v / 2;
    var v2 := v1 / 2;
    var v3 := v2 / 2;
    var v4 := v3 / 2;
    var v5 := v4 / 2;
    var v6 := v5 / 2;
    assert v6 / 2 == v / 0x80 > 0;
    assert Len64(v) == 1 + Len64(v1) && Len64(v1) == 1 + Len64(v2) && Len64(v2) == 1 + Len64(v3);
    assert Len64(v3) == 1 + Len64(v4) && Len64(v4) == 1 + Len64(v5) && Len64(v5) == 1 + Len64(v6);
  }

  lemma {:induction false} Len64Below(v: nat, n: nat, bound: nat)
    requires v < bound && bound == Power2(n)
    ensures Len64(v) <= n
  {
    if v > 0 {
      assert bound == 2 * Power2(n - 1) && Len64(v) == 1 + Len64(v / 2);
      hide Power2, Len64;
      HalfBelow(v, Power2(n - 1));
      Len64Below(v / 2, n - 1, Power2(n - 1));
    }
  }

  lemma HalfBelow(v: nat, half: nat)
    requires v < 2 * half
    ensures v / 2 < half
  {}

  function Power2(n: nat): nat { if n == 0 then 1 else 2 * Power2(n - 1) }

  lemma Power2Plus7(n: nat)
    ensures Power2(n + 7) == 0x80 * Power2(n)
  {
    assert Power2(n + 7) == 2 * Power2(n + 6) && Power2(n + 6) == 2 * Power2(n + 5);
    assert Power2(n + 5) == 2 * Power2(n + 4) && Power2(n + 4) == 2 * Power2(n + 3);
    assert Power2(n + 3) == 2 * Power2(n + 2) && Power2(n + 2) == 2 * Power2(n + 1);
  }

  lemma Power2Of63()
    ensures Power2(63) == TWO63 && Power2(70) > TWO64
  {
    assert Power2(0) == 1;
    hide Power2;
    Power2Plus7(0);
    Power2Plus7(7);
    Power2Plus7(14);
    Power2Plus7(21);
    Power2Plus7(28);
    Power2Plus7(35);
    Power2Plus7(42);
    Power2Plus7(49);
    Power2Plus7(56);
    Power2Plus7(63);
  }

  lemma {:induction false} SovIsExact(v: nat)
    ensures |Varint(v)| == Sov(v)
  {
    hide *;
    VarintHead(v);
    SovUnfolds(v);
    var odd := if v % 2 == 0 then v + 1 else v;
    if v < 0x80 {
      SevenBits(odd);
    } else {
      var high := v / 0x80;
      SovIsExact(high);
      SovUnfolds(high);
      OddHigh(v);
      Len64Halves(odd);
      LowBitOfPositive(high);
    }
  }

  lemma SovUnfolds(v: nat)
    ensures Sov(v) == (Len64(if v % 2 == 0 then v + 1 else v) + 6) / 7
  {}

  lemma SevenBits(v: nat)
    requires 0 < v < 0x80
    ensures 1 <= Len64(v) <= 7
  {
    Len64Below(v, 7, 0x80) by { assert Power2(7) == 0x80; }
    Len64Positive(v);
  }

  lemma OddHigh(v: nat)
    ensures (if v % 2 == 0 then v + 1 else v) / 0x80 == v / 0x80
  {}

  lemma Len64Positive(v: nat)
    requires v > 0
    ensures Len64(v) > 0
  {
  }

  /** Setting the low bit does not change the number of bits of a positive number. */
  lemma LowBitOfPositive(v: nat)
    requires v > 0
    ensures Len64(if v % 2 == 0 then v + 1 else v) == Len64(v)
  {
    if v % 2 == 0 {
      assert (v + 1) / 2 == v / 2;
    }
  }

  /** A 64-bit number takes between one and ten bytes. */
  lemma VarintLength(v: U64)
    ensures 1 <= |Varint(v)| <= 10
  {
    Power2Of63();
    VarintFits(v, 10);
  }

  lemma {:induction false} VarintFits(v: nat, n: nat)
    requires n > 0 && v < Power2(7 * n)
    ensures |Varint(v)| <= n
  {
    Power2Plus7(7 * n - 7);
    if v >= 0x80 {
      VarintFits(v / 0x80, n - 1);
    }
  }

  /** The decoding loops: byte `k` contributes its low seven bits, shifted by `7 * k` in 64-bit
      arithmetic; `shift >= 64` is reached with the eleventh byte. */
  function ReadVarint(s: seq<Byte>, k: nat): (r: Result<(U64, seq<Byte>)>)
    ensures r.Ok? ==> |r.value.1| < |s| && r.value.1 == s[|s| - |r.value.1|..]
  {
    if 7 * k >= 64 then Err(IntOverflow)
    else if s == [] then Err(UnexpectedEOF)
    else if s[0] < 0x80 then Ok((s[0], s[1..]))
    else
      var (high, rest) :- ReadVarint(s[1..], k + 1);
      Ok(((s[0] - 0x80 + 0x80 * high) % TWO64, rest))
  }

  lemma {:induction false} ReadVarintOfVarint(v: U64, k: nat, rest: seq<Byte>)
    requires |Varint(v)| + k <= 10
    ensures ReadVarint(Varint(v) + rest, k) == Ok((v, rest))
  {
    var s := Varint(v) + rest;
    VarintHead(v);
    hide Varint;
    if v < 0x80 {
      assert s[1..] == rest;
    } else {
      ReadVarintOfVarint(v / 0x80, k + 1, rest);
      assert s[0] == Varint(v)[0] && s[1..] == Varint(v)[1..] + rest;
      LowAndHigh(v);
      ReadMore(s, k, v / 0x80, rest);
    }
  }

  lemma LowAndHigh(v: U64)
    ensures (v % 0x80 + 0x80 * (v / 0x80)) % TWO64 == v
  {}

  /** A byte with its top bit set, and what is read behind it. */
  lemma ReadMore(s: seq<Byte>, k: nat, high: U64, rest: seq<Byte>)
    requires s != [] && s[0] >= 0x80 && 7 * k < 64
    requires ReadVarint(s[1..], k + 1) == Ok((high, rest))
    ensures ReadVarint(s, k) == Ok(((s[0] - 0x80 + 0x80 * high) % TWO64, rest))
  {}

  // ----- What varints are -----

  /** Every byte but the last has its high bit set. */
  predicate Continued(s: seq<Byte>) {
    s != [] && s[|s| - 1] < 0x80 && forall i | 0 <= i < |s| - 1 :: s[i] >= 0x80
  }

  /** Seven bits of each byte, the lowest ones first. */
  function Groups(s: seq<Byte>): nat { if s == [] then 0 else s[0] % 0x80 + 0x80 * Groups(s[1..]) }

  /** The varint of a number has its bits in groups of seven, and no superfluous group. */
  lemma {:induction false} VarintMeans(v: nat)
    ensures Continued(Varint(v)) && Groups(Varint(v)) == v
    ensures |Varint(v)| > 1 ==> Varint(v)[|Varint(v)| - 1] != 0
  {
    VarintHead(v);
    hide Varint;
    if v < 0x80 {
      assert Groups([v]) == v by { assert [v][1..] == []; }
    } else {
      VarintMeans(v / 0x80);
      var s, high := Varint(v), Varint(v / 0x80);
      assert s == [s[0]] + high;
      assert forall i | 0 < i < |s| :: s[i] == high[i - 1];
      assert s[0] % 0x80 == v % 0x80;
      if |high| == 1 {
        assert Groups(high) == high[0] % 0x80 by { assert high[1..] == []; }
      }
    }
  }

  /** Any such bytes are read as their groups, up to 64 bits, and the rest is left. */
  lemma {:induction false} ReadVarintMeans(s: seq<Byte>, rest: seq<Byte>, k: nat)
    requires Continued(s) && |s| + k <= 10
    ensures ReadVarint(s + rest, k) == Ok((Groups(s) % TWO64, rest))
    decreases |s|
  {
    hide *;
    GroupsStep(s);
    if s[0] < 0x80 {
      LastGroup(s, rest, k);
    } else {
      ReadVarintMeans(s[1..], rest, k + 1);
      MoreGroup(s, rest, k, Groups(s[1..]));
    }
  }

  lemma GroupsStep(s: seq<Byte>)
    requires Continued(s)
    ensures s != [] && Groups(s) == s[0] % 0x80 + 0x80 * Groups(s[1..])
    ensures s[0] < 0x80 ==> |s| == 1 && Groups(s) == s[0]
    ensures s[0] >= 0x80 ==> Continued(s[1..])
  {
    ContinuedStep(s);
    GroupsUnfold(s);
    hide Groups, Continued;
    if s[0] < 0x80 {
      assert s[1..] == [];
      GroupsOfNothing();
    }
  }

  lemma ContinuedStep(s: seq<Byte>)
    requires Continued(s)
    ensures s != [] && if s[0] < 0x80 then |s| == 1 else Continued(s[1..])
  {
    if s[0] >= 0x80 {
      assert forall i | 0 <= i < |s[1..]| :: s[1..][i] == s[i + 1];
    }
  }

  lemma GroupsUnfold(s: seq<Byte>)
    requires s != []
    ensures Groups(s) == s[0] % 0x80 + 0x80 * Groups(s[1..])
  {}

  lemma GroupsOfNothing()
    ensures Groups([]) == 0
  {}

  lemma LastGroup(s: seq<Byte>, rest: seq<Byte>, k: nat)
    requires |s| == 1 && k < 10 && s[0] < 0x80
    ensures ReadVarint(s + rest, k) == Ok((s[0] % TWO64, rest))
  {
    assert (s + rest)[1..] == rest;
  }

  lemma MoreGroup(s: seq<Byte>, rest: seq<Byte>, k: nat, high: nat)
    requires s != [] && s[0] >= 0x80 && k < 10
    requires ReadVarint(s[1..] + rest, k + 1) == Ok((high % TWO64, rest))
    ensures ReadVarint(s + rest, k) == Ok(((s[0] % 0x80 + 0x80 * high) % TWO64, rest))
  {
    hide ReadVarint;
    assert (s + rest)[1..] == s[1..] + rest;
    ReadMore(s + rest, k, high % TWO64, rest);
    ModMul(s[0] - 0x80, 0x80, high);
  }

  /** Without a last byte there is an error: after ten bytes that they are too many, before that
      that the end is missing. */
  lemma {:induction false} UnendedVarint(s: seq<Byte>, k: nat)
    requires forall i | 0 <= i < |s| :: s[i] >= 0x80
    ensures ReadVarint(s, k) == Err(if |s| + k >= 10 then IntOverflow else UnexpectedEOF)
    decreases |s|
  {
    if s != [] && 7 * k < 64 {
      assert forall i | 0 <= i < |s[1..]| :: s[1..][i] == s[i + 1];
      UnendedVarint(s[1..], k + 1);
    }
  }

  /** Conversions drop high bits, and nothing else. */
  lemma ConversionsTruncate(v: U64) returns (q32: nat, q64: nat)
    ensures ToInt32(v) == v - q32 * TWO32 && -0x8000_0000 <= ToInt32(v) < 0x8000_0000
    ensures ToInt64(v) == v - q64 * TWO64 && -TWO63 <= ToInt64(v) < TWO63
  {
    q32 := if v % TWO32 < 0x8000_0000 then v / TWO32 else v / TWO32 + 1;
    q64 := if v < TWO63 then 0 else 1;
    assert v == v / TWO32 * TWO32 + v % TWO32;
  }

  /** Reading does not look behind what it reads. */
  lemma {:induction false} ReadVarintExtends(s: seq<Byte>, k: nat, more: seq<Byte>)
    requires ReadVarint(s, k).Ok?
    ensures ReadVarint(s + more, k) == Ok((ReadVarint(s, k).value.0, ReadVarint(s, k).value.1 + more))
  {
    assert (s + more)[1..] == s[1..] + more;
    if s[0] >= 0x80 {
      ReadVarintExtends(s[1..], k + 1, more);
    }
  }

  /** `encodeVarintAst` and `encodeVarintToken`: fills the bytes in front of `offset` and
      returns where they start. */
  method EncodeVarint(dAtA: array<Byte>, offset: nat, v: U64) returns (base: nat)
    requires Sov(v) <= offset <= dAtA.Length
    modifies dAtA
    ensures base == offset - Sov(v)
    ensures dAtA[base..offset] == Varint(v)
    ensures dAtA[..base] == old(dAtA[..base]) && dAtA[offset..] == old(dAtA[offset..])
  {
    hide Varint, Sov;
    SovIsExact(v);
    base := offset - Sov(v);
    ghost var text := Varint(v);
    var at, rest := base, v;
    while rest >= 0x80
      invariant base <= at < offset && Varint(rest) == text[at - base..]
      invariant forall i | base <= i < at :: dAtA[i] == text[i - base]
      invariant forall i | 0 <= i < base || offset <= i < dAtA.Length :: dAtA[i] == old(dAtA[i])
    {
      VarintHead(rest);
      TailOf(text, at - base);
      dAtA[at] := rest % 0x80 + 0x80;
      rest := rest / 0x80;
      at := at + 1;
    }
    VarintHead(rest);
    TailOf(text, at - base);
    dAtA[at] := rest;
    Written(dAtA[..], base, offset, text);
  }

  lemma TailOf(s: seq<Byte>, i: nat)
    requires i < |s|
    ensures s[i..][0] == s[i] && s[i..][1..] == s[i + 1..] && |s[i..]| == |s| - i
  {}

  lemma Written(all: seq<Byte>, lo: nat, hi: nat, text: seq<Byte>)
    requires lo <= hi <= |all| && hi - lo == |text|
    requires forall i | lo <= i < hi :: all[i] == text[i - lo]
    ensures all[lo..hi] == text
  {}

  lemma VarintHead(v: nat)
    ensures v < 0x80 ==> Varint(v) == [v]
    ensures v >= 0x80 ==> Varint(v)[0] == v % 0x80 + 0x80 && Varint(v)[1..] == Varint(v / 0x80)
    ensures v >= 0x80 ==> |Varint(v)| == 1 + |Varint(v / 0x80)|
  {
  }

  /** `uint64(x) << shift`. */
  function ShiftLeft(x: nat, shift: nat): U64 { Power2(shift) * x % TWO64 }

  /** A decoding loop, from index `i`. The bits of `acc` lie below those of the next byte, so
      adding the shifted bits is setting them. */
  method DecodeVarint(d: seq<Byte>, i: nat) returns (r: Result<U64>, next: nat)
    requires i <= |d|
    ensures i <= next <= |d|
    ensures match ReadVarint(d[i..], 0)
            case Ok((v, rest)) => r == Ok(v) && rest == d[next..]
            case Err(e) => r == Err(e)
  {
    hide ReadVarint, Continues, ShiftLeft, Power2;
    ghost var whole := ReadVarint(d[i..], 0);
    var shift, acc: U64 := 0, 0;
    ghost var k := 0;
    next := i;
    ContinueStart(whole);
    while true
      invariant i <= next <= |d| && shift == 7 * k
      invariant k <= 9 ==> acc < Power2(shift)
      invariant Continues(whole, ReadVarint(d[next..], k), acc, shift)
      decreases |d| - next
    {
      ContinueStop(whole, d[next..], k, acc);
      if shift >= 64 {
        return Err(IntOverflow), next;
      }
      if next >= |d| {
        return Err(UnexpectedEOF), next;
      }
      var b := d[next];
      ShiftFits(k, b % 0x80);
      assert d[next..][0] == b && d[next..][1..] == d[next + 1..];
      ContinueStep(whole, d[next..], k, acc);
      next := next + 1;
      acc := acc + ShiftLeft(b % 0x80, shift);
      if b < 0x80 {
        return Ok(acc), next;
      }
      shift, k := shift + 7, k + 1;
    }
  }

  /** The loop that has gathered `acc` will return `whole` if `rest` is what it reads now. */
  ghost predicate Continues(whole: Result<(U64, seq<Byte>)>, rest: Result<(U64, seq<Byte>)>, acc: U64, shift: nat) {
    match rest
    case Ok((v, s)) => whole == Ok(((acc + Power2(shift) * v) % TWO64, s))
    case Err(e) => whole == Err(e)
  }

  lemma ContinueStart(whole: Result<(U64, seq<Byte>)>)
    ensures Continues(whole, whole, 0, 0) && Power2(0) == 1
  {
  }

  lemma ContinueStop(whole: Result<(U64, seq<Byte>)>, s: seq<Byte>, k: nat, acc: U64)
    requires Continues(whole, ReadVarint(s, k), acc, 7 * k)
    ensures 7 * k >= 64 ==> whole == Err(IntOverflow)
    ensures 7 * k < 64 && s == [] ==> whole == Err(UnexpectedEOF)
  {
  }

  lemma ContinueStep(whole: Result<(U64, seq<Byte>)>, s: seq<Byte>, k: nat, acc: U64)
    requires 7 * k < 64 && s != []
    requires Continues(whole, ReadVarint(s, k), acc, 7 * k)
    requires acc + ShiftLeft(s[0] % 0x80, 7 * k) < TWO64
    ensures s[0] < 0x80 ==> whole == Ok((acc + ShiftLeft(s[0] % 0x80, 7 * k), s[1..]))
    ensures s[0] >= 0x80 ==>
              Continues(whole, ReadVarint(s[1..], k + 1), acc + ShiftLeft(s[0] % 0x80, 7 * k), 7 * (k + 1))
  {
    hide *;
    OneTurn(s, k);
    var low := s[0] % 0x80;
    if s[0] < 0x80 {
      LastBits(whole, low, s[1..], acc, 7 * k);
    } else {
      match ReadVarint(s[1..], k + 1) {
        case Err(e) => SameError(whole, e, acc, 7 * k, acc + ShiftLeft(low, 7 * k), 7 * (k + 1));
        case Ok((high, rest)) => MoreBits(whole, low, high, rest, acc, 7 * k);
      }
    }
  }

  /** One turn of the recursion, with the seven bits written as the loop does. */
  lemma OneTurn(s: seq<Byte>, k: nat)
    requires 7 * k < 64 && s != []
    ensures s[0] < 0x80 ==> ReadVarint(s, k) == Ok((s[0] % 0x80, s[1..]))
    ensures s[0] >= 0x80 ==>
              match ReadVarint(s[1..], k + 1)
              case Err(e) => ReadVarint(s, k) == Err(e)
              case Ok((high, rest)) => ReadVarint(s, k) == Ok(((s[0] % 0x80 + 0x80 * high) % TWO64, rest))
  {}

  lemma SameError(whole: Result<(U64, seq<Byte>)>, e: WireError, acc: U64, shift: nat, more: U64, shifted: nat)
    requires Continues(whole, Err(e), acc, shift)
    ensures Continues(whole, Err(e), more, shifted)
  {}

  lemma LastBits(whole: Result<(U64, seq<Byte>)>, low: U64, rest: seq<Byte>, acc: U64, shift: nat)
    requires Continues(whole, Ok((low, rest)), acc, shift)
    requires acc + ShiftLeft(low, shift) < TWO64
    ensures whole == Ok((acc + ShiftLeft(low, shift), rest))
  {
    hide Power2;
    ModAdd(acc, Power2(shift) * low, 0);
    SmallMod(acc + ShiftLeft(low, shift));
  }

  lemma MoreBits(whole: Result<(U64, seq<Byte>)>, low: nat, high: U64, rest: seq<Byte>, acc: U64, shift: nat)
    requires Continues(whole, Ok(((low + 0x80 * high) % TWO64, rest)), acc, shift)
    requires acc + ShiftLeft(low, shift) < TWO64
    ensures Continues(whole, Ok((high, rest)), acc + ShiftLeft(low, shift), shift + 7)
  {
    Power2Plus7(shift);
    hide Power2;
    CombineBits(acc, Power2(shift), low, high);
  }

  lemma CombineBits(acc: U64, scale: nat, low: nat, high: nat)
    ensures (acc + scale * ((low + 0x80 * high) % TWO64)) % TWO64
         == (acc + scale * low % TWO64 + 0x80 * scale * high) % TWO64
  {
    ModMul(acc, scale, low + 0x80 * high);
    MulShift(scale, low, high);
    ModAdd(acc, scale * low, 0x80 * scale * high);
  }

  /** Seven bits fit above the `7 * k` bits read before; of the tenth byte only one bit does. */
  lemma ShiftFits(k: nat, x: nat)
    requires k <= 9 && x < 0x80
    ensures ShiftLeft(x, 7 * k) + Power2(7 * k) <= TWO64
    ensures k <= 8 ==> ShiftLeft(x, 7 * k) + Power2(7 * k) <= Power2(7 * (k + 1))
  {
    Power2Of63();
    if k <= 8 {
      Power2Plus7(7 * k);
      Power2Grows(7 * (k + 1), 63);
      MulMonotone(Power2(7 * k), x);
      SmallMod(Power2(7 * k) * x);
    } else {
      TopBit(x);
    }
  }

  lemma SmallMod(a: nat)
    requires a < TWO64
    ensures a % TWO64 == a
  {}

  lemma TopBit(x: nat)
    ensures TWO63 * x % TWO64 <= TWO63
  {
    var half := x / 2;
    assert x == 2 * half || x == 2 * half + 1;
    ModMultiple(TWO63 * (x - 2 * half), half);
  }

  lemma MulMonotone(scale: nat, x: nat)
    requires x < 0x80
    ensures 0 <= scale * x && scale * x + scale <= 0x80 * scale
  {
  }

  lemma {:induction false} Power2Grows(m: nat, n: nat)
    requires m <= n
    ensures Power2(m) <= Power2(n)
    decreases n
  {
    if m < n {
      Power2Grows(m, n - 1);
    }
  }

  lemma MulShift(scale: nat, low: nat, high: nat)
    ensures scale * (low + 0x80 * high) == scale * low + 0x80 * scale * high
  {
  }

  lemma ModAdd(a: int, b: int, c: int)
    ensures (a + b % TWO64 + c) % TWO64 == (a + b + c) % TWO64
  {
    assert b == b / TWO64 * TWO64 + b % TWO64;
    assert a + b + c == (a + b % TWO64 + c) + b / TWO64 * TWO64;
  }

  lemma ModMul(a: int, scale: nat, v: int)
    ensures (a + scale * (v % TWO64)) % TWO64 == (a + scale * v) % TWO64
  {
    var q, r := v / TWO64, v % TWO64;
    assert scale * v == scale * r + scale * q * TWO64 by {
      assert v == r + q * TWO64;
    }
    ModMultiple(a + scale * r, scale * q);
  }

  lemma ModMultiple(a: int, q: int)
    ensures (a + q * TWO64) % TWO64 == a % TWO64
  {
  }
}
