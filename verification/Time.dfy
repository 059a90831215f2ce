/** `Duration` and `Instant`: seconds in 64 bits and nanoseconds below a second.

    Machine integers are naturals with their bounds written out; `Nanos` is the exact number of
    nanoseconds, however large. */
module Time {
  import opened Wrappers

  const U64: int := 0x1_0000_0000_0000_0000
  const U32: int := 0x1_0000_0000
  const I64: int := 0x8000_0000_0000_0000
  const SEC: int := 1_000_000_000

  datatype Duration = Duration(secs: nat, nanos: nat)
  datatype Instant = Instant(secs: nat, nanos: nat)

  /** The representation invariant of a duration. */
  predicate Normal(d: Duration) { d.secs < U64 && d.nanos < SEC }

  predicate NormalAt(i: Instant) { i.secs < U64 && i.nanos < SEC }

  function Nanos(d: Duration): nat { d.secs * SEC + d.nanos }

  function NanosAt(i: Instant): nat { i.secs * SEC + i.nanos }

  /** The duration of exactly `n` nanoseconds, if there is one. */
  function OfNanos(n: int): (d: Option<Duration>)
    ensures d.Some? ==> Normal(d.value)
  {
    if 0 <= n < U64 * SEC then Some(Duration(n / SEC, n % SEC)) else None
  }

  function OfNanosAt(n: int): (i: Option<Instant>)
    ensures i.Some? ==> NormalAt(i.value)
  {
    if 0 <= n < U64 * SEC then Some(Instant(n / SEC, n % SEC)) else None
  }

  /** `OfNanos` and `Nanos` are inverse, so a result given by the former is exact and in normal form. */
  lemma OfNanosIsExact(n: int, d: Duration)
    ensures OfNanos(n) == Some(d) <==> Normal(d) && Nanos(d) == n
  {
  }

  lemma OfNanosAtIsExact(n: int, i: Instant)
    ensures OfNanosAt(n) == Some(i) <==> NormalAt(i) && NanosAt(i) == n
  {
  }

  // --------------------------------------------------------------------------- machine integers

  /** `checkedAdd`, `checkedSub` and `checkedMul` on 64-bit words. */
  function Fits(x: int): (r: Option<nat>)
    ensures r.Some? <==> 0 <= x < U64
    ensures r.Some? ==> r.value == x
  {
    if 0 <= x < U64 then Some(x) else None
  }

  /** The unchecked operations wrap around. */
  function Word(x: int): (w: nat)
    ensures w < U64
    ensures 0 <= x < U64 ==> w == x
  {
    x % U64
  }

  function Word32(x: int): (w: nat)
    ensures w < U32
    ensures 0 <= x < U32 ==> w == x
  {
    x % U32
  }

  /** The value of a 64-bit word read as a signed number. */
  function Signed(x: int): (r: int)
    ensures -I64 <= r < I64
  {
    var w := x % U64;
    if w < I64 then w else w - U64
  }

  function Quotient(x: nat, v: nat): (q: nat)
    requires v > 0
  {
    x / v
  }

  function Remainder(x: nat, v: nat): (r: nat)
    requires v > 0
    ensures r < v && x == v * Quotient(x, v) + r
  {
    x % v
  }

  lemma Monotone(a: int, b: int, v: int)
    requires a <= b && v >= 0
    ensures v * a <= v * b && a * v <= b * v
  {
    assert v * (b - a) >= 0;
  }

  lemma QuotientUnique(x: int, v: int, q: int, r: int)
    requires v > 0 && x == v * q + r && 0 <= r < v
    ensures x / v == q
  {
    var q', r' := x / v, x % v;
    var d := q - q';
    assert v * d == r' - r;
    assert d >= 1 ==> v * d == v + v * (d - 1) >= v;
    assert d <= -1 ==> v * d == -v + v * (d + 1) <= -v;
  }

  lemma SignedOf(x: int)
    requires -U64 < x < U64
    ensures Signed(x) == if x >= I64 then x - U64 else if x < -I64 then x + U64 else x
  {
    QuotientUnique(x, U64, if x < 0 then -1 else 0, if x < 0 then x + U64 else x);
  }

  // ----------------------------------------------------------------------------------- Duration

  /** The two-argument constructor; the carry goes to the parameter, not to the member. */
  method Make(secs: nat, nanos: nat) returns (d: Duration)
    requires secs < U64 && nanos < U32
    ensures d == Duration(secs, nanos % SEC)
    ensures Nanos(d) == secs * SEC + nanos <==> nanos < SEC
  {
    var mSeconds, mNanos, seconds := secs, 0, secs;
    if nanos < SEC {
      mNanos := nanos;
      return Duration(mSeconds, mNanos);
    }
    seconds := Word(seconds + nanos / SEC);
    mNanos := nanos % SEC;
    return Duration(mSeconds, mNanos);
  }

  /** A sum, which is out of normal form if the nanosecond parts add up to one second. */
  function Sum(a: Duration, b: Duration): Option<Duration> {
    if a.nanos + b.nanos != SEC then OfNanos(Nanos(a) + Nanos(b))
    else if a.secs + b.secs < U64 then Some(Duration(a.secs + b.secs, SEC))
    else None
  }

  method CheckedAdd(a: Duration, b: Duration) returns (r: Option<Duration>)
    requires Normal(a) && Normal(b)
    ensures r == Sum(a, b)
  {
    var addedSecs := Fits(a.secs + b.secs);
    if addedSecs == None {
      return None;
    }
    var nanos := Word32(a.nanos + b.nanos);
    if nanos > SEC {
      nanos := nanos - SEC;
      addedSecs := Fits(addedSecs.value + 1);
      if addedSecs == None {
        return None;
      }
    }
    return Some(Duration(addedSecs.value, nanos));
  }

  /** Subtraction is exact, and fails exactly when the result would be negative. */
  method CheckedSub(a: Duration, b: Duration) returns (r: Option<Duration>)
    requires Normal(a) && Normal(b)
    ensures r == OfNanos(Nanos(a) - Nanos(b))
    ensures r == None <==> Nanos(a) < Nanos(b)
  {
    var subdSecs := Fits(a.secs - b.secs);
    if subdSecs == None {
      return None;
    }
    var nanos;
    if a.nanos >= b.nanos {
      nanos := Word32(a.nanos - b.nanos);
    } else {
      subdSecs := Fits(subdSecs.value - 1);
      if subdSecs == None {
        return None;
      }
      nanos := Word32(a.nanos + SEC - b.nanos);
    }
    return Some(Duration(subdSecs.value, nanos));
  }

  /** The absolute difference always exists, is exact, and does not depend on the order. */
  method AbsDiff(a: Duration, b: Duration) returns (r: Duration)
    requires Normal(a) && Normal(b)
    ensures Normal(r)
    ensures Nanos(r) == if Nanos(a) < Nanos(b) then Nanos(b) - Nanos(a) else Nanos(a) - Nanos(b)
  {
    var res := CheckedSub(a, b);
    if res == None {
      res := CheckedSub(b, a);
      OfNanosIsExact(Nanos(b) - Nanos(a), res.value);
    } else {
      OfNanosIsExact(Nanos(a) - Nanos(b), res.value);
    }
    return res.value;
  }

  /** Multiplication is exact, and fails exactly when the seconds of the product need over 64 bits. */
  method CheckedMul(d: Duration, k: nat) returns (r: Option<Duration>)
    requires Normal(d) && k < U32
    ensures r == OfNanos(Nanos(d) * k)
    ensures r == None <==> (Nanos(d) * k) / SEC >= U64
  {
    NoMulOverflow(d.nanos, k);
    Scaled(d, k);
    ghost var product := Nanos(d) * k;
    var totalNanos := Word(d.nanos * k);
    var extraSecs, nanos := totalNanos / SEC, totalNanos % SEC;
    var mulSecs := Fits(d.secs * k);
    assert product == (d.secs * k + extraSecs) * SEC + nanos;
    if mulSecs == None {
      return None;
    }
    var addedSecs := Fits(mulSecs.value + extraSecs);
    if addedSecs == None {
      return None;
    }
    OfNanosIsExact(product, Duration(addedSecs.value, nanos));
    return Some(Duration(addedSecs.value, nanos));
  }

  /** Division is the floor of the exact quotient, no intermediate value wraps around, and the carry
      is never needed; `None` is the exception thrown for zero. */
  method Divide(d: Duration, val: nat) returns (r: Option<Duration>)
    requires Normal(d) && val < U32
    ensures val == 0 ==> r == None
    ensures val > 0 ==> r.Some? && r == OfNanos(Nanos(d) / val)
  {
    if val == 0 {
      return None;
    }
    var secq, secr := Quotient(d.secs, val), Remainder(d.secs, val);
    Monotone(secr, U32, SEC);
    var totalNanos := Word(secr * SEC + d.nanos);
    var nanosq := Quotient(totalNanos, val);
    if nanosq >= SEC {
      secq := Word(secq + nanosq / SEC);
      nanosq := nanosq % SEC;
    }
    NoQuotientCarry(secr, d.nanos, val);
    FloorOfParts(d, val);
    OfNanosIsExact(Nanos(d) / val, Duration(secq, nanosq));
    var quotient := Make(secq, Word32(nanosq));
    return Some(quotient);
  }

  /** Dividing seconds and the rest separately gives the floor of the whole quotient. */
  lemma FloorOfParts(d: Duration, val: nat)
    requires Normal(d) && 0 < val < U32
    ensures Quotient(d.secs, val) * SEC + Quotient(Remainder(d.secs, val) * SEC + d.nanos, val) == Nanos(d) / val
    ensures Quotient(d.secs, val) <= d.secs
  {
    var secq, secr := Quotient(d.secs, val), Remainder(d.secs, val);
    var totalNanos := secr * SEC + d.nanos;
    var nanosq, rest := Quotient(totalNanos, val), Remainder(totalNanos, val);
    Monotone(1, val, secq);
    hide Quotient;
    hide Remainder;
    assert (val * secq) * SEC == val * (secq * SEC);
    assert val * (secq * SEC + nanosq) == val * (secq * SEC) + val * nanosq;
    QuotientUnique(Nanos(d), val, secq * SEC + nanosq, rest);
  }

  /** The three-way comparison, as -1, 0 or 1, orders by time. */
  function Compare(a: Duration, b: Duration): (order: int)
    ensures Normal(a) && Normal(b) ==> (order < 0 <==> Nanos(a) < Nanos(b)) && (order > 0 <==> Nanos(a) > Nanos(b))
    ensures Normal(a) && Normal(b) ==> (order == 0 <==> a == b)
  {
    if a.secs < b.secs then -1
    else if a.secs > b.secs then 1
    else if a.nanos < b.nanos then -1
    else if a.nanos > b.nanos then 1
    else 0
  }

  function FromNanos(nanos: nat): Duration { Duration(nanos / SEC, nanos % SEC) }

  function GetNanos(d: Duration): nat { Word(d.secs * SEC + d.nanos) }

  /** A sum never loses time, but it is in normal form exactly when the nanosecond parts do not add
      up to one second; it fails exactly when the seconds of the total need over 64 bits, except that
      in that one case the second carried is not counted. */
  lemma SumExact(a: Duration, b: Duration)
    requires Normal(a) && Normal(b)
    ensures Sum(a, b).Some? ==> Nanos(Sum(a, b).value) == Nanos(a) + Nanos(b)
    ensures Sum(a, b).Some? ==> (Normal(Sum(a, b).value) <==> a.nanos + b.nanos != SEC)
    ensures Sum(a, b) == None <==>
              Nanos(a) + Nanos(b) >= if a.nanos + b.nanos == SEC then (U64 + 1) * SEC else U64 * SEC
  {
  }

  lemma SumOfOneSecond()
    ensures Sum(Duration(0, 500_000_000), Duration(0, 500_000_000)) == Some(Duration(0, SEC))
    ensures !Normal(Duration(0, SEC))
  {
  }

  /** Scaling by seconds and by nanoseconds separately loses nothing. */
  lemma Scaled(d: Duration, k: nat)
    ensures Nanos(d) * k == (d.secs * k) * SEC + d.nanos * k
  {
    assert (d.secs * SEC) * k == (d.secs * k) * SEC;
  }

  /** The product of a nanosecond part and a 32-bit factor fits into 64 bits. */
  lemma NoMulOverflow(nanos: nat, k: nat)
    requires nanos < SEC && k < U32
    ensures nanos * k < U64
  {
    Monotone(nanos, SEC, k);
  }

  /** The second quotient is less than a second. */
  lemma NoQuotientCarry(secr: nat, nanos: nat, val: nat)
    requires secr < val < U32 && nanos < SEC
    ensures Quotient(secr * SEC + nanos, val) < SEC
  {
    var total := secr * SEC + nanos;
    Monotone(secr, val - 1, SEC);
    var q, r := Quotient(total, val), Remainder(total, val);
    if q >= SEC {
      Monotone(SEC, q, val);
    }
  }

  /** Dividing a product by its factor gives back the duration. */
  lemma MulDivRoundTrip(d: Duration, k: nat, product: Duration)
    requires Normal(d) && k > 0 && OfNanos(Nanos(d) * k) == Some(product)
    ensures OfNanos(Nanos(product) / k) == Some(d)
  {
    OfNanosIsExact(Nanos(d) * k, product);
    QuotientUnique(Nanos(product), k, Nanos(d), 0);
    OfNanosIsExact(Nanos(d), d);
  }

  /** `fromNanos` and `nanos` are inverse, the latter as long as the total fits into 64 bits. */
  lemma NanosRoundTrip(n: nat, d: Duration)
    requires n < U64 && Normal(d)
    ensures Normal(FromNanos(n)) && GetNanos(FromNanos(n)) == n
    ensures FromNanos(GetNanos(d)) == d <==> Nanos(d) < U64
    ensures Nanos(FromNanos(n)) == n && (GetNanos(d) == Nanos(d) <==> Nanos(d) < U64)
  {
    if Nanos(d) >= U64 {
      assert Nanos(FromNanos(GetNanos(d))) == GetNanos(d) < U64;
    }
  }

  // ------------------------------------------------------------------------------------ Instant

  /** The time from `other` to `i`, not less than zero, if the difference of the seconds is taken as a
      signed 64-bit number.  There is no result if the borrow makes that number overflow, which C++
      leaves undefined. */
  function Elapsed(i: Instant, other: Instant): (d: Option<Duration>)
    requires NormalAt(i) && NormalAt(other)
    ensures d.Some? ==> Normal(d.value)
  {
    var n := Signed(i.secs - other.secs) * SEC + i.nanos - other.nanos;
    if n < -I64 * SEC then None else Some(if n < 0 then Duration(0, 0) else Duration(n / SEC, n % SEC))
  }

  method DurationSince(i: Instant, other: Instant) returns (d: Option<Duration>)
    requires NormalAt(i) && NormalAt(other)
    ensures d == Elapsed(i, other)
  {
    var secs := Signed(i.secs - other.secs);
    var nanos := Signed(i.nanos - other.nanos);
    SignedOf(i.nanos - other.nanos);
    hide Signed;
    if nanos < 0 {
      nanos := nanos + SEC;
      if secs == -I64 {
        return None;
      }
      secs := secs - 1;
    }
    if secs < 0 {
      secs := 0;
      nanos := 0;
    }
    var made := Make(Word(secs), Word32(nanos));
    return Some(made);
  }

  /** Adding to an instant is exact and fails exactly on overflow. */
  method CheckedAddAt(i: Instant, dur: Duration) returns (r: Option<Instant>)
    requires NormalAt(i) && Normal(dur)
    ensures r == OfNanosAt(NanosAt(i) + Nanos(dur))
    ensures r == None <==> NanosAt(i) + Nanos(dur) >= U64 * SEC
  {
    var added := Fits(i.secs + dur.secs);
    if added == None {
      return None;
    }
    var extra := 0;
    var nanos := Word32(i.nanos + dur.nanos);
    if nanos >= SEC {
      nanos := nanos - SEC;
      extra := 1;
    }
    added := Fits(added.value + extra);
    if added == None {
      return None;
    }
    return Some(Instant(added.value, nanos));
  }

  /** An earlier instant, which is out of normal form if the nanosecond parts are equal. */
  function Earlier(i: Instant, dur: Duration): Option<Instant> {
    if i.nanos != dur.nanos then OfNanosAt(NanosAt(i) - Nanos(dur))
    else if i.secs > dur.secs then Some(Instant(i.secs - dur.secs - 1, SEC))
    else None
  }

  method CheckedSubAt(i: Instant, dur: Duration) returns (r: Option<Instant>)
    requires NormalAt(i) && Normal(dur)
    ensures r == Earlier(i, dur)
  {
    var subbed := Fits(i.secs - dur.secs);
    if subbed == None {
      return None;
    }
    var nanos;
    if i.nanos > dur.nanos {
      nanos := Word32(i.nanos - dur.nanos);
    } else {
      subbed := Fits(subbed.value - 1);
      if subbed == None {
        return None;
      }
      nanos := Word32(i.nanos + SEC - dur.nanos);
    }
    return Some(Instant(subbed.value, nanos));
  }

  function CompareAt(a: Instant, b: Instant): (order: int)
    ensures NormalAt(a) && NormalAt(b) ==> (order < 0 <==> NanosAt(a) < NanosAt(b))
    ensures NormalAt(a) && NormalAt(b) ==> (order > 0 <==> NanosAt(a) > NanosAt(b))
    ensures NormalAt(a) && NormalAt(b) ==> (order == 0 <==> a == b)
  {
    if a.secs != b.secs then (if a.secs < b.secs then -1 else 1)
    else if a.nanos < b.nanos then -1
    else if a.nanos > b.nanos then 1
    else 0
  }

  /** The absolute difference is exact exactly when the seconds are less than 2^63 apart. */
  method AbsDiffAt(a: Instant, b: Instant) returns (d: Option<Duration>)
    requires NormalAt(a) && NormalAt(b)
    ensures d == if NanosAt(a) >= NanosAt(b) then Elapsed(a, b) else Elapsed(b, a)
    ensures d == OfNanos(if NanosAt(a) < NanosAt(b) then NanosAt(b) - NanosAt(a) else NanosAt(a) - NanosAt(b))
       <==> -I64 < a.secs - b.secs < I64
  {
    ElapsedExact(a, b);
    ElapsedExact(b, a);
    if CompareAt(a, b) >= 0 {
      d := DurationSince(a, b);
    } else {
      d := DurationSince(b, a);
    }
  }

  function RawNanos(i: Instant): int { Signed(i.secs * SEC + i.nanos) }

  function FromRawNanos(nanos: int): Instant
    requires -I64 <= nanos < I64
  {
    Instant(Word(nanos) / SEC, Word(nanos) % SEC)
  }

  /** The seconds of the two instants differ by what a signed 64-bit number can hold, the borrow included. */
  predicate Measurable(i: Instant, other: Instant) {
    -I64 <= i.secs - other.secs < I64 && !(i.secs - other.secs == -I64 && i.nanos < other.nanos)
  }

  /** The time since an instant is exact, and zero for a later instant, exactly when the instants are
      that close; that of two instants just beyond, 2^63 seconds and a nanosecond apart, is undefined. */
  lemma ElapsedExact(i: Instant, other: Instant)
    requires NormalAt(i) && NormalAt(other)
    ensures var exact := if NanosAt(i) < NanosAt(other) then 0 else NanosAt(i) - NanosAt(other);
            && (Elapsed(i, other) == OfNanos(exact) <==> Measurable(i, other))
            && (Elapsed(i, other).Some? && Nanos(Elapsed(i, other).value) == exact <==> Measurable(i, other))
    ensures Elapsed(Instant(0, 0), Instant(I64, 1)) == None
  {
    SignedOf(i.secs - other.secs);
    SignedOf(-I64);
    hide Signed;
  }

  /** Beyond that the difference of the seconds has wrapped around: a time far too long for a long way
      ahead, and nothing at all for a long way back. */
  lemma ElapsedWraps(i: Instant, other: Instant)
    requires NormalAt(i) && NormalAt(other)
    ensures Elapsed(i, other) == None <==>
              (i.secs - other.secs == -I64 || i.secs - other.secs == I64) && i.nanos < other.nanos
    ensures i.secs - other.secs >= I64 && Elapsed(i, other).Some? ==> Elapsed(i, other) == Some(Duration(0, 0))
    ensures i.secs - other.secs < -I64 ==> Elapsed(i, other) == OfNanos(NanosAt(i) - NanosAt(other) + U64 * SEC)
  {
    SignedOf(i.secs - other.secs);
    hide Signed;
  }

  /** The time from an instant to that instant plus a duration is the duration, exactly when the
      seconds in between fit into a signed 64-bit number. */
  lemma AddSinceRoundTrip(i: Instant, dur: Duration, j: Instant)
    requires NormalAt(i) && Normal(dur) && OfNanosAt(NanosAt(i) + Nanos(dur)) == Some(j)
    ensures Elapsed(j, i) == Some(dur) <==> j.secs - i.secs < I64
    ensures dur.secs < I64 - 1 ==> Elapsed(j, i) == Some(dur)
  {
    OfNanosAtIsExact(NanosAt(i) + Nanos(dur), j);
    ElapsedExact(j, i);
    OfNanosIsExact(Nanos(dur), dur);
    assert NanosAt(j) - NanosAt(i) == Nanos(dur);
  }

  /** Subtracting loses no time, but leaves normal form exactly when the nanosecond parts are equal;
      it fails exactly when the result would be negative, or zero with equal nanosecond parts. */
  lemma EarlierExact(i: Instant, dur: Duration)
    requires NormalAt(i) && Normal(dur)
    ensures Earlier(i, dur).Some? ==> NanosAt(Earlier(i, dur).value) == NanosAt(i) - Nanos(dur)
    ensures Earlier(i, dur).Some? ==> (NormalAt(Earlier(i, dur).value) <==> i.nanos != dur.nanos)
    ensures Earlier(i, dur) == None <==>
              if i.nanos == dur.nanos then NanosAt(i) <= Nanos(dur) else NanosAt(i) < Nanos(dur)
  {
  }

  lemma EqualNanosSubtracted(i: Instant)
    requires NormalAt(i)
    ensures Earlier(i, Duration(0, i.nanos)) == if i.secs == 0 then None else Some(Instant(i.secs - 1, SEC))
  {
  }

  /** Raw nanoseconds and instants are inverse, on all raw values and on all instants whose
      nanoseconds fit into 64 bits. */
  lemma RawNanosRoundTrip(raw: int, i: Instant)
    requires -I64 <= raw < I64 && NormalAt(i)
    ensures NormalAt(FromRawNanos(raw)) && RawNanos(FromRawNanos(raw)) == raw
    ensures FromRawNanos(RawNanos(i)) == i <==> NanosAt(i) < U64
    ensures NanosAt(FromRawNanos(raw)) == if raw < 0 then raw + U64 else raw
    ensures RawNanos(i) == NanosAt(i) <==> NanosAt(i) < I64
  {
    var word := raw % U64;
    assert (word / SEC) * SEC + word % SEC == word;
    var total := NanosAt(i);
    assert Signed(total) % U64 == total % U64;
    if total >= U64 {
      assert NanosAt(FromRawNanos(RawNanos(i))) < U64;
    }
  }
}
