/** Overflow-checked arithmetic on `struct timespec` with a 64-bit `tv_sec`, and the
    conversions to and from nanoseconds. */
module Timespecs {

  const INT64_MAX: int := 0x7fff_ffff_ffff_ffff
  const NANOS: int := 1_000_000_000

  datatype Timespec = Timespec(sec: int, nsec: int)

  predicate Fits64(x: int) { -INT64_MAX - 1 <= x <= INT64_MAX }

  /** `timespec_is_valid`, on fields that are 64-bit integers. */
  predicate IsValid(ts: Timespec) {
    Fits64(ts.sec) && ts.sec >= 0 && 0 <= ts.nsec < NANOS
  }

  /** The exact value, which need not fit any machine integer. */
  function Nanos(ts: Timespec): int {
    ts.sec * NANOS + ts.nsec
  }

  /** `timespecadd_safe`: the exact sum, or false exactly when its seconds exceed 64 bits. */
  method AddSafe(t: Timespec, u: Timespec) returns (ok: bool, v: Timespec)
    requires IsValid(t) && IsValid(u)
    ensures ok <==> Nanos(t) + Nanos(u) < (INT64_MAX + 1) * NANOS
    ensures ok ==> IsValid(v) && Nanos(v) == Nanos(t) + Nanos(u)
  {
    v := t;
    if !Fits64(t.sec + u.sec) {
      return false, v;
    }
    v := Timespec(t.sec + u.sec, v.nsec);
    v := v.(nsec := t.nsec + u.nsec);
    if v.nsec >= NANOS {
      if !Fits64(v.sec + 1) {
        return false, v;
      }
      v := v.(sec := v.sec + 1);
      v := v.(nsec := v.nsec - NANOS);
    }
    ok := true;
  }

  /** `timespecsub_safe`: the exact difference, with a non-negative nanosecond part.  For
      valid arguments neither overflow check can fire. */
  method SubSafe(t: Timespec, u: Timespec) returns (ok: bool, v: Timespec)
    requires IsValid(t) && IsValid(u)
    ensures ok && Fits64(v.sec) && 0 <= v.nsec < NANOS && Nanos(v) == Nanos(t) - Nanos(u)
    ensures v.sec >= 0 <==> Nanos(t) >= Nanos(u)
  {
    v := t;
    ok := Fits64(t.sec - u.sec);
    if ok {
      v := Timespec(t.sec - u.sec, t.nsec - u.nsec);
      if v.nsec < 0 {
        ok := Fits64(v.sec - 1);
        if ok {
          v := v.(sec := v.sec - 1);
          v := v.(nsec := v.nsec + NANOS);
        }
      }
    }
  }

  /** `ts_to_nanos`. */
  method ToNanos(ts: Timespec) returns (ok: bool, n: int)
    requires Fits64(ts.sec) && 0 <= ts.nsec < NANOS
    ensures ok ==> n == Nanos(ts) && Fits64(n)
    ensures ts.sec >= 0 ==> (ok <==> Nanos(ts) <= INT64_MAX)
  {
    n := ts.sec * NANOS;
    if !Fits64(n) {
      return false, n;
    }
    if !Fits64(n + ts.nsec) {
      return false, n;
    }
    n := n + ts.nsec;
    ok := true;
  }

  /** `nanos_to_ts`; the callers pass non-negative values, where truncation is floor. */
  function FromNanos(n: int): (ts: Timespec)
    requires 0 <= n <= INT64_MAX
    ensures IsValid(ts) && Nanos(ts) == n
  {
    Timespec(n / NANOS, n % NANOS)
  }

  /** `timespeccmp` compares exact values. */
  function Compare(t: Timespec, u: Timespec): (c: int)
    requires 0 <= t.nsec < NANOS && 0 <= u.nsec < NANOS
    ensures c < 0 <==> Nanos(t) < Nanos(u)
    ensures c == 0 <==> Nanos(t) == Nanos(u)
  {
    if t.sec == u.sec then t.nsec - u.nsec else t.sec - u.sec
  }
}
