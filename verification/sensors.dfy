/**
 Small sensor readers and formatters of the monitor scripts: the fan speed
 read from the hwmon `fan1_input` file, and `argonsysinfo_kbstr`, which prints
 a byte count with a binary unit.
 */
module Sensors {
  import opened Common
  import opened Text

  // ---------------------------------------------------------------------------
  // Fan speed
  // ---------------------------------------------------------------------------

  /** Where the `int()` conversion sits relative to the exception handler. */
  datatype FanVariant =
    | ConvertInsideTry   // oneUpSupport.py `fanSpeed`, systemsupport.py `CPUFanSpeed`
    | ConvertAfterTry    // monitor1up.py `getFanSpeed`

  /** The fan speed in RPM. */
  function FanSpeed(out: Command, variant: FanVariant): (r: Result<int, PyError>)
    // a reading that is an integer is returned as is, in every copy
    ensures out.Output? && ParseInt(out.text).Some? ==> r == Ok(ParseInt(out.text).value)
    // text that is not an integer: 0 where int() is guarded, ValueError where it is not
    ensures out.Output? && ParseInt(out.text).None? ==>
              r == (if variant == ConvertInsideTry then Ok(0) else Err(ValueError))
    ensures out.ReadFailed? ==> r == Ok(0)
    // a failed launch: `command.close()` in `finally` on an unbound name, or
    // (monitor1up.py, no `finally`) the bare except leaves the speed at 0
    ensures out.LaunchFailed? ==>
              r == (if variant == ConvertInsideTry then Err(UnboundLocalError) else Ok(0))
  {
    match out
    case ReadFailed => Ok(0)
    case LaunchFailed => if variant == ConvertInsideTry then Err(UnboundLocalError) else Ok(0)
    case Output(text) =>
      match ParseInt(text)
      case Some(v) => Ok(v)
      case None => if variant == ConvertInsideTry then Ok(0) else Err(ValueError)
  }

  /** The guarded copies only ever raise on a failed launch. */
  lemma GuardedFanNeverRaisesOnOutput(out: Command)
    requires !out.LaunchFailed?
    ensures FanSpeed(out, ConvertInsideTry).Ok?
  {
  }

  /** A sysfs reading with its trailing newline is the number it spells. */
  lemma FanReadingRoundTrip(rpm: int)
    ensures FanSpeed(Output(IntToString(rpm) + "\n"), ConvertAfterTry) == Ok(rpm)
  {
    var s := IntToString(rpm);
    ParseIntOfIntToString(rpm);
    StripTrailingSpace(s, '\n');
  }

  lemma StripTrailingSpace(s: string, c: char)
    requires IsSpace(c)
    ensures Strip(s + [c]) == Strip(s)
  {
    var t := s + [c];
    assert TrimRight(t) == TrimRight(s) by {
      assert t[..|t| - 1] == s;
    }
    if |TrimLeft(s)| == 0 {
      assert Strip(s) == "";
      TrimLeftOfSpaces(s, c);
    } else {
      TrimLeftAppend(s, [c]);
      var k := |s| - |TrimLeft(s)|;
      assert TrimLeft(t) == TrimLeft(s) + [c];
      assert TrimRight(TrimLeft(s) + [c]) == TrimRight(TrimLeft(s)) by {
        assert (TrimLeft(s) + [c])[..|TrimLeft(s)|] == TrimLeft(s);
      }
    }
  }

  lemma {:induction false} TrimLeftOfSpaces(s: string, c: char)
    requires |TrimLeft(s)| == 0 && IsSpace(c)
    ensures TrimLeft(s + [c]) == ""
  {
    if |s| > 0 {
      assert (s + [c])[1..] == s[1..] + [c];
      TrimLeftOfSpaces(s[1..], c);
    }
  }

  lemma {:induction false} TrimLeftAppend(s: string, tail: string)
    requires |TrimLeft(s)| > 0
    ensures TrimLeft(s + tail) == TrimLeft(s) + tail
  {
    if IsSpace(s[0]) {
      assert (s + tail)[1..] == s[1..] + tail;
      TrimLeftAppend(s[1..], tail);
    }
  }

  // ---------------------------------------------------------------------------
  // argonsysinfo_kbstr
  // ---------------------------------------------------------------------------

  const SUFFIXES: seq<string> := ["B", "KiB", "MiB", "GiB", "TiB"]

  function Pow1024(k: nat): (p: nat)
    ensures p >= 1
  {
    if k == 0 then 1 else 1024 * Pow1024(k - 1)
  }

  /** How many times the loop would divide `n` by 1024 with no limit on the
      suffix index: until the value is at most 1023. */
  function Divisions(n: int): nat
    decreases if n > 0 then n else 0
  {
    if n <= 1023 then 0 else 1 + Divisions(n / 1024)
  }

  /** `n` divided by 1024 that many times. */
  function Scaled(n: int): int
    decreases if n > 0 then n else 0
  {
    if n <= 1023 then n else Scaled(n / 1024)
  }

  /** `argonsysinfo_kbstr(n)`: divide by 1024 while the value exceeds 1023 and
      the suffix index is below 5, then print the value and `SUFFIXES[index]`;
      an index of 5 is past the end of the list and raises IndexError. */
  method KbStr(n: int) returns (r: Result<string, PyError>)
    ensures Divisions(n) < |SUFFIXES| ==> r == Ok(IntToString(Scaled(n)) + " " + SUFFIXES[Divisions(n)])
    ensures Divisions(n) >= |SUFFIXES| ==> r == Err(IndexError)
  {
    var kbval := n;
    var idx := 0;
    while kbval > 1023 && idx < |SUFFIXES|
      invariant 0 <= idx <= |SUFFIXES|
      invariant idx + Divisions(kbval) == Divisions(n)
      invariant Scaled(kbval) == Scaled(n)
      decreases |SUFFIXES| - idx
    {
      kbval := kbval / 1024;
      idx := idx + 1;
    }
    if idx < |SUFFIXES| {
      r := Ok(IntToString(kbval) + " " + SUFFIXES[idx]);
    } else {
      r := Err(IndexError);
    }
  }

  lemma MulMonotone(m: int, x: int, y: int)
    requires m >= 0 && x <= y
    ensures m * x <= m * y
  {
    assert m * y - m * x == m * (y - x);
  }

  /** Euclidean division has one quotient and remainder. */
  lemma DivUnique(a: int, m: int, q: int, r: int)
    requires m > 0 && a == m * q + r && 0 <= r < m
    ensures a / m == q
  {
    var q0 := a / m;
    var r0 := a % m;
    assert a == m * q0 + r0;
    assert m * (q0 + 1) == m * q0 + m;
    assert m * (q + 1) == m * q + m;
    if q0 < q {
      MulMonotone(m, q0 + 1, q);
      assert false;
    } else if q0 > q {
      MulMonotone(m, q + 1, q0);
      assert false;
    }
  }

  /** Dividing by `m` and then by `p` is dividing by `m * p`. */
  lemma DivDiv(a: int, m: int, p: int)
    requires a >= 0 && m > 0 && p > 0
    ensures (a / m) / p == a / (m * p)
  {
    var q := a / m;
    var r := a % m;
    var q2 := q / p;
    var r2 := q % p;
    assert a == m * q + r;
    assert q == p * q2 + r2;
    assert m * q == m * p * q2 + m * r2;
    MulMonotone(m, r2, p - 1);
    DivUnique(a, m * p, q2, m * r2 + r);
  }

  /** `Divisions(n)` is the least k for which n div 1024^k is at most 1023,
      and `Scaled(n)` is that quotient. */
  lemma {:induction false} DivisionsIsLeast(n: int)
    requires n >= 0
    ensures Scaled(n) == n / Pow1024(Divisions(n)) <= 1023
    ensures forall j :: 0 <= j < Divisions(n) ==> n / Pow1024(j) > 1023
    decreases n
  {
    if n > 1023 {
      var m := n / 1024;
      DivisionsIsLeast(m);
      DivDiv(n, 1024, Pow1024(Divisions(m)));
      forall j | 0 <= j < Divisions(n) ensures n / Pow1024(j) > 1023 {
        if j > 0 {
          DivDiv(n, 1024, Pow1024(j - 1));
        }
      }
    }
  }

  /** The index stays inside the list exactly for the values below 1024^5. */
  lemma {:induction false} DivisionsBound(n: int, k: nat)
    requires n >= 0 && k >= 1
    ensures Divisions(n) >= k <==> n >= Pow1024(k)
    decreases k
  {
    if k > 1 {
      if n > 1023 {
        DivisionsBound(n / 1024, k - 1);
        QuotientBound(n, Pow1024(k - 1));
      } else {
        assert Pow1024(k) >= 1024 by { PowAtLeast(k); }
      }
    }
  }

  /** n div 1024 reaches p exactly when n reaches 1024 * p. */
  lemma QuotientBound(n: int, p: int)
    requires n >= 0 && p > 0
    ensures n / 1024 >= p <==> n >= 1024 * p
  {
    var q := n / 1024;
    assert n == 1024 * q + n % 1024;
    if q >= p {
      MulMonotone(1024, p, q);
    } else {
      MulMonotone(1024, q, p - 1);
    }
  }

  lemma {:induction false} PowAtLeast(k: nat)
    requires k > 0
    ensures Pow1024(k) >= 1024
  {
    if k > 1 {
      PowAtLeast(k - 1);
    }
  }

  /** The documented behaviour, stated with powers of 1024: below 1024^5 the
      text is n div 1024^k with the k-th suffix, k least with a quotient of at
      most 1023; from 1024^5 on the call raises. */
  method KbStrMeaning(n: int) returns (r: Result<string, PyError>)
    requires n >= 0
    ensures n < Pow1024(5) ==>
              r.Ok? && exists k :: 0 <= k < 5 && IsUnitChoice(n, k) &&
                                   r.value == IntToString(n / Pow1024(k)) + " " + SUFFIXES[k]
    ensures n >= Pow1024(5) ==> r == Err(IndexError)
  {
    r := KbStr(n);
    DivisionsIsLeast(n);
    DivisionsBound(n, 5);
    if n < Pow1024(5) {
      assert IsUnitChoice(n, Divisions(n));
    }
  }

  /** k is the least number of divisions by 1024 that brings n to at most 1023. */
  predicate IsUnitChoice(n: int, k: nat) {
    n / Pow1024(k) <= 1023 && forall j :: 0 <= j < k ==> n / Pow1024(j) > 1023
  }

  /** Up to 1023 the value is printed unchanged in bytes. */
  lemma SmallValuesInBytes(n: int)
    requires n <= 1023
    ensures Divisions(n) == 0 && Scaled(n) == n
  {
  }

  // ---------------------------------------------------------------------------
  // The off-by-one in the suffix loop, and the intended formatter
  // ---------------------------------------------------------------------------

  /** The smallest value the as-written loop cannot print: 1 PiB. */
  lemma OnePebibyteRaises()
    ensures Divisions(Pow1024(5)) == 5
  {
    DivisionsBound(Pow1024(5), 5);
    DivisionsBound(Pow1024(5), 6);
  }

  /** The evidently intended loop, bounded by the last valid index, so that
      anything from 1 TiB upwards is printed in TiB. */
  method KbStrCapped(n: int) returns (r: string)
    ensures Divisions(n) < |SUFFIXES| ==> r == IntToString(Scaled(n)) + " " + SUFFIXES[Divisions(n)]
    ensures Divisions(n) >= |SUFFIXES| ==> |r| >= 4 && r[|r| - 4..] == " TiB"
    ensures n >= Pow1024(5) ==> r == IntToString(n / Pow1024(4)) + " TiB"
  {
    var kbval := n;
    var idx := 0;
    while kbval > 1023 && idx < |SUFFIXES| - 1
      invariant 0 <= idx <= |SUFFIXES| - 1
      invariant idx + Divisions(kbval) == Divisions(n)
      invariant Scaled(kbval) == Scaled(n)
      invariant kbval == n / Pow1024(idx)
      invariant n < 0 ==> idx == 0
      decreases |SUFFIXES| - idx
    {
      DivDiv(n, Pow1024(idx), 1024);
      kbval := kbval / 1024;
      idx := idx + 1;
    }
    r := IntToString(kbval) + " " + SUFFIXES[idx];
    if Divisions(n) >= |SUFFIXES| {
      assert idx == |SUFFIXES| - 1;
      assert r[|r| - 4..] == " TiB";
    }
    if n >= Pow1024(5) {
      DivisionsBound(n, 5);
      assert idx == 4;
    }
  }
}
