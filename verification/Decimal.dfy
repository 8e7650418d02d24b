/** runit's decimal numbers: printed, printed with leading zeros, and read back. */
module Decimal {

  const ZERO := '0' as int

  /** The canonical decimal representation. */
  function Digits(u: nat): (d: seq<int>)
    ensures |d| > 0 && (forall c <- d :: ZERO <= c < ZERO + 10) && (u > 0 ==> d[0] != ZERO)
  {
    if u < 10 then [ZERO + u] else Digits(u / 10) + [ZERO + u % 10]
  }

  /** What a string of digits stands for. */
  function Number(d: seq<int>): int {
    if d == [] then 0 else Number(d[..|d| - 1]) * 10 + d[|d| - 1] - ZERO
  }

  function Zeros(n: nat): seq<int> {
    seq(n, _ => ZERO)
  }

  lemma {:induction false} NumberOfDigits(u: nat)
    ensures Number(Digits(u)) == u
  {
    if u >= 10 {
      NumberOfDigits(u / 10);
      assert Digits(u)[..|Digits(u)| - 1] == Digits(u / 10);
    } else {
      assert [ZERO + u][..0] == [];
    }
  }

  /** Leading zeros do not matter. */
  lemma {:induction false} NumberOfPadded(n: nat, d: seq<int>)
    ensures Number(Zeros(n) + d) == Number(d)
  {
    if d != [] {
      assert (Zeros(n) + d)[..n + |d| - 1] == Zeros(n) + d[..|d| - 1];
      NumberOfPadded(n, d[..|d| - 1]);
    } else if n > 0 {
      assert Zeros(n) + d == Zeros(n);
      assert Zeros(n)[..n - 1] == Zeros(n - 1) + d;
      NumberOfPadded(n - 1, d);
    } else {
      assert Zeros(0) + d == d;
    }
  }

  /** fmt_ulong; without memory to write to, it only counts. */
  method FmtUlong(s: array?<int>, at: nat, number: nat) returns (len: nat)
    requires s != null ==> at + |Digits(number)| <= s.Length
    modifies if s == null then {} else {s}
    ensures len == |Digits(number)|
    ensures s != null ==> s[..] == old(s[..at]) + Digits(number) + old(s[at + len..])
  {
    len := 1;
    var q := number;
    while q > 9
      invariant len + |Digits(q)| == |Digits(number)| + 1
      decreases q
    {
      len := len + 1;
      q := q / 10;
    }
    if s != null {
      ghost var was := s[..];
      var u, p := number, at + len;
      assert s[p..at + len] == [];
      while true
        invariant at < p <= at + len && p - at == |Digits(u)|
        invariant Digits(u) + s[p..at + len] == Digits(number)
        invariant s[..p] == was[..p] && s[at + len..] == was[at + len..]
        decreases u
      {
        ghost var tail := s[p..at + len];
        p := p - 1;
        s[p] := ZERO + u % 10;
        assert s[p..at + len] == [ZERO + u % 10] + tail;
        assert u >= 10 ==> Digits(u) + tail == Digits(u / 10) + s[p..at + len];
        u := u / 10;
        if u == 0 {
          break;
        }
      }
      assert s[..] == s[..at] + s[at..at + len] + s[at + len..];
    }
  }

  /** fmt_uint0 */
  method FmtUint0(s: array?<int>, number: nat, n: nat) returns (len: nat)
    requires s != null ==> n <= s.Length && |Digits(number)| <= s.Length
    modifies if s == null then {} else {s}
    ensures len == if n > |Digits(number)| then n else |Digits(number)|
    ensures s != null ==> s[..len] == Zeros(len - |Digits(number)|) + Digits(number)
  {
    len := FmtUlong(null, 0, number);
    ghost var first := len;
    var at := 0;
    while len < n
      invariant first <= len && (len <= n || len == first) && (s != null ==> at == len - first)
      invariant s != null ==> s[..at] == Zeros(at)
    {
      if s != null {
        s[at] := ZERO;
        at := at + 1;
        assert s[..at] == Zeros(at - 1) + [ZERO] == Zeros(at);
      }
      len := len + 1;
    }
    if s != null {
      var k := FmtUlong(s, at, number);
      assert s[..len] == Zeros(at) + Digits(number);
    }
  }

  predicate IsDigit(c: int) {
    ZERO <= c < ZERO + 10
  }

  /** scan_ulong over a string with its terminating zero byte, into a word with w values. */
  method ScanUlong(s: seq<int>, w: int) returns (pos: nat, u: int)
    requires 0 in s && w > 0 && forall c <- s :: 0 <= c < 256
    ensures pos < |s| && (forall k | 0 <= k < pos :: IsDigit(s[k])) && !IsDigit(s[pos])
    ensures u == Number(s[..pos]) % w
  {
    pos, u := 0, 0;
    assert s[..0] == [];
    while (s[pos] - ZERO) % 256 < 10
      invariant pos < |s| && (forall k | 0 <= k < pos :: IsDigit(s[k])) && u == Number(s[..pos]) % w
      decreases |s| - pos
    {
      assert s[pos] in s;
      assert pos + 1 < |s| by {
        var z :| 0 <= z < |s| && s[z] == 0;
      }
      assert s[..pos + 1][..pos] == s[..pos];
      Horner(Number(s[..pos]), s[pos] - ZERO, w);
      u := (u * 10 + (s[pos] - ZERO)) % w;
      pos := pos + 1;
    }
    assert s[pos] in s;
  }

  lemma Horner(n: int, c: int, w: int)
    requires w > 0
    ensures (n % w * 10 + c) % w == (n * 10 + c) % w
  {
    var q := n / w;
    assert n == q * w + n % w;
    assert n * 10 + c == 10 * q * w + (n % w * 10 + c);
    Turns(n % w * 10 + c, 10 * q, w);
  }

  lemma Turns(x: int, k: int, w: int)
    requires w > 0
    ensures (x + k * w) % w == x % w
  {
    var d := (x + k * w) / w - x / w - k;
    assert (x + k * w) % w - x % w == -d * w by {
      assert x + k * w == (x + k * w) / w * w + (x + k * w) % w;
      assert x == x / w * w + x % w;
      assert d * w == (x + k * w) / w * w - x / w * w - k * w;
    }
    Far(d, w);
  }

  lemma Far(d: int, w: int)
    requires w > 0
    ensures d > 0 ==> d * w >= w
    ensures d < 0 ==> d * w <= -w
  {
  }

  /** What is printed, with leading zeros or without, is read back whole: the number of
      characters and, if it fits the word, the number itself. */
  lemma RoundTrip(number: nat, zeros: nat, rest: seq<int>, w: int, pos: nat, u: int)
    requires 0 <= number < w && rest != [] && !IsDigit(rest[0])
    requires var s := Zeros(zeros) + Digits(number) + rest;
             && pos < |s| && (forall k | 0 <= k < pos :: IsDigit(s[k])) && !IsDigit(s[pos]) && u == Number(s[..pos]) % w
    ensures pos == zeros + |Digits(number)| && u == number
  {
    var s, n := Zeros(zeros) + Digits(number) + rest, zeros + |Digits(number)|;
    forall k | 0 <= k < n ensures IsDigit(s[k]) {
      assert k >= zeros ==> s[k] == Digits(number)[k - zeros] && Digits(number)[k - zeros] in Digits(number);
    }
    assert s[n] == rest[0];
    assert s[..n] == Zeros(zeros) + Digits(number);
    NumberOfPadded(zeros, Digits(number));
    NumberOfDigits(number);
  }
}
