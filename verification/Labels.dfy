/** runit's log file labels: packed time stamps in hexadecimal, and the comparison
    of strings that svlogd takes for the order of time. */
module Labels {
  import opened TaiTime

  /** Number v in n bytes, the most significant one first. */
  function Bytes(v: int, n: nat): (b: seq<int>)
    ensures |b| == n && forall i <- b :: 0 <= i < 256
    decreases n
  {
    if n == 0 then [] else Bytes(v / 256, n - 1) + [v % 256]
  }

  /** The last n hexadecimal digits of v, the most significant one first. */
  function Digits(v: int, n: nat): (d: seq<int>)
    ensures |d| == n && forall i <- d :: 0 <= i < 16
    decreases n
  {
    if n == 0 then [] else Digits(v / 16, n - 1) + [v % 16]
  }

  function Power(n: nat): nat {
    if n == 0 then 1 else 16 * Power(n - 1)
  }

  /** The character for a digit, '0' to '9' and 'a' to 'f'. */
  function Hex(d: int): (c: int)
    ensures 0 <= d < 16 ==> c == "0123456789abcdef"[d] as int
  {
    if d < 10 then 48 + d else 87 + d
  }

  function Text(ds: seq<int>): (t: seq<int>)
    ensures |t| == |ds| && forall k | 0 <= k < |ds| :: t[k] == Hex(ds[k])
  {
    seq(|ds|, k requires 0 <= k < |ds| => Hex(ds[k]))
  }

  const AT := 64
  const WORD := 0x1_0000_0000

  /** Seconds and nanoseconds as one number. */
  function Number(t: Instant): int {
    t.sec * WORD + t.nano
  }

  /** The label of a stamp: an at sign and 24 hexadecimal digits, for seconds and
      nanoseconds taken as one number. */
  function Label(t: Instant): (s: seq<int>)
    ensures |s| == 25 && s[0] == AT
  {
    [AT] + Text(Digits(Number(t), 24))
  }

  /** tai_pack, at offset "at" of the caller's buffer. */
  method TaiPack(s: array<int>, at: nat, sec: int)
    requires at + 8 <= s.Length && 0 <= sec < SECONDS
    modifies s
    ensures s[at..at + 8] == Bytes(sec, 8)
    ensures forall i | 0 <= i < s.Length && !(at <= i < at + 8) :: s[i] == old(s[i])
  {
    var x := sec;
    s[at + 7] := x % 256; x := x / 256;
    s[at + 6] := x % 256; x := x / 256;
    s[at + 5] := x % 256; x := x / 256;
    s[at + 4] := x % 256; x := x / 256;
    s[at + 3] := x % 256; x := x / 256;
    s[at + 2] := x % 256; x := x / 256;
    s[at + 1] := x % 256; x := x / 256;
    s[at] := x % 256;
    EightBytes(sec);
  }

  lemma FourBytes(v: int)
    ensures Bytes(v, 4) == [v / 256 / 256 / 256 % 256, v / 256 / 256 % 256, v / 256 % 256, v % 256]
  {
    assert Bytes(v / 256, 3) == Bytes(v / 256 / 256, 2) + [v / 256 % 256];
    assert Bytes(v / 256 / 256, 2) == Bytes(v / 256 / 256 / 256, 1) + [v / 256 / 256 % 256];
    assert Bytes(v / 256 / 256 / 256, 1) == [v / 256 / 256 / 256 % 256];
  }

  function Shift(v: int, n: nat): int
    decreases n
  {
    if n == 0 then v else Shift(v / 256, n - 1)
  }

  lemma {:induction false} BytesSplit(v: int, m: nat, n: nat)
    ensures Bytes(v, m + n) == Bytes(Shift(v, n), m) + Bytes(v, n)
    decreases n
  {
    if n > 0 {
      BytesSplit(v / 256, m, n - 1);
    }
  }

  lemma ShiftFour(v: int)
    ensures Shift(v, 4) == v / 256 / 256 / 256 / 256
  {
    assert Shift(v, 4) == Shift(v / 256, 3) == Shift(v / 256 / 256, 2) == Shift(v / 256 / 256 / 256, 1);
  }

  lemma EightBytes(v: int)
    ensures var u := v / 256 / 256 / 256 / 256;
            Bytes(v, 8) == [u / 256 / 256 / 256 % 256, u / 256 / 256 % 256, u / 256 % 256, u % 256,
                            v / 256 / 256 / 256 % 256, v / 256 / 256 % 256, v / 256 % 256, v % 256]
  {
    ShiftFour(v);
    BytesSplit(v, 4, 4);
    FourBytes(v);
    FourBytes(v / 256 / 256 / 256 / 256);
  }

  /** taia_pack */
  method TaiaPack(s: array<int>, t: Instant)
    requires 16 <= s.Length && t.Normal()
    modifies s
    ensures s[..16] == Bytes(t.sec, 8) + Bytes(t.nano, 4) + Bytes(t.atto, 4)
  {
    TaiPack(s, 0, t.sec);
    var x := t.atto;
    s[15] := x % 256; x := x / 256;
    s[14] := x % 256; x := x / 256;
    s[13] := x % 256; x := x / 256;
    s[12] := x % 256;
    x := t.nano;
    s[11] := x % 256; x := x / 256;
    s[10] := x % 256; x := x / 256;
    s[9] := x % 256; x := x / 256;
    s[8] := x % 256;
    FourBytes(t.nano);
    FourBytes(t.atto);
    assert s[..16] == s[0..8] + s[8..12] + s[12..16];
  }

  /** fmt_taia: the label goes to the first 25 bytes of the caller's buffer. */
  method FmtTaia(s: array<int>, t: Instant) returns (len: nat)
    requires 25 <= s.Length && t.Normal()
    modifies s
    ensures len == 25 && s[..25] == Label(t)
  {
    hide Digits, Bytes, Text;
    var pack := new int[16];
    TaiaPack(pack, t);
    s[0] := AT;
    ghost var packed := Bytes(t.sec, 8) + Bytes(t.nano, 4);
    assert pack[..12] == packed by {
      assert pack[..16][..12] == packed;
    }
    forall k | 0 <= k < 12 ensures 0 <= packed[k] < 256 {
      assert packed[k] in Bytes(t.sec, 8) || packed[k] in Bytes(t.nano, 4);
    }
    var i := 0;
    while i < 12
      invariant 0 <= i <= 12 && s[0] == AT && pack[..12] == packed
      invariant forall k | 0 <= k < i :: s[2 * k + 1] == Hex(packed[k] / 16) && s[2 * k + 2] == Hex(packed[k] % 16)
    {
      assert pack[i] == packed[i];
      s[i * 2 + 1] := Hex(pack[i] / 16 % 16);
      s[i * 2 + 2] := Hex(pack[i] % 16);
      i := i + 1;
    }
    StampDigits(t);
    ghost var digits := Digits(Number(t), 24);
    forall k | 0 <= k < 24 ensures s[k + 1] == Hex(digits[k]) {
      assert k == k / 2 * 2 + k % 2;
      Nibble(Number(t), 12, k / 2);
    }
    len := 25;
  }

  /** Each byte is two digits. */
  lemma {:induction false} Nibble(v: int, n: nat, k: nat)
    requires k < n
    ensures Digits(v, 2 * n)[2 * k] == Bytes(v, n)[k] / 16 && Digits(v, 2 * n)[2 * k + 1] == Bytes(v, n)[k] % 16
    decreases n
  {
    assert Digits(v, 2 * n) == Digits(v / 16 / 16, 2 * n - 2) + [v / 16 % 16] + [v % 16];
    assert v / 16 / 16 == v / 256 && v / 16 % 16 == v % 256 / 16 && v % 16 == v % 256 % 16;
    if k < n - 1 {
      Nibble(v / 256, n - 1, k);
    }
  }

  /** Twelve bytes hold seconds and nanoseconds side by side. */
  lemma StampDigits(t: Instant)
    requires t.Normal()
    ensures Bytes(Number(t), 12) == Bytes(t.sec, 8) + Bytes(t.nano, 4)
  {
    var v := Number(t);
    BytesSplit(v, 8, 4);
    ShiftFour(v);
    assert v / 256 / 256 / 256 / 256 == t.sec;
    SameBytes(v, t.nano, t.sec);
  }

  lemma NextByte(v: int, high: int, low: int)
    requires v == high * 256 + low
    ensures v % 256 == low % 256 && v / 256 == high + low / 256
  {
  }

  lemma SameBytes(v: int, low: int, high: int)
    requires v == high * WORD + low
    ensures Bytes(v, 4) == Bytes(low, 4)
  {
    hide Bytes;
    FourBytes(v);
    FourBytes(low);
    NextByte(v, high * 0x100_0000, low);
    NextByte(v / 256, high * 0x1_0000, low / 256);
    NextByte(v / 256 / 256, high * 0x100, low / 256 / 256);
    NextByte(v / 256 / 256 / 256, high, low / 256 / 256 / 256);
  }

  // ----- comparison -----

  /** A string with its terminating zero byte. */
  predicate Terminated(s: seq<int>) {
    0 in s && forall c <- s :: 0 <= c < 256
  }

  /** The place where a comparison of s and t ends. */
  predicate Differ(s: seq<int>, t: seq<int>, k: nat) {
    k < |s| && k < |t| && (forall i | 0 <= i < k :: s[i] == t[i] && s[i] != 0) && (s[k] != t[k] || s[k] == 0)
  }

  /** str_diff */
  method StrDiff(s: seq<int>, t: seq<int>) returns (r: int)
    requires Terminated(s) && Terminated(t)
    ensures exists k: nat :: Differ(s, t, k) && r == s[k] - t[k]
  {
    var k := 0;
    while true
      invariant 0 <= k < |s| && k < |t| && (forall i | 0 <= i < k :: s[i] == t[i] && s[i] != 0)
      decreases |s| - k
    {
      var x := s[k];
      if x != t[k] || x == 0 {
        assert Differ(s, t, k);
        return x - t[k];
      }
      assert k + 1 < |s| by {
        var z :| 0 <= z < |s| && s[z] == 0;
      }
      assert k + 1 < |t| by {
        var z :| 0 <= z < |t| && t[z] == 0;
      }
      k := k + 1;
    }
  }

  lemma DifferOnce(s: seq<int>, t: seq<int>, j: nat, k: nat)
    requires Differ(s, t, j) && Differ(s, t, k)
    ensures j == k
  {
  }

  /** The digits of numbers are ordered as the numbers are. */
  lemma {:induction false} DigitOrder(v: int, w: int, n: nat) returns (k: nat)
    requires 0 <= v < w < Power(n)
    ensures k < n && Digits(v, n)[..k] == Digits(w, n)[..k] && Digits(v, n)[k] < Digits(w, n)[k]
  {
    if v / 16 < w / 16 {
      k := DigitOrder(v / 16, w / 16, n - 1);
      assert Digits(v, n)[..k] == Digits(v / 16, n - 1)[..k];
      assert Digits(w, n)[..k] == Digits(w / 16, n - 1)[..k];
    } else {
      k := n - 1;
      assert Digits(v, n)[..k] == Digits(v / 16, n - 1);
      assert Digits(w, n)[..k] == Digits(w / 16, n - 1);
    }
  }

  /** A log file name: the label, a dot and one more character. */
  function Name(t: Instant, c: int): (s: seq<int>)
    ensures |s| == 27 && s[0] == AT && s[26] == c
  {
    Label(t) + [46, c]
  }

  /** The earlier stamp has the smaller name, whatever the last characters are. */
  lemma EarlierIsSmaller(a: Instant, b: Instant, c: int, d: int) returns (j: nat)
    requires a.Normal() && b.Normal() && (a.sec < b.sec || (a.sec == b.sec && a.nano < b.nano))
    ensures Differ(Name(a, c) + [0], Name(b, d) + [0], j) && (Name(a, c) + [0])[j] < (Name(b, d) + [0])[j]
  {
    StampRange(a);
    StampRange(b);
    StampOrder(a, b);
    NameText(a, c);
    NameText(b, d);
    hide Digits, Power, Text, Differ, Name, Instant.Normal;
    j := NumberOrder(Number(a), Number(b), [46, c, 0], [46, d, 0]);
  }

  lemma StampOrder(a: Instant, b: Instant)
    requires a.Normal() && b.Normal() && (a.sec < b.sec || (a.sec == b.sec && a.nano < b.nano))
    ensures Number(a) < Number(b)
  {
  }

  lemma NumberOrder(v: int, w: int, t: seq<int>, u: seq<int>) returns (j: nat)
    requires 0 <= v < w < Power(24)
    ensures Differ([AT] + Text(Digits(v, 24)) + t, [AT] + Text(Digits(w, 24)) + u, j)
    ensures ([AT] + Text(Digits(v, 24)) + t)[j] < ([AT] + Text(Digits(w, 24)) + u)[j]
  {
    hide Digits, Power, Text, Differ;
    j := DigitOrder(v, w, 24);
    assert Digits(v, 24)[j] in Digits(v, 24) && Digits(w, 24)[j] in Digits(w, 24);
    TextDiffers(Digits(v, 24), Digits(w, 24), j, t, u);
    j := j + 1;
  }

  lemma NameText(t: Instant, c: int)
    ensures Name(t, c) + [0] == [AT] + Text(Digits(Number(t), 24)) + [46, c, 0]
  {
    hide Digits, Text;
  }

  /** Where two numbers of the same length have their first different digit. */
  lemma TextDiffers(ds: seq<int>, es: seq<int>, j: nat, u: seq<int>, v: seq<int>)
    requires |ds| == |es| && j < |ds| && ds[..j] == es[..j] && 0 <= ds[j] < es[j] < 16 && forall d <- ds :: 0 <= d < 16
    ensures var s, t := [AT] + Text(ds) + u, [AT] + Text(es) + v;
            Differ(s, t, j + 1) && s[j + 1] < t[j + 1]
  {
    var s, t := [AT] + Text(ds) + u, [AT] + Text(es) + v;
    forall i | 0 <= i < j + 1 ensures s[i] == t[i] && s[i] != 0 {
      if i > 0 {
        assert ds[..j][i - 1] == es[..j][i - 1] && ds[i - 1] in ds;
        assert s[i] == Hex(ds[i - 1]) && t[i] == Hex(es[i - 1]);
      }
    }
    assert s[j + 1] == Hex(ds[j]) && t[j + 1] == Hex(es[j]);
  }

  lemma StampRange(t: Instant)
    requires t.Normal()
    ensures 0 <= Number(t) < Power(24)
  {
    FourPlaces(20);
    FourPlaces(16);
    FourPlaces(12);
    FourPlaces(8);
    FourPlaces(4);
    FourPlaces(0);
    hide Power;
    assert Power(24) == 0x1_0000_0000_0000_0000_0000_0000 * Power(0);
  }

  lemma FourPlaces(n: nat)
    ensures Power(n + 4) == 0x1_0000 * Power(n) && Power(0) == 1
  {
    assert Power(n + 4) == 16 * Power(n + 3);
    assert Power(n + 3) == 16 * Power(n + 2);
    assert Power(n + 2) == 16 * Power(n + 1);
  }

  /** So the names of two stamps compare as the stamps do. */
  lemma LabelOrder(a: Instant, b: Instant, c: int, k: nat)
    requires a.Normal() && b.Normal() && 0 < c < 256
    requires Differ(Name(a, c) + [0], Name(b, c) + [0], k)
    ensures var r := (Name(a, c) + [0])[k] - (Name(b, c) + [0])[k];
            && (r < 0 <==> a.sec < b.sec || (a.sec == b.sec && a.nano < b.nano))
            && (r == 0 <==> a.sec == b.sec && a.nano == b.nano)
  {
    hide Digits, Text;
    if a.sec < b.sec || (a.sec == b.sec && a.nano < b.nano) {
      var j := EarlierIsSmaller(a, b, c, c);
      DifferOnce(Name(a, c) + [0], Name(b, c) + [0], j, k);
    } else if b.sec < a.sec || (b.sec == a.sec && b.nano < a.nano) {
      var j := EarlierIsSmaller(b, a, c, c);
      assert Differ(Name(b, c) + [0], Name(a, c) + [0], k);
      DifferOnce(Name(b, c) + [0], Name(a, c) + [0], j, k);
    } else {
      assert Name(a, c) == Name(b, c);
    }
  }
}
