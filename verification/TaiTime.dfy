/** runit's TAI time stamps: sums and differences written over their own operands,
    the order of stamps, and the order of the labels made from them. */
module TaiTime {

  const SECONDS := 0x1_0000_0000_0000_0000
  const BILLION := 1_000_000_000
  const SPAN := SECONDS * BILLION * BILLION

  /** The two sizes that "unsigned long" has. */
  predicate WordSize(w: int) {
    w == 0x1_0000_0000 || w == 0x1_0000_0000_0000_0000
  }

  datatype Instant = Instant(sec: int, nano: int, atto: int)
  {
    predicate Normal() {
      0 <= sec < SECONDS && 0 <= nano < BILLION && 0 <= atto < BILLION
    }

    /** The stamp as a number of attoseconds. */
    function Value(): int {
      (sec * BILLION + nano) * BILLION + atto
    }
  }

  /** Where a number of attoseconds falls on the clock, which wraps around. */
  function At(v: int): (t: Instant)
    ensures t.Normal() && t.Value() == Unsigned(v, SPAN)
  {
    var m := Unsigned(v, SPAN);
    Instant(m / BILLION / BILLION, m / BILLION % BILLION, m % BILLION)
  }

  function Plus(u: Instant, v: Instant): Instant {
    At(u.Value() + v.Value())
  }

  function Minus(u: Instant, v: Instant): Instant {
    At(u.Value() - v.Value())
  }

  /** Normal stamps are told apart by their values. */
  lemma SameValue(t: Instant, u: Instant)
    requires t.Normal() && u.Normal() && t.Value() == u.Value()
    ensures t == u
  {
  }

  /** A normal stamp is where any number falls that differs from it by whole turns. */
  lemma AtIs(v: int, t: Instant, turns: int)
    requires t.Normal() && v == t.Value() + turns * SPAN && -1 <= turns <= 1
    ensures At(v) == t
  {
    InSpan(t);
    hide At, Instant.Value, Instant.Normal, Unsigned;
    Wrapped(v, SPAN);
    SameValue(At(v), t);
  }

  /** Adding and subtracting undo each other, around the end of time as well. */
  lemma PlusMinus(t: Instant, u: Instant)
    requires t.Normal() && u.Normal()
    ensures Minus(Plus(t, u), u) == t && Plus(Minus(t, u), u) == t
  {
    hide Instant.Value, Instant.Normal, At, Unsigned;
    InSpan(t);
    InSpan(u);
    Undo(t.Value(), u.Value(), SPAN);
    SameValue(Minus(Plus(t, u), u), t);
    SameValue(Plus(Minus(t, u), u), t);
  }

  lemma Undo(a: int, b: int, w: int)
    requires 0 <= a < w && 0 <= b < w
    ensures Unsigned(Unsigned(a + b, w) - b, w) == a && Unsigned(Unsigned(a - b, w) + b, w) == a
  {
    hide Unsigned;
    Wrapped(a + b, w);
    Wrapped(a - b, w);
    Wrapped(Unsigned(a + b, w) - b, w);
    Wrapped(Unsigned(a - b, w) + b, w);
  }

  lemma InSpan(t: Instant)
    requires t.Normal()
    ensures 0 <= t.Value() < SPAN
  {
  }

  /** Sums and differences digit by digit, with what is carried or borrowed. */
  lemma FieldsAdd(a: Instant, b: Instant, t: Instant, c: int, d: int, e: int)
    requires a.Normal() && b.Normal() && t.Normal() && 0 <= c <= 1 && 0 <= d <= 1 && 0 <= e <= 1
    requires t.atto == a.atto + b.atto - c * BILLION
    requires t.nano == a.nano + b.nano + c - d * BILLION
    requires t.sec == a.sec + b.sec + d - e * SECONDS
    ensures t == Plus(a, b)
  {
    AtIs(a.Value() + b.Value(), t, e);
  }

  lemma FieldsSub(a: Instant, b: Instant, t: Instant, c: int, d: int, e: int)
    requires a.Normal() && b.Normal() && t.Normal() && 0 <= c <= 1 && 0 <= d <= 1 && 0 <= e <= 1
    requires t.atto == a.atto - b.atto + c * BILLION
    requires t.nano == a.nano - b.nano - c + d * BILLION
    requires t.sec == a.sec - b.sec - d + e * SECONDS
    ensures t == Minus(a, b)
  {
    AtIs(a.Value() - b.Value(), t, -e);
  }

  /** What an unsigned variable with w values makes of number x. */
  function Unsigned(x: int, w: int): (r: int)
    requires w > 0
    ensures 0 <= r < w
  {
    x % w
  }

  /** One addition or subtraction wraps around at most once. */
  lemma Wrapped(x: int, w: int)
    requires w > 0 && -w <= x < 2 * w
    ensures Unsigned(x, w) == if x < 0 then x + w else if x < w then x else x - w
  {
    if x < 0 {
      Quotient(x, w, -1);
    } else {
      Quotient(x, w, if x < w then 0 else 1);
    }
  }

  lemma Fits(x: int, w: int)
    requires 0 <= x < w
    ensures Unsigned(x, w) == x
  {
  }

  lemma Quotient(x: int, w: int, q: int)
    requires w > 0 && 0 <= x - q * w < w
    ensures x % w == x - q * w
  {
    var d := q - x / w;
    assert x == x / w * w + x % w;
    assert x % w - (x - q * w) == d * w by {
      assert d * w == q * w - x / w * w;
    }
    Far(d, w);
  }

  lemma Far(d: int, w: int)
    requires w > 0
    ensures d > 0 ==> d * w >= w
    ensures d < 0 ==> d * w <= -w
  {
  }

  /** struct taia; the seconds are 64 bits wide, the fractions are words. */
  class Taia {
    var sec: int
    var nano: int
    var atto: int

    constructor (sec: int, nano: int, atto: int)
      ensures this.sec == sec && this.nano == nano && this.atto == atto
    {
      this.sec, this.nano, this.atto := sec, nano, atto;
    }

    function Now(): Instant
      reads this
    {
      Instant(sec, nano, atto)
    }
  }

  /** The carries of taia_add. */
  method Carry(t: Taia, w: int)
    requires WordSize(w) && 0 <= t.nano < 2 * BILLION - 1 && 0 <= t.atto < 2 * BILLION - 1
    modifies t
    ensures var c := if old(t.atto) < BILLION then 0 else 1;
            var d := if old(t.nano) + c < BILLION then 0 else 1;
            && t.atto == old(t.atto) - c * BILLION && t.nano == old(t.nano) + c - d * BILLION
            && t.sec == if d == 1 then Unsigned(old(t.sec) + 1, SECONDS) else old(t.sec)
  {
    hide Unsigned;
    if t.atto > 999999999 {
      Fits(t.atto - 1000000000, w);
      Fits(t.nano + 1, w);
      t.atto := Unsigned(t.atto - 1000000000, w);
      t.nano := Unsigned(t.nano + 1, w);
    }
    if t.nano > 999999999 {
      Fits(t.nano - 1000000000, w);
      t.nano := Unsigned(t.nano - 1000000000, w);
      t.sec := Unsigned(t.sec + 1, SECONDS);
    }
  }

  /** taia_add; t may be u, or v, or both. */
  method TaiaAdd(t: Taia, u: Taia, v: Taia, w: int)
    requires WordSize(w) && u.Now().Normal() && v.Now().Normal()
    modifies t
    ensures t.Now() == Plus(old(u.Now()), old(v.Now()))
  {
    hide Instant.Value, At, Plus, Unsigned;
    ghost var a, b := u.Now(), v.Now();
    ghost var c := if a.atto + b.atto < BILLION then 0 else 1;
    ghost var d := if a.nano + b.nano + c < BILLION then 0 else 1;
    ghost var e := if a.sec + b.sec + d < SECONDS then 0 else 1;
    Wrapped(a.sec + b.sec, SECONDS);
    Fits(a.nano + b.nano, w);
    Fits(a.atto + b.atto, w);
    t.sec := Unsigned(u.sec + v.sec, SECONDS);
    t.nano := Unsigned(u.nano + v.nano, w);
    t.atto := Unsigned(u.atto + v.atto, w);
    Wrapped(t.sec + 1, SECONDS);
    Carry(t, w);
    FieldsAdd(a, b, t.Now(), c, d, e);
  }

  /** The borrows of taia_sub, which show in a difference that is larger than the minuend. */
  method Borrow(t: Taia, unano: int, uatto: int, ghost vnano: int, ghost vatto: int, w: int)
    requires WordSize(w) && 0 <= unano < BILLION && 0 <= uatto < BILLION && 0 <= vnano < BILLION && 0 <= vatto < BILLION
    requires t.nano == Unsigned(unano - vnano, w) && t.atto == Unsigned(uatto - vatto, w)
    modifies t
    ensures var c := if uatto < vatto then 1 else 0;
            var d := if unano - c < vnano then 1 else 0;
            && t.atto == uatto - vatto + c * BILLION && t.nano == unano - vnano - c + d * BILLION
            && t.sec == if d == 1 then Unsigned(old(t.sec) - 1, SECONDS) else old(t.sec)
  {
    hide Unsigned;
    Wrapped(unano - vnano, w);
    Wrapped(uatto - vatto, w);
    if t.atto > uatto {
      Wrapped(t.atto + 1000000000, w);
      Wrapped(t.nano - 1, w);
      t.atto := Unsigned(t.atto + 1000000000, w);
      t.nano := Unsigned(t.nano - 1, w);
    }
    if t.nano > unano {
      Wrapped(t.nano + 1000000000, w);
      t.nano := Unsigned(t.nano + 1000000000, w);
      t.sec := Unsigned(t.sec - 1, SECONDS);
    }
  }

  /** taia_sub; both minuend fractions are kept, as t may be u. */
  method TaiaSub(t: Taia, u: Taia, v: Taia, w: int)
    requires WordSize(w) && u.Now().Normal() && v.Now().Normal()
    modifies t
    ensures t.Now() == Minus(old(u.Now()), old(v.Now()))
  {
    hide Instant.Value, At, Minus, Unsigned;
    ghost var a, b := u.Now(), v.Now();
    ghost var c := if a.atto < b.atto then 1 else 0;
    ghost var d := if a.nano - c < b.nano then 1 else 0;
    ghost var e := if a.sec - d < b.sec then 1 else 0;
    var unano := u.nano;
    var uatto := u.atto;
    Wrapped(a.sec - b.sec, SECONDS);
    t.sec := Unsigned(u.sec - v.sec, SECONDS);
    t.nano := Unsigned(unano - v.nano, w);
    t.atto := Unsigned(uatto - v.atto, w);
    Wrapped(t.sec - 1, SECONDS);
    Borrow(t, unano, uatto, b.nano, b.atto, w);
    FieldsSub(a, b, t.Now(), c, d, e);
  }

  /** taia_less */
  predicate TaiaLess(t: Instant, u: Instant)
  {
    if t.sec < u.sec then true
    else if t.sec > u.sec then false
    else if t.nano < u.nano then true
    else if t.nano > u.nano then false
    else t.atto < u.atto
  }

  /** taia_less is the order of what normal stamps stand for. */
  lemma LessIsEarlier(t: Instant, u: Instant)
    requires t.Normal() && u.Normal()
    ensures TaiaLess(t, u) <==> t.Value() < u.Value()
    ensures TaiaLess(t, u) || TaiaLess(u, t) || t == u
  {
  }
}
