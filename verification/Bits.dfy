/** Fields of an unsigned word, read and written by shift and mask. Shifting right by p is
    division by 2^p and masking l bits is the remainder by 2^l. */
module Bits {

  function Pow2(n: nat): (r: nat)
    ensures r > 0
  {
    if n == 0 then 1 else 2 * Pow2(n - 1)
  }

  /** (v >> pos) & mask(length) */
  function GetBits(v: nat, pos: nat, length: nat): (r: nat)
    ensures r < Pow2(length)
  {
    (v / Pow2(pos)) % Pow2(length)
  }

  /** The field at pos replaced by the low bits of value, everything else kept. */
  function SetBits(src: nat, pos: nat, length: nat, value: nat): (r: int)
  {
    src - GetBits(src, pos, length) * Pow2(pos) + (value % Pow2(length)) * Pow2(pos)
  }

  lemma {:induction false} Pow2Add(a: nat, b: nat)
    ensures Pow2(a + b) == Pow2(a) * Pow2(b)
  {
    if b > 0 {
      Pow2Add(a, b - 1);
      assert Pow2(a + b) == 2 * Pow2(a + b - 1);
      assert 2 * (Pow2(a) * Pow2(b - 1)) == Pow2(a) * (2 * Pow2(b - 1));
    }
  }

  lemma AtLeast(x: int, d: nat)
    requires x >= 1
    ensures x * d >= d
  {
    assert x * d == (x - 1) * d + d;
    assert (x - 1) * d >= 0;
  }

  lemma QuotientUnique(q: int, r: int, q': int, r': int, d: nat)
    requires q * d + r == q' * d + r' && 0 <= r < d && 0 <= r' < d
    ensures q == q' && r == r'
  {
    assert (q - q') * d == r' - r && (q' - q) * d == r - r';
    if q > q' {
      AtLeast(q - q', d);
    } else if q < q' {
      AtLeast(q' - q, d);
    }
  }

  lemma Division(n: nat, d: nat)
    requires d > 0
    ensures n == (n / d) * d + n % d && 0 <= n % d < d && n / d >= 0
  {
  }

  lemma DivMod(q: nat, d: nat, r: nat)
    requires r < d
    ensures q * d + r >= 0 && (q * d + r) / d == q && (q * d + r) % d == r
  {
    assert q * d >= 0;
    var n := q * d + r;
    Division(n, d);
    QuotientUnique(q, r, n / d, n % d, d);
  }

  /** A number is its part above the field, the field, and its part below. */
  lemma Split(v: nat, pos: nat, length: nat)
    ensures var hi := v / Pow2(pos) / Pow2(length);
            v == (hi * Pow2(length) + GetBits(v, pos, length)) * Pow2(pos) + v % Pow2(pos)
  {
    hide Pow2;
    Division(v, Pow2(pos));
    Division(v / Pow2(pos), Pow2(length));
  }

  /** The parts of the result of a write. */
  lemma SetParts(src: nat, pos: nat, length: nat, value: nat)
    ensures var r := SetBits(src, pos, length, value);
            && r >= 0
            && r % Pow2(pos) == src % Pow2(pos)
            && r / Pow2(pos) % Pow2(length) == value % Pow2(length)
            && r / Pow2(pos) / Pow2(length) == src / Pow2(pos) / Pow2(length)
  {
    hide Pow2, SetBits;
    SetForm(src, pos, length, value);
    var p, l := Pow2(pos), Pow2(length);
    DivMod(src / p / l, l, value % l);
    DivMod(src / p / l * l + value % l, p, src % p);
  }

  lemma SetForm(src: nat, pos: nat, length: nat, value: nat)
    ensures var p, l := Pow2(pos), Pow2(length);
            src / p / l >= 0 && SetBits(src, pos, length, value) == (src / p / l * l + value % l) * p + src % p
  {
    hide Pow2, GetBits;
    var p, l := Pow2(pos), Pow2(length);
    Division(src, p);
    Division(src / p, l);
    Split(src, pos, length);
    var h, g, lo := src / p / l * l, value % l, src % p;
    Replace(src, h, GetBits(src, pos, length), g, p, lo);
  }

  lemma Replace(src: int, h: int, f: int, g: int, p: int, lo: int)
    requires src == (h + f) * p + lo
    ensures src - f * p + g * p == (h + g) * p + lo
  {
  }

  /** Reading back the field that was written. */
  lemma GetSetSame(src: nat, pos: nat, length: nat, value: nat)
    ensures SetBits(src, pos, length, value) >= 0
    ensures GetBits(SetBits(src, pos, length, value), pos, length) == value % Pow2(length)
  {
    hide Pow2;
    SetParts(src, pos, length, value);
  }

  /** v by the factors a and b in turn. */
  lemma Nested(v: nat, a: nat, b: nat)
    requires a > 0 && b > 0
    ensures v == (v / a / b) * (a * b) + (a * (v / a % b) + v % a)
    ensures 0 <= a * (v / a % b) + v % a < a * b && v / a / b >= 0
  {
    Division(v, a);
    Division(v / a, b);
    var x, y := v / a / b, v / a % b;
    assert (x * b + y) * a == x * (a * b) + a * y;
    AtLeast(b - y, a);
    assert (b - y) * a == a * b - a * y;
    assert a * y >= 0;
  }

  lemma DivDiv(v: nat, a: nat, b: nat)
    requires a > 0 && b > 0
    ensures a * b > 0 && v / (a * b) == v / a / b
  {
    Nested(v, a, b);
    DivMod(v / a / b, a * b, a * (v / a % b) + v % a);
  }

  lemma ModMod(v: nat, a: nat, b: nat)
    requires a > 0 && b > 0
    ensures a * b > 0 && v % (a * b) % a == v % a && v % (a * b) / a == v / a % b
  {
    Nested(v, a, b);
    DivMod(v / a / b, a * b, a * (v / a % b) + v % a);
    DivMod(v / a % b, a, v % a);
    assert a * (v / a % b) == (v / a % b) * a;
  }

  /** A field that does not overlap the written one keeps its value. */
  lemma GetSetOther(src: nat, pos: nat, length: nat, value: nat, pos': nat, length': nat)
    requires pos' + length' <= pos || pos + length <= pos'
    ensures SetBits(src, pos, length, value) >= 0
    ensures GetBits(SetBits(src, pos, length, value), pos', length') == GetBits(src, pos', length')
  {
    hide Pow2;
    SetParts(src, pos, length, value);
    var r := SetBits(src, pos, length, value);
    if pos + length <= pos' {
      HighField(r, src, pos, length, pos', length');
    } else {
      LowField(r, src, pos, pos', length');
    }
  }

  lemma HighField(r: nat, src: nat, pos: nat, length: nat, pos': nat, length': nat)
    requires pos + length <= pos'
    requires r / Pow2(pos) / Pow2(length) == src / Pow2(pos) / Pow2(length)
    ensures GetBits(r, pos', length') == GetBits(src, pos', length')
  {
    hide Pow2;
    var k := pos' - pos - length;
    Pow2Add(pos, length);
    Pow2Add(pos + length, k);
    DivDiv(r, Pow2(pos), Pow2(length));
    DivDiv(src, Pow2(pos), Pow2(length));
    DivDiv(r, Pow2(pos + length), Pow2(k));
    DivDiv(src, Pow2(pos + length), Pow2(k));
  }

  lemma LowField(r: nat, src: nat, pos: nat, pos': nat, length': nat)
    requires pos' + length' <= pos && r % Pow2(pos) == src % Pow2(pos)
    ensures GetBits(r, pos', length') == GetBits(src, pos', length')
  {
    hide Pow2;
    var k := pos - pos' - length';
    Pow2Add(pos', length');
    Pow2Add(pos' + length', k);
    ModMod(r, Pow2(pos' + length'), Pow2(k));
    ModMod(src, Pow2(pos' + length'), Pow2(k));
    ModMod(r, Pow2(pos'), Pow2(length'));
    ModMod(src, Pow2(pos'), Pow2(length'));
  }

  /** A write inside the first `width` bits stays inside them. */
  lemma SetInRange(src: nat, pos: nat, length: nat, value: nat, width: nat)
    requires pos + length <= width && src < Pow2(width)
    ensures 0 <= SetBits(src, pos, length, value) < Pow2(width)
  {
    hide Pow2;
    SetParts(src, pos, length, value);
    var r := SetBits(src, pos, length, value);
    var k := width - pos - length;
    Pow2Add(pos, length);
    Pow2Add(pos + length, k);
    DivDiv(r, Pow2(pos), Pow2(length));
    DivDiv(src, Pow2(pos), Pow2(length));
    Bounded(r, src, Pow2(pos + length), Pow2(k));
  }

  lemma Bounded(r: nat, src: nat, d: nat, n: nat)
    requires d > 0 && r / d == src / d && src < d * n
    ensures r < d * n
  {
    Division(r, d);
    Division(src, d);
    var q := src / d;
    assert (q + 1 - n) * d == q * d + d - n * d && (n - q) * d == n * d - q * d;
    if q >= n {
      AtLeast(q + 1 - n, d);
    } else {
      AtLeast(n - q, d);
    }
  }
}
