/** One pixel's colour conversion (native/crates/codec-openh264/src/convert.rs). */
module Pixels {
  import opened Common

  const U_R := -1649
  const U_G := -5547
  const U_B := 7196
  const V_R := 7196
  const V_G := -6537
  const V_B := -659
  const Y8_R := 47
  const Y8_G := 157
  const Y8_B := 16

  /** The Q8 luma sum in 16-bit lanes: every operation wraps at 2^16. */
  function LumaSum(r: byte, g: byte, b: byte): nat {
    Wrap16(Wrap16(Wrap16(Wrap16(Y8_R * r) + Wrap16(Y8_G * g)) + Wrap16(Y8_B * b)) + 128)
  }

  function Wrap16(n: nat): nat {
    n % 0x1_0000
  }

  /** Rust's `as u8`. */
  function AsU8(n: int): byte {
    n % 256
  }

  function Luma(r: byte, g: byte, b: byte): byte {
    AsU8(Wrap16(16 + LumaSum(r, g, b) / 256))
  }

  /** `>> 16` on a signed value floors, and so does `/` here. */
  function Chroma(cr: int, cg: int, cb: int, rs: nat, gs: nat, bs: nat): byte {
    AsU8(128 + (cr * rs + cg * gs + cb * bs + 32768) / 65536)
  }

  function Cb(rs: nat, gs: nat, bs: nat): byte {
    Chroma(U_R, U_G, U_B, rs, gs, bs)
  }

  function Cr(rs: nat, gs: nat, bs: nat): byte {
    Chroma(V_R, V_G, V_B, rs, gs, bs)
  }

  /** No 16-bit lane ever wraps, and luma stays in the limited range. */
  lemma LumaRange(r: byte, g: byte, b: byte)
    ensures LumaSum(r, g, b) == 47 * r + 157 * g + 16 * b + 128 < 0x1_0000
    ensures Luma(r, g, b) as int == 16 + (47 * r + 157 * g + 16 * b + 128) / 256
    ensures 16 <= Luma(r, g, b) <= 235
  {
    hide Wrap16, AsU8;
    NoWrap(Y8_R * r);
    NoWrap(Y8_G * g);
    NoWrap(Y8_B * b);
    NoWrap(Y8_R * r + Y8_G * g);
    NoWrap(Y8_R * r + Y8_G * g + Y8_B * b);
    var n: nat := 47 * r + 157 * g + 16 * b + 128;
    NoWrap(n);
    QuotientWithin(n, 256, 0, 219);
    NoWrap(16 + n / 256);
  }

  lemma NoWrap(n: nat)
    requires n < 0x1_0000
    ensures Wrap16(n) == n && (n < 256 ==> AsU8(n) == n)
  {
  }

  lemma QuotientWithin(n: int, d: nat, low: int, high: int)
    requires d > 0 && d * low <= n < d * high + d
    ensures low <= n / d <= high
  {
    var q := n / d;
    assert d * q <= n < d * q + d;
    if q < low {
      MulMono(d, q + 1, low);
    }
    if q > high {
      MulMono(d, high + 1, q);
    }
  }

  /** Luma is less than one step away from the value of BT.709. */
  lemma LumaIsBt709(r: byte, g: byte, b: byte)
    ensures var exact := 16.0 + 219.0 / 255.0 * (0.2126 * r as real + 0.7152 * g as real + 0.0722 * b as real);
            -1.0 < Luma(r, g, b) as real - exact < 1.0
  {
    LumaRange(r, g, b);
    hide Luma, LumaSum;
    var n: int := 47 * r + 157 * g + 16 * b + 128;
    var q := n / 256;
    assert 256 * q <= n < 256 * q + 256;
    assert 256.0 * q as real <= n as real < 256.0 * q as real + 256.0;
    assert n as real == 47.0 * r as real + 157.0 * g as real + 16.0 * b as real + 128.0;
  }

  /** Chroma of any four pixels stays in the limited range. */
  lemma ChromaRange(rs: nat, gs: nat, bs: nat)
    requires rs <= 1020 && gs <= 1020 && bs <= 1020
    ensures 16 <= Cb(rs, gs, bs) <= 240 && 16 <= Cr(rs, gs, bs) <= 240
    ensures Cb(rs, gs, bs) as int == 128 + (U_R * rs + U_G * gs + U_B * bs + 32768) / 65536
    ensures Cr(rs, gs, bs) as int == 128 + (V_R * rs + V_G * gs + V_B * bs + 32768) / 65536
  {
    ChromaFits(U_R * rs + U_G * gs + U_B * bs);
    ChromaFits(V_R * rs + V_G * gs + V_B * bs);
  }

  lemma ChromaFits(sum: int)
    requires -7339920 <= sum <= 7339920
    ensures var c := 128 + (sum + 32768) / 65536;
            16 <= c <= 240 && AsU8(c) == c
  {
    QuotientWithin(sum + 32768, 65536, -112, 112);
  }

  /** Four greys, of whatever brightness, have exactly no colour. */
  lemma GreyIsNeutral(sum: nat)
    ensures Cb(sum, sum, sum) == 128 && Cr(sum, sum, sum) == 128
  {
    assert U_R * sum + U_G * sum + U_B * sum == 0;
    assert V_R * sum + V_G * sum + V_B * sum == 0;
  }

  /** Chroma is at most 0.6 steps away from BT.709's for the average of the four pixels. */
  lemma ChromaIsBt709(rs: nat, gs: nat, bs: nat)
    requires rs <= 1020 && gs <= 1020 && bs <= 1020
    ensures var r, g, b := rs as real / 4.0, gs as real / 4.0, bs as real / 4.0;
            var y := 0.2126 * r + 0.7152 * g + 0.0722 * b;
            && -0.6 < Cb(rs, gs, bs) as real - (128.0 + 224.0 / 255.0 * (b - y) / 1.8556) < 0.6
            && -0.6 < Cr(rs, gs, bs) as real - (128.0 + 224.0 / 255.0 * (r - y) / 1.5748) < 0.6
  {
    ChromaRange(rs, gs, bs);
    hide Cb, Cr;
    Quotient(U_R * rs + U_G * gs + U_B * bs + 32768);
    Quotient(V_R * rs + V_G * gs + V_B * bs + 32768);
  }

  lemma Quotient(n: int)
    ensures 65536.0 * (n / 65536) as real <= n as real < 65536.0 * (n / 65536) as real + 65536.0
  {
    var q := n / 65536;
    assert 65536 * q <= n < 65536 * q + 65536;
  }
}
