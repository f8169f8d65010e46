/**
 Power-of-two rings in chip memory, addressed by free-running 16-bit pointers that are masked on each use
 (wiz_send_data and wiz_recv_data in W5100/w5100.c).
 */
module Ring {
  import opened Bytes

  function Pow2(k: nat): (r: nat)
    ensures r > 0
  {
    if k == 0 then 1 else 2 * Pow2(k - 1)
  }

  /** The C operator `&` on non-negative numbers. */
  function And(a: nat, b: nat): (r: nat) {
    if a == 0 || b == 0 then 0 else 2 * And(a / 2, b / 2) + (a % 2) * (b % 2)
  }

  lemma HalfMod(p: nat, m: nat)
    requires m > 0
    ensures p % (2 * m) == 2 * (p / 2 % m) + p % 2
  {
    var h := p / 2;
    var q := h / m;
    assert h == m * q + h % m;
    assert p == (2 * m) * q + (2 * (h % m) + p % 2);
    ModUnique(p, 2 * m, q, 2 * (h % m) + p % 2);
  }

  lemma MulAtLeast(d: int, k: int)
    requires d > 0
    ensures k >= 1 ==> d * k >= d
    ensures k <= -1 ==> d * k <= -d
  {
    if k >= 1 {
      assert d * k == d + d * (k - 1);
    } else if k <= -1 {
      assert d * k == -d + d * (k + 1);
    }
  }

  lemma ModUnique(p: int, d: int, q: int, r: int)
    requires d > 0 && p == d * q + r && 0 <= r < d
    ensures p % d == r && p / d == q
  {
    var q', r' := p / d, p % d;
    assert d * (q - q') == r' - r;
    MulAtLeast(d, q - q');
  }

  /** Masking with a power of two less one is the remainder. */
  lemma {:induction false} AndMask(p: nat, k: nat)
    ensures And(p, Pow2(k) - 1) == p % Pow2(k)
  {
    if k > 0 {
      var m := Pow2(k - 1);
      AndMask(p / 2, k - 1);
      HalfMod(p, m);
      assert (2 * m - 1) / 2 == m - 1 && (2 * m - 1) % 2 == 1;
    }
  }

  /** A pointer masked for a ring of 2^`bits` bytes. */
  function Masked(ptr: nat, bits: nat): (m: nat)
    ensures m < Pow2(bits)
  {
    AndMask(ptr, bits);
    And(ptr, Pow2(bits) - 1)
  }

  lemma {:induction false} Pow2Divides(k: nat, n: nat) returns (c: nat)
    requires k <= n
    ensures Pow2(n) == Pow2(k) * c
  {
    c := 1;
    if k < n {
      c := Pow2Divides(k, n - 1);
      assert Pow2(n) == 2 * (Pow2(k) * c) == Pow2(k) * (2 * c);
      c := 2 * c;
    }
  }

  /** Position `i` of a ring of `max` bytes counted from the masked pointer `m`. */
  function Wrap(m: nat, i: nat, max: nat): (r: nat)
    requires m < max && i <= max
    ensures r < max
  {
    if m + i < max then m + i else m + i - max
  }

  /** Reducing modulo 2^16 first does not matter to the mask. */
  lemma ModMod(s: nat, max: nat, c: nat)
    requires max > 0 && max * c == 0x1_0000
    ensures s % 0x1_0000 % max == s % max
  {
    var h, q := s / 0x1_0000, s / max;
    assert s == 0x1_0000 * h + s % 0x1_0000;
    assert s == max * q + s % max;
    assert 0x1_0000 * h == max * (c * h);
    assert s % 0x1_0000 == max * (q - c * h) + s % max;
    ModUnique(s % 0x1_0000, max, q - c * h, s % max);
  }

  lemma WrapMod(p: nat, len: nat, max: nat)
    requires max > 0 && len <= max
    ensures (p + len) % max == Wrap(p % max, len, max)
  {
    var m, q := p % max, p / max;
    var w := Wrap(m, len, max);
    assert p == max * q + m;
    if m + len < max {
      ModUnique(p + len, max, q, w);
    } else {
      assert p + len == max * (q + 1) + w;
      ModUnique(p + len, max, q + 1, w);
    }
  }

  lemma AdvanceBy(p: nat, len: nat, max: nat, c: nat)
    requires max > 0 && len <= max && max * c == 0x1_0000
    ensures (p + len) % 0x1_0000 % max == Wrap(p % max, len, max)
  {
    ModMod(p + len, max, c);
    WrapMod(p, len, max);
  }

  lemma Pow2Of16()
    ensures Pow2(16) == 0x1_0000
  {
    assert Pow2(2) == 4;
    assert Pow2(4) == 16;
    assert Pow2(6) == 64;
    assert Pow2(8) == 256;
    assert Pow2(10) == 1024;
    assert Pow2(12) == 4096;
    assert Pow2(14) == 16384;
  }

  lemma SizeTimes(k: nat) returns (c: nat)
    requires k <= 16
    ensures Pow2(k) * c == 0x1_0000
  {
    Pow2Of16();
    var q := Pow2Divides(k, 16);
    return q;
  }

  /** Advancing a 16-bit pointer and masking it again follows the ring, also where the pointer itself wraps. */
  lemma AdvancePointer(p: nat, len: nat, k: nat)
    requires k <= 16 && len <= Pow2(k)
    ensures Masked((p + len) % 0x1_0000, k) == Wrap(Masked(p, k), len, Pow2(k))
  {
    AndMask(p, k);
    AndMask((p + len) % 0x1_0000, k);
    var c := SizeTimes(k);
    AdvanceBy(p, len, Pow2(k), c);
  }

  /** `n` bytes of the ring at `base`, from the masked pointer `m` on. */
  function Read(mem: seq<byte>, base: nat, max: nat, m: nat, n: nat): (s: seq<byte>)
    requires m < max && n <= max && base + max <= |mem|
    ensures |s| == n
  {
    seq(n, i requires 0 <= i < n => mem[base + Wrap(m, i, max)])
  }

  lemma ReadSplit(mem: seq<byte>, base: nat, max: nat, m: nat, a: nat, b: nat)
    requires m < max && a + b <= max && base + max <= |mem|
    ensures Read(mem, base, max, m, a + b) == Read(mem, base, max, m, a) + Read(mem, base, max, Wrap(m, a, max), b)
  {
  }

  /** How far position `k` of the ring lies behind the masked pointer `m`. */
  function Behind(m: nat, k: nat, max: nat): (r: nat)
    requires m < max && k < max
    ensures r < max && Wrap(m, r, max) == k
  {
    if k >= m then k - m else k + max - m
  }

  /** Storing `data` in the ring at `base`, from the masked pointer `m` on. */
  function Write(mem: seq<byte>, base: nat, max: nat, m: nat, data: seq<byte>): (r: seq<byte>)
    requires m < max && |data| <= max && base + max <= |mem|
    ensures |r| == |mem|
  {
    seq(|mem|, a requires 0 <= a < |mem| =>
      if base <= a < base + max && Behind(m, a - base, max) < |data| then data[Behind(m, a - base, max)] else mem[a])
  }

  lemma WriteOne(mem: seq<byte>, base: nat, max: nat, m: nat, b: byte)
    requires m < max && base + max <= |mem|
    ensures Write(mem, base, max, m, [b]) == mem[base + m := b]
  {
    var l, r := Write(mem, base, max, m, [b]), mem[base + m := b];
    forall a | 0 <= a < |mem| ensures l[a] == r[a] {
      if base <= a < base + max {
        assert Behind(m, a - base, max) == 0 <==> a == base + m;
      }
    }
    assert l == r;
  }

  /**
   The ring as a queue: storing `data` right behind `n` bytes that start at `m` appends it to them and changes
   none of them, as long as it fits.
   */
  lemma WriteAppends(mem: seq<byte>, base: nat, max: nat, m: nat, n: nat, data: seq<byte>)
    requires m < max && n + |data| <= max && base + max <= |mem|
    ensures Read(Write(mem, base, max, Wrap(m, n, max), data), base, max, m, n + |data|)
            == Read(mem, base, max, m, n) + data
  {
    var w := Wrap(m, n, max);
    var mem' := Write(mem, base, max, w, data);
    forall i | 0 <= i < n + |data|
      ensures Read(mem', base, max, m, n + |data|)[i] == (Read(mem, base, max, m, n) + data)[i]
    {
      var k := Wrap(m, i, max);
      assert Behind(w, k, max) == if i < n then max - n + i else i - n;
    }
  }

  /** A ring that lies outside the one written keeps its contents. */
  lemma WriteElsewhere(mem: seq<byte>, base: nat, max: nat, m: nat, data: seq<byte>,
                       base': nat, max': nat, m': nat, n': nat)
    requires m < max && |data| <= max && base + max <= |mem|
    requires m' < max' && n' <= max' && base' + max' <= |mem|
    requires base + max <= base' || base' + max' <= base
    ensures Read(Write(mem, base, max, m, data), base', max', m', n') == Read(mem, base', max', m', n')
  {
  }
}
