/** Where the first cut falls, from the configuration, the gear table and the bytes alone. */
module CutPoints {
  import opened Wrappers
  import opened Bytes
  import opened Chunking

  /** The bytes from `from` up to `k`, each by its gear number, the last one with weight 1 and each one
      before it with twice the weight of the next. */
  function Weighed(gear: seq<nat>, data: Bytes, from: nat, k: nat): nat
    requires |gear| == 256 && from <= k <= |data|
    decreases k - from
  {
    if from == k then 0 else Pow2(k - 1 - from) * gear[data[from] as int] + Weighed(gear, data, from + 1, k)
  }

  lemma PowDouble(n: nat, g: nat)
    ensures 2 * (Pow2(n) * g) == Pow2(n + 1) * g
  {
    assert Pow2(n + 1) == 2 * Pow2(n);
  }

  /** One more byte doubles what was there. */
  lemma {:induction false} WeighedNext(gear: seq<nat>, data: Bytes, from: nat, k: nat)
    requires |gear| == 256 && from <= k < |data|
    ensures Weighed(gear, data, from, k + 1) == 2 * Weighed(gear, data, from, k) + gear[data[k] as int]
    decreases k - from
  {
    if from < k {
      WeighedNext(gear, data, from + 1, k);
      PowDouble(k - 1 - from, gear[data[from] as int]);
    } else {
      assert Weighed(gear, data, from + 1, k + 1) == 0;
      assert Pow2(0) == 1;
    }
  }

  lemma ModDouble(a: nat, b: nat)
    ensures (2 * (a % WORD) + b) % WORD == (2 * a + b) % WORD
  {
    var q := a / WORD;
    assert a == WORD * q + a % WORD;
    assert 2 * a + b == 2 * (a % WORD) + b + WORD * (2 * q);
    ModShift(2 * (a % WORD) + b, 2 * q);
  }

  lemma ModShift(x: nat, q: nat)
    ensures (x + WORD * q) % WORD == x % WORD
  {}

  /** The rolling fingerprint is the weighed sum in 64 bits. */
  lemma {:induction false} FingerprintIsWeighed(t: Cutter, data: Bytes, k: nat)
    requires t.Valid() && t.min <= k <= |data|
    ensures Fingerprint(t, data, k) == Weighed(t.gear, data, t.min, k) % WORD
  {
    hide Weighed;
    if t.min < k {
      FingerprintIsWeighed(t, data, k - 1);
      WeighedNext(t.gear, data, t.min, k - 1);
      ModDouble(Weighed(t.gear, data, t.min, k - 1), t.gear[data[k - 1] as int]);
    } else {
      NothingWeighed(t.gear, data, k);
    }
  }

  lemma NothingWeighed(gear: seq<nat>, data: Bytes, k: nat)
    requires |gear| == 256 && k <= |data|
    ensures Weighed(gear, data, k, k) == 0
  {}

  // ----- the configuration -----

  /** The bits of the average are those of the power of two at or below it. */
  lemma {:induction false} BitsOf(n: nat)
    requires n > 0
    ensures BitLen(n) > 0 && Pow2(BitLen(n) - 1) <= n < Pow2(BitLen(n))
  {
    assert Pow2(0) == 1;
    if n > 1 {
      BitsOf(n / 2);
      assert Pow2(BitLen(n) - 1) == 2 * Pow2(BitLen(n / 2) - 1) && Pow2(BitLen(n)) == 2 * Pow2(BitLen(n / 2));
    }
  }

  lemma {:induction false} PowGrows(a: nat, b: nat)
    requires a <= b
    ensures Pow2(a) <= Pow2(b)
    decreases b - a
  {
    if a < b {
      PowGrows(a + 1, b);
    }
  }

  /** A configuration is taken as it is exactly when its sizes are in order and the average is at least 4
      and below 2^61; no configuration means 256 KiB, 1 MiB and 4 MiB. */
  lemma ConfigExactly(c: Config)
    requires c != Config(0, 0, 0)
    ensures Normalize(c) == Ok(c) <==> 0 < c.min <= c.avg <= c.max && 4 <= c.avg < Pow2(61)
    ensures Normalize(c).Ok? ==> Normalize(c).value == c
  {
    hide BitLen;
    assert Pow2(2) == 4;
    if c.avg > 0 {
      BitsOf(c.avg);
      if BitLen(c.avg) <= 61 {
        PowGrows(BitLen(c.avg), 61);
      } else {
        PowGrows(61, BitLen(c.avg) - 1);
      }
    }
  }

  lemma NoConfig()
    ensures Normalize(Config(0, 0, 0)) == Ok(Config(0x4_0000, 0x10_0000, 0x40_0000))
  {
    BitsOf(0x10_0000);
    ConfigExactly(Config(0x4_0000, 0x10_0000, 0x40_0000));
    hide BitLen;
    assert Pow2(8) == 256;
    PowAdds(8, 8);
    PowAdds(16, 8);
    PowGrows(24, 61);
  }

  // ----- thresholds -----

  lemma {:induction false} PowAdds(a: nat, b: nat)
    ensures Pow2(a) * Pow2(b) == Pow2(a + b)
  {
    if a > 0 {
      PowAdds(a - 1, b);
      assert Pow2(a) * Pow2(b) == 2 * (Pow2(a - 1) * Pow2(b));
    } else {
      assert Pow2(0) == 1;
    }
  }

  lemma PowPositive(n: nat)
    ensures Pow2(n) > 0
  {}

  lemma Pow64()
    ensures Pow2(64) == WORD
  {
    assert Pow2(8) == 256;
    PowAdds(8, 8);
    PowAdds(16, 16);
    PowAdds(32, 32);
  }

  /** Below 2^(64-n) is to have the n highest bits clear. */
  lemma BelowShift(fp: nat, n: nat)
    requires 0 < n <= 64
    ensures fp < Shift(64 - n) <==> fp * Pow2(n) < WORD
  {
    Pow64();
    PowAdds(64 - n, n);
    PowPositive(n);
    MulOrder(fp, Pow2(64 - n), Pow2(n));
  }

  lemma MulOrder(a: nat, b: nat, c: nat)
    requires c > 0
    ensures a < b <==> a * c < b * c
  {
    if a < b {
      assert (b - a) * c > 0;
    } else {
      assert (a - b) * c >= 0;
    }
  }

  /** The content asks for a cut at `k`: the highest bits of the weighed sum of the bytes since Min are
      clear, two bits more than the average has up to the average, and two bits fewer past it. For an
      average of 4 to 7 nothing past it asks for a cut. */
  predicate AsksAt(c: Config, gear: seq<nat>, data: Bytes, k: nat)
    requires |gear| == 256 && 0 < c.min < k <= |data| && 4 <= c.avg
  {
    var bits, sum := BitLen(c.avg) - 1, Weighed(gear, data, c.min, k) % WORD;
    if k <= c.avg then sum * Pow2(bits + 2) < WORD else c.avg >= 8 && bits >= 2 && sum * Pow2(bits - 2) < WORD
  }

  lemma HitIsAsked(c: Config, gear: seq<nat>, data: Bytes, k: nat)
    requires Normalize(c) == Ok(c) && |gear| == 256 && c.min < k <= |data|
    ensures Hit(MakeCutter(c, gear), data, k - 1) <==> AsksAt(c, gear, data, k)
  {
    hide Fingerprint, Weighed, Pow2, BitLen;
    var t, bits := MakeCutter(c, gear), BitLen(c.avg) - 1;
    BitsFit(c);
    AverageBits(c.avg);
    FingerprintIsWeighed(t, data, k);
    var sum := Weighed(gear, data, c.min, k) % WORD;
    if k <= c.avg {
      BelowShift(sum, bits + 2);
    } else if c.avg >= 8 {
      BelowShift(sum, bits - 2);
    }
  }

  lemma BitsFit(c: Config)
    requires Normalize(c) == Ok(c)
    ensures 0 < c.min <= c.avg <= c.max && 4 <= c.avg && BitLen(c.avg) + 2 <= 63
  {
    assert Pow2(2) == 4;
  }

  /** The length of the first chunk: all there is up to Min; otherwise the first place after Min, within
      Max, where the content asks for a cut, and failing that Max or the end. */
  lemma CutExactly(c: Config, gear: seq<nat>, data: Bytes)
    requires Normalize(c) == Ok(c) && |gear| == 256
    ensures 0 < c.min <= c.avg <= c.max && 4 <= c.avg
    ensures var k, limit := Cut(MakeCutter(c, gear), data), if |data| < c.max then |data| else c.max;
            if |data| <= c.min then k == |data|
            else
              && c.min <= k <= limit
              && (forall j :: c.min < j < k ==> !AsksAt(c, gear, data, j))
              && (k == limit || (c.min < k && AsksAt(c, gear, data, k)))
  {
    hide Hit, AsksAt, BitLen;
    BitsFit(c);
    var t := MakeCutter(c, gear);
    if |data| > c.min {
      CutFromIsFirst(t, data, c.min);
      var k := Cut(t, data);
      assert t.min == c.min && k == CutFrom(t, data, c.min);
      forall j | c.min < j <= k && j <= |data| ensures Hit(t, data, j - 1) <==> AsksAt(c, gear, data, j) {
        HitIsAsked(c, gear, data, j);
      }
      forall j | c.min < j < k ensures !AsksAt(c, gear, data, j) {
        NotHitBefore(t, data, c.min, j - 1);
      }
    }
  }

  lemma NotHitBefore(t: Cutter, data: Bytes, i: nat, j: nat)
    requires t.Valid() && i <= Limit(t, data) && i <= j < CutFrom(t, data, i) - 1
    ensures !Hit(t, data, j)
  {
    CutFromIsFirst(t, data, i);
  }

  // ----- only the last 64 bytes matter -----

  lemma {:induction false} FarBytesVanish(gear: seq<nat>, data: Bytes, from: nat, near: nat, k: nat)
    requires |gear| == 256 && from <= near <= k <= |data| && (from < near ==> near + 64 <= k)
    ensures Weighed(gear, data, from, k) % WORD == Weighed(gear, data, near, k) % WORD
    decreases near - from
  {
    if from < near {
      FarBytesVanish(gear, data, from + 1, near, k);
      var e := k - 1 - from;
      Pow64();
      PowAdds(64, e - 64);
      var g := gear[data[from] as int];
      assert Pow2(e) * g == WORD * (Pow2(e - 64) * g);
      ModShift(Weighed(gear, data, from + 1, k), Pow2(e - 64) * g);
    }
  }

  lemma {:induction false} WeighedFrame(gear: seq<nat>, a: Bytes, b: Bytes, i: nat, k: nat, l: nat)
    requires |gear| == 256 && i <= k <= |a| && k - i <= l <= |b| && a[i..k] == b[l - (k - i)..l]
    ensures Weighed(gear, a, i, k) == Weighed(gear, b, l - (k - i), l)
    decreases k - i
  {
    if i < k {
      assert a[i] == a[i..k][0] == b[l - (k - i)..l][0];
      assert a[i + 1..k] == a[i..k][1..] && b[l - (k - i) + 1..l] == b[l - (k - i)..l][1..];
      WeighedFrame(gear, a, b, i + 1, k, l);
    }
  }

  /** Bytes more than 64 before a place do not matter to whether it is asked for: two places with the same
      64 bytes before them, both that far past Min and on the same side of the average, are alike. */
  lemma OnlyNearBytesMatter(c: Config, gear: seq<nat>, a: Bytes, b: Bytes, k: nat, l: nat)
    requires Normalize(c) == Ok(c) && |gear| == 256 && 0 < c.min && 4 <= c.avg
    requires c.min + 64 <= k <= |a| && c.min + 64 <= l <= |b| && a[k - 64..k] == b[l - 64..l]
    requires k <= c.avg <==> l <= c.avg
    ensures AsksAt(c, gear, a, k) <==> AsksAt(c, gear, b, l)
  {
    hide Weighed, Pow2, BitLen, Normalize;
    FarBytesVanish(gear, a, c.min, k - 64, k);
    FarBytesVanish(gear, b, c.min, l - 64, l);
    WeighedFrame(gear, a, b, k - 64, k, l);
  }
}
