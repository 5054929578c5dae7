/** Content-defined chunking: where the cut points are, and why they are local. */
module Chunking {
  import opened Wrappers
  import opened Bytes
  import opened Sequences

  const WORD: nat := 0x1_0000_0000_0000_0000

  const DEFAULT_MIN := 256 * 1024
  const DEFAULT_AVG := 1024 * 1024
  const DEFAULT_MAX := 4 * 1024 * 1024
  const NORMALIZATION := 2

  datatype Config = Config(min: int, avg: int, max: int)

  datatype ConfigError = NotPositive | OutOfOrder | AverageTooLarge | AverageTooSmall

  function BitLen(n: nat): nat {
    if n == 0 then 0 else 1 + BitLen(n / 2)
  }

  function Pow2(n: nat): nat {
    if n == 0 then 1 else 2 * Pow2(n - 1)
  }

  function Normalize(c: Config): Result<Config, ConfigError> {
    var c := if c == Config(0, 0, 0) then Config(DEFAULT_MIN, DEFAULT_AVG, DEFAULT_MAX) else c;
    if c.min <= 0 || c.avg <= 0 || c.max <= 0 then Err(NotPositive)
    else if c.min > c.avg || c.avg > c.max then Err(OutOfOrder)
    else if BitLen(c.avg) + NORMALIZATION > 63 then Err(AverageTooLarge)
    else if c.avg < Pow2(NORMALIZATION) then Err(AverageTooSmall)
    else Ok(c)
  }

  /** Everything a cut depends on besides the data. The gear table is left open: the results
      hold for every table. */
  datatype Cutter = Cutter(min: nat, avg: nat, max: nat, small: nat, large: nat, gear: seq<nat>) {
    predicate Valid() {
      0 < min <= avg <= max && |gear| == 256
    }
  }

  /** 1 << n in 64 bits. */
  function Shift(n: nat): nat {
    if n >= 64 then 0 else Pow2(n)
  }

  function MakeCutter(c: Config, gear: seq<nat>): (t: Cutter)
    requires Normalize(c) == Ok(c) && |gear| == 256
    ensures t.Valid()
  {
    AverageBits(c.avg);
    var avgBits := BitLen(c.avg) - 1;
    Cutter(c.min, c.avg, c.max, Shift(64 - (avgBits + NORMALIZATION)), Shift(64 - (avgBits - NORMALIZATION)), gear)
  }

  lemma AverageBits(avg: nat)
    requires 4 <= avg
    ensures 3 <= BitLen(avg) && (BitLen(avg) == 3 <==> avg < 8)
  {
    assert BitLen(avg / 2 / 2) >= 1;
    if avg >= 8 {
      assert BitLen(avg / 2 / 2 / 2) >= 1;
    } else {
      assert avg / 2 / 2 / 2 == 0;
    }
  }

  lemma {:induction false} ShiftPositive(n: nat)
    requires n < 64
    ensures 0 < Shift(n)
  {
    if n > 0 {
      ShiftPositive(n - 1);
    }
  }

  /** Past the average size a cut is sixteen times as likely as before it, unless the average is
      below 8, when the threshold has been shifted out of the word and no fingerprint falls below it. */
  lemma Thresholds(c: Config, gear: seq<nat>)
    requires Normalize(c) == Ok(c) && |gear| == 256
    ensures var t := MakeCutter(c, gear);
            && 0 < t.small
            && t.large == if c.avg < 8 then 0 else 16 * t.small
  {
    AverageBits(c.avg);
    var n := 64 - (BitLen(c.avg) - 1 + NORMALIZATION);
    ShiftPositive(n);
    if c.avg >= 8 {
      assert Pow2(n + 4) == 2 * Pow2(n + 3) == 4 * Pow2(n + 2) == 8 * Pow2(n + 1) == 16 * Pow2(n);
    }
  }

  // ----- cut points -----

  function Roll(t: Cutter, fp: nat, b: byte): nat
    requires t.Valid()
  {
    (2 * fp + t.gear[b as int]) % WORD
  }

  /** The rolling fingerprint after the bytes from Min up to `i`. */
  function Fingerprint(t: Cutter, data: Bytes, i: nat): nat
    requires t.Valid() && i <= |data|
  {
    if i <= t.min then 0 else Roll(t, Fingerprint(t, data, i - 1), data[i - 1])
  }

  /** The content asks for a cut right after byte `i`. */
  predicate Hit(t: Cutter, data: Bytes, i: nat)
    requires t.Valid() && i < |data|
  {
    Fingerprint(t, data, i + 1) < if i < t.avg then t.small else t.large
  }

  function Limit(t: Cutter, data: Bytes): nat {
    if |data| < t.max then |data| else t.max
  }

  function CutFrom(t: Cutter, data: Bytes, i: nat): (k: nat)
    requires t.Valid() && i <= Limit(t, data)
    ensures i <= k <= Limit(t, data)
    ensures k < Limit(t, data) ==> i < k
    decreases Limit(t, data) - i
  {
    if i == Limit(t, data) then i
    else if Hit(t, data, i) then i + 1
    else CutFrom(t, data, i + 1)
  }

  /** The length of the first chunk. */
  function Cut(t: Cutter, data: Bytes): (k: nat)
    requires t.Valid()
    ensures k <= Limit(t, data) && (data != [] ==> 0 < k)
  {
    if |data| <= t.min then |data| else CutFrom(t, data, t.min)
  }

  /** The first place after Min where the content asks for a cut; failing that, the end or Max. */
  lemma {:induction false} CutFromIsFirst(t: Cutter, data: Bytes, i: nat)
    requires t.Valid() && i <= Limit(t, data)
    ensures var k := CutFrom(t, data, i);
            && (forall j :: i <= j < k - 1 ==> !Hit(t, data, j))
            && (k == Limit(t, data) || (i < k && Hit(t, data, k - 1)))
    decreases Limit(t, data) - i
  {
    if i < Limit(t, data) && !Hit(t, data, i) {
      CutFromIsFirst(t, data, i + 1);
    }
  }

  /** Nothing that follows can move the first cut: it lies before the end, or Max forces it, or
      the content asks for it. */
  predicate Settled(t: Cutter, data: Bytes)
    requires t.Valid()
  {
    var k := Cut(t, data);
    k < |data| || k == t.max || (t.min < k && Hit(t, data, k - 1))
  }

  lemma {:induction false} FingerprintPrefix(t: Cutter, a: Bytes, b: Bytes, i: nat)
    requires t.Valid() && i <= |a| && i <= |b|
    requires forall j :: 0 <= j < i ==> a[j] == b[j]
    ensures Fingerprint(t, a, i) == Fingerprint(t, b, i)
  {
    if t.min < i {
      FingerprintPrefix(t, a, b, i - 1);
    }
  }

  lemma {:induction false} CutFromStable(t: Cutter, a: Bytes, b: Bytes, i: nat)
    requires t.Valid() && t.min <= i <= Limit(t, a)
    requires var k := CutFrom(t, a, i);
             k <= |b| && (forall j :: 0 <= j < k ==> a[j] == b[j])
             && (k == t.max || (i < k && Hit(t, a, k - 1)))
    ensures i <= Limit(t, b) && CutFrom(t, b, i) == CutFrom(t, a, i)
    decreases Limit(t, a) - i
  {
    if i < Limit(t, a) {
      FingerprintPrefix(t, a, b, i + 1);
      if !Hit(t, a, i) {
        CutFromStable(t, a, b, i + 1);
      }
    }
  }

  /** A settled cut depends on no byte after it. */
  lemma CutStable(t: Cutter, a: Bytes, b: Bytes)
    requires t.Valid() && Settled(t, a)
    requires var k := Cut(t, a); k <= |b| && a[..k] == b[..k]
    ensures Cut(t, b) == Cut(t, a) && Settled(t, b)
  {
    var k := Cut(t, a);
    assert forall j :: 0 <= j < k ==> a[j] == a[..k][j] == b[..k][j] == b[j];
    if |a| > t.min {
      CutFromIsFirst(t, a, t.min);
      CutFromStable(t, a, b, t.min);
      if t.min < k {
        FingerprintPrefix(t, a, b, k);
      }
    }
  }

  // ----- all the chunks -----

  function Pieces(t: Cutter, data: Bytes): (pieces: seq<Bytes>)
    requires t.Valid()
    ensures data == [] <==> pieces == []
  {
    if data == [] then [] else
      var k := Cut(t, data);
      [data[..k]] + Pieces(t, data[k..])
  }

  lemma {:induction false} PiecesConcat(t: Cutter, data: Bytes)
    requires t.Valid()
    ensures Concat(Pieces(t, data)) == data
    decreases |data|
  {
    if data != [] {
      var k := Cut(t, data);
      PiecesConcat(t, data[k..]);
      assert data == data[..k] + data[k..];
    }
  }

  /** Every chunk but the last has a length between Min and Max; the last may only be shorter. */
  lemma {:induction false} PieceLengths(t: Cutter, data: Bytes, i: nat)
    requires t.Valid() && i < |Pieces(t, data)|
    ensures var n := |Pieces(t, data)[i]|;
            0 < n <= t.max && (i < |Pieces(t, data)| - 1 ==> t.min <= n)
    decreases |data|
  {
    if i > 0 {
      PieceLengths(t, data[Cut(t, data)..], i - 1);
    }
  }

  function Total(pieces: seq<Bytes>): nat {
    if pieces == [] then 0 else |pieces[0]| + Total(pieces[1..])
  }

  /** Chunks that lie wholly before an edit are unchanged, unless the last of them was the final
      chunk: the stream `a + b` and the edited `a + c` agree on their first `n` chunks. */
  lemma {:induction false} ChunksBeforeEdit(t: Cutter, a: Bytes, b: Bytes, c: Bytes, n: nat)
    requires t.Valid() && n < |Pieces(t, a + b)|
    requires Total(Pieces(t, a + b)[..n]) <= |a|
    ensures n <= |Pieces(t, a + c)| && Pieces(t, a + c)[..n] == Pieces(t, a + b)[..n]
    decreases n
  {
    hide CutFrom, Hit, Fingerprint, Cut;
    if n > 0 {
      var k := Cut(t, a + b);
      var before, after := Pieces(t, a + b), Pieces(t, a + c);
      SplitPieces(before, n);
      assert k <= |a| && (a + b)[k..] == a[k..] + b && (a + c)[k..] == a[k..] + c;
      assert (a + b)[..k] == a[..k] == (a + c)[..k];
      assert before[1..] == Pieces(t, (a + b)[k..]);
      CutStable(t, a + b, a + c);
      assert after == [a[..k]] + Pieces(t, a[k..] + c);
      ChunksBeforeEdit(t, a[k..], b, c, n - 1);
      SplitPieces(after, n);
    }
  }

  lemma SplitPieces(pieces: seq<Bytes>, n: nat)
    requires 0 < n <= |pieces|
    ensures pieces[..n] == [pieces[0]] + pieces[1..][..n - 1]
    ensures Total(pieces[..n]) == |pieces[0]| + Total(pieces[1..][..n - 1])
  {
    assert pieces[..n][1..] == pieces[1..][..n - 1];
  }

  /** Appending bytes changes no chunk but the last. */
  lemma AppendKeepsAllButLast(t: Cutter, data: Bytes, more: Bytes)
    requires t.Valid() && data != []
    ensures var n := |Pieces(t, data)| - 1;
            n <= |Pieces(t, data + more)| && Pieces(t, data + more)[..n] == Pieces(t, data)[..n]
  {
    var pieces := Pieces(t, data);
    PiecesConcat(t, data);
    TotalIsLength(pieces);
    TotalPrefix(pieces, |pieces| - 1);
    assert data + [] == data;
    ChunksBeforeEdit(t, data, [], more, |pieces| - 1);
  }

  lemma {:induction false} TotalIsLength(pieces: seq<Bytes>)
    ensures Total(pieces) == |Concat(pieces)|
  {
    if pieces != [] {
      TotalIsLength(pieces[1..]);
    }
  }

  lemma {:induction false} TotalPrefix(pieces: seq<Bytes>, n: nat)
    requires n <= |pieces|
    ensures Total(pieces[..n]) <= Total(pieces)
  {
    if n > 0 {
      TotalPrefix(pieces[1..], n - 1);
      assert pieces[..n][1..] == pieces[1..][..n - 1];
    }
  }

  /** From a chunk boundary on, the chunks depend only on the bytes from there on. */
  lemma {:induction false} FromBoundary(t: Cutter, x: Bytes, s: Bytes, i: nat)
    requires t.Valid() && i <= |Pieces(t, x + s)| && Total(Pieces(t, x + s)[..i]) == |x|
    ensures Pieces(t, x + s)[i..] == Pieces(t, s)
    decreases i
  {
    var pieces := Pieces(t, x + s);
    if i == 0 {
      assert x + s == s;
    } else {
      var k := Cut(t, x + s);
      assert pieces[..i][1..] == pieces[1..][..i - 1];
      assert (x + s)[k..] == x[k..] + s;
      FromBoundary(t, x[k..], s, i - 1);
      assert pieces[i..] == pieces[1..][i - 1..];
    }
  }

  /** Two streams that both have a boundary at the start of a common suffix have the same chunks
      from there on. */
  lemma Resynchronise(t: Cutter, x: Bytes, y: Bytes, s: Bytes, i: nat, j: nat)
    requires t.Valid()
    requires i <= |Pieces(t, x + s)| && Total(Pieces(t, x + s)[..i]) == |x|
    requires j <= |Pieces(t, y + s)| && Total(Pieces(t, y + s)[..j]) == |y|
    ensures Pieces(t, x + s)[i..] == Pieces(t, y + s)[j..]
  {
    FromBoundary(t, x, s, i);
    FromBoundary(t, y, s, j);
  }

  // ----- offsets -----

  datatype Chunk = Chunk(offset: nat, data: Bytes)

  function Placed(pieces: seq<Bytes>, offset: nat): seq<Chunk> {
    if pieces == [] then [] else [Chunk(offset, pieces[0])] + Placed(pieces[1..], offset + |pieces[0]|)
  }

  lemma {:induction false} PlacedSnoc(pieces: seq<Bytes>, last: Bytes, offset: nat)
    ensures Placed(pieces + [last], offset) == Placed(pieces, offset) + [Chunk(offset + Total(pieces), last)]
    ensures Total(pieces + [last]) == Total(pieces) + |last|
  {
    if pieces == [] {
      assert [last][1..] == [];
    } else {
      assert (pieces + [last])[1..] == pieces[1..] + [last];
      PlacedSnoc(pieces[1..], last, offset + |pieces[0]|);
    }
  }

  /** A chunk's offset is where its bytes stand in the stream. */
  lemma {:induction false} OffsetsAreCorrect(pieces: seq<Bytes>, offset: nat, i: nat)
    requires i < |pieces|
    ensures |Placed(pieces, offset)| == |pieces|
    ensures var ch, whole := Placed(pieces, offset)[i], Concat(pieces);
            && ch.data == pieces[i] && offset <= ch.offset
            && ch.offset - offset + |ch.data| <= |whole|
            && whole[ch.offset - offset..][..|ch.data|] == ch.data
    decreases i
  {
    PlacedLength(pieces, offset);
    var whole := Concat(pieces);
    if i == 0 {
      assert whole[0..][..|pieces[0]|] == pieces[0];
    } else {
      OffsetsAreCorrect(pieces[1..], offset + |pieces[0]|, i - 1);
      var ch := Placed(pieces, offset)[i];
      assert whole[ch.offset - offset..] == Concat(pieces[1..])[ch.offset - offset - |pieces[0]|..];
    }
  }

  lemma {:induction false} PlacedLength(pieces: seq<Bytes>, offset: nat)
    ensures |Placed(pieces, offset)| == |pieces|
    decreases |pieces|
  {
    if pieces != [] {
      PlacedLength(pieces[1..], offset + |pieces[0]|);
    }
  }
}
