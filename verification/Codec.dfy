/** The blob format: version, flags, plaintext length, then the payload, compressed and sealed or not. */
module Codec {
  import opened Wrappers
  import opened Bytes

  type Digest = string

  const FORMAT_VERSION: byte := 1
  const MAX_PLAINTEXT: nat := 0x400_0000 // 64 MiB
  const NONCE_SIZE: nat := 24
  const TAG_SIZE: nat := 16
  const MAX_VARINT_LEN: nat := 10

  /** Compression, authenticated encryption and hashing, taken as given. A digest that is not well
      formed has no nonce. */
  datatype Primitives = Primitives(
    compress: Bytes -> Bytes,
    decompress: Bytes -> Option<Bytes>,
    seal: (Bytes, Bytes, Bytes, Bytes) -> Bytes,
    unseal: (Bytes, Bytes, Bytes, Bytes) -> Option<Bytes>,
    nonce: (Bytes, Digest) -> Option<Bytes>,
    sum: Bytes -> Digest)

  /** Opening the first `m` bytes of the sealed `x` fails or gives the beginning of `x` that fits. */
  predicate OpensToFront(got: Option<Bytes>, x: Bytes, m: nat) {
    got.Some? ==> got.value <= x && |got.value| + TAG_SIZE == m
  }

  /** What is asked of them: decompression undoes compression within the decoder's memory and does not
      take the beginning of a compressed text for all of it; opening undoes sealing, which adds a tag, and
      if it opens the beginning of a sealed text then to a beginning of the text; nonces have their length,
      and no two contents share a digest. */
  ghost predicate Lawful(p: Primitives) {
    && (forall x :: |x| <= MAX_PLAINTEXT ==> p.decompress(p.compress(x)) == Some(x))
    && (forall x, m :: |x| <= MAX_PLAINTEXT && 0 <= m < |p.compress(x)| ==> p.decompress(p.compress(x)[..m]) != Some(x))
    && (forall key, nonce, x, header :: p.unseal(key, nonce, p.seal(key, nonce, x, header), header) == Some(x))
    && (forall key, nonce, x, header, m :: 0 <= m < |p.seal(key, nonce, x, header)| ==>
          OpensToFront(p.unseal(key, nonce, p.seal(key, nonce, x, header)[..m], header), x, m))
    && (forall key, nonce, x, header :: |p.seal(key, nonce, x, header)| == |x| + TAG_SIZE)
    && (forall key, x :: p.nonce(key, p.sum(x)).Some?)
    && (forall key, d :: p.nonce(key, d).Some? ==> |p.nonce(key, d).value| == NONCE_SIZE)
    && (forall x, y :: p.sum(x) == p.sum(y) ==> x == y)
  }

  // ----- variable-length integers -----

  function PutUvarint(x: nat): (b: Bytes)
    ensures b != []
  {
    if x < 128 then [x as byte] else [(x % 128 + 128) as byte] + PutUvarint(x / 128)
  }

  /** The number at the front of `b`, of which `i` bytes have been read, and how long it is; nothing
      when the input ends first or the number overflows 64 bits. */
  function Uvarint(b: Bytes, i: nat): (r: Option<(nat, nat)>)
    requires i <= |b| && i <= MAX_VARINT_LEN
    ensures r.Some? ==> i < i + r.value.1 <= |b|
    decreases MAX_VARINT_LEN - i
  {
    if i == |b| || i == MAX_VARINT_LEN then None
    else if b[i] < 128 then
      if i == MAX_VARINT_LEN - 1 && b[i] > 1 then None else Some((b[i] as nat, 1))
    else
      match Uvarint(b, i + 1)
      case None => None
      case Some((high, n)) => Some((b[i] as nat - 128 + 128 * high, n + 1))
  }

  /** 2 to the power 64 - 7i: what still fits in 64 bits after `i` bytes of seven bits each. */
  function Capacity(i: nat): nat
    requires i < MAX_VARINT_LEN
    decreases MAX_VARINT_LEN - i
  {
    if i == MAX_VARINT_LEN - 1 then 2 else 128 * Capacity(i + 1)
  }

  /** Every length that a blob may claim fits. */
  lemma PlaintextFits()
    ensures MAX_PLAINTEXT < Capacity(0)
  {
    assert Capacity(8) == 0x100;
    assert Capacity(6) == 0x40_0000;
    assert Capacity(4) == 0x10_0000_0000;
    assert Capacity(2) > MAX_PLAINTEXT;
  }

  /** Reading back what was written, whatever follows. */
  lemma {:induction false} UvarintRoundTrip(before: Bytes, x: nat, after: Bytes)
    requires |before| < MAX_VARINT_LEN && x < Capacity(|before|)
    ensures Uvarint(before + PutUvarint(x) + after, |before|) == Some((x, |PutUvarint(x)|))
    ensures |before| + |PutUvarint(x)| <= MAX_VARINT_LEN
    decreases MAX_VARINT_LEN - |before|
  {
    var b := before + PutUvarint(x) + after;
    if x >= 128 {
      var low := (x % 128 + 128) as byte;
      assert b[|before|] == low;
      UvarintRoundTrip(before + [low], x / 128, after);
      assert b == before + [low] + PutUvarint(x / 128) + after;
    }
  }

  // ----- blobs -----

  datatype Error = Malformed | NeedKey | UnknownVersion | DecryptFailed | DecompressFailed | BadDigest

  predicate Compressed(flags: byte) {
    flags % 2 == 1
  }

  predicate Encrypted(flags: byte) {
    flags / 2 % 2 == 1
  }

  predicate IsEncrypted(blob: Bytes) {
    |blob| >= 2 && Encrypted(blob[1])
  }

  function Payload(p: Primitives, plain: Bytes): Bytes {
    if |p.compress(plain)| < |plain| then p.compress(plain) else plain
  }

  /** Version, flags and length. */
  function Header(p: Primitives, plain: Bytes, encrypted: bool): Bytes {
    var compressed: byte := if |p.compress(plain)| < |plain| then 1 else 0;
    [FORMAT_VERSION, compressed + if encrypted then 2 else 0] + PutUvarint(|plain|)
  }

  /** The blob of a chunk. */
  function Layout(p: Primitives, key: Option<Bytes>, plain: Bytes, digest: Digest): Result<Bytes, Error> {
    if key.None? then Ok(Header(p, plain, false) + Payload(p, plain)) else
      match p.nonce(key.value, digest)
      case None => Err(BadDigest)
      case Some(nonce) =>
        var header := Header(p, plain, true) + nonce;
        Ok(header + p.seal(key.value, nonce, Payload(p, plain), header))
  }

  method Encode(p: Primitives, key: Option<Bytes>, plain: Bytes, plainDigest: Digest) returns (r: Result<Bytes, Error>)
    ensures r == Layout(p, key, plain, plainDigest)
  {
    var flags: byte := 0;
    var payload := p.compress(plain);
    if |payload| < |plain| {
      flags := flags + 1;
    } else {
      payload := plain;
    }
    var header := [FORMAT_VERSION, 0];
    header := header + PutUvarint(|plain|);
    if key.None? {
      header := header[1 := flags];
      assert header == Header(p, plain, false);
      return Ok(header + payload);
    }
    flags := flags + 2;
    header := header[1 := flags];
    assert header == Header(p, plain, true);
    var nonce := p.nonce(key.value, plainDigest);
    if nonce.None? {
      return Err(BadDigest);
    }
    header := header + nonce.value;
    return Ok(header + p.seal(key.value, nonce.value, payload, header));
  }

  /** The stages of reading a blob: its header, then opening, then inflating to the length claimed. */
  function ParseHeader(blob: Bytes): (r: Result<(byte, nat, nat), Error>)
    ensures r.Ok? ==> |blob| >= 3 && r.value.1 <= MAX_PLAINTEXT && 2 < r.value.2 <= |blob|
  {
    if |blob| < 3 then Err(Malformed)
    else if blob[0] != FORMAT_VERSION then Err(UnknownVersion)
    else
      match Uvarint(blob[2..], 0)
      case None => Err(Malformed)
      case Some((plainLen, n)) =>
        if plainLen > MAX_PLAINTEXT then Err(Malformed) else Ok((blob[1], plainLen, 2 + n))
  }

  function Open(p: Primitives, key: Option<Bytes>, blob: Bytes, flags: byte, headerLen: nat): Result<Bytes, Error>
    requires headerLen <= |blob|
  {
    if !Encrypted(flags) then Ok(blob[headerLen..])
    else if key.None? then Err(NeedKey)
    else if |blob| - headerLen < NONCE_SIZE then Err(Malformed)
    else
      var body := headerLen + NONCE_SIZE;
      match p.unseal(key.value, blob[headerLen..body], blob[body..], blob[..body])
      case None => Err(DecryptFailed)
      case Some(plain) => Ok(plain)
  }

  function Inflate(p: Primitives, rest: Bytes, flags: byte, plainLen: nat): Result<Bytes, Error> {
    if !Compressed(flags) then
      if |rest| != plainLen then Err(Malformed) else Ok(rest)
    else
      match p.decompress(rest)
      case None => Err(DecompressFailed)
      case Some(out) => if |out| != plainLen then Err(Malformed) else Ok(out)
  }

  function Unpack(p: Primitives, key: Option<Bytes>, blob: Bytes): (r: Result<Bytes, Error>)
    ensures r.Ok? ==> |r.value| <= MAX_PLAINTEXT
  {
    match ParseHeader(blob)
    case Err(e) => Err(e)
    case Ok((flags, plainLen, headerLen)) =>
      match Open(p, key, blob, flags, headerLen)
      case Err(e) => Err(e)
      case Ok(rest) => Inflate(p, rest, flags, plainLen)
  }

  lemma SplitRest(blob: Bytes, h: nat, n: nat)
    requires h + n <= |blob|
    ensures blob[h..][..n] == blob[h..h + n] && blob[h..][n..] == blob[h + n..]
  {}

  /** Opens what follows the header, if it is sealed. */
  method OpenRest(p: Primitives, key: Option<Bytes>, blob: Bytes, flags: byte, headerLen: nat)
    returns (r: Result<Bytes, Error>)
    requires headerLen <= |blob|
    ensures r == Open(p, key, blob, flags, headerLen)
  {
    var rest := blob[headerLen..];
    if !Encrypted(flags) {
      return Ok(rest);
    }
    if key.None? {
      return Err(NeedKey);
    }
    if |rest| < NONCE_SIZE {
      return Err(Malformed);
    }
    SplitRest(blob, headerLen, NONCE_SIZE);
    var nonce, ciphertext := rest[..NONCE_SIZE], rest[NONCE_SIZE..];
    var plain := p.unseal(key.value, nonce, ciphertext, blob[..headerLen + NONCE_SIZE]);
    if plain.None? {
      return Err(DecryptFailed);
    }
    return Ok(plain.value);
  }

  method Decode(p: Primitives, key: Option<Bytes>, blob: Bytes) returns (r: Result<Bytes, Error>)
    ensures r == Unpack(p, key, blob)
  {
    hide Uvarint, Open;
    if |blob| < 3 {
      return Err(Malformed);
    }
    if blob[0] != FORMAT_VERSION {
      return Err(UnknownVersion);
    }
    var flags := blob[1];
    var length := Uvarint(blob[2..], 0);
    if length.None? {
      return Err(Malformed);
    }
    var (plainLen, n) := length.value;
    if plainLen > MAX_PLAINTEXT {
      return Err(Malformed);
    }
    var rest := OpenRest(p, key, blob, flags, 2 + n);
    if rest.Err? {
      return rest;
    }
    if !Compressed(flags) {
      if |rest.value| != plainLen {
        return Err(Malformed);
      }
      return rest;
    }
    var out := p.decompress(rest.value);
    if out.None? {
      return Err(DecompressFailed);
    }
    if |out.value| != plainLen {
      return Err(Malformed);
    }
    return Ok(out.value);
  }

  // ----- the round trip -----

  lemma HeaderReadsBack(p: Primitives, plain: Bytes, encrypted: bool, body: Bytes)
    requires |plain| < Capacity(0)
    ensures var blob := Header(p, plain, encrypted) + body;
            if |plain| > MAX_PLAINTEXT then ParseHeader(blob) == Err(Malformed)
            else ParseHeader(blob) == Ok((Header(p, plain, encrypted)[1], |plain|, |Header(p, plain, encrypted)|))
  {
    var blob := Header(p, plain, encrypted) + body;
    UvarintRoundTrip([], |plain|, body);
    assert blob[2..] == [] + PutUvarint(|plain|) + body;
  }

  lemma SealingLaws(p: Primitives, key: Bytes, plain: Bytes, header: Bytes)
    requires Lawful(p)
    ensures p.nonce(key, p.sum(plain)).Some? && |p.nonce(key, p.sum(plain)).value| == NONCE_SIZE
    ensures var nonce := p.nonce(key, p.sum(plain)).value;
            p.unseal(key, nonce, p.seal(key, nonce, Payload(p, plain), header), header) == Some(Payload(p, plain))
  {}

  lemma SealedReadsBack(p: Primitives, key: Bytes, plain: Bytes)
    requires Lawful(p) && |plain| <= MAX_PLAINTEXT
    ensures Layout(p, Some(key), plain, p.sum(plain)).Ok?
    ensures var blob := Layout(p, Some(key), plain, p.sum(plain)).value;
            ParseHeader(blob).Ok? && var (flags, plainLen, headerLen) := ParseHeader(blob).value;
            plainLen == |plain| && (Compressed(flags) <==> |p.compress(plain)| < |plain|)
            && Open(p, Some(key), blob, flags, headerLen) == Ok(Payload(p, plain))
            && Encrypted(flags)
  {
    hide Lawful, ParseHeader, Uvarint, PutUvarint, Payload;
    PlaintextFits();
    SealingLaws(p, key, plain, []);
    var front, nonce := Header(p, plain, true), p.nonce(key, p.sum(plain)).value;
    var header := front + nonce;
    SealingLaws(p, key, plain, header);
    var sealed := p.seal(key, nonce, Payload(p, plain), header);
    var blob := header + sealed;
    assert blob == front + (nonce + sealed);
    HeaderReadsBack(p, plain, true, nonce + sealed);
    assert blob[|front|..|header|] == nonce && blob[|header|..] == sealed && blob[..|header|] == header;
  }

  lemma PlainReadsBack(p: Primitives, key: Option<Bytes>, plain: Bytes)
    requires Lawful(p) && |plain| <= MAX_PLAINTEXT
    ensures Layout(p, None, plain, p.sum(plain)).Ok?
    ensures var blob := Layout(p, None, plain, p.sum(plain)).value;
            ParseHeader(blob).Ok? && var (flags, plainLen, headerLen) := ParseHeader(blob).value;
            plainLen == |plain| && (Compressed(flags) <==> |p.compress(plain)| < |plain|)
            && Open(p, key, blob, flags, headerLen) == Ok(Payload(p, plain))
            && !Encrypted(flags)
  {
    PlaintextFits();
    var front := Header(p, plain, false);
    var blob := front + Payload(p, plain);
    HeaderReadsBack(p, plain, false, Payload(p, plain));
    assert blob[|front|..] == Payload(p, plain);
  }

  /** A blob reads back as the chunk it was made from exactly when the chunk is within the size limit,
      whether it was sealed or not; one that was not sealed reads back under any key, or none. */
  lemma RoundTrip(p: Primitives, written: Option<Bytes>, key: Option<Bytes>, plain: Bytes)
    requires Lawful(p) && |plain| < Capacity(0)
    requires written.None? || written == key
    ensures var blob := Layout(p, written, plain, p.sum(plain));
            blob.Ok? && (Unpack(p, key, blob.value) == Ok(plain) <==> |plain| <= MAX_PLAINTEXT)
  {
    var blob := Layout(p, written, plain, p.sum(plain));
    if |plain| <= MAX_PLAINTEXT {
      if written.None? {
        PlainReadsBack(p, key, plain);
      } else {
        SealedReadsBack(p, key.value, plain);
      }
    }
  }

  // ----- the format, byte by byte -----

  /** The number in `n` bytes from place `i`: seven bits in each, the lowest first. */
  function SevenBits(b: Bytes, i: nat, n: nat): nat
    requires i + n <= |b|
    decreases n
  {
    if n == 0 then 0 else b[i] as nat % 128 + 128 * SevenBits(b, i + 1, n - 1)
  }

  /** `n` bytes from place `i` are a number: the top bit is set in all but the last, and 64 bits suffice. */
  predicate IsNumber(b: Bytes, i: nat, n: nat): (yes: bool)
    ensures yes ==> 0 < n && i + n <= |b| && i + n <= 10
  {
    && 0 < n && i + n <= |b| && i + n <= 10
    && b[i + n - 1] < 128 && (i + n == 10 ==> b[i + n - 1] <= 1)
    && forall k :: i <= k < i + n - 1 ==> b[k] >= 128
  }

  lemma NumberByByte(b: Bytes, i: nat, n: nat)
    requires i < |b| && 0 < n
    ensures IsNumber(b, i, n) <==>
              if n == 1 then b[i] < 128 && i < 10 && (i == 9 ==> b[i] <= 1) else b[i] >= 128 && IsNumber(b, i + 1, n - 1)
    ensures i + n <= |b| ==> SevenBits(b, i, n) == b[i] as nat % 128 + 128 * SevenBits(b, i + 1, n - 1)
    ensures n == 1 ==> SevenBits(b, i, 1) == b[i] as nat % 128
  {}

  lemma {:induction false} ReadIsNumber(b: Bytes, i: nat)
    requires i <= |b| && i <= 10 && Uvarint(b, i).Some?
    ensures var (x, n) := Uvarint(b, i).value; IsNumber(b, i, n) && SevenBits(b, i, n) == x
    decreases 10 - i
  {
    hide IsNumber, SevenBits;
    NumberByByte(b, i, Uvarint(b, i).value.1);
    if b[i] >= 128 {
      ReadIsNumber(b, i + 1);
    }
  }

  lemma {:induction false} NumberIsRead(b: Bytes, i: nat, n: nat)
    requires i <= |b| && i <= 10 && IsNumber(b, i, n)
    ensures Uvarint(b, i) == Some((SevenBits(b, i, n), n))
    decreases 10 - i
  {
    hide IsNumber, SevenBits;
    NumberByByte(b, i, n);
    if n > 1 {
      NumberIsRead(b, i + 1, n - 1);
    }
  }

  /** What is read is the number that stands there. */
  lemma UvarintExactly(b: Bytes, i: nat, x: nat, n: nat)
    requires i <= |b| && i <= 10
    ensures Uvarint(b, i) == Some((x, n)) <==> IsNumber(b, i, n) && SevenBits(b, i, n) == x
  {
    hide Uvarint, IsNumber, SevenBits;
    if Uvarint(b, i).Some? {
      ReadIsNumber(b, i);
    }
    if IsNumber(b, i, n) {
      NumberIsRead(b, i, n);
    }
  }

  /** What a blob has to be to read back as `x`: version 1, two flag bits, the length of `x`, of at most
      64 MiB, and then `x`, compressed if the first flag says so, and sealed, after its nonce and with all
      that stands before it as associated data, if the second does. */
  predicate IsBlobOf(p: Primitives, key: Option<Bytes>, blob: Bytes, x: Bytes, n: nat) {
    && |blob| >= 3 && blob[0] == 1
    && IsNumber(blob[2..], 0, n) && SevenBits(blob[2..], 0, n) == |x| <= 0x400_0000
    && var rest := if blob[1] / 2 % 2 == 0 then Some(blob[2 + n..])
                   else if key.None? || |blob| < 2 + n + 24 then None
                   else p.unseal(key.value, blob[2 + n..2 + n + 24], blob[2 + n + 24..], blob[..2 + n + 24]);
       rest.Some? && if blob[1] % 2 == 0 then rest.value == x else p.decompress(rest.value) == Some(x)
  }

  /** A blob reads back as `x` exactly when it is one. */
  lemma UnpackExactly(p: Primitives, key: Option<Bytes>, blob: Bytes, x: Bytes)
    ensures Unpack(p, key, blob) == Ok(x) <==> exists n: nat :: IsBlobOf(p, key, blob, x, n)
  {
    hide Uvarint, IsNumber, SevenBits;
    if |blob| >= 3 {
      var length := Uvarint(blob[2..], 0);
      if length.Some? {
        UvarintExactly(blob[2..], 0, length.value.0, length.value.1);
        assert Unpack(p, key, blob) == Ok(x) ==> IsBlobOf(p, key, blob, x, length.value.1);
      }
      forall n: nat | IsBlobOf(p, key, blob, x, n) ensures Unpack(p, key, blob) == Ok(x) {
        UvarintExactly(blob[2..], 0, |x|, n);
      }
    }
  }

  lemma {:induction false} PutUvarintIsNumber(x: nat)
    ensures SevenBits(PutUvarint(x), 0, |PutUvarint(x)|) == x
    decreases x
  {
    if x >= 128 {
      PutUvarintIsNumber(x / 128);
      SevenBitsTail((x % 128 + 128) as byte, PutUvarint(x / 128), 0, |PutUvarint(x / 128)|);
    }
  }

  lemma {:induction false} SevenBitsTail(first: byte, b: Bytes, i: nat, n: nat)
    requires i + n <= |b|
    ensures SevenBits([first] + b, i + 1, n) == SevenBits(b, i, n)
    decreases n
  {
    if n > 0 {
      SevenBitsTail(first, b, i + 1, n - 1);
    }
  }

  /** What a chunk is stored as: version 1, flag 1 if compression makes it shorter and flag 2 with a key,
      its length, and then the shorter of the two forms, sealed with a key after the nonce for its digest. */
  lemma FormatExactly(p: Primitives, key: Option<Bytes>, plain: Bytes, digest: Digest)
    ensures var shorter := |p.compress(plain)| < |plain|;
            var payload := if shorter then p.compress(plain) else plain;
            var front := [1, (if shorter then 1 else 0) + (if key.Some? then 2 else 0)] + PutUvarint(|plain|);
            Layout(p, key, plain, digest) ==
              if key.None? then Ok(front + payload)
              else if p.nonce(key.value, digest).None? then Err(BadDigest)
              else var header := front + p.nonce(key.value, digest).value;
                   Ok(header + p.seal(key.value, p.nonce(key.value, digest).value, payload, header))
    ensures SevenBits(PutUvarint(|plain|), 0, |PutUvarint(|plain|)|) == |plain|
  {
    PutUvarintIsNumber(|plain|);
  }

  /** A reader tells what is wrong: too short or no length, another version, a key that is missing. */
  lemma WrongExactly(p: Primitives, key: Option<Bytes>, blob: Bytes)
    ensures |blob| < 3 ==> Unpack(p, key, blob) == Err(Malformed)
    ensures |blob| >= 3 && blob[0] != 1 <==> Unpack(p, key, blob) == Err(UnknownVersion)
    ensures Unpack(p, key, blob) == Err(NeedKey) <==>
              && |blob| >= 3 && blob[0] == 1 && blob[1] / 2 % 2 == 1 && key.None?
              && exists n: nat :: IsNumber(blob[2..], 0, n) && SevenBits(blob[2..], 0, n) <= 0x400_0000
    ensures Unpack(p, key, blob) == Err(DecryptFailed) ==> key.Some? && blob[1] / 2 % 2 == 1
    ensures Unpack(p, key, blob) == Err(DecompressFailed) ==> blob[1] % 2 == 1
  {
    hide Uvarint, IsNumber, SevenBits;
    if |blob| >= 3 {
      var length := Uvarint(blob[2..], 0);
      if length.Some? {
        UvarintExactly(blob[2..], 0, length.value.0, length.value.1);
      }
      forall n: nat | IsNumber(blob[2..], 0, n) ensures length == Some((SevenBits(blob[2..], 0, n), n)) {
        UvarintExactly(blob[2..], 0, SevenBits(blob[2..], 0, n), n);
      }
    }
  }

  // ----- a blob that was cut short -----

  lemma {:induction false} UvarintCut(before: Bytes, x: nat, m: nat)
    requires |before| < MAX_VARINT_LEN && x < Capacity(|before|) && m < |PutUvarint(x)|
    ensures Uvarint(before + PutUvarint(x)[..m], |before|).None?
    decreases MAX_VARINT_LEN - |before|
  {
    if x >= 128 && m > 0 {
      var low := (x % 128 + 128) as byte;
      assert PutUvarint(x)[..m] == [low] + PutUvarint(x / 128)[..m - 1];
      UvarintCut(before + [low], x / 128, m - 1);
      assert before + PutUvarint(x)[..m] == before + [low] + PutUvarint(x / 128)[..m - 1];
    }
  }

  lemma HeaderCut(p: Primitives, plain: Bytes, encrypted: bool, m: nat)
    requires |plain| < Capacity(0) && m < |Header(p, plain, encrypted)|
    ensures ParseHeader(Header(p, plain, encrypted)[..m]).Err?
  {
    if m >= 3 {
      UvarintCut([], |plain|, m - 2);
      assert Header(p, plain, encrypted)[..m][2..] == [] + PutUvarint(|plain|)[..m - 2];
    }
  }

  /** What is left of a payload does not inflate to the chunk. */
  lemma PayloadCut(p: Primitives, plain: Bytes, encrypted: bool, rest: Bytes)
    requires Lawful(p) && |plain| <= MAX_PLAINTEXT && rest < Payload(p, plain)
    ensures Inflate(p, rest, Header(p, plain, encrypted)[1], |plain|) != Ok(plain)
  {
    assert rest == Payload(p, plain)[..|rest|];
  }

  lemma PlainCut(p: Primitives, key: Option<Bytes>, plain: Bytes, m: nat)
    requires Lawful(p) && |plain| <= MAX_PLAINTEXT
    requires |Header(p, plain, false)| <= m < |Header(p, plain, false) + Payload(p, plain)|
    ensures Unpack(p, key, (Header(p, plain, false) + Payload(p, plain))[..m]) != Ok(plain)
  {
    hide Lawful, ParseHeader, Payload, Inflate;
    PlaintextFits();
    var front := Header(p, plain, false);
    var rest := Payload(p, plain)[..m - |front|];
    assert (front + Payload(p, plain))[..m] == front + rest;
    HeaderReadsBack(p, plain, false, rest);
    assert (front + rest)[|front|..] == rest;
    PayloadCut(p, plain, false, rest);
  }

  lemma Parts(a: Bytes, b: Bytes, c: Bytes)
    ensures (a + b + c)[|a|..|a + b|] == b && (a + b + c)[|a + b|..] == c && (a + b + c)[..|a + b|] == a + b
  {}

  lemma SealedCut(p: Primitives, key: Bytes, plain: Bytes, m: nat)
    requires Lawful(p) && |plain| <= MAX_PLAINTEXT && Layout(p, Some(key), plain, p.sum(plain)).Ok?
    requires |Header(p, plain, true)| <= m < |Layout(p, Some(key), plain, p.sum(plain)).value|
    ensures Unpack(p, Some(key), Layout(p, Some(key), plain, p.sum(plain)).value[..m]) != Ok(plain)
  {
    hide Lawful, ParseHeader, Payload, Inflate, Uvarint, PutUvarint;
    PlaintextFits();
    var front, nonce := Header(p, plain, true), p.nonce(key, p.sum(plain)).value;
    var header := front + nonce;
    SealingLaws(p, key, plain, header);
    var sealed := p.seal(key, nonce, Payload(p, plain), header);
    var short := (header + sealed)[..m];
    assert short == front + (nonce + sealed)[..m - |front|] by {
      assert header + sealed == front + (nonce + sealed);
    }
    HeaderReadsBack(p, plain, true, (nonce + sealed)[..m - |front|]);
    if m >= |header| {
      var left := sealed[..m - |header|];
      assert short == header + left;
      Parts(front, nonce, left);
      SealedFront(p, key, nonce, Payload(p, plain), header, |left|);
      var got := p.unseal(key, nonce, left, header);
      if got.Some? {
        PayloadCut(p, plain, true, got.value);
      }
    }
  }

  lemma SealedFront(p: Primitives, key: Bytes, nonce: Bytes, x: Bytes, header: Bytes, m: nat)
    requires Lawful(p) && m < |p.seal(key, nonce, x, header)|
    ensures var got := p.unseal(key, nonce, p.seal(key, nonce, x, header)[..m], header);
            got.Some? ==> got.value < x
  {
    assert OpensToFront(p.unseal(key, nonce, p.seal(key, nonce, x, header)[..m], header), x, m);
  }

  /** No matter where a blob is cut short, what is left does not read back as the chunk. */
  lemma TruncationIsNoticed(p: Primitives, written: Option<Bytes>, key: Option<Bytes>, plain: Bytes, m: nat)
    requires Lawful(p) && |plain| <= MAX_PLAINTEXT && (written.None? || written == key)
    requires Layout(p, written, plain, p.sum(plain)).Ok? && m < |Layout(p, written, plain, p.sum(plain)).value|
    ensures Unpack(p, key, Layout(p, written, plain, p.sum(plain)).value[..m]) != Ok(plain)
  {
    hide Lawful, ParseHeader, Open, Inflate, Payload;
    PlaintextFits();
    var blob, front := Layout(p, written, plain, p.sum(plain)).value, Header(p, plain, written.Some?);
    if m < |front| {
      assert blob[..m] == front[..m];
      HeaderCut(p, plain, written.Some?, m);
    } else if written.None? {
      PlainCut(p, key, plain, m);
    } else {
      SealedCut(p, key.value, plain, m);
    }
  }

  /** A sealed blob cannot be read without a key. */
  lemma SealedNeedsKey(p: Primitives, key: Bytes, plain: Bytes)
    requires Lawful(p) && |plain| <= MAX_PLAINTEXT
    ensures var blob := Layout(p, Some(key), plain, p.sum(plain));
            blob.Ok? && IsEncrypted(blob.value) && Unpack(p, None, blob.value) == Err(NeedKey)
  {
    PlaintextFits();
    SealedReadsBack(p, key, plain);
  }

  /** What the format adds to a chunk at most. */
  const OVERHEAD: nat := 2 + MAX_VARINT_LEN + NONCE_SIZE + TAG_SIZE

  lemma BlobSize(p: Primitives, key: Option<Bytes>, plain: Bytes)
    requires Lawful(p) && |plain| < Capacity(0)
    ensures var blob := Layout(p, key, plain, p.sum(plain)); blob.Ok? && |blob.value| <= |plain| + OVERHEAD
  {
    UvarintRoundTrip([], |plain|, []);
    if key.Some? {
      var nonce := p.nonce(key.value, p.sum(plain)).value;
      assert |p.seal(key.value, nonce, Payload(p, plain), Header(p, plain, true) + nonce)| == |Payload(p, plain)| + TAG_SIZE;
    }
  }

  // ----- primitives that meet the laws -----

  function Zeros(n: nat): Bytes {
    seq(n, _ => 0 as byte)
  }

  /** No compression, and a tag of zeros for a seal. */
  function Unsealed(c: Bytes): Option<Bytes> {
    if |c| < TAG_SIZE then None else Some(c[..|c| - TAG_SIZE])
  }

  function Spelled(x: Bytes): Digest {
    seq(|x|, i requires 0 <= i < |x| => x[i] as char)
  }

  function Simple(): Primitives {
    Primitives(
      x => x, x => Some(x),
      (key, nonce, x: Bytes, header) => x + Zeros(TAG_SIZE), (key, nonce, c: Bytes, header) => Unsealed(c),
      (key, d) => Some(Zeros(NONCE_SIZE)), x => Spelled(x))
  }

  lemma SpelledApart(x: Bytes, y: Bytes)
    requires Spelled(x) == Spelled(y)
    ensures x == y
  {
    assert |x| == |Spelled(x)| == |y|;
    forall i | 0 <= i < |x| ensures x[i] == y[i] {
      assert Spelled(x)[i] == x[i] as char && Spelled(y)[i] == y[i] as char;
    }
  }

  lemma UnsealedFront(x: Bytes, m: nat)
    requires m <= |x| + TAG_SIZE
    ensures OpensToFront(Unsealed((x + Zeros(TAG_SIZE))[..m]), x, m)
    ensures m == |x| + TAG_SIZE ==> Unsealed((x + Zeros(TAG_SIZE))[..m]) == Some(x)
  {
    assert x[..|x|] == x;
    if m >= TAG_SIZE {
      assert (x + Zeros(TAG_SIZE))[..m][..m - TAG_SIZE] == x[..m - TAG_SIZE];
    }
  }

  /** The laws can be met. */
  lemma LawsHaveAModel()
    ensures exists p :: Lawful(p)
  {
    hide Zeros, Unsealed, Spelled, OpensToFront;
    var p := Simple();
    forall x: Bytes, y: Bytes | p.sum(x) == p.sum(y) ensures x == y {
      SpelledApart(x, y);
    }
    assert |Zeros(TAG_SIZE)| == TAG_SIZE && |Zeros(NONCE_SIZE)| == NONCE_SIZE by { ZerosLength(); }
    forall key: Bytes, nonce: Bytes, x: Bytes, header: Bytes
      ensures p.unseal(key, nonce, p.seal(key, nonce, x, header), header) == Some(x)
    {
      UnsealedFront(x, |x| + TAG_SIZE);
      assert (x + Zeros(TAG_SIZE))[..|x| + TAG_SIZE] == x + Zeros(TAG_SIZE);
    }
    forall key: Bytes, nonce: Bytes, x: Bytes, header: Bytes, m: nat | m < |p.seal(key, nonce, x, header)|
      ensures OpensToFront(p.unseal(key, nonce, p.seal(key, nonce, x, header)[..m], header), x, m)
    {
      UnsealedFront(x, m);
    }
    assert Lawful(p);
  }

  lemma ZerosLength()
    ensures forall n: nat :: |Zeros(n)| == n
  {}
}
