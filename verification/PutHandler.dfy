/** The upload handler: it checks a chunk as far as the server can, stores the blob, then its row. */
module PutHandler {
  import opened Wrappers
  import opened Bytes
  import opened Codec
  import opened Repository
  import opened RepositoryInvariant
  import opened Store

  datatype Answer =
    | Created | Present | Malformed | QuotaExceeded | Unreadable | EmptyChunk | Undecodable | WrongContent
    | EncryptionRequired | StoreFailed

  /** What the server can tell of a blob: a sealed one is opaque, any other has to decode to content
      with the digest it is stored under. */
  predicate Genuine(p: Primitives, digest: Repository.Digest, blob: Bytes) {
    IsEncrypted(blob) || (Unpack(p, None, blob).Ok? && p.sum(Unpack(p, None, blob).value) == digest)
  }

  predicate Acceptable(p: Primitives, digest: Repository.Digest, blob: Bytes, sealedOnly: bool) {
    Genuine(p, digest, blob) && (sealedOnly ==> IsEncrypted(blob))
  }

  /** A blob is taken that is marked as sealed, or, where sealing is not required, one that is the blob of
      a chunk with its digest. */
  lemma AcceptableExactly(p: Primitives, digest: Repository.Digest, blob: Bytes, sealedOnly: bool)
    ensures Acceptable(p, digest, blob, sealedOnly) <==>
              || (|blob| >= 2 && blob[1] / 2 % 2 == 1)
              || (!sealedOnly && exists x, n: nat :: IsBlobOf(p, None, blob, x, n) && p.sum(x) == digest)
  {
    hide Unpack, IsBlobOf;
    var plain := Unpack(p, None, blob);
    if plain.Ok? {
      UnpackExactly(p, None, blob, plain.value);
    }
    forall x, n: nat | IsBlobOf(p, None, blob, x, n) ensures plain == Ok(x) {
      UnpackExactly(p, None, blob, x);
    }
  }

  /** When a chunk that is not there yet is turned down with this answer: each check is only reached by
      what passes the ones before it. */
  predicate Refuses(p: Primitives, digest: Repository.Digest, body: Option<Bytes>, quotaLeft: bool, sealedOnly: bool,
                    a: Answer)
  {
    match a
    case QuotaExceeded => !quotaLeft
    case Unreadable => quotaLeft && body.None?
    case EmptyChunk => quotaLeft && body == Some([])
    case Undecodable => quotaLeft && HasPlain(body) && Unpack(p, None, body.value).Err?
    case WrongContent => quotaLeft && HasPlain(body) && Unpack(p, None, body.value).Ok? && !Genuine(p, digest, body.value)
    case EncryptionRequired => quotaLeft && HasPlain(body) && Genuine(p, digest, body.value) && sealedOnly
    case _ => false
  }

  predicate HasPlain(body: Option<Bytes>) {
    body.Some? && body.value != [] && !IsEncrypted(body.value)
  }

  predicate IsRefusal(a: Answer) {
    a.QuotaExceeded? || a.Unreadable? || a.EmptyChunk? || a.Undecodable? || a.WrongContent? || a.EncryptionRequired?
  }

  /** The checks on a chunk that is not there yet, in their order. */
  method Refusal(p: Primitives, digest: Repository.Digest, body: Option<Bytes>, quotaLeft: bool, sealedOnly: bool)
    returns (a: Option<Answer>)
    ensures a.None? <==> quotaLeft && body.Some? && body.value != [] && Acceptable(p, digest, body.value, sealedOnly)
    ensures a.Some? ==> IsRefusal(a.value)
    ensures forall x :: a == Some(x) <==> Refuses(p, digest, body, quotaLeft, sealedOnly, x)
  {
    hide Unpack;
    if !quotaLeft {
      return Some(QuotaExceeded);
    }
    if body.None? {
      return Some(Unreadable);
    }
    if |body.value| == 0 {
      return Some(EmptyChunk);
    }
    if !IsEncrypted(body.value) {
      var plain := Decode(p, None, body.value);
      if plain.Err? {
        return Some(Undecodable);
      }
      if p.sum(plain.value) != digest {
        return Some(WrongContent);
      }
      if sealedOnly {
        return Some(EncryptionRequired);
      }
    }
    return None;
  }

  /** `body` is the request body, unless it cannot be read; `storable` and `registers` say whether the
      storage takes the blob and the database the rows. A success means that the chunk is stored, known
      and has its row; a blob that was there stays as it was; a new one is acceptable. */
  method HandlePutChunk(db: Store, p: Primitives, user: User, digest: Repository.Digest, body: Option<Bytes>,
                        plainLen: int, quotaLeft: bool, sealedOnly: bool, storable: bool, registers: bool)
    returns (a: Answer)
    modifies db
    ensures var blob := if body.Some? then body.value else [];
            var done := PutChunk(old(db.State()), user, digest, blob, plainLen, IsEncrypted(blob),
                                 quotaLeft && storable && Acceptable(p, digest, blob, sealedOnly), registers);
            db.State() == done.repo && (a.Created? || a.Present? <==> done.out.Ok?)
    ensures a.Created? || a.Present? <==>
              && HexDigest(digest) && registers
              && (digest in old(db.blobs)
                  || (body.Some? && body.value != [] && quotaLeft && storable
                      && Acceptable(p, digest, body.value, sealedOnly)))
    ensures a.Present? ==> digest in old(db.blobs)
    ensures a.Created? ==> digest !in old(db.blobs)
    ensures a.Malformed? <==> !HexDigest(digest)
    ensures forall x :: IsRefusal(x) ==>
              (a == x <==> HexDigest(digest) && digest !in old(db.blobs)
                           && Refuses(p, digest, body, quotaLeft, sealedOnly, x))
    ensures a.Created? || a.Present? ==> digest in db.blobs && digest in db.chunks && (user, digest) in db.accountChunks
    ensures forall d :: d in old(db.blobs) ==> d in db.blobs && db.blobs[d] == old(db.blobs)[d]
    ensures forall d :: d in db.blobs && d !in old(db.blobs) ==>
              d == digest && Acceptable(p, d, db.blobs[d], sealedOnly)
    ensures Inv(old(db.State())) ==> Inv(db.State())
  {
    hide Inv, HexDigest, Acceptable, Refuses;
    ghost var blob := if body.Some? then body.value else [];
    if Inv(db.State()) {
      PutKeepsInv(db.State(), user, digest, blob, plainLen, IsEncrypted(blob),
        quotaLeft && storable && Acceptable(p, digest, blob, sealedOnly), registers);
    }
    if !HexDigest(digest) {
      return Answer.Malformed;
    }
    if digest in db.blobs {
      var stored := |db.blobs[digest]|;
      var r := db.RegisterChunk(user, digest, ChunkRow(stored, if plainLen <= 0 then stored else plainLen, false), registers);
      return if r.Ok? then Present else Answer.StoreFailed;
    }
    var refusal := Refusal(p, digest, body, quotaLeft, sealedOnly);
    if refusal.Some? {
      return refusal.value;
    }
    if !storable {
      return Answer.StoreFailed;
    }
    db.blobs := db.blobs[digest := body.value];
    var stored := |db.blobs[digest]|;
    var row := ChunkRow(stored, if plainLen <= 0 then stored else plainLen, IsEncrypted(body.value));
    var r := db.RegisterChunk(user, digest, row, registers);
    return if r.Ok? then Created else Answer.StoreFailed;
  }
}
