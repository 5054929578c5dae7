/** The streaming chunker: a compacting buffer over a reader that hands out its bytes in
    whatever portions it likes. It finds the cuts of the in-memory form. */
module Chunker {
  import opened Wrappers
  import opened Bytes
  import opened Chunking

  datatype ReadStatus = More | Eof | Failed

  /** A byte source. Every call delivers some of the remaining bytes, at least one unless it ends
      the stream or fails, and the end may come with the last bytes or after them. `seen` is what
      has been delivered, which is what a tee on the reader gets; `failed` says that some read failed. */
  class Reader {
    var rest: Bytes
    var seen: Bytes
    ghost var failed: bool

    constructor (content: Bytes)
      ensures rest == content && seen == [] && !failed
    {
      rest, seen, failed := content, [], false;
    }

    method Read(buf: array<byte>, from: nat) returns (n: nat, status: ReadStatus)
      requires from < buf.Length
      modifies this, buf
      ensures from + n <= buf.Length && n <= |old(rest)|
      ensures rest == old(rest)[n..] && seen == old(seen) + old(rest)[..n]
      ensures buf[..] == old(buf[..from]) + old(rest)[..n] + old(buf[from..])[n..]
      ensures status.Eof? ==> rest == []
      ensures status.More? ==> n > 0
      ensures failed <==> old(failed) || status.Failed?
    {
      var room := if |rest| < buf.Length - from then |rest| else buf.Length - from;
      var k: nat :| k <= room && (room > 0 ==> k > 0);
      if * {
        k :| 0 <= k <= room;
        status := Failed;
      } else if rest[k..] != [] {
        status := More;
      } else if k == 0 {
        status := Eof;
      } else if * {
        status := Eof;
      } else {
        status := More;
      }
      forall i | 0 <= i < k {
        buf[from + i] := rest[i];
      }
      n := k;
      failed := failed || status.Failed?;
      seen, rest := seen + rest[..k], rest[k..];
    }
  }

  datatype Outcome = Got(chunk: Chunk) | End | ReadError

  class Chunker {
    const cutter: Cutter
    const reader: Reader
    const buf: array<byte>
    var start: nat
    var end: nat
    var offset: nat
    var eof: bool

    ghost predicate Valid()
      reads this, reader
    {
      && cutter.Valid()
      && buf.Length == 2 * cutter.max
      && start <= end <= buf.Length
      && (eof ==> reader.rest == [])
    }

    /** The bytes not yet handed out: what is left in the buffer and in the reader. */
    ghost function Pending(): Bytes
      requires Valid()
      reads this, reader, buf
    {
      buf[start..end] + reader.rest
    }

    constructor (r: Reader, config: Config, gear: seq<nat>)
      requires Normalize(config) == Ok(config) && |gear| == 256
      ensures Valid() && fresh(buf) && reader == r
      ensures cutter == MakeCutter(config, gear)
      ensures offset == 0 && Pending() == r.rest
    {
      cutter := MakeCutter(config, gear);
      reader := r;
      buf := new byte[2 * config.max];
      start, end, offset, eof := 0, 0, 0, false;
    }

    /** Tops the buffer up to Max bytes when the reader has them, moving what is left to the front
        first. It fails exactly when a read does, and keeps the bytes that came with that. */
    method Fill() returns (ok: bool)
      requires Valid()
      modifies this`start, this`end, this`eof, reader, buf
      ensures Valid()
      ensures Pending() == old(Pending()) && reader.seen + reader.rest == old(reader.seen + reader.rest)
      ensures ok ==> end - start >= cutter.max || eof
      ensures reader.failed <==> old(reader.failed) || !ok
    {
      if end - start >= cutter.max || eof {
        return true;
      }
      ghost var pending, stream := Pending(), reader.seen + reader.rest;
      if start > 0 {
        ghost var left := buf[start..end];
        forall i | 0 <= i < end - start {
          buf[i] := buf[start + i];
        }
        end := end - start;
        start := 0;
        assert buf[..end] == left;
      }
      assert buf[..end] + reader.rest == pending;
      while end < cutter.max && !eof
        invariant Valid() && start == 0
        invariant buf[..end] + reader.rest == pending && reader.seen + reader.rest == stream
        invariant reader.failed == old(reader.failed)
        decreases |reader.rest|, !eof
      {
        ghost var have, seen, rest := buf[..end], reader.seen, reader.rest;
        var n, status := reader.Read(buf, end);
        end := end + n;
        Delivered(have, rest, n, buf[..end], reader.rest);
        Delivered(seen, rest, n, reader.seen, reader.rest);
        if status.Eof? {
          eof := true;
          break;
        }
        if status.Failed? {
          return false;
        }
      }
      return true;
    }

    /** The next chunk is the first chunk of everything pending, however the reader portioned it.
        A read error is reported exactly when a read fails, and loses nothing. */
    method Next() returns (out: Outcome)
      requires Valid()
      modifies this`start, this`end, this`offset, this`eof, reader, buf
      ensures Valid() && reader.seen + reader.rest == old(reader.seen + reader.rest)
      ensures out.End? ==> reader.rest == []
      ensures reader.failed <==> old(reader.failed) || out.ReadError?
      ensures match out
              case ReadError => Pending() == old(Pending()) && offset == old(offset)
              case End => old(Pending()) == [] && Pending() == [] && offset == old(offset)
              case Got(chunk) =>
                var k := Cut(cutter, old(Pending()));
                && old(Pending()) != []
                && chunk == Chunk(old(offset), old(Pending())[..k])
                && Pending() == old(Pending())[k..] && offset == old(offset) + k
    {
      ghost var pending := Pending();
      var ok := Fill();
      if !ok {
        return ReadError;
      }
      if end == start {
        return End;
      }
      var data := buf[start..end];
      assert data == pending[..|data|];
      CutOfBuffer(cutter, data, pending);
      var n := Cutpoint(cutter, data);
      out := Got(Chunk(offset, data[..n]));
      assert pending[n..] == data[n..] + reader.rest;
      start := start + n;
      offset := offset + n;
      assert buf[start..end] == data[n..];
    }
  }

  lemma Delivered(have: Bytes, rest: Bytes, n: nat, have': Bytes, rest': Bytes)
    requires n <= |rest| && have' == have + rest[..n] && rest' == rest[n..]
    ensures have' + rest' == have + rest
  {}

  /** A full buffer, or all there is, shows the same first cut as the whole stream. */
  lemma CutOfBuffer(t: Cutter, data: Bytes, pending: Bytes)
    requires t.Valid() && data <= pending
    requires |data| >= t.max || data == pending
    ensures Cut(t, data) == Cut(t, pending)
  {
    if data != pending {
      if |data| > t.min {
        CutFromIsFirst(t, data, t.min);
      }
      CutStable(t, data, pending);
    }
  }

  method Cutpoint(t: Cutter, data: Bytes) returns (k: nat)
    requires t.Valid()
    ensures k == Cut(t, data)
  {
    var n: nat := |data|;
    if n <= t.min {
      return n;
    }
    if n > t.max {
      n := t.max;
    }
    var normal := t.avg;
    if normal > n {
      normal := n;
    }
    var fp := 0;
    var i := t.min;
    while i < normal
      invariant t.min <= i <= n && (i <= normal || i == t.min)
      invariant fp == Fingerprint(t, data, i) && Cut(t, data) == CutFrom(t, data, i)
    {
      fp := Roll(t, fp, data[i]);
      if fp < t.small {
        return i + 1;
      }
      i := i + 1;
    }
    while i < n
      invariant t.min <= i <= n && (i < n ==> t.avg <= i)
      invariant fp == Fingerprint(t, data, i) && Cut(t, data) == CutFrom(t, data, i)
    {
      fp := Roll(t, fp, data[i]);
      if fp < t.large {
        return i + 1;
      }
      i := i + 1;
    }
    return n;
  }

  /** Handing out one more chunk: `done` are the chunks so far, `b` the bytes to come. */
  lemma OneMore(t: Cutter, whole: seq<Bytes>, done: seq<Bytes>, b: Bytes, k: nat)
    requires t.Valid() && b != [] && k == Cut(t, b) && k <= |b|
    requires done + Pieces(t, b) == whole
    ensures (done + [b[..k]]) + Pieces(t, b[k..]) == whole
  {
    hide Cut;
    assert Pieces(t, b) == [b[..k]] + Pieces(t, b[k..]);
  }

  /** The in-memory form. */
  method Split(data: Bytes, config: Config, gear: seq<nat>) returns (r: Result<seq<Chunk>, ConfigError>)
    requires |gear| == 256
    ensures Normalize(config).Err? ==> r == Err(Normalize(config).error)
    ensures Normalize(config).Ok? ==>
              Normalize(Normalize(config).value) == Normalize(config)
              && r == Ok(Placed(Pieces(MakeCutter(Normalize(config).value, gear), data), 0))
  {
    hide Cut, Pieces;
    var normal := Normalize(config);
    if normal.Err? {
      return Err(normal.error);
    }
    var t := MakeCutter(normal.value, gear);
    var b := data;
    var offset := 0;
    var chunks: seq<Chunk> := [];
    ghost var done: seq<Bytes> := [];
    while |b| > 0
      invariant done + Pieces(t, b) == Pieces(t, data)
      invariant chunks == Placed(done, 0) && offset == Total(done)
    {
      var n := Cutpoint(t, b);
      OneMore(t, Pieces(t, data), done, b, n);
      PlacedSnoc(done, b[..n], 0);
      chunks := chunks + [Chunk(offset, b[..n])];
      done := done + [b[..n]];
      offset := offset + n;
      b := b[n..];
    }
    assert done == Pieces(t, data);
    return Ok(chunks);
  }

  lemma {:induction false} PlacedFront(front: seq<Bytes>, rest: seq<Bytes>, offset: nat)
    ensures Placed(front, offset) <= Placed(front + rest, offset)
  {
    if front != [] {
      assert (front + rest)[1..] == front[1..] + rest;
      PlacedFront(front[1..], rest, offset + |front[0]|);
    }
  }

  /** The caller's loop: Next until the end of the stream. Whatever portions the reader delivers,
      the chunks are those of the in-memory form on the whole content, unless a read fails; up to then they
      are the first of them. */
  method Drain(c: Chunker) returns (chunks: seq<Chunk>, ok: bool)
    requires c.Valid() && c.offset == 0
    modifies c, c.reader, c.buf
    ensures c.Valid()
    ensures c.reader.failed <==> old(c.reader.failed) || !ok
    ensures chunks <= Placed(Pieces(c.cutter, old(c.Pending())), 0)
    ensures ok ==> chunks == Placed(Pieces(c.cutter, old(c.Pending())), 0)
  {
    hide Cut, Pieces;
    chunks := [];
    ghost var done: seq<Bytes> := [];
    ghost var content := c.Pending();
    while true
      invariant c.Valid()
      invariant done + Pieces(c.cutter, c.Pending()) == Pieces(c.cutter, content)
      invariant chunks == Placed(done, 0) && c.offset == Total(done)
      invariant c.reader.failed == old(c.reader.failed)
      decreases |c.Pending()|
    {
      ghost var b := c.Pending();
      var out := c.Next();
      match out
      case ReadError =>
        PlacedFront(done, Pieces(c.cutter, b), 0);
        return chunks, false;
      case End =>
        assert done == Pieces(c.cutter, content);
        return chunks, true;
      case Got(chunk) =>
        OneMore(c.cutter, Pieces(c.cutter, content), done, b, |chunk.data|);
        PlacedSnoc(done, chunk.data, 0);
        done := done + [chunk.data];
        chunks := chunks + [chunk];
    }
  }
}
