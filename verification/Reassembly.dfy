/**
 Fragmentation and reassembly of handshake messages (tpt-dtls/src/handshake.rs): pieces of one message,
 from any fragmentations, in any order and with any repeats, give back the message exactly when every
 byte has been seen.
 */
module Reassembly {
  import opened BigEndian
  import opened Wire
  import opened DtlsCodec
  import opened Sequences
  import opened Wrappers

  /** A fragment after its header has been parsed. */
  datatype Piece = Piece(offset: nat, data: seq<byte>)

  /** The piece is cut out of `full`. */
  predicate CutFrom(p: Piece, full: seq<byte>)
  {
    p.offset + |p.data| <= |full| && p.data == full[p.offset..p.offset + |p.data|]
  }

  predicate Covers(p: Piece, k: nat)
  {
    p.offset <= k < p.offset + |p.data|
  }

  predicate Covered(pieces: seq<Piece>, k: nat)
  {
    exists i :: 0 <= i < |pieces| && Covers(pieces[i], k)
  }

  predicate AllCovered(pieces: seq<Piece>, full: seq<byte>)
  {
    forall k :: 0 <= k < |full| ==> Covered(pieces, k)
  }

  // ----- The reassembler -----

  /** `s` with `d` written over it at `offset`. */
  function Overlay<T>(s: seq<T>, offset: nat, d: seq<T>): (r: seq<T>)
    requires offset + |d| <= |s|
    ensures |r| == |s|
  {
    s[..offset] + d + s[offset + |d|..]
  }

  function Marks(n: nat): (r: seq<bool>)
    ensures |r| == n
  {
    seq(n, _ => true)
  }

  class Reassembler {
    const total: nat
    const buffer: array<byte>
    const filled: array<bool>

    ghost predicate Valid()
      reads this
    {
      buffer.Length == total && filled.Length == total
    }

    constructor (total: nat)
      ensures Valid() && this.total == total && fresh(buffer) && fresh(filled)
      ensures forall k :: 0 <= k < total ==> !filled[k]
    {
      this.total := total;
      buffer := new byte[total](_ => 0);
      filled := new bool[total](_ => false);
    }

    method Complete() returns (all: bool)
      ensures all <==> forall k :: 0 <= k < filled.Length ==> filled[k]
    {
      for k := 0 to filled.Length
        invariant forall j :: 0 <= j < k ==> filled[j]
      {
        if !filled[k] { return false; }
      }
      return true;
    }

    method Copy(offset: nat, data: seq<byte>)
      requires Valid() && offset + |data| <= total
      modifies buffer
      ensures buffer[..] == Overlay(old(buffer[..]), offset, data)
    {
      for i := 0 to |data|
        invariant forall k :: 0 <= k < total ==>
          buffer[k] == if offset <= k < offset + i then data[k - offset] else old(buffer[k])
      {
        buffer[offset + i] := data[i];
      }
    }

    method Mark(offset: nat, n: nat)
      requires Valid() && offset + n <= total
      modifies filled
      ensures filled[..] == Overlay(old(filled[..]), offset, Marks(n))
    {
      for i := 0 to n
        invariant forall k :: 0 <= k < total ==> filled[k] == (offset <= k < offset + i || old(filled[k]))
      {
        filled[offset + i] := true;
      }
    }

    /** Adds one fragment; an answer only once every byte is filled. */
    method Add(offset: nat, data: seq<byte>) returns (r: Result<Option<seq<byte>>, Error>)
      requires Valid()
      modifies buffer, filled
      ensures Valid()
      ensures r.Failure? <==> offset + |data| > total
      ensures r.Failure? ==> r.error == FragmentOutOfRange
      ensures r.Failure? ==> buffer[..] == old(buffer[..]) && filled[..] == old(filled[..])
      ensures r.Success? ==> buffer[..] == Overlay(old(buffer[..]), offset, data)
      ensures r.Success? ==> filled[..] == Overlay(old(filled[..]), offset, Marks(|data|))
      ensures r.Success? ==> (r.value.Some? <==> forall k :: 0 <= k < total ==> filled[k])
      ensures r.Success? && r.value.Some? ==> r.value.value == buffer[..]
    {
      if offset + |data| > buffer.Length { return Failure(FragmentOutOfRange); }
      Copy(offset, data);
      Mark(offset, |data|);
      var all := Complete();
      r := Success(if all then Some(buffer[..]) else None);
    }
  }

  /** What has been collected of `full` after some pieces. */
  ghost predicate Collected(r: Reassembler, full: seq<byte>, pieces: seq<Piece>)
    reads r, r.buffer, r.filled
  {
    && r.Valid() && r.total == |full|
    && (forall k :: 0 <= k < |full| ==> (r.filled[k] <==> Covered(pieces, k)))
    && (forall k :: 0 <= k < |full| && r.filled[k] ==> r.buffer[k] == full[k])
  }

  lemma CoveredMore(pieces: seq<Piece>, p: Piece, k: nat)
    ensures Covered(pieces + [p], k) <==> Covered(pieces, k) || Covers(p, k)
  {
    var all := pieces + [p];
    if Covered(pieces, k) {
      var i :| 0 <= i < |pieces| && Covers(pieces[i], k);
      assert Covers(all[i], k);
    }
    if Covers(p, k) { assert Covers(all[|pieces|], k); }
  }

  /** One more piece of the message: no error, and an answer exactly when it completes the cover. */
  method Feed(r: Reassembler, full: seq<byte>, ghost pieces: seq<Piece>, p: Piece) returns (answer: Option<seq<byte>>)
    requires Collected(r, full, pieces) && CutFrom(p, full)
    modifies r.buffer, r.filled
    ensures Collected(r, full, pieces + [p])
    ensures answer == if AllCovered(pieces + [p], full) then Some(full) else None
  {
    ghost var before, marks := r.buffer[..], r.filled[..];
    var res := r.Add(p.offset, p.data);
    forall k | 0 <= k < |full|
      ensures r.filled[k] <==> Covered(pieces + [p], k)
      ensures r.filled[k] ==> r.buffer[k] == full[k]
    {
      CoveredMore(pieces, p, k);
      assert r.filled[..][k] == Overlay(marks, p.offset, Marks(|p.data|))[k];
      assert r.buffer[..][k] == Overlay(before, p.offset, p.data)[k];
    }
    assert forall k :: 0 <= k < |full| ==> r.filled[k] == Covered(pieces + [p], k);
    if res.value.Some? { assert r.buffer[..] == full; }
    answer := res.value;
  }

  /** Any pieces of a message, in any order: the answers are the message exactly from the moment all is covered. */
  method Reassemble(full: seq<byte>, pieces: seq<Piece>) returns (answers: seq<Option<seq<byte>>>)
    requires forall i :: 0 <= i < |pieces| ==> CutFrom(pieces[i], full)
    ensures |answers| == |pieces|
    ensures forall i :: 0 <= i < |pieces| ==> answers[i] == if AllCovered(pieces[..i + 1], full) then Some(full) else None
  {
    var r := new Reassembler(|full|);
    answers := [];
    for i := 0 to |pieces|
      invariant fresh(r.buffer) && fresh(r.filled)
      invariant Collected(r, full, pieces[..i]) && |answers| == i
      invariant forall j :: 0 <= j < i ==> answers[j] == if AllCovered(pieces[..j + 1], full) then Some(full) else None
    {
      var answer := Feed(r, full, pieces[..i], pieces[i]);
      assert pieces[..i] + [pieces[i]] == pieces[..i + 1];
      answers := answers + [answer];
    }
  }

  // ----- Fragmentation -----

  function Min(a: nat, b: nat): (m: nat)
  {
    if a <= b then a else b
  }

  /** The pieces of `full` from `offset` on, none longer than `max`. */
  function Cut(full: seq<byte>, max: nat, offset: nat): (ps: seq<Piece>)
    requires max >= 1 && offset <= |full|
    decreases |full| - offset
  {
    if offset == |full| then []
    else
      var n := Min(|full| - offset, max);
      [Piece(offset, full[offset..offset + n])] + Cut(full, max, offset + n)
  }

  /** The bytes sent for a piece. */
  function FrameOf(full: seq<byte>, seqNo: u16, p: Piece): (b: seq<byte>)
    requires full != []
  {
    PutHeader(Header(full[0], |full|, seqNo, p.offset, |p.data|)) + p.data
  }

  const U32: nat := 0x1_0000_0000

  /** The type code of a ClientHello, which `fragment_message` gives to an empty message. */
  const CLIENT_HELLO: byte := 1

  /** What is left of a message when its length is cut down to 32 bits. */
  function Sent(full: seq<byte>): (s: seq<byte>)
  {
    full[..|full| % U32]
  }

  /** The loop of `fragment_message`. */
  method FragmentAll(sent: seq<byte>, seqNo: u16, limit: nat) returns (out: seq<seq<byte>>)
    requires sent != [] && limit >= 1
    ensures |out| == |Cut(sent, limit, 0)|
    ensures forall i :: 0 <= i < |out| ==> out[i] == FrameOf(sent, seqNo, Cut(sent, limit, 0)[i])
  {
    out := [];
    var offset := 0;
    ghost var cut: seq<Piece> := [];
    while offset < |sent|
      invariant 0 <= offset <= |sent|
      invariant cut + Cut(sent, limit, offset) == Cut(sent, limit, 0)
      invariant |out| == |cut| && forall i :: 0 <= i < |out| ==> out[i] == FrameOf(sent, seqNo, cut[i])
    {
      var take := Min(|sent| - offset, limit);
      var data := sent[offset..offset + take];
      var frame := PutHeader(Header(sent[0], |sent|, seqNo, offset, take)) + data;
      ghost var p := Piece(offset, data);
      assert frame == FrameOf(sent, seqNo, p);
      Joined(cut, [p], Cut(sent, limit, offset + take));
      cut := cut + [p];
      out := out + [frame];
      offset := offset + take;
    }
    assert cut + [] == cut;
  }

  /** `fragment_message`. Lengths are cut down to 32 bits, and with a limit of zero the loop would not end. */
  method Fragment(full: seq<byte>, seqNo: u16, max: nat) returns (out: seq<seq<byte>>)
    requires Sent(full) == [] || max % U32 >= 1
    ensures Sent(full) == [] ==> out == [PutHeader(Header(CLIENT_HELLO, 0, seqNo, 0, 0))]
    ensures Sent(full) != [] ==> |out| == |Cut(Sent(full), max % U32, 0)|
    ensures Sent(full) != [] ==>
              forall i :: 0 <= i < |out| ==> out[i] == FrameOf(Sent(full), seqNo, Cut(Sent(full), max % U32, 0)[i])
  {
    var total := |full| % U32;
    if total == 0 { return [PutHeader(Header(CLIENT_HELLO, 0, seqNo, 0, 0))]; }
    out := FragmentAll(full[..total], seqNo, max % U32);
  }

  /** The pieces are cut from the message, respect the limit, and cover it from `offset` on. */
  lemma {:induction false} CutCovers(full: seq<byte>, max: nat, offset: nat)
    requires max >= 1 && offset <= |full|
    ensures forall i :: 0 <= i < |Cut(full, max, offset)| ==>
              CutFrom(Cut(full, max, offset)[i], full) && 1 <= |Cut(full, max, offset)[i].data| <= max
    ensures forall k :: offset <= k < |full| ==> Covered(Cut(full, max, offset), k)
    decreases |full| - offset
  {
    if offset < |full| {
      var n := Min(|full| - offset, max);
      var first, rest := Piece(offset, full[offset..offset + n]), Cut(full, max, offset + n);
      CutCovers(full, max, offset + n);
      forall k | offset <= k < |full| ensures Covered([first] + rest, k) {
        if k < offset + n {
          assert Covers(([first] + rest)[0], k);
        } else {
          assert Covered(rest, k);
          var i :| 0 <= i < |rest| && Covers(rest[i], k);
          assert Covers(([first] + rest)[i + 1], k);
        }
      }
    }
  }

  /** Every frame parses back to its header and piece. */
  lemma FrameCarriesPiece(full: seq<byte>, seqNo: u16, p: Piece)
    requires full != [] && |full| < 0x100_0000 && KnownCode(full[0]) && CutFrom(p, full)
    ensures Unframe(FrameOf(full, seqNo, p))
         == Success(Frame(Header(full[0], |full|, seqNo, p.offset, |p.data|), p.data))
  {
    FrameParses(Header(full[0], |full|, seqNo, p.offset, |p.data|), p.data);
  }

  /** Once all fragments of one fragmentation are among the pieces received, the message is covered. */
  lemma AllFragmentsSuffice(full: seq<byte>, max: nat, received: seq<Piece>)
    requires max >= 1 && forall p :: p in Cut(full, max, 0) ==> p in received
    ensures AllCovered(received, full)
  {
    CutCovers(full, max, 0);
    forall k | 0 <= k < |full| ensures Covered(received, k) {
      var cut := Cut(full, max, 0);
      assert Covered(cut, k);
      var i :| 0 <= i < |cut| && Covers(cut[i], k);
      assert cut[i] in received;
      var j :| 0 <= j < |received| && received[j] == cut[i];
      assert Covers(received[j], k);
    }
  }
}
