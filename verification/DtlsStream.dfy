/** The reader and writer loops of tpt-dtls/src/handshake.rs, proved to compute the functions of DtlsCodec. */
module DtlsStream {
  import opened BigEndian
  import opened Wire
  import opened DtlsTypes
  import opened DtlsCodec
  import opened Sequences
  import opened Wrappers

  // ----- Writing -----

  method WriteU16s(xs: seq<u16>) returns (b: seq<byte>)
    ensures b == Concat(PutU16, xs)
  {
    var w := new Writer();
    for i := 0 to |xs|
      invariant fresh(w) && w.buf == Concat(PutU16, xs[..i])
    {
      ConcatSnoc(PutU16, xs, i);
      w.Number(xs[i], 2);
    }
    assert xs[..|xs|] == xs;
    b := w.buf;
  }

  method WriteShares(es: seq<Share>) returns (b: seq<byte>)
    ensures b == Concat(PutShare, es)
  {
    var w := new Writer();
    for i := 0 to |es|
      invariant fresh(w) && w.buf == Concat(PutShare, es[..i])
    {
      ConcatSnoc(PutShare, es, i);
      Joined(w.buf, BeBytes(es[i].group, 2), PutVector(es[i].key, 2));
      w.Number(es[i].group, 2);
      w.Vector(es[i].key, 2);
    }
    assert es[..|es|] == es;
    b := w.buf;
  }

  method WriteExtensions(w: Writer, xs: seq<Extension>)
    modifies w
    ensures w.buf == old(w.buf) + PutExtensions(xs)
  {
    var ew := new Writer();
    for i := 0 to |xs|
      invariant fresh(ew) && ew.buf == Concat(PutExtension, xs[..i]) && w.buf == old(w.buf)
    {
      ConcatSnoc(PutExtension, xs, i);
      Joined(ew.buf, BeBytes(xs[i].kind, 2), PutVector(xs[i].data, 2));
      ew.Number(xs[i].kind, 2);
      ew.Vector(xs[i].data, 2);
    }
    assert xs[..|xs|] == xs;
    w.Vector(ew.buf, 2);
  }

  method ListClientExtensions(c: ClientHello) returns (xs: seq<Extension>)
    ensures xs == ClientExtensions(c)
  {
    xs := [Extension(SUPPORTED_VERSIONS, PutVector(BeBytes(DTLS_1_3, 2), 2))];
    var groups := WriteU16s(c.groups);
    xs := xs + [Extension(SUPPORTED_GROUPS, PutVector(groups, 2))];
    var algs := WriteU16s(c.sigAlgs);
    xs := xs + [Extension(SIGNATURE_ALGORITHMS, PutVector(algs, 2))];
    var shares := WriteShares(c.shares);
    xs := xs + [Extension(KEY_SHARE, PutVector(shares, 2))];
    if c.cookie.Some? { xs := xs + [Extension(COOKIE, c.cookie.value)]; }
    if c.cid.Some? { xs := xs + [Extension(CONNECTION_ID, c.cid.value)]; }
  }

  lemma RightNested(s: seq<byte>, a: seq<byte>, b: seq<byte>, c: seq<byte>, d: seq<byte>, e: seq<byte>, f: seq<byte>)
    ensures s + a + b + c + d + e + f == s + (a + (b + (c + (d + (e + f)))))
  {
    var g := a + (b + (c + (d + (e + f))));
    assert g == a + b + c + d + e + f;
    assert s + g == s + (a + b + c + d + e + f);
  }

  method WriteClientHello(w: Writer, c: ClientHello)
    modifies w
    ensures w.buf == old(w.buf) + EncodeClientHello(c)
  {
    var suites := WriteU16s(c.suites);
    var xs := ListClientExtensions(c);
    RightNested(w.buf, BeBytes(LEGACY_VERSION, 2), c.random, PutVector(c.sessionId, 1), PutVector(suites, 2),
                PutVector([0], 1), PutExtensions(xs));
    w.Number(LEGACY_VERSION, 2);
    w.Bytes(c.random);
    w.Vector(c.sessionId, 1);
    w.Vector(suites, 2);
    w.Vector([0], 1);
    WriteExtensions(w, xs);
  }

  // ----- Reading -----

  method ReadU16s(r: Reader) returns (res: Result<seq<u16>, Error>)
    requires r.Valid()
    modifies r
    ensures r.Agrees(res, ParseU16s(old(r.Unread())))
  {
    var list := r.Vector(2);
    if list.Failure? { return Failure(list.error); }
    var lr := new Reader(list.value);
    res := ReadAllU16s(lr);
  }

  method ReadAllU16s(r: Reader) returns (res: Result<seq<u16>, Error>)
    requires r.Valid()
    modifies r
    ensures r.Agrees(res, Many(TakeU16, old(r.Unread()), []))
  {
    var xs: seq<u16> := [];
    while r.pos < |r.data|
      invariant r.Valid()
      invariant Many(TakeU16, r.Unread(), xs) == old(Many(TakeU16, r.Unread(), []))
      decreases |r.data| - r.pos
    {
      var x := r.U16();
      if x.Failure? { return Failure(x.error); }
      xs := xs + [x.value];
    }
    res := Success(xs);
  }

  method ReadShare(r: Reader) returns (res: Result<Share, Error>)
    requires r.Valid()
    modifies r
    ensures r.Agrees(res, ParseShare(old(r.Unread())))
  {
    var group := r.U16();
    if group.Failure? { return Failure(group.error); }
    var key := r.Vector(2);
    if key.Failure? { return Failure(key.error); }
    res := Success(Share(group.value, key.value));
  }

  method ReadAllShares(r: Reader) returns (res: Result<seq<Share>, Error>)
    requires r.Valid()
    modifies r
    ensures r.Agrees(res, Many(ParseShare, old(r.Unread()), []))
  {
    var es: seq<Share> := [];
    while r.pos < |r.data|
      invariant r.Valid()
      invariant Many(ParseShare, r.Unread(), es) == old(Many(ParseShare, r.Unread(), []))
      decreases |r.data| - r.pos
    {
      var x := ReadShare(r);
      if x.Failure? { return Failure(x.error); }
      es := es + [x.value];
    }
    res := Success(es);
  }

  method ReadExtension(r: Reader) returns (res: Result<Extension, Error>)
    requires r.Valid()
    modifies r
    ensures r.Agrees(res, ParseExtension(old(r.Unread())))
  {
    var kind := r.U16();
    if kind.Failure? { return Failure(kind.error); }
    var data := r.Vector(2);
    if data.Failure? { return Failure(data.error); }
    res := Success(Extension(kind.value, data.value));
  }

  method ReadAllExtensions(r: Reader) returns (res: Result<seq<Extension>, Error>)
    requires r.Valid()
    modifies r
    ensures r.Agrees(res, Many(ParseExtension, old(r.Unread()), []))
  {
    var xs: seq<Extension> := [];
    while r.pos < |r.data|
      invariant r.Valid()
      invariant Many(ParseExtension, r.Unread(), xs) == old(Many(ParseExtension, r.Unread(), []))
      decreases |r.data| - r.pos
    {
      var x := ReadExtension(r);
      if x.Failure? { return Failure(x.error); }
      xs := xs + [x.value];
    }
    res := Success(xs);
  }

  method ReadExtensions(r: Reader) returns (res: Result<seq<Extension>, Error>)
    requires r.Valid()
    modifies r
    ensures r.Agrees(res, ParseExtensions(old(r.Unread())))
  {
    var list := r.Vector(2);
    if list.Failure? { return Failure(list.error); }
    var lr := new Reader(list.value);
    res := ReadAllExtensions(lr);
  }

  method FindExtension(xs: seq<Extension>, kind: u16) returns (data: Option<seq<byte>>)
    ensures data == Find(xs, kind)
  {
    for i := 0 to |xs|
      invariant Find(xs, kind) == Find(xs[i..], kind)
    {
      if xs[i].kind == kind { return Some(xs[i].data); }
      assert xs[i..][1..] == xs[i + 1..];
    }
    return None;
  }

  method InterpretU16s(data: Option<seq<byte>>) returns (res: Result<seq<u16>, Error>)
    ensures res == U16sOf(data)
  {
    if data.None? { return Success([]); }
    var r := new Reader(data.value);
    res := ReadU16s(r);
  }

  method InterpretShares(data: Option<seq<byte>>) returns (res: Result<seq<Share>, Error>)
    ensures res == SharesOf(data)
  {
    if data.None? { return Success([]); }
    var r := new Reader(data.value);
    var list := r.Vector(2);
    if list.Failure? { return Failure(list.error); }
    var lr := new Reader(list.value);
    res := ReadAllShares(lr);
  }

  method InterpretClientHello(random: Random, sid: seq<byte>, suites: seq<u16>, xs: seq<Extension>) returns (res: Result<Body, Error>)
    ensures res == InterpretClient(random, sid, suites, xs)
  {
    var groupData := FindExtension(xs, SUPPORTED_GROUPS);
    var groups := InterpretU16s(groupData);
    if groups.Failure? { return Failure(groups.error); }
    var algData := FindExtension(xs, SIGNATURE_ALGORITHMS);
    var algs := InterpretU16s(algData);
    if algs.Failure? { return Failure(algs.error); }
    var shareData := FindExtension(xs, KEY_SHARE);
    var shares := InterpretShares(shareData);
    if shares.Failure? { return Failure(shares.error); }
    var cookie := FindExtension(xs, COOKIE);
    var cid := FindExtension(xs, CONNECTION_ID);
    if cid.Some? && |cid.value| > 255 { return Failure(ConnectionIdTooLong); }
    res := Success(ClientHelloBody(ClientHello(random, sid, suites, groups.value, algs.value, shares.value, cookie, cid)));
  }

  method ReadClientHello(s: seq<byte>) returns (res: Result<Body, Error>)
    ensures res == ParseClientHello(s)
  {
    var r := new Reader(s);
    var version := r.U16();
    if version.Failure? { return Failure(version.error); }
    var random := r.Bytes(32);
    if random.Failure? { return Failure(random.error); }
    var sid := r.Vector(1);
    if sid.Failure? { return Failure(sid.error); }
    res := ReadClientTail(r, random.value, sid.value);
  }

  method ReadClientTail(r: Reader, random: Random, sid: seq<byte>) returns (res: Result<Body, Error>)
    requires r.Valid()
    modifies r
    ensures res == ParseClientTail(random, sid, old(r.Unread()))
  {
    var suites := ReadU16s(r);
    if suites.Failure? { return Failure(suites.error); }
    var compression := r.Vector(1);
    if compression.Failure? { return Failure(compression.error); }
    var xs := ReadExtensions(r);
    if xs.Failure? { return Failure(xs.error); }
    res := InterpretClientHello(random, sid, suites.value, xs.value);
  }
}
