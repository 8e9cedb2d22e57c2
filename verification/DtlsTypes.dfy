/** The DTLS 1.3 handshake messages as values (tpt-dtls/src/handshake.rs). */
module DtlsTypes {
  import opened BigEndian
  import opened Wrappers

  type Random = b: seq<byte> | |b| == 32
    witness [0, 0, 0, 0, 0, 0, 0, 0, 0, 0, 0, 0, 0, 0, 0, 0, 0, 0, 0, 0, 0, 0, 0, 0, 0, 0, 0, 0, 0, 0, 0, 0]

  /** An entry of a `key_share` extension. */
  datatype Share = Share(group: u16, key: seq<byte>)

  datatype Extension = Extension(kind: u16, data: seq<byte>)

  datatype ClientHello = ClientHello(random: Random, sessionId: seq<byte>, suites: seq<u16>, groups: seq<u16>,
                                     sigAlgs: seq<u16>, shares: seq<Share>, cookie: Option<seq<byte>>,
                                     cid: Option<seq<byte>>)

  datatype ServerHello = ServerHello(random: Random, sessionId: seq<byte>, suite: u16, share: Option<Share>,
                                     cid: Option<seq<byte>>, cookie: Option<seq<byte>>)

  datatype Body =
    | ClientHelloBody(client: ClientHello)
    | ServerHelloBody(server: ServerHello)
    | ExtensionsBody(extensions: seq<Extension>)
    | CertificateBody(context: seq<byte>, certificate: seq<byte>)
    | VerifyBody(algorithm: u16, signature: seq<byte>)
    | FinishedBody(verifyData: seq<byte>)

  datatype Message = Message(seqNo: u16, body: Body)

  /** The random that marks a ServerHello as a HelloRetryRequest. */
  const HRR_RANDOM: Random :=
    [0xCF, 0x21, 0xAD, 0x74, 0xE5, 0x9A, 0x61, 0x11, 0xBE, 0x1D, 0x8C, 0x02, 0x1E, 0x65, 0xB8, 0x91,
     0xC2, 0xA2, 0x11, 0x16, 0x7A, 0xBB, 0x8C, 0x5E, 0x07, 0x9E, 0x09, 0xE2, 0xC8, 0xA8, 0x33, 0x9C]

  const SUPPORTED_VERSIONS: u16 := 0x2b
  const SUPPORTED_GROUPS: u16 := 0x0a
  const SIGNATURE_ALGORITHMS: u16 := 0x0d
  const KEY_SHARE: u16 := 0x33
  const COOKIE: u16 := 0x2c
  const CONNECTION_ID: u16 := 0x39
  const LEGACY_VERSION: u16 := 0xfefd
  const DTLS_1_3: u16 := 0xfefc
}
