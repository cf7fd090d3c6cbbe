/** The helpers of the micro package: the gRPC client IP and its own
    spelling of RndUUID. Its RandInt64, RndUUIDMd5, Md5 and Uuid are the
    gutils code line for line and are the GUtils members. */
module MicroUtils {
  import opened Base
  import opened Text
  import opened Decimal
  import GUtils

  /** Why GetGRPCClientIP has no address. */
  datatype ClientIPError = ErrInvokeGRPCClientIP | ErrPeerAddressNil

  /** The peer the context carries: none, one with a nil address, or one
      whose address prints as `text`. */
  datatype PeerInfo = NoPeer | NilAddr | PeerAddr(text: string)

  /** GetGRPCClientIP: the address text up to its first ':'. */
  function GetGRPCClientIP(p: PeerInfo): (r: Result<string, ClientIPError>)
    ensures p.NoPeer? ==> r == Failure(ErrInvokeGRPCClientIP)
    ensures p.NilAddr? ==> r == Failure(ErrPeerAddressNil)
    ensures p.PeerAddr? ==> (r.Success? && ':' !in r.value && HasPrefix(p.text, r.value)
      && (':' in p.text ==> p.text[|r.value|] == ':')
      && (':' !in p.text ==> r.value == p.text))
  {
    match p
    case NoPeer => Failure(ErrInvokeGRPCClientIP)
    case NilAddr => Failure(ErrPeerAddressNil)
    case PeerAddr(text) =>
      var parts := Split(text, ':');
      SplitFirst(text, ':');
      Success(parts[0])
  }

  /** The first piece of a split is the text before the first separator. */
  lemma SplitFirst(s: string, sep: char)
    ensures IndexOf(s, sep).None? ==> Split(s, sep)[0] == s
    ensures IndexOf(s, sep).Some? ==> Split(s, sep)[0] == s[..IndexOf(s, sep).value]
  {
  }

  /** An IPv4 peer "host:port" yields its host. */
  lemma ClientIPOfHostPort(host: string, port: string)
    requires ':' !in host
    ensures GetGRPCClientIP(PeerAddr(host + ":" + port)) == Success(host)
  {
    var r := GetGRPCClientIP(PeerAddr(host + ":" + port)).value;
    assert (host + ":" + port)[|host|] == ':';
    assert (host + ":" + port)[..|host|] == host;
  }

  /** A bracketed IPv6 peer "[h]:port" yields just "[". */
  lemma ClientIPOfBracketed(host: string, port: string)
    requires |host| > 0 && host[0] == ':'
    ensures GetGRPCClientIP(PeerAddr("[" + host + "]:" + port)) == Success("[")
  {
    var text := "[" + host + "]:" + port;
    var r := GetGRPCClientIP(PeerAddr(text)).value;
    assert text[0] == '[' && text[1] == ':' && ':' in text;
    assert |r| != 0;
    assert |r| == 1 && r[0] == text[0];
    assert r == "[";
  }

  /** micro.RndUUID: the pieces s[:8], s[8:12], s[12:16], s[16:20], s[20:]
      joined by "-"; the same text as the gutils spelling. */
  function RndUUID(ns: int, draw: nat, md5: string -> GUtils.Digest): (r: string)
    requires IsInt64(ns)
    ensures r == GUtils.RndUUID(ns, draw, md5)
    ensures |r| == 36 && RemoveAll(r, '-') == GUtils.RndUUIDMd5(ns, draw, md5)
  {
    var s := GUtils.RndUUIDMd5(ns, draw, md5);
    GUtils.JoinDashLayout(s);
    Join([s[..8], s[8..12], s[12..16], s[16..20], s[20..]], "-")
  }
}
