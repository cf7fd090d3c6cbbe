/** ID helpers of gutils: lowercase-hex MD5, the time-and-random based
    UUID text, the dash-free UUID and the bounded random integer. The MD5
    digest, uuid.NewRandom, the clock and the random generator are
    parameters. */
module GUtils {
  import opened Base
  import opened Text
  import opened Decimal

  // ---------------------------------------------------------------------
  // Hexadecimal text (encoding/hex)

  /** A lowercase hexadecimal digit. */
  predicate IsHexDigit(c: char) {
    ('0' <= c <= '9') || ('a' <= c <= 'f')
  }

  /** The lowercase digit for a nibble. */
  function HexChar(n: nat): (c: char)
    requires n < 16
    ensures IsHexDigit(c) && c != '-'
  {
    if n < 10 then ('0' as int + n) as char else ('a' as int + n - 10) as char
  }

  /** The nibble a lowercase digit stands for. */
  function HexValue(c: char): (n: nat)
    requires IsHexDigit(c)
    ensures n < 16 && HexChar(n) == c
  {
    if c <= '9' then c as int - '0' as int else c as int - 'a' as int + 10
  }

  /** hex.EncodeToString: two lowercase digits per byte, high nibble first. */
  function HexEncode(b: seq<byte>): (s: string)
    ensures |s| == 2 * |b|
    ensures forall i :: 0 <= i < |s| ==> IsHexDigit(s[i])
  {
    if |b| == 0 then "" else [HexChar(b[0] / 16), HexChar(b[0] % 16)] + HexEncode(b[1..])
  }

  /** Reading lowercase hex text back into bytes; None for odd length or a
      character that is not a lowercase hex digit. */
  function HexDecode(s: string): (r: Option<seq<byte>>)
    ensures r.Some? ==> |r.value| * 2 == |s|
    decreases |s|
  {
    if |s| == 0 then Some([])
    else if |s| == 1 || !IsHexDigit(s[0]) || !IsHexDigit(s[1]) then None
    else
      match HexDecode(s[2..])
      case None => None
      case Some(rest) => Some([HexValue(s[0]) * 16 + HexValue(s[1])] + rest)
  }

  /** Encoding loses nothing. */
  lemma {:induction false} HexDecodeEncode(b: seq<byte>)
    ensures HexDecode(HexEncode(b)) == Some(b)
  {
    if |b| > 0 {
      var s := HexEncode(b);
      assert s[2..] == HexEncode(b[1..]);
      HexDecodeEncode(b[1..]);
      assert HexValue(s[0]) == b[0] / 16 && HexValue(s[1]) == b[0] % 16;
      assert [b[0]] + b[1..] == b;
    }
  }

  // ---------------------------------------------------------------------
  // Md5

  /** An MD5 sum: always 16 bytes. */
  type Digest = d: seq<byte> | |d| == 16 witness [0, 0, 0, 0, 0, 0, 0, 0, 0, 0, 0, 0, 0, 0, 0, 0]

  /** Md5: the lowercase hex of the digest of `str`; `md5` is the hash. */
  function Md5(str: string, md5: string -> Digest): (s: string)
    ensures |s| == 32 && '-' !in s
    ensures forall i :: 0 <= i < |s| ==> IsHexDigit(s[i])
    ensures HexDecode(s) == Some(md5(str))
  {
    HexDecodeEncode(md5(str));
    HexEncode(md5(str))
  }

  // ---------------------------------------------------------------------
  // RandInt64

  /** Go's int64 wrap-around of an integer result. */
  function Wrap64(n: int): (r: int)
    ensures IsInt64(r) && (r - n) % 0x1_0000_0000_0000_0000 == 0
    ensures IsInt64(n) ==> r == n
  {
    var m := n % 0x1_0000_0000_0000_0000;
    if m > Int64Max then m - 0x1_0000_0000_0000_0000 else m
  }

  /** The one way RandInt64 fails: rand.Int63n panics on an argument that
      is not positive. */
  datatype RandPanic = Int63nPanic

  /** RandInt64 as written: `max` in the degenerate cases (min >= max,
      min == 0, max == 0), otherwise `Int63n(max-min) + min` with
      `max-min` computed in int64. `draw` is the generator's output,
      reduced to [0, n) as Int63n does. */
  function RandInt64(min: int, max: int, draw: nat): (r: Result<int, RandPanic>)
    requires IsInt64(min) && IsInt64(max)
    ensures min >= max || min == 0 || max == 0 ==> r == Success(max)
    ensures r.Failure? <==> (min < max && min != 0 && max != 0 && max - min > Int64Max)
    ensures r.Success? && min < max && min != 0 && max != 0 ==> min <= r.value < max
  {
    if min >= max || min == 0 || max == 0 then Success(max)
    else
      var n := Wrap64(max - min);
      if n <= 0 then Failure(Int63nPanic)
      else Success(Wrap64(draw % n + min))
  }

  /** RandInt64 with the span computed without overflow: every
      non-degenerate call lands in [min, max). */
  function RandInt64Checked(min: int, max: int, draw: nat): (r: int)
    requires IsInt64(min) && IsInt64(max)
    ensures IsInt64(r)
    ensures min >= max || min == 0 || max == 0 ==> r == max
    ensures min < max && min != 0 && max != 0 ==> min <= r < max
  {
    if min >= max || min == 0 || max == 0 then max
    else draw % (max - min) + min
  }

  /** The two agree wherever the original does not panic. */
  lemma RandInt64CheckedAgrees(min: int, max: int, draw: nat)
    requires IsInt64(min) && IsInt64(max)
    requires RandInt64(min, max, draw).Success?
    ensures RandInt64(min, max, draw).value == RandInt64Checked(min, max, draw)
  {
  }

  /** A span wider than int64 wraps negative: RandInt64(-1, MaxInt64)
      panics instead of returning a number in [-1, MaxInt64). */
  lemma RandInt64OverflowExample(draw: nat)
    ensures RandInt64(-1, Int64Max, draw) == Failure(Int63nPanic)
    ensures -1 <= RandInt64Checked(-1, Int64Max, draw) < Int64Max
  {
  }

  // ---------------------------------------------------------------------
  // RndUUIDMd5 and RndUUID

  /** The string RndUUIDMd5 hashes: the decimal nanosecond clock followed
      by RandInt64(1000, 9999). */
  function RndSeed(ns: int, draw: nat): (seed: string)
    requires IsInt64(ns)
    ensures HasPrefix(seed, Itoa(ns)) && |seed| == |Itoa(ns)| + 4
    ensures Atoi(seed[|Itoa(ns)|..]).Success?
      && 1000 <= Atoi(seed[|Itoa(ns)|..]).value <= 9998
  {
    var k := RandInt64(1000, 9999, draw).value;
    FourDigits(k);
    assert (Itoa(ns) + Itoa(k))[|Itoa(ns)|..] == Itoa(k);
    AtoiItoa(k);
    Itoa(ns) + Itoa(k)
  }

  /** A number in [1000, 9999] prints as four digits. */
  lemma FourDigits(k: int)
    requires 1000 <= k <= 9999
    ensures |Itoa(k)| == 4
  {
    assert Itoa(k) == NatToString(k);
    assert NatToString(k) == NatToString(k / 10) + [DigitChar(k % 10)];
    assert NatToString(k / 10) == NatToString(k / 100) + [DigitChar(k / 10 % 10)];
    assert NatToString(k / 100) == NatToString(k / 1000) + [DigitChar(k / 100 % 10)];
    assert NatToString(k / 1000) == [DigitChar(k / 1000)];
  }

  /** RndUUIDMd5: the MD5 hex of the seed. */
  function RndUUIDMd5(ns: int, draw: nat, md5: string -> Digest): (s: string)
    requires IsInt64(ns)
    ensures |s| == 32 && '-' !in s
    ensures HexDecode(s) == Some(md5(RndSeed(ns, draw)))
  {
    Md5(RndSeed(ns, draw), md5)
  }

  /** The 8-4-4-4-12 layout `%s-%s-%s-%s-%s` of s[:8], s[8:12], s[12:16],
      s[16:20], s[20:]. */
  function DashLayout(s: string): (r: string)
    requires |s| >= 20
    ensures |r| == |s| + 4
    ensures r[8] == '-' && r[13] == '-' && r[18] == '-' && r[23] == '-'
  {
    s[..8] + "-" + s[8..12] + "-" + s[12..16] + "-" + s[16..20] + "-" + s[20..]
  }

  /** The layout is the five pieces joined by "-". */
  lemma JoinDashLayout(s: string)
    requires |s| >= 20
    ensures Join([s[..8], s[8..12], s[12..16], s[16..20], s[20..]], "-") == DashLayout(s)
  {
    var parts := [s[..8], s[8..12], s[12..16], s[16..20], s[20..]];
    assert parts[1..][1..][1..][1..] == [s[20..]];
    assert Join(parts[3..], "-") == s[16..20] + "-" + s[20..] by {
      assert parts[3..][1..] == parts[4..];
    }
    assert Join(parts[2..], "-") == s[12..16] + "-" + (s[16..20] + "-" + s[20..]) by {
      assert parts[2..][1..] == parts[3..];
    }
    assert Join(parts[1..], "-") == s[8..12] + "-" + (s[12..16] + "-" + (s[16..20] + "-" + s[20..])) by {
      assert parts[1..][1..] == parts[2..];
    }
  }

  /** Concatenating the five pieces gives the text back. */
  lemma ConcatDashPieces(s: string)
    requires |s| >= 20
    ensures Concat([s[..8], s[8..12], s[12..16], s[16..20], s[20..]]) == s
  {
    var parts := [s[..8], s[8..12], s[12..16], s[16..20], s[20..]];
    assert Concat(parts[4..]) == s[20..] by {
      assert parts[4..][1..] == [];
    }
    assert Concat(parts[3..]) == s[16..] by {
      assert parts[3..][1..] == parts[4..];
      assert s[16..] == s[16..20] + s[20..];
    }
    assert Concat(parts[2..]) == s[12..] by {
      assert parts[2..][1..] == parts[3..];
      assert s[12..] == s[12..16] + s[16..];
    }
    assert Concat(parts[1..]) == s[8..] by {
      assert parts[1..][1..] == parts[2..];
      assert s[8..] == s[8..12] + s[12..];
    }
    assert s == s[..8] + s[8..];
  }

  /** Removing the dashes of the layout gives the text back. */
  lemma DashLayoutRemoveAll(s: string)
    requires |s| >= 20 && '-' !in s
    ensures RemoveAll(DashLayout(s), '-') == s
  {
    var parts := [s[..8], s[8..12], s[12..16], s[16..20], s[20..]];
    JoinDashLayout(s);
    forall i | 0 <= i < |parts|
      ensures '-' !in parts[i]
    {
      var off := if i == 0 then 0 else if i == 1 then 8 else if i == 2 then 12 else if i == 3 then 16 else 20;
      assert forall j :: 0 <= j < |parts[i]| ==> parts[i][j] == s[off + j];
    }
    RemoveAllJoin(parts, '-');
    ConcatDashPieces(s);
  }

  /** gutils.RndUUID: a 36-character 8-4-4-4-12 UUID-shaped text whose
      digits, dashes removed, are the MD5 hex of the seed. */
  function RndUUID(ns: int, draw: nat, md5: string -> Digest): (r: string)
    requires IsInt64(ns)
    ensures |r| == 36
    ensures r[8] == '-' && r[13] == '-' && r[18] == '-' && r[23] == '-'
    ensures RemoveAll(r, '-') == RndUUIDMd5(ns, draw, md5)
  {
    DashLayoutRemoveAll(RndUUIDMd5(ns, draw, md5));
    DashLayout(RndUUIDMd5(ns, draw, md5))
  }

  // ---------------------------------------------------------------------
  // Uuid

  /** A clock reading in nanoseconds, as time.Now().UnixNano's int64. */
  type Nanos = n: int | IsInt64(n)

  /** What one gutils.Uuid call draws on: the bytes of uuid.NewRandom
      (None when it fails) and, for the fallback, the clock, the random
      draw and the MD5 function. */
  datatype UuidSource = UuidSource(random: Option<Digest>, ns: Nanos, draw: nat, md5: string -> Digest)

  /** Uuid: uuid.NewRandom printed (the canonical dashed form of its 16
      bytes) with every "-" removed; when NewRandom fails (`random` is
      None), RndUUID with its dashes removed. */
  function Uuid(random: Option<Digest>, ns: int, draw: nat, md5: string -> Digest): (r: string)
    requires IsInt64(ns)
    ensures '-' !in r && |r| == 32
    ensures random.Some? ==> HexDecode(r) == Some(random.value)
    ensures random.None? ==> r == RndUUIDMd5(ns, draw, md5)
  {
    match random
    case Some(u) =>
      var text := DashLayout(HexEncode(u));
      DashLayoutRemoveAll(HexEncode(u));
      HexDecodeEncode(u);
      RemoveAll(text, '-')
    case None => RemoveAll(RndUUID(ns, draw, md5), '-')
  }
}
