/**
 * UUIDs as github.com/satori/go.uuid handles them: sixteen bytes, printed in
 * the canonical lower-case 8-4-4-4-12 hexadecimal layout and parsed back from
 * that layout (in either case of hexadecimal digit).
 */
module Uuid {
  import opened Wrappers
  import opened Exception

  type Byte = b: int | 0 <= b < 256

  type Uuid = s: seq<Byte> | |s| == 16 witness [0, 0, 0, 0, 0, 0, 0, 0, 0, 0, 0, 0, 0, 0, 0, 0]

  /** The null UUID (guuid.NullUUID{}.UUID): all bytes zero. */
  const Nil: Uuid := [0, 0, 0, 0, 0, 0, 0, 0, 0, 0, 0, 0, 0, 0, 0, 0]

  /** The lower-case hexadecimal digit of `n`. */
  function HexChar(n: int): char
    requires 0 <= n < 16
  {
    if n < 10 then ('0' as int + n) as char else ('a' as int + n - 10) as char
  }

  /** The value of one hexadecimal digit, if `c` is one. */
  function HexValue(c: char): (v: Option<int>)
    ensures v.Some? ==> 0 <= v.value < 16
  {
    if '0' <= c <= '9' then Some(c as int - '0' as int)
    else if 'a' <= c <= 'f' then Some(c as int - 'a' as int + 10)
    else if 'A' <= c <= 'F' then Some(c as int - 'A' as int + 10)
    else None
  }

  /** Two lower-case hexadecimal digits per byte, high nibble first. */
  function Hex(bytes: seq<Byte>): (s: string)
    ensures |s| == 2 * |bytes|
  {
    if bytes == [] then []
    else [HexChar(bytes[0] / 16), HexChar(bytes[0] % 16)] + Hex(bytes[1..])
  }

  /** The bytes spelled by pairs of hexadecimal digits (hex.Decode). */
  function Unhex(s: string): Option<seq<Byte>>
  {
    if |s| == 0 then Some([])
    else if |s| == 1 then None
    else
      match (HexValue(s[0]), HexValue(s[1]), Unhex(s[2..]))
      case (Some(hi), Some(lo), Some(rest)) => Some([hi * 16 + lo] + rest)
      case _ => None
  }

  /** UUID.String(): the canonical 36-character form. */
  function ToString(u: Uuid): string
  {
    Hex(u[..4]) + "-" + Hex(u[4..6]) + "-" + Hex(u[6..8]) + "-" + Hex(u[8..10]) + "-" + Hex(u[10..])
  }

  /** guuid.FromString restricted to the canonical layout. */
  function FromString(s: string): Option<Uuid>
  {
    if |s| != 36 || s[8] != '-' || s[13] != '-' || s[18] != '-' || s[23] != '-' then None
    else
      match Unhex(s[..8] + s[9..13] + s[14..18] + s[19..23] + s[24..])
      case Some(b) => if |b| == 16 then Some(b) else None
      case None => None
  }

  /** The parser's own error for a string it rejects; its wording is the
      library's and is not modelled letter for letter. */
  function ParseError(s: string): Error
  {
    Error(Foreign, "uuid: incorrect UUID format " + s)
  }

  lemma {:induction false} UnhexHex(bytes: seq<Byte>)
    ensures Unhex(Hex(bytes)) == Some(bytes)
  {
    if bytes != [] {
      var b := bytes[0];
      var s := Hex(bytes);
      assert s == [HexChar(b / 16), HexChar(b % 16)] + Hex(bytes[1..]);
      assert s[2..] == Hex(bytes[1..]);
      assert HexValue(s[0]) == Some(b / 16);
      assert HexValue(s[1]) == Some(b % 16);
      UnhexHex(bytes[1..]);
      assert b / 16 * 16 + b % 16 == b;
      assert [b] + bytes[1..] == bytes;
    }
  }

  lemma {:induction false} HexAppend(a: seq<Byte>, b: seq<Byte>)
    ensures Hex(a + b) == Hex(a) + Hex(b)
  {
    if a != [] {
      var p := [HexChar(a[0] / 16), HexChar(a[0] % 16)];
      assert (a + b)[0] == a[0];
      assert (a + b)[1..] == a[1..] + b;
      HexAppend(a[1..], b);
      calc {
        Hex(a + b);
        p + Hex(a[1..] + b);
        p + (Hex(a[1..]) + Hex(b));
        (p + Hex(a[1..])) + Hex(b);
        Hex(a) + Hex(b);
      }
    } else {
      assert a + b == b;
    }
  }

  /** Parsing the printed form of a UUID gives that UUID back. */
  lemma RoundTrip(u: Uuid)
    ensures FromString(ToString(u)) == Some(u)
  {
    var s := ToString(u);
    var h0, h1, h2, h3, h4 := Hex(u[..4]), Hex(u[4..6]), Hex(u[6..8]), Hex(u[8..10]), Hex(u[10..]);
    assert s == h0 + "-" + h1 + "-" + h2 + "-" + h3 + "-" + h4;
    assert s[..8] == h0;
    assert s[9..13] == h1;
    assert s[14..18] == h2;
    assert s[19..23] == h3;
    assert s[24..] == h4;
    HexAppend(u[..4], u[4..6]);
    HexAppend(u[..4] + u[4..6], u[6..8]);
    HexAppend(u[..4] + u[4..6] + u[6..8], u[8..10]);
    HexAppend(u[..4] + u[4..6] + u[6..8] + u[8..10], u[10..]);
    assert u[..4] + u[4..6] + u[6..8] + u[8..10] + u[10..] == u;
    UnhexHex(u);
  }

  /** Distinct UUIDs print differently. */
  lemma ToStringInjective(u: Uuid, v: Uuid)
    ensures ToString(u) == ToString(v) ==> u == v
  {
    RoundTrip(u);
    RoundTrip(v);
  }

  /** The printed null UUID. */
  const NilString: string := "00000000" + "-" + "0000" + "-" + "0000" + "-" + "0000" + "-" + "000000000000"

  lemma NilToString()
    ensures ToString(Nil) == NilString
  {
    var z1: seq<Byte> := [0];
    var z2: seq<Byte> := [0, 0];
    var z4: seq<Byte> := [0, 0, 0, 0];
    var z6: seq<Byte> := [0, 0, 0, 0, 0, 0];
    assert Hex(z1) == "00" by { assert z1[1..] == []; }
    assert Hex(z2) == "0000" by { assert z2[1..] == z1; }
    assert Hex(z4) == "00000000" by {
      assert z4[1..][1..] == z2;
      assert Hex(z4[1..]) == "000000";
    }
    assert Hex(z6) == "000000000000" by {
      assert z6[1..][1..] == z4;
      assert Hex(z6[1..]) == "0000000000";
    }
    assert Nil[..4] == z4 && Nil[4..6] == z2 && Nil[6..8] == z2 && Nil[8..10] == z2 && Nil[10..] == z6;
    assert ToString(Nil) == Hex(z4) + "-" + Hex(z2) + "-" + Hex(z2) + "-" + Hex(z2) + "-" + Hex(z6);
  }

  /** Only the null UUID prints as the null UUID. */
  lemma NonNilString(u: Uuid)
    ensures ToString(u) == NilString <==> u == Nil
  {
    NilToString();
    ToStringInjective(u, Nil);
  }
}
