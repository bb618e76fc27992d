/**
 * Account and row identifiers are UUIDs: sixteen bytes, as in the Go type
 * `uuid.UUID`. Their text form (`String()`) is the canonical form of section 3
 * of RFC 4122: 32 lower-case hexadecimal digits in groups of 8-4-4-4-12
 * separated by hyphens. The decoder below is the inverse of that form; its
 * round trip shows that distinct UUIDs have distinct texts.
 */
module Uuids {
  import opened Wrappers

  newtype Byte = x: int | 0 <= x < 256

  type Uuid = s: seq<Byte> | |s| == 16 witness [0, 0, 0, 0, 0, 0, 0, 0, 0, 0, 0, 0, 0, 0, 0, 0]

  /** Lower-case hexadecimal digit of a nibble. */
  function HexDigit(n: int): (c: char)
    requires 0 <= n < 16
    ensures HexValue(c) == Some(n)
  {
    if n < 10 then (48 + n) as char else (87 + n) as char
  }

  /** Value of a hexadecimal digit, if `c` is one. */
  function HexValue(c: char): Option<int>
  {
    if '0' <= c <= '9' then Some(c as int - 48)
    else if 'a' <= c <= 'f' then Some(c as int - 87)
    else None
  }

  /** A hyphen precedes bytes 4, 6, 8 and 10 (the 8-4-4-4-12 grouping). */
  predicate HyphenBefore(i: nat)
  {
    i == 4 || i == 6 || i == 8 || i == 10
  }

  /** Text of `bytes`, the first of which is byte number `i` of the UUID. */
  function Hex(bytes: seq<Byte>, i: nat): string
    decreases |bytes|
  {
    if bytes == [] then ""
    else
      (if HyphenBefore(i) then "-" else "")
      + [HexDigit(bytes[0] as int / 16), HexDigit(bytes[0] as int % 16)]
      + Hex(bytes[1..], i + 1)
  }

  /** Number of hyphens before bytes `i` .. `i + n - 1`. */
  function Gaps(i: nat, n: nat): nat
    decreases n
  {
    if n == 0 then 0 else (if HyphenBefore(i) then 1 else 0) + Gaps(i + 1, n - 1)
  }

  lemma GapsInUuid()
    ensures Gaps(0, 16) == 4
  {
    assert Gaps(11, 5) == 0;
    assert Gaps(8, 8) == 2;
    assert Gaps(5, 11) == 3;
    assert Gaps(2, 14) == 4;
  }

  /** Number of hyphens in `s`. */
  function Dashes(s: string): nat
  {
    if s == "" then 0 else (if s[0] == '-' then 1 else 0) + Dashes(s[1..])
  }

  lemma {:induction false} DashesConcat(a: string, b: string)
    ensures Dashes(a + b) == Dashes(a) + Dashes(b)
    decreases |a|
  {
    if a == "" {
      assert a + b == b;
    } else {
      assert (a + b)[1..] == a[1..] + b;
      DashesConcat(a[1..], b);
    }
  }

  /** Two digits per byte and a hyphen before each group. */
  lemma {:induction false} HexLength(bytes: seq<Byte>, i: nat)
    ensures |Hex(bytes, i)| == 2 * |bytes| + Gaps(i, |bytes|)
    decreases |bytes|
  {
    if bytes != [] {
      var b := bytes[0] as int;
      HexLength(bytes[1..], i + 1);
      assert Hex(bytes, i) == (if HyphenBefore(i) then "-" else "") + [HexDigit(b / 16), HexDigit(b % 16)] + Hex(bytes[1..], i + 1);
    }
  }

  /** The hyphens of a text are the ones before its groups. */
  lemma {:induction false} HexDashes(bytes: seq<Byte>, i: nat)
    ensures Dashes(Hex(bytes, i)) == Gaps(i, |bytes|)
    decreases |bytes|
  {
    if bytes != [] {
      var b := bytes[0] as int;
      var hi, lo := HexDigit(b / 16), HexDigit(b % 16);
      var lead := (if HyphenBefore(i) then "-" else "") + [hi, lo];
      HexDashes(bytes[1..], i + 1);
      DashesConcat(lead, Hex(bytes[1..], i + 1));
      assert HexValue('-') == None;
      assert [hi, lo][1..] == [lo] && [lo][1..] == "";
      assert Dashes([lo]) == 0;
      if HyphenBefore(i) {
        DashesConcat("-", [hi, lo]);
      }
    }
  }

  /** Every character of a text is a hyphen or a lower-case hexadecimal digit. */
  lemma {:induction false} HexAlphabet(bytes: seq<Byte>, i: nat)
    ensures forall k :: 0 <= k < |Hex(bytes, i)| ==> Hex(bytes, i)[k] == '-' || HexValue(Hex(bytes, i)[k]).Some?
    decreases |bytes|
  {
    if bytes != [] {
      var b := bytes[0] as int;
      var lead := (if HyphenBefore(i) then "-" else "") + [HexDigit(b / 16), HexDigit(b % 16)];
      var rest := Hex(bytes[1..], i + 1);
      HexAlphabet(bytes[1..], i + 1);
      assert Hex(bytes, i) == lead + rest;
      forall k | 0 <= k < |lead + rest| ensures (lead + rest)[k] == '-' || HexValue((lead + rest)[k]).Some? {
        if k >= |lead| {
          assert (lead + rest)[k] == rest[k - |lead|];
        }
      }
    }
  }

  /** `Hex` of a concatenation is the concatenation of the parts' texts. */
  lemma {:induction false} HexConcat(a: seq<Byte>, b: seq<Byte>, i: nat)
    ensures Hex(a + b, i) == Hex(a, i) + Hex(b, i + |a|)
    decreases |a|
  {
    if a == [] {
      assert a + b == b;
    } else {
      assert (a + b)[1..] == a[1..] + b;
      HexConcat(a[1..], b, i + 1);
    }
  }

  /** A group that starts after byte `n - 1` puts its hyphen after the text of those bytes. */
  lemma HyphenAt(bytes: seq<Byte>, i: nat, n: nat, p: nat)
    requires 0 < n < |bytes| && HyphenBefore(i + n) && p == 2 * n + Gaps(i, n)
    ensures p < |Hex(bytes, i)| && Hex(bytes, i)[p] == '-'
  {
    assert bytes == bytes[..n] + bytes[n..];
    HexConcat(bytes[..n], bytes[n..], i);
    HexLength(bytes[..n], i);
    assert Hex(bytes[n..], i + n)[0] == '-';
  }

  lemma GroupGaps()
    ensures Gaps(0, 4) == 0 && Gaps(0, 6) == 1 && Gaps(0, 8) == 2 && Gaps(0, 10) == 3
  {
    assert Gaps(4, 6) == 3;
  }

  /** The hyphens of the 8-4-4-4-12 form. */
  lemma HexPositions(u: Uuid)
    ensures var r := Hex(u, 0); |r| > 23 && r[8] == '-' && r[13] == '-' && r[18] == '-' && r[23] == '-'
  {
    GroupGaps();
    HyphenAt(u, 0, 4, 8);
    HyphenAt(u, 0, 6, 13);
    HyphenAt(u, 0, 8, 18);
    HyphenAt(u, 0, 10, 23);
  }

  /**
   * `uuid.UUID.String()`: 36 characters, hyphens at positions 8, 13, 18 and
   * 23 and nowhere else, every other character a lower-case hexadecimal digit.
   */
  function UuidString(u: Uuid): (r: string)
    ensures |r| == 36 && Dashes(r) == 4
    ensures r[8] == '-' && r[13] == '-' && r[18] == '-' && r[23] == '-'
    ensures forall k :: 0 <= k < |r| ==> r[k] == '-' || HexValue(r[k]).Some?
  {
    HexLength(u, 0);
    HexDashes(u, 0);
    HexAlphabet(u, 0);
    GapsInUuid();
    HexPositions(u);
    Hex(u, 0)
  }

  /** Reads `n` bytes of canonical text, the first being byte number `i`. */
  function Unhex(s: string, i: nat, n: nat): (r: Option<seq<Byte>>)
    ensures r.Some? ==> |r.value| == n
    decreases n
  {
    if n == 0 then (if s == "" then Some([]) else None)
    else if HyphenBefore(i) && (|s| == 0 || s[0] != '-') then None
    else
      var t := if HyphenBefore(i) then s[1..] else s;
      if |t| < 2 || HexValue(t[0]).None? || HexValue(t[1]).None? then None
      else
        var b := HexValue(t[0]).value * 16 + HexValue(t[1]).value;
        if !(0 <= b < 256) then None
        else match Unhex(t[2..], i + 1, n - 1)
          case None => None
          case Some(rest) => Some([b as Byte] + rest)
  }

  /** Inverse of `UuidString` on canonical lower-case text. */
  function ParseCanonical(s: string): (r: Option<Uuid>)
  {
    match Unhex(s, 0, 16)
    case None => None
    case Some(bytes) => Some(bytes)
  }

  lemma {:induction false} UnhexHex(bytes: seq<Byte>, i: nat)
    ensures Unhex(Hex(bytes, i), i, |bytes|) == Some(bytes)
    decreases |bytes|
  {
    if bytes != [] {
      var b := bytes[0] as int;
      var s := Hex(bytes, i);
      var t := if HyphenBefore(i) then s[1..] else s;
      assert t == [HexDigit(b / 16), HexDigit(b % 16)] + Hex(bytes[1..], i + 1);
      assert t[2..] == Hex(bytes[1..], i + 1);
      UnhexHex(bytes[1..], i + 1);
      assert [bytes[0]] + bytes[1..] == bytes;
    }
  }

  /** The text form of a UUID reads back as that UUID. */
  lemma UuidStringRoundTrip(u: Uuid)
    ensures ParseCanonical(UuidString(u)) == Some(u)
  {
    UnhexHex(u, 0);
  }

  /** Distinct UUIDs have distinct texts. */
  lemma UuidStringInjective(u: Uuid, v: Uuid)
    ensures UuidString(u) == UuidString(v) <==> u == v
  {
    UuidStringRoundTrip(u);
    UuidStringRoundTrip(v);
  }
}
