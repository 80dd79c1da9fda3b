/**
 * MongoDB document ids. An ObjectId is a 12-byte value; its string form is
 * 24 lower-case hexadecimal digits. Route parameters arrive as strings and are
 * cast back to ObjectIds before any query runs.
 */
module ObjectIds {

  import opened Wrappers

  function Pow16(n: nat): (r: nat)
    ensures r >= 1
  {
    if n == 0 then 1 else 16 * Pow16(n - 1)
  }

  /** Number of hexadecimal digits in the string form of an ObjectId (12 bytes). */
  const HexWidth: nat := 24

  type ObjectId = n: nat | n < Pow16(24)

  predicate IsHexDigit(c: char) {
    ('0' <= c <= '9') || ('a' <= c <= 'f') || ('A' <= c <= 'F')
  }

  predicate AllHex(s: string) {
    forall k :: 0 <= k < |s| ==> IsHexDigit(s[k])
  }

  function HexDigit(d: nat): (c: char)
    requires d < 16
    ensures IsHexDigit(c) && !('A' <= c <= 'F')
  {
    "0123456789abcdef"[d]
  }

  function HexValue(c: char): (d: nat)
    requires IsHexDigit(c)
    ensures d < 16
  {
    if '0' <= c <= '9' then (c as int - '0' as int)
    else if 'a' <= c <= 'f' then (c as int - 'a' as int + 10)
    else (c as int - 'A' as int + 10)
  }

  lemma HexValueOfDigit(d: nat)
    requires d < 16
    ensures HexValue(HexDigit(d)) == d
  {
  }

  /** The low `width` hexadecimal digits of `n`, most significant first. */
  function ToHex(n: nat, width: nat): (r: string)
    ensures |r| == width && AllHex(r)
  {
    if width == 0 then "" else ToHex(n / 16, width - 1) + [HexDigit(n % 16)]
  }

  /** The number a string of hexadecimal digits (either case) denotes. */
  function FromHex(s: string): (n: nat)
    requires AllHex(s)
    ensures n < Pow16(|s|)
  {
    if s == [] then 0
    else
      var high := FromHex(s[..|s| - 1]);
      assert high <= Pow16(|s| - 1) - 1;
      assert high * 16 <= Pow16(|s|) - 16;
      high * 16 + HexValue(s[|s| - 1])
  }

  /** Reading back the digits ToHex writes gives the number it started from. */
  lemma {:induction false} FromHexToHex(n: nat, width: nat)
    requires n < Pow16(width)
    ensures FromHex(ToHex(n, width)) == n
  {
    if width > 0 {
      var s := ToHex(n, width);
      assert s[..|s| - 1] == ToHex(n / 16, width - 1);
      assert n / 16 < Pow16(width - 1);
      FromHexToHex(n / 16, width - 1);
      HexValueOfDigit(n % 16);
    }
  }

  /** `ObjectId.toHexString()`, which is also what a template literal writes. */
  function IdToString(id: ObjectId): (r: string)
    ensures |r| == HexWidth && AllHex(r)
  {
    ToHex(id, HexWidth)
  }

  /**
   * Casting a route parameter to an ObjectId: a string of 24 hexadecimal
   * digits denotes the id it spells; anything else is a cast failure.
   */
  function CastObjectId(s: string): (r: Option<ObjectId>)
    ensures r.Some? <==> |s| == HexWidth && AllHex(s)
  {
    if |s| == HexWidth && AllHex(s) then Some(FromHex(s)) else None
  }

  /** Every id survives the trip through its string form. */
  lemma CastIdToString(id: ObjectId)
    ensures CastObjectId(IdToString(id)) == Some(id)
  {
    FromHexToHex(id, HexWidth);
  }

  /** Distinct ids have distinct string forms. */
  lemma IdToStringInjective(a: ObjectId, b: ObjectId)
    ensures IdToString(a) == IdToString(b) <==> a == b
  {
    CastIdToString(a);
    CastIdToString(b);
  }
}
