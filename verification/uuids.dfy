/**
 * UUIDs and their canonical text form (section 3 of RFC 4122): 32
 * lowercase hex digits in groups of 8-4-4-4-12 joined by '-', as
 * `uuid.UUID.String` of github.com/google/uuid writes them.
 */
module Uuids {
  import opened Format

  type Uuid = s: seq<Byte> | |s| == 16 witness [0, 0, 0, 0, 0, 0, 0, 0, 0, 0, 0, 0, 0, 0, 0, 0]

  /** `uuid.Nil`, the all-zero UUID. */
  const Nil: Uuid := [0, 0, 0, 0, 0, 0, 0, 0, 0, 0, 0, 0, 0, 0, 0, 0]

  predicate IsDashPosition(i: int) {
    i == 8 || i == 13 || i == 18 || i == 23
  }

  /** `uuid.UUID.String`: the 36-character canonical form. */
  function UuidString(u: Uuid): (s: string)
    ensures |s| == 36
    ensures forall i :: 0 <= i < 36 ==> if IsDashPosition(i) then s[i] == '-' else IsHexDigit(s[i])
  {
    var g0, g1, g2, g3, g4 := HexEncode(u[..4]), HexEncode(u[4..6]), HexEncode(u[6..8]),
      HexEncode(u[8..10]), HexEncode(u[10..]);
    DashedShape(g0, g1, g2, g3, g4);
    g0 + "-" + g1 + "-" + g2 + "-" + g3 + "-" + g4
  }

  /** Five hex groups of 8, 4, 4, 4 and 12 digits joined by dashes have the canonical shape. */
  lemma DashedShape(g0: string, g1: string, g2: string, g3: string, g4: string)
    requires |g0| == 8 && |g1| == 4 && |g2| == 4 && |g3| == 4 && |g4| == 12
    requires forall i :: 0 <= i < 8 ==> IsHexDigit(g0[i])
    requires forall i :: 0 <= i < 4 ==> IsHexDigit(g1[i]) && IsHexDigit(g2[i]) && IsHexDigit(g3[i])
    requires forall i :: 0 <= i < 12 ==> IsHexDigit(g4[i])
    ensures var s := g0 + "-" + g1 + "-" + g2 + "-" + g3 + "-" + g4;
      |s| == 36 && forall i :: 0 <= i < 36 ==> if IsDashPosition(i) then s[i] == '-' else IsHexDigit(s[i])
  {
    var s := g0 + "-" + g1 + "-" + g2 + "-" + g3 + "-" + g4;
    forall i | 0 <= i < 36
      ensures if IsDashPosition(i) then s[i] == '-' else IsHexDigit(s[i])
    {
      if i < 8 {
        assert s[i] == g0[i];
      } else if 9 <= i < 13 {
        assert s[i] == g1[i - 9];
      } else if 14 <= i < 18 {
        assert s[i] == g2[i - 14];
      } else if 19 <= i < 23 {
        assert s[i] == g3[i - 19];
      } else if 24 <= i {
        assert s[i] == g4[i - 24];
      }
    }
  }

  /** Where each group of bytes sits in the text form. */
  lemma UuidStringGroups(u: Uuid)
    ensures var s := UuidString(u);
      && s[..8] == HexEncode(u[..4])
      && s[9..13] == HexEncode(u[4..6])
      && s[14..18] == HexEncode(u[6..8])
      && s[19..23] == HexEncode(u[8..10])
      && s[24..] == HexEncode(u[10..])
  {
    var g0, g1, g2, g3, g4 := HexEncode(u[..4]), HexEncode(u[4..6]), HexEncode(u[6..8]),
      HexEncode(u[8..10]), HexEncode(u[10..]);
    var s := UuidString(u);
    assert s == g0 + "-" + g1 + "-" + g2 + "-" + g3 + "-" + g4;
    assert s[..8] == g0;
    assert s[9..13] == g1;
    assert s[14..18] == g2;
    assert s[19..23] == g3;
    assert s[24..] == g4;
  }

  lemma UuidGroupsJoin(a: Uuid, b: Uuid)
    requires a[..4] == b[..4] && a[4..6] == b[4..6] && a[6..8] == b[6..8]
    requires a[8..10] == b[8..10] && a[10..] == b[10..]
    ensures a == b
  {
    forall i | 0 <= i < 16
      ensures a[i] == b[i]
    {
      if i < 4 {
        assert a[i] == a[..4][i];
      } else if i < 6 {
        assert a[i] == a[4..6][i - 4];
      } else if i < 8 {
        assert a[i] == a[6..8][i - 6];
      } else if i < 10 {
        assert a[i] == a[8..10][i - 8];
      } else {
        assert a[i] == a[10..][i - 10];
      }
    }
  }

  /** The canonical text form determines the UUID. */
  lemma UuidStringInjective(a: Uuid, b: Uuid)
    requires UuidString(a) == UuidString(b)
    ensures a == b
  {
    UuidStringGroups(a);
    UuidStringGroups(b);
    HexEncodeInjective(a[..4], b[..4]);
    HexEncodeInjective(a[4..6], b[4..6]);
    HexEncodeInjective(a[6..8], b[6..8]);
    HexEncodeInjective(a[8..10], b[8..10]);
    HexEncodeInjective(a[10..], b[10..]);
    UuidGroupsJoin(a, b);
  }
}
