/** common/bitmap.go: the two tables as they stand in the source. */
module BitmapTables {
  import opened Bitmaps

  function SupportedDocsBitMaskMap(): map<int, seq<Tuple>> {
    map[
      1 := [Tuple(1, 1), Tuple(2, 2), Tuple(3, 3), Tuple(4, 4), Tuple(5, 5), Tuple(6, 6), Tuple(7, 29),
            Tuple(8, 35), Tuple(9, 40)],
      2 := [Tuple(1, 7), Tuple(2, 8), Tuple(3, 9)],
      3 := [Tuple(1, 10)],
      4 := [Tuple(1, 11)],
      5 := [Tuple(1, 12)],
      6 := [Tuple(1, 13), Tuple(2, 31), Tuple(3, 36), Tuple(4, 37), Tuple(5, 38), Tuple(6, 39), Tuple(7, 34),
            Tuple(8, 41)],
      7 := [Tuple(1, 14)],
      8 := [Tuple(1, 15), Tuple(2, 32), Tuple(3, 33)],
      9 := [Tuple(1, 16), Tuple(2, 17)],
      10 := [Tuple(1, 18), Tuple(2, 19)],
      11 := [Tuple(1, 20), Tuple(2, 25)],
      12 := [Tuple(1, 21), Tuple(2, 23)],
      13 := [Tuple(1, 22)],
      14 := [Tuple(1, 24)],
      15 := [Tuple(1, 26), Tuple(2, 27)],
      16 := [Tuple(1, 28)],
      17 := [Tuple(1, 30)]]
  }

  /** The group, and the bit within it, that announces a bitmap bit. */
  function Announcer(cpeBit: int): (int, int) {
    if cpeBit == 1 then (1, 1)
    else if cpeBit == 2 then (1, 2)
    else if cpeBit == 3 then (1, 3)
    else if cpeBit == 4 then (1, 4)
    else if cpeBit == 5 then (1, 5)
    else if cpeBit == 6 then (1, 6)
    else if cpeBit == 7 then (2, 1)
    else if cpeBit == 8 then (2, 2)
    else if cpeBit == 9 then (2, 3)
    else if cpeBit == 10 then (3, 1)
    else if cpeBit == 11 then (4, 1)
    else if cpeBit == 12 then (5, 1)
    else if cpeBit == 13 then (6, 1)
    else if cpeBit == 14 then (7, 1)
    else if cpeBit == 15 then (8, 1)
    else if cpeBit == 16 then (9, 1)
    else if cpeBit == 17 then (9, 2)
    else if cpeBit == 18 then (10, 1)
    else if cpeBit == 19 then (10, 2)
    else if cpeBit == 20 then (11, 1)
    else if cpeBit == 21 then (12, 1)
    else if cpeBit == 22 then (13, 1)
    else if cpeBit == 23 then (12, 2)
    else if cpeBit == 24 then (14, 1)
    else if cpeBit == 25 then (11, 2)
    else if cpeBit == 26 then (15, 1)
    else if cpeBit == 27 then (15, 2)
    else if cpeBit == 28 then (16, 1)
    else if cpeBit == 29 then (1, 7)
    else if cpeBit == 30 then (17, 1)
    else if cpeBit == 31 then (6, 2)
    else if cpeBit == 32 then (8, 2)
    else if cpeBit == 33 then (8, 3)
    else if cpeBit == 34 then (6, 7)
    else if cpeBit == 35 then (1, 8)
    else if cpeBit == 36 then (6, 3)
    else if cpeBit == 37 then (6, 4)
    else if cpeBit == 38 then (6, 5)
    else if cpeBit == 39 then (6, 6)
    else if cpeBit == 40 then (1, 9)
    else if cpeBit == 41 then (6, 8)
    else (0, 0)
  }

  /** The subdocument id of each bitmap bit, counted from 1. */
  function SubdocId(i: int): string {
    if i == 1 then "portforwarding"
    else if i == 2 then "lan"
    else if i == 3 then "wan"
    else if i == 4 then "macbinding"
    else if i == 5 then "hotspot"
    else if i == 6 then "bridge"
    else if i == 7 then "privatessid"
    else if i == 8 then "homessid"
    else if i == 9 then "radio"
    else if i == 10 then "moca"
    else if i == 11 then "xdns"
    else if i == 12 then "advsecurity"
    else if i == 13 then "mesh"
    else if i == 14 then "aker"
    else if i == 15 then "telemetry"
    else if i == 16 then "statusreport"
    else if i == 17 then "trafficreport"
    else if i == 18 then "interfacereport"
    else if i == 19 then "radioreport"
    else if i == 20 then "telcovoip"
    else if i == 21 then "wanmanager"
    else if i == 22 then "voiceservice"
    else if i == 23 then "wanfailover"
    else if i == 24 then "cellularconfig"
    else if i == 25 then "telcovoice"
    else if i == 26 then "gwfailover"
    else if i == 27 then "gwrestore"
    else if i == 28 then "prioritizedmacs"
    else if i == 29 then "connectedbuilding"
    else if i == 30 then "lldqoscontrol"
    else if i == 31 then "clienttosteeringprofile"
    else if i == 32 then "defaultrfc"
    else if i == 33 then "rfc"
    else if i == 34 then "wifimotionsettings"
    else if i == 35 then "xmspeedboost"
    else if i == 36 then "meshsteeringprofiles"
    else if i == 37 then "wifistatsconfig"
    else if i == 38 then "mwoconfigs"
    else if i == 39 then "interference"
    else if i == 40 then "webui"
    else if i == 41 then "channelplan"
    else ""
  }

  /** Length and first character, and in three cases the last one, tell the 41 ids apart. */
  function Position(s: string): int
    requires s != ""
  {
    var first, last := s[0], s[|s| - 1];
    match |s|
    case 3 => if first == 'l' then 2 else if first == 'w' then 3 else 33
    case 4 => if first == 'm' && last == 'a' then 10 else if first == 'x' then 11
      else if first == 'm' && last == 'h' then 13 else 14
    case 5 => if first == 'r' then 9 else 40
    case 6 => 6
    case 7 => 5
    case 8 => 8
    case 9 => if first == 't' && last == 'y' then 15 else if first == 't' && last == 'p' then 20 else 27
    case 10 => if first == 'm' && last == 'g' then 4 else if first == 'w' then 21 else if first == 't' then 25
      else if first == 'g' then 26 else if first == 'd' then 32 else 38
    case 11 => if first == 'p' then 7 else if first == 'a' then 12 else if first == 'r' then 19
      else if first == 'w' then 23 else 41
    case 12 => if first == 's' then 16 else if first == 'v' then 22 else if first == 'x' then 35 else 39
    case 13 => if first == 't' then 17 else 30
    case 14 => if first == 'p' then 1 else 24
    case 15 => if first == 'i' then 18 else if first == 'p' then 28 else 37
    case 17 => 29
    case 18 => 34
    case 20 => 36
    case 23 => 31
    case _ => 0
  }

  lemma PositionOfLow(i: int)
    requires 1 <= i <= 24
    ensures SubdocId(i) != "" && Position(SubdocId(i)) == i
  {
  }

  lemma PositionOfHigh(i: int)
    requires 25 <= i <= BIT_COUNT
    ensures SubdocId(i) != "" && Position(SubdocId(i)) == i
  {
  }

  lemma PositionOfId(i: int)
    requires 1 <= i <= BIT_COUNT
    ensures SubdocId(i) != "" && Position(SubdocId(i)) == i
  {
    if i <= 24 {
      PositionOfLow(i);
    } else {
      PositionOfHigh(i);
    }
  }

  lemma SubdocIdsDistinct()
    ensures forall i, j :: 1 <= i <= BIT_COUNT && 1 <= j <= BIT_COUNT && SubdocId(i) == SubdocId(j) ==> i == j
  {
    forall i, j | 1 <= i <= BIT_COUNT && 1 <= j <= BIT_COUNT && SubdocId(i) == SubdocId(j) ensures i == j {
      PositionOfId(i);
      PositionOfId(j);
    }
  }

  function SubdocBitIndexMap(): (m: map<string, int>)
    ensures forall i :: 1 <= i <= BIT_COUNT ==> SubdocId(i) in m && m[SubdocId(i)] == i
    ensures forall k :: k in m ==> 1 <= m[k] <= BIT_COUNT && SubdocId(m[k]) == k
  {
    SubdocIdsDistinct();
    map i | 1 <= i <= BIT_COUNT :: SubdocId(i) := i
  }

  function SourceTables(): Tables {
    Tables(SupportedDocsBitMaskMap(), SubdocBitIndexMap())
  }

  lemma AnnouncerIsListed(c: int)
    requires 1 <= c <= BIT_COUNT
    ensures Announcer(c).0 in SupportedDocsBitMaskMap()
    ensures Announcer(c).1 >= 1 && Tuple(Announcer(c).1, c) in SupportedDocsBitMaskMap()[Announcer(c).0]
  {
    var (g, b) := Announcer(c);
    var tuples := SupportedDocsBitMaskMap()[g];
    assert b <= |tuples| && tuples[b - 1] == Tuple(b, c);
  }

  lemma TupleIsAnnounced(g: int, t: Tuple)
    requires g in SupportedDocsBitMaskMap() && t in SupportedDocsBitMaskMap()[g]
    ensures 1 <= t.cpeBit <= BIT_COUNT && t.groupBit >= 1 && Announcer(t.cpeBit) == (g, t.groupBit)
  {
    var tuples := SupportedDocsBitMaskMap()[g];
    var i :| 0 <= i < |tuples| && tuples[i] == t;
    assert t.groupBit == i + 1;
  }

  /** Each table is a bijection onto the bitmap bits 1 to 41. */
  lemma SourceTablesValid()
    ensures SourceTables().Valid()
  {
    var groups, indexes := SupportedDocsBitMaskMap(), SubdocBitIndexMap();
    assert GroupsValid(groups) by {
      forall g, t: Tuple | Lists(groups, g, t) ensures 1 <= t.cpeBit <= BIT_COUNT && t.groupBit >= 1 {
        TupleIsAnnounced(g, t);
      }
      forall g, t: Tuple, h, u: Tuple | Lists(groups, g, t) && Lists(groups, h, u) && t.cpeBit == u.cpeBit
        ensures g == h && t == u
      {
        TupleIsAnnounced(g, t);
        TupleIsAnnounced(h, u);
      }
      forall c | 1 <= c <= BIT_COUNT ensures BitListed(groups, c) {
        AnnouncerIsListed(c);
        assert Lists(groups, Announcer(c).0, Tuple(Announcer(c).1, c));
      }
    }
    assert IndexesValid(indexes) by {
      forall c | 1 <= c <= BIT_COUNT ensures BitIndexed(indexes, c) {
        assert SubdocId(c) in indexes;
      }
    }
  }
}
