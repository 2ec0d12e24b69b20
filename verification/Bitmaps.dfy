/** common/firmware_bitmap.go: the merge of a group header into one bitmap, and the translation
    between a bitmap and a map of subdocument ids, over any tables that are bijections. */
module Bitmaps {
  import opened Common
  import opened Bits

  datatype Tuple = Tuple(groupBit: nat, cpeBit: nat)

  const BIT_COUNT := 41

  /** groups lists, for a header group, which group bit announces which bitmap bit; indexes gives
      the bitmap bit of a subdocument id. Bits are counted from 1. */
  datatype Tables = Tables(groups: map<int, seq<Tuple>>, indexes: map<string, int>) {
    ghost predicate Valid() {
      GroupsValid(groups) && IndexesValid(indexes)
    }
  }

  ghost predicate Lists(groups: map<int, seq<Tuple>>, g: int, t: Tuple) {
    g in groups && t in groups[g]
  }

  ghost predicate GroupsValid(groups: map<int, seq<Tuple>>) {
    && (forall g, t :: Lists(groups, g, t) ==> 1 <= t.cpeBit <= BIT_COUNT && t.groupBit >= 1)
    && (forall g, t, h, u :: Lists(groups, g, t) && Lists(groups, h, u) && t.cpeBit == u.cpeBit ==> g == h && t == u)
    && (forall c :: 1 <= c <= BIT_COUNT ==> BitListed(groups, c))
  }

  ghost predicate BitListed(groups: map<int, seq<Tuple>>, c: int) {
    exists g, t :: Lists(groups, g, t) && t.cpeBit == c
  }

  ghost predicate IndexesValid(indexes: map<string, int>) {
    && (forall k :: k in indexes ==> 1 <= indexes[k] <= BIT_COUNT)
    && (forall j, k :: j in indexes && k in indexes && indexes[j] == indexes[k] ==> j == k)
    && (forall c :: 1 <= c <= BIT_COUNT ==> BitIndexed(indexes, c))
  }

  ghost predicate BitIndexed(indexes: map<string, int>, c: int) {
    exists k :: k in indexes && indexes[k] == c
  }

  // ---------- header to bitmap ----------

  /** ParseFirmwareGroupBitarray: the group is the header integer shifted right by 24, the group
      bits are its low 24 bits. */
  function GroupOf(element: int): int {
    element / 0x100_0000
  }

  function GroupBitsOf(element: int): int {
    element % 0x100_0000
  }

  /** An unknown group has no tuples. */
  function TuplesOf(groups: map<int, seq<Tuple>>, group: int): seq<Tuple> {
    if group in groups then groups[group] else []
  }

  /** Some tuple sets bitmap bit j (counted from 0) from these group bits. */
  ghost predicate Sets(tuples: seq<Tuple>, groupBits: int, j: nat) {
    exists t :: t in tuples && t.groupBit >= 1 && t.cpeBit == j + 1 && Bit(groupBits, t.groupBit - 1)
  }

  method SetBitmapByGroup(groups: map<int, seq<Tuple>>, cpeBitmap: nat, group: int, groupBits: int) returns (r: nat)
    requires GroupsValid(groups)
    ensures forall j: nat :: Bit(r, j) <==> Bit(cpeBitmap, j) || Sets(TuplesOf(groups, group), groupBits, j)
  {
    r := cpeBitmap;
    var tuples := TuplesOf(groups, group);
    var i := 0;
    while i < |tuples|
      invariant 0 <= i <= |tuples|
      invariant forall j: nat :: Bit(r, j) <==> Bit(cpeBitmap, j) || Sets(tuples[..i], groupBits, j)
    {
      var t := tuples[i];
      assert Lists(groups, group, t);
      SetsAppend(tuples[..i], t, groupBits);
      assert tuples[..i + 1] == tuples[..i] + [t];
      ghost var before := r;
      if Bit(groupBits, t.groupBit - 1) {
        r := SetBit(r, t.cpeBit - 1);
      }
      forall j: nat ensures Bit(r, j) <==> Bit(before, j) || (t.cpeBit == j + 1 && Bit(groupBits, t.groupBit - 1)) {
        SetBitMeaning(before, t.cpeBit - 1, j);
      }
      i := i + 1;
    }
    assert tuples[..i] == tuples;
  }

  lemma SetsAppend(tuples: seq<Tuple>, t: Tuple, groupBits: int)
    requires t.groupBit >= 1
    ensures forall j: nat :: Sets(tuples + [t], groupBits, j) <==>
                             Sets(tuples, groupBits, j) || (t.cpeBit == j + 1 && Bit(groupBits, t.groupBit - 1))
  {
    forall j: nat ensures Sets(tuples + [t], groupBits, j) <==>
                          Sets(tuples, groupBits, j) || (t.cpeBit == j + 1 && Bit(groupBits, t.groupBit - 1)) {
      if t.cpeBit == j + 1 && Bit(groupBits, t.groupBit - 1) {
        assert t in tuples + [t];
      }
      if u :| u in tuples && u.groupBit >= 1 && u.cpeBit == j + 1 && Bit(groupBits, u.groupBit - 1) {
        assert u in tuples + [t];
      }
    }
  }

  /** What the header announces: some element of it sets bitmap bit j. */
  ghost predicate Announced(groups: map<int, seq<Tuple>>, elements: seq<int>, j: nat) {
    exists e :: e in elements && Sets(TuplesOf(groups, GroupOf(e)), GroupBitsOf(e), j)
  }

  /** The header is the list of its comma-separated integers; None is an element Atoi refuses.
      The result is None when any element is refused, and the caller then keeps bitmap 0. */
  method GetCpeBitmap(groups: map<int, seq<Tuple>>, header: seq<Option<int>>) returns (r: Option<nat>)
    requires GroupsValid(groups)
    ensures r.None? <==> None in header
    ensures r.Some? ==> forall j: nat :: Bit(r.value, j) <==> Announced(groups, Elements(header), j)
  {
    var bitmap: nat := 0;
    var i := 0;
    forall j: nat ensures !Bit(0, j) {
      ZeroHasNoBits(j);
    }
    while i < |header|
      invariant 0 <= i <= |header|
      invariant None !in header[..i]
      invariant forall j: nat :: Bit(bitmap, j) <==> Announced(groups, Elements(header[..i]), j)
    {
      if header[i].None? {
        return None;
      }
      var e := header[i].value;
      assert header[..i + 1] == header[..i] + [header[i]];
      ElementsAppend(header[..i], e);
      AnnouncedAppend(groups, Elements(header[..i]), e);
      bitmap := SetBitmapByGroup(groups, bitmap, GroupOf(e), GroupBitsOf(e));
      i := i + 1;
    }
    assert header[..i] == header;
    return Some(bitmap);
  }

  ghost function Elements(header: seq<Option<int>>): seq<int>
    requires None !in header
  {
    seq(|header|, i requires 0 <= i < |header| => assert header[i] in header; header[i].value)
  }

  lemma ElementsAppend(header: seq<Option<int>>, e: int)
    requires None !in header
    ensures Elements(header + [Some(e)]) == Elements(header) + [e]
  {
  }

  lemma AnnouncedAppend(groups: map<int, seq<Tuple>>, elements: seq<int>, e: int)
    ensures forall j: nat :: Announced(groups, elements + [e], j) <==>
                             Announced(groups, elements, j) || Sets(TuplesOf(groups, GroupOf(e)), GroupBitsOf(e), j)
  {
    forall j: nat ensures Announced(groups, elements + [e], j) <==>
                          Announced(groups, elements, j) || Sets(TuplesOf(groups, GroupOf(e)), GroupBitsOf(e), j) {
      if Sets(TuplesOf(groups, GroupOf(e)), GroupBitsOf(e), j) {
        assert e in elements + [e];
      }
      if f :| f in elements && Sets(TuplesOf(groups, GroupOf(f)), GroupBitsOf(f), j) {
        assert f in elements + [e];
      }
    }
  }

  predicate IsSubdocSupported(indexes: map<string, int>, cpeBitmap: int, subdocId: string)
    requires IndexesValid(indexes)
  {
    subdocId in indexes && Bit(cpeBitmap, indexes[subdocId] - 1)
  }

  /** What a header means: a subdocument is supported exactly when some element of the header
      carries the group that announces its bit in the high bits, and that group bit set. */
  lemma HeaderMeaning(t: Tables, elements: seq<int>, bitmap: nat, id: string, group: int, tuple: Tuple)
    requires t.Valid() && id in t.indexes
    requires Lists(t.groups, group, tuple) && tuple.cpeBit == t.indexes[id]
    requires forall j: nat :: Bit(bitmap, j) <==> Announced(t.groups, elements, j)
    ensures IsSubdocSupported(t.indexes, bitmap, id) <==>
            exists e :: e in elements && GroupOf(e) == group && Bit(GroupBitsOf(e), tuple.groupBit - 1)
  {
    var j := t.indexes[id] - 1;
    assert Bit(bitmap, j) <==> Announced(t.groups, elements, j);
    if Announced(t.groups, elements, j) {
      var e :| e in elements && Sets(TuplesOf(t.groups, GroupOf(e)), GroupBitsOf(e), j);
      var u :| u in TuplesOf(t.groups, GroupOf(e)) && u.groupBit >= 1 && u.cpeBit == j + 1
          && Bit(GroupBitsOf(e), u.groupBit - 1);
      assert Lists(t.groups, GroupOf(e), u) && Lists(t.groups, group, tuple);
    }
    if e :| e in elements && GroupOf(e) == group && Bit(GroupBitsOf(e), tuple.groupBit - 1) {
      assert tuple in TuplesOf(t.groups, group);
      assert Sets(TuplesOf(t.groups, group), GroupBitsOf(e), j);
      assert Announced(t.groups, elements, j);
    }
  }

  /** Two headers with the same elements, in any order and number, give the same bitmap. */
  lemma HeaderOrderIrrelevant(groups: map<int, seq<Tuple>>, xs: seq<int>, ys: seq<int>, m: nat, n: nat)
    requires forall e :: e in xs <==> e in ys
    requires forall j: nat :: Bit(m, j) <==> Announced(groups, xs, j)
    requires forall j: nat :: Bit(n, j) <==> Announced(groups, ys, j)
    ensures m == n
  {
    forall j: nat ensures Announced(groups, xs, j) <==> Announced(groups, ys, j) {
      if Announced(groups, xs, j) {
        var e :| e in xs && Sets(TuplesOf(groups, GroupOf(e)), GroupBitsOf(e), j);
        assert e in ys;
      }
      if Announced(groups, ys, j) {
        var e :| e in ys && Sets(TuplesOf(groups, GroupOf(e)), GroupBitsOf(e), j);
        assert e in xs;
      }
    }
    BitsDetermine(m, n);
  }

  // ---------- bitmap to map and back ----------

  /** GetSupportedMap as a function; the method below visits the table in any order. */
  function SupportedMap(indexes: map<string, int>, cpeBitmap: int): map<string, bool>
    requires IndexesValid(indexes)
  {
    map k | k in indexes :: Bit(cpeBitmap, indexes[k] - 1)
  }

  lemma SupportedStep(m: map<string, bool>, todo: set<string>, k: string)
    requires k in todo && k in m
    ensures (m - todo)[k := m[k]] == m - (todo - {k})
  {
  }

  method GetSupportedMap(indexes: map<string, int>, cpeBitmap: int) returns (supportedMap: map<string, bool>)
    requires IndexesValid(indexes)
    ensures supportedMap == SupportedMap(indexes, cpeBitmap)
    ensures forall k :: Holds(supportedMap, k) <==> IsSubdocSupported(indexes, cpeBitmap, k)
  {
    supportedMap := map[];
    var todo := indexes.Keys;
    while todo != {}
      invariant todo <= indexes.Keys
      invariant supportedMap == SupportedMap(indexes, cpeBitmap) - todo
      decreases todo
    {
      var k :| k in todo;
      SupportedStep(SupportedMap(indexes, cpeBitmap), todo, k);
      supportedMap := supportedMap[k := false];
      if Bit(cpeBitmap, indexes[k] - 1) {
        supportedMap := supportedMap[k := true];
      }
      todo := todo - {k};
    }
  }

  /** A Go lookup srcMap[k]: a missing key reads as false. */
  predicate Holds(m: map<string, bool>, k: string) {
    k in m && m[k]
  }

  /** The bits of bitmap are those of the ids outside todo that srcMap holds. */
  ghost predicate Gathered(indexes: map<string, int>, srcMap: map<string, bool>, todo: set<string>, bitmap: int)
    requires IndexesValid(indexes)
  {
    && (forall k :: k in indexes ==> (Bit(bitmap, indexes[k] - 1) <==> k !in todo && Holds(srcMap, k)))
    && (forall j: nat :: j >= BIT_COUNT ==> !Bit(bitmap, j))
  }

  /** Bits are set by addition; the indexes are distinct, so no addition carries. */
  method GetBitmapFromSupportedMap(indexes: map<string, int>, srcMap: map<string, bool>) returns (bitmap: nat)
    requires IndexesValid(indexes)
    ensures Gathered(indexes, srcMap, {}, bitmap)
  {
    bitmap := 0;
    var todo := indexes.Keys;
    NothingGathered(indexes, srcMap);
    while todo != {}
      invariant todo <= indexes.Keys
      invariant Gathered(indexes, srcMap, todo, bitmap)
      decreases todo
    {
      var k :| k in todo;
      var index := indexes[k];
      if k in srcMap && srcMap[k] {
        GatherOne(indexes, srcMap, todo, bitmap, k);
        bitmap := bitmap + Pow2(index - 1);
      } else {
        SkipOne(indexes, srcMap, todo, bitmap, k);
      }
      todo := todo - {k};
    }
  }

  lemma NothingGathered(indexes: map<string, int>, srcMap: map<string, bool>)
    requires IndexesValid(indexes)
    ensures Gathered(indexes, srcMap, indexes.Keys, 0)
  {
    forall j: nat ensures !Bit(0, j) {
      ZeroHasNoBits(j);
    }
  }

  lemma SkipOne(indexes: map<string, int>, srcMap: map<string, bool>, todo: set<string>, bitmap: nat, k: string)
    requires IndexesValid(indexes) && Gathered(indexes, srcMap, todo, bitmap)
    requires !Holds(srcMap, k)
    ensures Gathered(indexes, srcMap, todo - {k}, bitmap)
  {
  }

  lemma GatherOne(indexes: map<string, int>, srcMap: map<string, bool>, todo: set<string>, bitmap: nat, k: string)
    requires IndexesValid(indexes)
    requires Gathered(indexes, srcMap, todo, bitmap)
    requires k in todo && k in indexes && Holds(srcMap, k)
    ensures Gathered(indexes, srcMap, todo - {k}, bitmap + Pow2(indexes[k] - 1))
  {
    var b := bitmap + Pow2(indexes[k] - 1);
    forall j: nat ensures Bit(b, j) <==> j == indexes[k] - 1 || Bit(bitmap, j) {
      AddBit(bitmap, indexes[k] - 1, j);
    }
  }

  /** Map and back: the low 41 bits survive, whatever the bitmap. */
  lemma BitmapRoundTrip(indexes: map<string, int>, b: int, back: nat)
    requires IndexesValid(indexes)
    requires Gathered(indexes, SupportedMap(indexes, b), {}, back)
    ensures back == b % Pow2(BIT_COUNT)
  {
    forall j: nat ensures Bit(back, j) == Bit(b % Pow2(BIT_COUNT), j) {
      LowBits(b, BIT_COUNT, j);
      BitComesBack(indexes, b, back, j);
    }
    BitsDetermine(back, b % Pow2(BIT_COUNT));
  }

  lemma BitComesBack(indexes: map<string, int>, b: int, back: nat, j: nat)
    requires IndexesValid(indexes)
    requires Gathered(indexes, SupportedMap(indexes, b), {}, back)
    ensures Bit(back, j) <==> j < BIT_COUNT && Bit(b, j)
  {
    if j < BIT_COUNT {
      assert BitIndexed(indexes, j + 1);
      var k :| k in indexes && indexes[k] == j + 1;
      assert Bit(back, indexes[k] - 1) <==> Holds(SupportedMap(indexes, b), k);
    }
  }

  /** Back and forth from a map over exactly the known ids. */
  lemma SupportedMapRoundTrip(indexes: map<string, int>, m: map<string, bool>, bitmap: nat)
    requires IndexesValid(indexes) && m.Keys == indexes.Keys
    requires Gathered(indexes, m, {}, bitmap)
    ensures SupportedMap(indexes, bitmap) == m
  {
    forall k | k in indexes ensures SupportedMap(indexes, bitmap)[k] == m[k] {
      assert Bit(bitmap, indexes[k] - 1) <==> Holds(m, k);
    }
  }
}
