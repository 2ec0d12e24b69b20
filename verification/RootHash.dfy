/** db/service.go HashRootVersion: the root version of a version map. The keys are sorted, the
    versions concatenated in that order, and the text hashed. */
module RootHash {
  import opened Common

  /** Byte-wise lexicographic order, the order sort.Strings uses. */
  predicate Before(a: string, b: string) {
    if a == "" then true
    else if b == "" then false
    else a[0] < b[0] || (a[0] == b[0] && Before(a[1..], b[1..]))
  }

  lemma {:induction false} BeforeTotal(a: string, b: string)
    ensures Before(a, b) || Before(b, a)
  {
    if a != "" && b != "" {
      BeforeTotal(a[1..], b[1..]);
    }
  }

  lemma {:induction false} BeforeAntisymmetric(a: string, b: string)
    requires Before(a, b) && Before(b, a)
    ensures a == b
  {
    if a != "" && b != "" {
      BeforeAntisymmetric(a[1..], b[1..]);
      assert a == [a[0]] + a[1..] && b == [b[0]] + b[1..];
    }
  }

  lemma {:induction false} BeforeTransitive(a: string, b: string, c: string)
    requires Before(a, b) && Before(b, c)
    ensures Before(a, c)
  {
    if a != "" && b != "" && c != "" && a[0] == b[0] == c[0] {
      BeforeTransitive(a[1..], b[1..], c[1..]);
    }
  }

  ghost predicate Sorted(keys: seq<string>) {
    forall i, j :: 0 <= i < j < |keys| ==> Before(keys[i], keys[j])
  }

  ghost predicate Distinct(keys: seq<string>) {
    forall i, j :: 0 <= i < j < |keys| ==> keys[i] != keys[j]
  }

  /** The elements of s in sorted order: no order of visiting s matters (SortedListing). */
  ghost predicate Lists(keys: seq<string>, s: set<string>) {
    && Sorted(keys)
    && Distinct(keys)
    && (forall k :: k in keys <==> k in s)
  }

  function Concat(keys: seq<string>, versions: Versions): string
    requires forall k :: k in keys ==> k in versions
  {
    if keys == [] then "" else versions[keys[0]] + Concat(keys[1..], versions)
  }

  lemma {:induction false} ListingIsUnique(xs: seq<string>, ys: seq<string>, s: set<string>)
    requires Lists(xs, s) && Lists(ys, s)
    ensures xs == ys
  {
    assert xs != [] ==> xs[0] in s;
    assert ys != [] ==> ys[0] in s;
    if xs != [] && ys != [] {
      assert xs[0] in ys && ys[0] in xs;
      SameFirst(xs, ys);
      TailLists(xs, s);
      TailLists(ys, s);
      ListingIsUnique(xs[1..], ys[1..], s - {xs[0]});
      assert xs == [xs[0]] + xs[1..] && ys == [ys[0]] + ys[1..];
    }
  }

  lemma SameFirst(xs: seq<string>, ys: seq<string>)
    requires xs != [] && ys != []
    requires Sorted(xs) && Sorted(ys)
    requires xs[0] in ys && ys[0] in xs
    ensures xs[0] == ys[0]
  {
    BeforeTotal(xs[0], xs[0]);
    BeforeTotal(ys[0], ys[0]);
    var i :| 0 <= i < |ys| && ys[i] == xs[0];
    var j :| 0 <= j < |xs| && xs[j] == ys[0];
    assert Before(ys[0], ys[i]);
    assert Before(xs[0], xs[j]);
    BeforeAntisymmetric(xs[0], ys[0]);
  }

  lemma TailLists(xs: seq<string>, s: set<string>)
    requires xs != [] && Lists(xs, s)
    ensures Lists(xs[1..], s - {xs[0]})
  {
    forall k ensures k in xs[1..] <==> k in s - {xs[0]} {
      if k in xs[1..] {
        var i :| 0 <= i < |xs[1..]| && xs[1..][i] == k;
        assert xs[i + 1] == k;
      }
      if k in s - {xs[0]} {
        var i :| 0 <= i < |xs| && xs[i] == k;
        assert xs[1..][i - 1] == k;
      }
    }
  }

  /** Where key k belongs in a sorted list. */
  function InsertKey(k: string, keys: seq<string>): seq<string> {
    if keys == [] || Before(k, keys[0]) then [k] + keys
    else [keys[0]] + InsertKey(k, keys[1..])
  }

  lemma {:induction false} InsertKeyMembers(k: string, keys: seq<string>)
    ensures forall x :: x in InsertKey(k, keys) <==> x == k || x in keys
  {
    if keys != [] && !Before(k, keys[0]) {
      InsertKeyMembers(k, keys[1..]);
      assert keys == [keys[0]] + keys[1..];
    }
  }

  lemma {:induction false} InsertKeyLists(k: string, keys: seq<string>, s: set<string>)
    requires k !in s && Lists(keys, s)
    ensures Lists(InsertKey(k, keys), s + {k})
  {
    var r := InsertKey(k, keys);
    InsertKeyMembers(k, keys);
    if keys != [] {
      if Before(k, keys[0]) {
        assert r[1..] == keys;
        forall i, j | 0 <= i < j < |r| ensures Before(r[i], r[j]) && r[i] != r[j] {
          assert r[j] == keys[j - 1];
          if i == 0 && j > 1 {
            BeforeTransitive(k, keys[0], keys[j - 1]);
          }
          if i == 0 {
            assert keys[j - 1] in s;
          } else {
            assert r[i] == keys[i - 1];
          }
        }
      } else {
        TailLists(keys, s);
        var t := InsertKey(k, keys[1..]);
        InsertKeyLists(k, keys[1..], s - {keys[0]});
        BeforeTotal(k, keys[0]);
        forall i, j | 0 <= i < j < |r| ensures Before(r[i], r[j]) && r[i] != r[j] {
          assert r[j] == t[j - 1];
          if i == 0 {
            assert t[j - 1] in s - {keys[0]} + {k};
            if t[j - 1] != k {
              assert t[j - 1] in keys[1..];
              var m :| 0 <= m < |keys[1..]| && keys[1..][m] == t[j - 1];
              assert keys[m + 1] == t[j - 1];
            }
            assert keys[0] in s;
          } else {
            assert r[i] == t[i - 1];
          }
        }
      }
    }
  }

  lemma {:induction false} ListingExists(s: set<string>)
    ensures exists keys :: Lists(keys, s)
    decreases s
  {
    if s == {} {
      assert Lists([], s);
    } else {
      var k :| k in s;
      ListingExists(s - {k});
      var rest :| Lists(rest, s - {k});
      InsertKeyLists(k, rest, s - {k});
      assert s - {k} + {k} == s;
    }
  }

  ghost function SortedListing(s: set<string>): (keys: seq<string>)
    ensures Lists(keys, s)
  {
    ListingExists(s);
    var keys :| Lists(keys, s);
    keys
  }

  /** The text that is hashed: the versions in the order of their keys, nothing between them. */
  ghost function HashedText(versions: Versions): string {
    Concat(SortedListing(versions.Keys), versions)
  }

  /** The version the root document carries for a version map; murmur is the 32-bit hash. */
  ghost function RootVersion(murmur: string -> string, versions: Versions): string {
    murmur(HashedText(versions))
  }

  // ---------- when two version maps have one text ----------

  /** keys without those outside kept. */
  function Kept(keys: seq<string>, kept: set<string>): seq<string> {
    if keys == [] then []
    else if keys[0] in kept then [keys[0]] + Kept(keys[1..], kept)
    else Kept(keys[1..], kept)
  }

  lemma {:induction false} KeptMembers(keys: seq<string>, kept: set<string>)
    ensures forall k :: k in Kept(keys, kept) <==> k in keys && k in kept
  {
    if keys != [] {
      KeptMembers(keys[1..], kept);
      assert keys == [keys[0]] + keys[1..];
    }
  }

  lemma {:induction false} KeptLists(keys: seq<string>, kept: set<string>)
    requires Sorted(keys) && Distinct(keys)
    ensures Sorted(Kept(keys, kept)) && Distinct(Kept(keys, kept))
  {
    if keys != [] {
      KeptLists(keys[1..], kept);
      KeptMembers(keys[1..], kept);
      var rest := Kept(keys[1..], kept);
      forall j | 0 <= j < |rest| ensures Before(keys[0], rest[j]) && keys[0] != rest[j] {
        assert rest[j] in keys[1..];
        var i :| 0 <= i < |keys[1..]| && keys[1..][i] == rest[j];
        assert keys[i + 1] == rest[j];
      }
    }
  }

  /** Leaving keys out shortens the text, unless all their versions are empty. */
  lemma {:induction false} KeptText(keys: seq<string>, kept: set<string>, versions: Versions)
    requires forall k :: k in keys ==> k in versions
    ensures forall k :: k in Kept(keys, kept) ==> k in versions
    ensures |Concat(Kept(keys, kept), versions)| <= |Concat(keys, versions)|
    ensures Concat(Kept(keys, kept), versions) == Concat(keys, versions)
            <==> forall k :: k in keys && k !in kept ==> versions[k] == ""
  {
    KeptMembers(keys, kept);
    if keys != [] {
      var k, rest := keys[0], keys[1..];
      KeptText(rest, kept, versions);
      KeptMembers(rest, kept);
      assert keys == [k] + rest;
      var all, some := Concat(rest, versions), Concat(Kept(rest, kept), versions);
      if k in kept {
        assert Kept(keys, kept)[1..] == Kept(rest, kept);
        assert (versions[k] + some)[|versions[k]|..] == some && (versions[k] + all)[|versions[k]|..] == all;
      } else if versions[k] == "" {
        assert versions[k] + all == all;
      } else {
        assert |Concat(keys, versions)| > |some|;
      }
    }
  }

  lemma {:induction false} ConcatAgrees(keys: seq<string>, v: Versions, w: Versions)
    requires forall k :: k in keys ==> k in v && k in w && v[k] == w[k]
    ensures Concat(keys, v) == Concat(keys, w)
  {
    if keys != [] {
      ConcatAgrees(keys[1..], v, w);
    }
  }

  /** A part of a version map has the text of the whole exactly when every version left out is empty. */
  lemma PartHasSameTextExactly(part: Versions, whole: Versions)
    requires forall k :: k in part ==> k in whole && part[k] == whole[k]
    ensures HashedText(part) == HashedText(whole) <==> forall k :: k in whole && k !in part ==> whole[k] == ""
  {
    var keys := SortedListing(whole.Keys);
    var kept := Kept(keys, part.Keys);
    KeptLists(keys, part.Keys);
    KeptMembers(keys, part.Keys);
    ListingIsUnique(kept, SortedListing(part.Keys), part.Keys);
    KeptText(keys, part.Keys, whole);
    ConcatAgrees(kept, part, whole);
  }

  /** The version map of a list of parts: a later part of the same name wins. */
  function PartVersions(parts: seq<Multipart>): Versions {
    if parts == [] then map[]
    else PartVersions(parts[..|parts| - 1])[parts[|parts| - 1].name := parts[|parts| - 1].version]
  }

  method HashRootVersion(murmur: string -> string, versions: Versions) returns (r: string)
    ensures r == RootVersion(murmur, versions)
  {
    var keys := SortedKeys(versions.Keys);
    ListingIsUnique(keys, SortedListing(versions.Keys), versions.Keys);
    var buffer := "";
    var i := 0;
    while i < |keys|
      invariant 0 <= i <= |keys|
      invariant buffer + Concat(keys[i..], versions) == Concat(keys, versions)
    {
      assert keys[i..][1..] == keys[i + 1..];
      assert (buffer + versions[keys[i]]) + Concat(keys[i + 1..], versions)
          == buffer + (versions[keys[i]] + Concat(keys[i + 1..], versions));
      buffer := buffer + versions[keys[i]];
      i := i + 1;
    }
    assert buffer + "" == buffer;
    r := murmur(buffer);
  }

  method HashRootVersionOfParts(murmur: string -> string, parts: seq<Multipart>) returns (r: string)
    ensures r == RootVersion(murmur, PartVersions(parts))
  {
    var versionMap: Versions := map[];
    for i := 0 to |parts|
      invariant versionMap == PartVersions(parts[..i])
    {
      assert parts[..i + 1][..i] == parts[..i];
      versionMap := versionMap[parts[i].name := parts[i].version];
    }
    assert parts[..|parts|] == parts;
    r := HashRootVersion(murmur, versionMap);
  }

  /** The keys are visited in any order and sorted. */
  method SortedKeys(s: set<string>) returns (keys: seq<string>)
    ensures Lists(keys, s)
  {
    keys := [];
    var todo := s;
    while todo != {}
      invariant todo <= s
      invariant Lists(keys, s - todo)
      decreases todo
    {
      var k :| k in todo;
      InsertKeyLists(k, keys, s - todo);
      assert s - todo + {k} == s - (todo - {k});
      keys := InsertKey(k, keys);
      todo := todo - {k};
    }
    assert s - {} == s;
  }
}
