/** The library text functions that the parsers and printers are written with. */
module Texts {
  import opened Common

  predicate IsSpace(c: char) {
    c == ' ' || 9 <= c as int <= 13
  }

  /** strings.TrimSpace. */
  function Trim(s: string): (r: string)
    ensures |r| <= |s|
  {
    if s != "" && IsSpace(s[0]) then Trim(s[1..])
    else if s != "" && IsSpace(s[|s| - 1]) then Trim(s[..|s| - 1])
    else s
  }

  /** The first index of sep in s. */
  function Find(s: string, sep: string): (r: Option<nat>)
    requires sep != ""
    ensures r.Some? ==> r.value + |sep| <= |s|
  {
    if |s| < |sep| then None
    else if s[..|sep|] == sep then Some(0)
    else
      var rest := Find(s[1..], sep);
      if rest.None? then None else Some(rest.value + 1)
  }

  /** bytes.Split: sep is cut out wherever it is found, from left to right. */
  function Split(s: string, sep: string): (r: seq<string>)
    requires sep != ""
    ensures r != []
    decreases |s|
  {
    var i := Find(s, sep);
    if i.None? then [s] else [s[..i.value]] + Split(s[i.value + |sep|..], sep)
  }

  /** bytes.Join */
  function Join(parts: seq<string>, sep: string): string {
    if parts == [] then "" else if |parts| == 1 then parts[0] else parts[0] + sep + Join(parts[1..], sep)
  }

  predicate Without(s: string, c: char) {
    forall i :: 0 <= i < |s| ==> s[i] != c
  }

  /** A text without the separator's first character is skipped over. */
  lemma {:induction false} FindSkips(prefix: string, s: string, sep: string)
    requires sep != "" && Without(prefix, sep[0])
    ensures Find(prefix + s, sep) == if Find(s, sep).None? then None else Some(|prefix| + Find(s, sep).value)
  {
    if prefix == "" {
      assert prefix + s == s;
    } else {
      assert (prefix + s)[1..] == prefix[1..] + s;
      FindSkips(prefix[1..], s, sep);
      if |prefix + s| >= |sep| {
        assert (prefix + s)[..|sep|][0] == prefix[0];
      } else {
        ShortHasNone(s, sep);
      }
    }
  }

  lemma ShortHasNone(s: string, sep: string)
    requires sep != "" && |s| < |sep|
    ensures Find(s, sep).None?
  {
  }

  lemma SplitFirst(prefix: string, tail: string, sep: string)
    requires sep != "" && Without(prefix, sep[0])
    ensures Split(prefix + sep + tail, sep) == [prefix] + Split(tail, sep)
  {
    var rest := sep + tail;
    FindSkips(prefix, rest, sep);
    assert rest[..|sep|] == sep;
    var all := prefix + sep + tail;
    assert all == prefix + rest;
    assert all[..|prefix|] == prefix && all[|prefix| + |sep|..] == tail;
  }

  lemma SplitNone(s: string, sep: string)
    requires sep != "" && Without(s, sep[0])
    ensures Split(s, sep) == [s]
  {
    FindSkips(s, "", sep);
    assert s + "" == s;
  }

  /** Splitting undoes joining when no part contains the separator's first character. */
  lemma {:induction false} SplitJoin(parts: seq<string>, sep: string)
    requires sep != "" && parts != []
    requires forall i :: 0 <= i < |parts| ==> Without(parts[i], sep[0])
    ensures Split(Join(parts, sep), sep) == parts
    decreases |parts|
  {
    if |parts| == 1 {
      SplitNone(parts[0], sep);
    } else {
      SplitFirst(parts[0], Join(parts[1..], sep), sep);
      SplitJoin(parts[1..], sep);
      assert parts == [parts[0]] + parts[1..];
    }
  }

  lemma TrimLeadingSpace(s: string)
    requires Trim(s) == s
    ensures Trim(" " + s) == s
  {
    assert (" " + s)[1..] == s;
  }

  function Decimal(n: nat): string {
    if n < 10 then [('0' as int + n) as char] else Decimal(n / 10) + [('0' as int + n % 10) as char]
  }

  predicate Digits(s: string) {
    s != "" && forall i :: 0 <= i < |s| ==> '0' <= s[i] <= '9'
  }

  lemma {:induction false} DecimalIsDigits(n: nat)
    ensures Digits(Decimal(n))
  {
    if n >= 10 {
      DecimalIsDigits(n / 10);
    }
  }
}
