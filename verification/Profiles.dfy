/** util/string.go AppendProfiles: profiles are spliced into a JSON text byte by byte. */
module Profiles {
  import opened Common
  import opened Texts

  const BASE := "{\"profiles\":["

  /** The compact text of a profile document, and of a bare array of profiles. */
  function DocumentText(profiles: seq<string>): string {
    BASE + Join(profiles, ",") + "]}"
  }

  function ArrayText(profiles: seq<string>): string {
    "[" + Join(profiles, ",") + "]"
  }

  /** What is left of the base text; None is the slice of a text that has fewer than two bytes left
      after trimming. */
  method OpenDocument(p: string) returns (r: Option<string>)
    ensures r == Head(p)
  {
    if |p| < 3 {
      return Some(BASE);
    }
    var s := Trim(p);
    if |s| < 2 {
      return None;
    }
    r := Some(s[..|s| - 2]);
  }

  method AppendProfiles(p: string, s: string) returns (r: Option<string>)
    ensures r == Appended(p, s)
  {
    var head := OpenDocument(p);
    if head.None? {
      return None;
    }
    var builder := head.value;
    if |s| > 2 {
      if |p| > 20 {
        builder := builder + ",";
      }
      builder := builder + s[1..|s| - 1];
    }
    assert builder == head.value + Tail(p, s);
    builder := builder + "]";
    builder := builder + "}";
    r := Some(builder);
  }

  function Head(p: string): Option<string> {
    if |p| < 3 then Some(BASE)
    else if |Trim(p)| < 2 then None
    else Some(Trim(p)[..|Trim(p)| - 2])
  }

  function Tail(p: string, s: string): string {
    if |s| > 2 then (if |p| > 20 then "," else "") + s[1..|s| - 1] else ""
  }

  function Appended(p: string, s: string): Option<string> {
    if Head(p).None? then None else Some(Head(p).value + Tail(p, s) + "]" + "}")
  }

  ghost predicate Nonempty(texts: seq<string>) {
    forall i :: 0 <= i < |texts| ==> texts[i] != ""
  }

  lemma {:induction false} JoinConcat(ps: seq<string>, qs: seq<string>)
    requires ps != [] && qs != []
    ensures Join(ps + qs, ",") == Join(ps, ",") + "," + Join(qs, ",")
  {
    if |ps| == 1 {
      assert (ps + qs)[1..] == qs;
    } else {
      JoinConcat(ps[1..], qs);
      assert (ps + qs)[1..] == ps[1..] + qs;
      assert ps[0] + "," + (Join(ps[1..], ",") + "," + Join(qs, ","))
          == (ps[0] + "," + Join(ps[1..], ",")) + "," + Join(qs, ",");
    }
  }

  lemma JoinNonempty(ps: seq<string>)
    requires Nonempty(ps) && ps != []
    ensures |Join(ps, ",")| >= |ps[0]| >= 1
  {
  }

  lemma DocumentIsTrimmed(ps: seq<string>)
    ensures Trim(DocumentText(ps)) == DocumentText(ps)
  {
    var t := DocumentText(ps);
    assert t[0] == '{' && t[|t| - 1] == '}';
  }

  lemma HeadOfDocument(p: string, ps: seq<string>)
    requires Trim(p) == DocumentText(ps)
    ensures Head(p) == Some(BASE + Join(ps, ","))
  {
    var t := DocumentText(ps);
    assert t[..|t| - 2] == BASE + Join(ps, ",");
  }

  lemma TailOfArray(p: string, qs: seq<string>)
    requires Nonempty(qs)
    ensures Tail(p, ArrayText(qs)) == if qs == [] then "" else (if |p| > 20 then "," else "") + Join(qs, ",")
  {
    if qs != [] {
      JoinNonempty(qs);
      assert ArrayText(qs)[1..|ArrayText(qs)| - 1] == Join(qs, ",");
    }
  }

  /** The splice onto a base text, with spaces around it or without, is the concatenation of the two profile
      lists exactly when nothing is appended, or the base text is longer than 20 bytes, spaces included, just in
      case its list is not empty: that length decides the comma. */
  lemma AppendIsConcatExactly(p: string, ps: seq<string>, qs: seq<string>)
    requires Trim(p) == DocumentText(ps) && Nonempty(ps) && Nonempty(qs)
    ensures Appended(p, ArrayText(qs)) == Some(DocumentText(ps + qs))
            <==> qs == [] || (ps != [] <==> |p| > 20)
  {
    AppendedIs(p, ps, qs);
    if qs == [] {
      assert ps + qs == ps;
    } else if ps == [] {
      assert ps + qs == qs;
      SpliceOntoNothing(Join(qs, ","));
    } else {
      JoinConcat(ps, qs);
      SpliceTexts(Join(ps, ","), Join(qs, ","));
    }
  }

  /** The head of the base text, the tail of the array text, and the two closing brackets. */
  function Spliced(head: string, tail: string): string {
    BASE + head + tail + "]" + "}"
  }

  lemma AppendedIs(p: string, ps: seq<string>, qs: seq<string>)
    requires Trim(p) == DocumentText(ps) && Nonempty(qs)
    ensures Appended(p, ArrayText(qs))
         == Some(if qs == [] then DocumentText(ps)
                 else Spliced(Join(ps, ","), (if |p| > 20 then "," else "") + Join(qs, ",")))
  {
    HeadOfDocument(p, ps);
    TailOfArray(p, qs);
    if qs == [] {
      CloseText(Join(ps, ","));
      assert BASE + Join(ps, ",") + "" == BASE + Join(ps, ",");
    }
  }

  /** After an empty list the comma is one too many. */
  lemma SpliceOntoNothing(b: string)
    ensures Spliced("", "" + b) == BASE + b + "]}"
    ensures Spliced("", "," + b) != BASE + b + "]}"
  {
    assert "" + b == b && BASE + "" == BASE;
    assert |Spliced("", "," + b)| == |BASE + b + "]}"| + 1;
  }

  /** The comma is what makes the splice of two nonempty lists right. */
  lemma SpliceTexts(a: string, b: string)
    ensures Spliced(a, "," + b) == BASE + (a + "," + b) + "]}"
    ensures Spliced(a, "" + b) != BASE + (a + "," + b) + "]}"
  {
    assert |Spliced(a, "" + b)| == |BASE + (a + "," + b) + "]}"| - 1;
  }

  lemma {:induction false} TrimTrailing(t: string, spaces: string)
    requires t != "" && Trim(t) == t && forall c :: c in spaces ==> IsSpace(c)
    ensures Trim(t + spaces) == t
  {
    if spaces == "" {
      assert t + spaces == t;
    } else {
      var n := |spaces| - 1;
      TrimTrailing(t, spaces[..n]);
      NoLeadingSpace(t);
      assert (t + spaces)[0] == t[0] && (t + spaces)[|t| + n] == spaces[n];
      assert (t + spaces)[..|t| + n] == t + spaces[..n];
    }
  }

  lemma NoLeadingSpace(t: string)
    requires t != "" && Trim(t) == t
    ensures !IsSpace(t[0])
  {
  }

  /** An empty document followed by six spaces or line breaks gets a stray comma. */
  lemma SpacesMakeStrayComma(spaces: string, qs: seq<string>)
    requires |spaces| >= 6 && (forall c :: c in spaces ==> IsSpace(c)) && Nonempty(qs) && qs != []
    ensures Appended(DocumentText([]) + spaces, ArrayText(qs)) != Some(DocumentText(qs))
  {
    DocumentIsTrimmed([]);
    TrimTrailing(DocumentText([]), spaces);
    AppendIsConcatExactly(DocumentText([]) + spaces, [], qs);
    assert [] + qs == qs;
  }

  /** A base text under three bytes counts as an empty document. */
  lemma ShortBase(p: string, qs: seq<string>)
    requires |p| < 3 && Nonempty(qs)
    ensures Appended(p, ArrayText(qs)) == Some(DocumentText(qs))
  {
    TailOfArray(p, qs);
    CloseText(Join(qs, ","));
  }

  lemma CloseText(a: string)
    ensures BASE + a + "]" + "}" == BASE + a + "]}" && "" + a == a
  {
    assert "]" + "}" == "]}";
  }

  ghost predicate LongEnough(texts: seq<string>) {
    forall i :: 0 <= i < |texts| ==> |texts[i]| >= 6
  }

  lemma LongEnoughConcat(ps: seq<string>, qs: seq<string>)
    requires LongEnough(ps) && LongEnough(qs)
    ensures LongEnough(ps + qs)
  {
  }

  /** Appending the array of qs to the document of ps gives the document of rs. */
  ghost predicate Splices(ps: seq<string>, qs: seq<string>, rs: seq<string>) {
    Appended(DocumentText(ps), ArrayText(qs)) == Some(DocumentText(rs))
  }

  /** With profile texts of at least six bytes every splice concatenates. */
  lemma SpliceLong(ps: seq<string>, qs: seq<string>, all: seq<string>)
    requires LongEnough(ps) && LongEnough(qs) && all == ps + qs
    ensures Splices(ps, qs, all)
  {
    if ps != [] {
      JoinNonempty(ps);
    }
    DocumentIsTrimmed(ps);
    AppendIsConcatExactly(DocumentText(ps), ps, qs);
  }

  /** So appending twice is appending the concatenation once. */
  lemma RepeatedAppend(ps: seq<string>, qs: seq<string>, rs: seq<string>, all: seq<string>)
    requires LongEnough(ps) && LongEnough(qs) && LongEnough(rs)
    requires all == ps + qs + rs
    ensures Splices(ps, qs, ps + qs) && Splices(ps + qs, rs, all) && Splices(ps, qs + rs, all)
  {
    LongEnoughConcat(ps, qs);
    LongEnoughConcat(qs, rs);
    assert all == ps + (qs + rs);
    SpliceLong(ps, qs, ps + qs);
    SpliceLong(ps + qs, rs, all);
    SpliceLong(ps, qs + rs, all);
  }
}
