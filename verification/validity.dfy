/**
 The validity filter: whether an attachment URL looks like a supported image,
 judged purely by the last characters of the string.
 */
module ImageValidity {

  /** The allow-list, in the order the filter tries it. */
  const ImageFileTypes: seq<string> := ["jpeg", "jpg", "png", "webp", "gif"]

  /** Lower-casing of one character. Only ASCII letters change. No other character
      lower-cases to a sequence ending in a letter of the allow-list (`İ` becomes
      `i` followed by a combining dot, which no allowed suffix contains), so for
      this filter the ASCII mapping and JavaScript's full `toLowerCase` agree. */
  function LowerChar(c: char): char
  {
    if 'A' <= c <= 'Z' then (c as int + 32) as char else c
  }

  function Lower(s: string): (r: string)
    ensures |r| == |s|
    ensures forall i :: 0 <= i < |s| ==> r[i] == LowerChar(s[i])
  {
    seq(|s|, i requires 0 <= i < |s| => LowerChar(s[i]))
  }

  predicate EndsWith(s: string, suffix: string)
  {
    |suffix| <= |s| && s[|s| - |suffix|..] == suffix
  }

  /** Some allowed type is a suffix of `l`. */
  predicate EndsWithAllowedType(l: string)
  {
    exists i :: 0 <= i < |ImageFileTypes| && EndsWith(l, ImageFileTypes[i])
  }

  /** The filter's answer: the lower-cased string ends with some allowed type. */
  predicate IsValidImage(s: string)
  {
    EndsWithAllowedType(Lower(s))
  }

  /** An independent reading of the same rule on a lower-cased string: its last three
      characters are one of the three-letter types, or its last four one of the
      four-letter ones. No dot is demanded before the extension. */
  predicate AllowedSuffix(l: string)
  {
    || (|l| >= 3 && l[|l| - 3..] in {"jpg", "png", "gif"})
    || (|l| >= 4 && l[|l| - 4..] in {"jpeg", "webp"})
  }

  predicate ValidBySuffix(s: string)
  {
    AllowedSuffix(Lower(s))
  }

  /** The loop of the source: try each allowed type in order, stop at the first match. */
  method CheckImageValidity(str: string) returns (valid: bool)
    ensures valid <==> ValidBySuffix(str)
    ensures valid <==> IsValidImage(str)
  {
    var lower := Lower(str);
    var i := 0;
    while i < |ImageFileTypes|
      invariant 0 <= i <= |ImageFileTypes|
      invariant forall j :: 0 <= j < i ==> !EndsWith(lower, ImageFileTypes[j])
    {
      if EndsWith(lower, ImageFileTypes[i]) {
        ValidityBySuffix(str);
        return true;
      }
      i := i + 1;
    }
    ValidityBySuffix(str);
    return false;
  }

  /** The allow-list rule and the suffix-length reading agree on every string. */
  lemma ValidityBySuffix(s: string)
    ensures IsValidImage(s) <==> ValidBySuffix(s)
  {
    AllowListBySuffix(Lower(s));
  }

  lemma AllowListBySuffix(l: string)
    ensures EndsWithAllowedType(l) <==> AllowedSuffix(l)
  {
    if EndsWithAllowedType(l) {
      AllowListGivesSuffix(l);
    }
    if AllowedSuffix(l) {
      SuffixGivesAllowList(l);
    }
  }

  lemma AllowListGivesSuffix(l: string)
    requires EndsWithAllowedType(l)
    ensures AllowedSuffix(l)
  {
    var i :| 0 <= i < |ImageFileTypes| && EndsWith(l, ImageFileTypes[i]);
    var t := ImageFileTypes[i];
    assert t in {"jpeg", "jpg", "png", "webp", "gif"};
    assert l[|l| - |t|..] == t;
  }

  lemma SuffixGivesAllowList(l: string)
    requires AllowedSuffix(l)
    ensures EndsWithAllowedType(l)
  {
    var n := |l|;
    var t := if n >= 3 && l[n - 3..] in {"jpg", "png", "gif"} then l[n - 3..] else l[n - 4..];
    assert EndsWith(l, t);
    assert t in ImageFileTypes;
    var i :| 0 <= i < |ImageFileTypes| && ImageFileTypes[i] == t;
    assert EndsWith(l, ImageFileTypes[i]);
  }

  lemma {:induction false} LowerIdempotent(s: string)
    ensures Lower(Lower(s)) == Lower(s)
  {
    var l := Lower(s);
    forall i | 0 <= i < |s|
      ensures Lower(l)[i] == l[i]
    {
      assert LowerChar(LowerChar(s[i])) == LowerChar(s[i]);
    }
  }

  /** Case does not matter: a string and its lower-cased form are judged alike. */
  lemma CaseInsensitive(s: string)
    ensures IsValidImage(s) <==> IsValidImage(Lower(s))
  {
    LowerIdempotent(s);
  }

  /** Every allowed suffix ends in one of five three-character tails. */
  lemma AllowedSuffixTail(l: string)
    requires AllowedSuffix(l)
    ensures |l| >= 3 && [l[|l| - 3], l[|l| - 2], l[|l| - 1]] in {"jpg", "png", "gif", "peg", "ebp"}
  {
    var n := |l|;
    if n >= 3 && l[n - 3..] in {"jpg", "png", "gif"} {
      assert [l[n - 3], l[n - 2], l[n - 1]] == l[n - 3..];
    } else {
      assert [l[n - 3], l[n - 2], l[n - 1]] == l[n - 4..][1..];
    }
  }

  /** The source's own test vectors: a `.jpeg` name is accepted, a string with no
      extension and a `.tiff` name are refused. */
  lemma ValidityTestVectors()
    ensures IsValidImage("gdfjdhfgkjdshfgjk.jpeg")
    ensures !IsValidImage("thisisnotaurlldfsjgd")
    ensures !IsValidImage("thisisthewrongimagetype.tiff")
  {
    var a := "gdfjdhfgkjdshfgjk.jpeg";
    assert Lower(a)[|a| - 4..] == "jpeg";
    ValidityBySuffix(a);
    var b := "thisisnotaurlldfsjgd";
    var lb := Lower(b);
    assert [lb[|b| - 3], lb[|b| - 2], lb[|b| - 1]] == "jgd";
    if AllowedSuffix(lb) {
      AllowedSuffixTail(lb);
    }
    ValidityBySuffix(b);
    var c := "thisisthewrongimagetype.tiff";
    var lc := Lower(c);
    assert [lc[|c| - 3], lc[|c| - 2], lc[|c| - 1]] == "iff";
    if AllowedSuffix(lc) {
      AllowedSuffixTail(lc);
    }
    ValidityBySuffix(c);
  }

  /** No dot is needed and case is ignored: `notapng` and `a.JPG` are both accepted. */
  lemma ValidityLooseExamples()
    ensures IsValidImage("notapng")
    ensures IsValidImage("a.JPG")
  {
    assert Lower("notapng")[4..] == "png";
    ValidityBySuffix("notapng");
    assert Lower("a.JPG")[2..] == "jpg";
    ValidityBySuffix("a.JPG");
  }
}
