/**
  Subject normalisation used to group threads whose reference headers were lost.

  A normalised subject has every leading reply or forward marker ("re:", "fwd:",
  in any letter case, each with the blanks after it) stripped and surrounding
  blanks trimmed.
*/
module Subjects {

  /** The blanks trimmed from subjects. */
  predicate IsBlank(c: char) {
    c == ' ' || c == '\t' || c == '\n' || c == '\r' || c == '\U{0}' || c == '\U{B}'
  }

  /** ASCII lower case. */
  function Lower(c: char): (r: char)
    ensures 'A' <= c <= 'Z' ==> r as int == c as int + 32
    ensures !('A' <= c <= 'Z') ==> r == c
  {
    if 'A' <= c <= 'Z' then (c as int + 32) as char else c
  }

  /** s with its leading blanks removed. */
  function TrimStart(s: string): (r: string)
    ensures |r| <= |s| && r == s[|s| - |r|..]
    ensures r == [] || !IsBlank(r[0])
    ensures s != [] && !IsBlank(s[0]) ==> r == s
  {
    if s != [] && IsBlank(s[0]) then TrimStart(s[1..]) else s
  }

  /** s with its trailing blanks removed. */
  function TrimEnd(s: string): (r: string)
    ensures |r| <= |s| && r == s[..|r|]
    ensures r == [] || !IsBlank(r[|r| - 1])
    ensures s != [] && !IsBlank(s[|s| - 1]) ==> r == s
  {
    if s != [] && IsBlank(s[|s| - 1]) then TrimEnd(s[..|s| - 1]) else s
  }

  /** s starts with the lower-case word w, ignoring letter case. */
  predicate StartsWithWord(s: string, w: string) {
    |w| <= |s| && forall i :: 0 <= i < |w| ==> Lower(s[i]) == w[i]
  }

  /** s, after leading blanks, starts with a reply or forward marker. */
  predicate HasMarker(s: string) {
    var t := TrimStart(s);
    StartsWithWord(t, "re:") || StartsWithWord(t, "fwd:")
  }

  /** s with leading blanks and every leading marker removed. */
  function StripMarkers(s: string): (r: string)
    ensures |r| <= |s|
    ensures !HasMarker(r) && (r == [] || !IsBlank(r[0]))
    decreases |s|
  {
    var t := TrimStart(s);
    if StartsWithWord(t, "re:") then StripMarkers(t[3..])
    else if StartsWithWord(t, "fwd:") then StripMarkers(t[4..])
    else t
  }

  /** The subject two messages are compared by. */
  function Normalize(s: string): (r: string)
    ensures |r| <= |s|
    ensures r == [] || (!IsBlank(r[0]) && !IsBlank(r[|r| - 1]))
  {
    TrimEnd(StripMarkers(s))
  }

  /** Cutting trailing characters off a string without a leading marker cannot create one. */
  lemma PrefixHasNoMarker(t: string, k: nat)
    requires k <= |t| && !HasMarker(t) && (t == [] || !IsBlank(t[0]))
    requires t[..k] == [] || !IsBlank(t[..k][0])
    ensures !HasMarker(t[..k])
  {
    if k > 0 {
      assert TrimStart(t[..k]) == t[..k];
      assert TrimStart(t) == t;
    }
  }

  /** Normalising twice is normalising once. */
  lemma NormalizeIdempotent(s: string)
    ensures Normalize(Normalize(s)) == Normalize(s)
  {
    var t := StripMarkers(s);
    var r := TrimEnd(t);
    PrefixHasNoMarker(t, |r|);
    StripFixed(r);
  }

  /** A string without a leading blank or marker has no marker to strip. */
  lemma StripFixed(r: string)
    requires !HasMarker(r) && (r == [] || !IsBlank(r[0]))
    ensures StripMarkers(r) == r
  {
    assert TrimStart(r) == r;
  }

  /** A reply marker in front of a subject is recognised and does not change its normal form. */
  lemma ReplyNormalizesAway(s: string)
    ensures HasMarker("Re:" + s)
    ensures Normalize("Re:" + s) == Normalize(s)
  {
    var t := "Re:" + s;
    assert TrimStart(t) == t;
    assert StartsWithWord(t, "re:");
    assert t[3..] == s;
  }

  /** A subject without blanks at either end and without a leading marker is its own normal form. */
  lemma NormalizeFixed(s: string)
    requires s == [] || (!IsBlank(s[0]) && !IsBlank(s[|s| - 1]))
    requires !HasMarker(s)
    ensures Normalize(s) == s
  {
    assert TrimStart(s) == s;
  }
}
