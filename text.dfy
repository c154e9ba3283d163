/** String trimming as JavaScript's String.prototype.trim does it, and the
    "blank" test every guard in the application is built on: the text trims
    to the empty string. */
module Text {

  /** The characters trim removes: ECMAScript's WhiteSpace (tab, vertical
      tab, form feed, space, no-break space, byte order mark and the Unicode
      space separators) and LineTerminator (line feed, carriage return,
      line and paragraph separators). */
  predicate IsSpace(c: char) {
    || c == '\t' || c == '\n' || c == '\U{000B}' || c == '\U{000C}' || c == '\r'
    || c == ' ' || c == '\U{00A0}' || c == '\U{1680}'
    || ('\U{2000}' <= c <= '\U{200A}')
    || c == '\U{2028}' || c == '\U{2029}' || c == '\U{202F}' || c == '\U{205F}'
    || c == '\U{3000}' || c == '\U{FEFF}'
  }

  predicate AllSpace(s: string) {
    forall i :: 0 <= i < |s| ==> IsSpace(s[i])
  }

  /** Neither end of `s` can be trimmed any further. */
  predicate IsTrimmed(s: string) {
    s == [] || (!IsSpace(s[0]) && !IsSpace(s[|s| - 1]))
  }

  /** Length of the longest all-space prefix. */
  function LeadingSpace(s: string): (k: nat)
    ensures k <= |s|
    ensures AllSpace(s[..k])
    ensures k < |s| ==> !IsSpace(s[k])
  {
    if s != [] && IsSpace(s[0]) then 1 + LeadingSpace(s[1..]) else 0
  }

  /** Length of the longest all-space suffix. */
  function TrailingSpace(s: string): (k: nat)
    ensures k <= |s|
    ensures AllSpace(s[|s| - k..])
    ensures k < |s| ==> !IsSpace(s[|s| - 1 - k])
  {
    if s != [] && IsSpace(s[|s| - 1]) then 1 + TrailingSpace(s[..|s| - 1]) else 0
  }

  /** `s` with its leading and trailing space removed. */
  function Trim(s: string): (r: string)
    ensures IsTrimmed(r)
    ensures |r| <= |s|
    ensures r == [] <==> AllSpace(s)
  {
    var i := LeadingSpace(s);
    if i == |s| then []
    else
      var j := TrailingSpace(s);
      s[i..|s| - j]
  }

  /** The guard every handler uses: the text trims to nothing, which is
      exactly when every character of it is space. */
  function IsBlank(s: string): (b: bool)
    ensures b <==> AllSpace(s)
  {
    Trim(s) == []
  }

  /** Trim only removes space: `s` is its trimmed core with space around it. */
  lemma TrimSplit(s: string) returns (pre: string, post: string)
    ensures AllSpace(pre) && AllSpace(post)
    ensures s == pre + Trim(s) + post
  {
    var i := LeadingSpace(s);
    if i == |s| {
      pre, post := s, [];
      assert s[..i] == s;
    } else {
      var j := TrailingSpace(s);
      pre, post := s[..i], s[|s| - j..];
      assert s == s[..i] + s[i..|s| - j] + s[|s| - j..];
    }
  }

  lemma LeadingSpaceOf(pre: string, t: string, post: string)
    requires AllSpace(pre) && t != [] && !IsSpace(t[0])
    ensures LeadingSpace(pre + t + post) == |pre|
  {
    var s := pre + t + post;
    assert s[|pre|] == t[0];
  }

  lemma TrailingSpaceOf(pre: string, t: string, post: string)
    requires AllSpace(post) && t != [] && !IsSpace(t[|t| - 1])
    ensures TrailingSpace(pre + t + post) == |post|
  {
    var s := pre + t + post;
    assert s[|s| - 1 - |post|] == t[|t| - 1];
  }

  /** The converse of TrimSplit: whatever trimmed text is wrapped in space,
      trimming recovers exactly that text. */
  lemma TrimUnique(pre: string, t: string, post: string)
    requires AllSpace(pre) && AllSpace(post) && IsTrimmed(t)
    ensures Trim(pre + t + post) == t
  {
    var s := pre + t + post;
    if t == [] {
      assert AllSpace(s) by {
        forall i | 0 <= i < |s| ensures IsSpace(s[i]) {
          if i >= |pre| { assert s[i] == post[i - |pre|]; }
        }
      }
    } else {
      LeadingSpaceOf(pre, t, post);
      TrailingSpaceOf(pre, t, post);
      assert s[|pre|..|s| - |post|] == t;
    }
  }

  /** Trimming twice is trimming once. */
  lemma TrimIdempotent(s: string)
    ensures Trim(Trim(s)) == Trim(s)
  {
    TrimUnique([], Trim(s), []);
    assert [] + Trim(s) + [] == Trim(s);
  }

  /** A trimmed, non-empty string is not blank: it passes every blank
      guard. */
  lemma TrimmedNonEmptyIsNotBlank(t: string)
    requires IsTrimmed(t) && t != []
    ensures !IsBlank(t)
  {
  }
}
