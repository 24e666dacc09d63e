/**
 * The two Python string operations the reader's pagination rests on:
 * `str.strip()` with no argument and `str.split('\n\n')`.
 */
module Text {

  /** Python's str.isspace for one character. */
  predicate IsSpace(c: char)
  {
    || ('\U{0009}' <= c <= '\U{000D}')
    || ('\U{001C}' <= c <= '\U{0020}')
    || c == '\U{0085}' || c == '\U{00A0}' || c == '\U{1680}'
    || ('\U{2000}' <= c <= '\U{200A}')
    || c == '\U{2028}' || c == '\U{2029}' || c == '\U{202F}' || c == '\U{205F}' || c == '\U{3000}'
  }

  predicate IsBlank(s: string)
  {
    forall k :: 0 <= k < |s| ==> IsSpace(s[k])
  }

  /** Index of the first character that is not whitespace (|s| if there is none). */
  function StripStart(s: string): (i: nat)
    ensures i <= |s|
  {
    if s == [] || !IsSpace(s[0]) then 0 else 1 + StripStart(s[1..])
  }

  /** Index just past the last character that is not whitespace (0 if there is none). */
  function StripEnd(s: string): (j: nat)
    ensures j <= |s|
  {
    if s == [] || !IsSpace(s[|s| - 1]) then |s| else StripEnd(s[..|s| - 1])
  }

  /** StripStart skips exactly the leading whitespace. */
  lemma {:induction false} StripStartSpec(s: string)
    ensures forall k :: 0 <= k < StripStart(s) ==> IsSpace(s[k])
    ensures StripStart(s) < |s| ==> !IsSpace(s[StripStart(s)])
    decreases |s|
  {
    if s != [] && IsSpace(s[0]) {
      StripStartSpec(s[1..]);
    }
  }

  /** StripEnd drops exactly the trailing whitespace. */
  lemma {:induction false} StripEndSpec(s: string)
    ensures forall k :: StripEnd(s) <= k < |s| ==> IsSpace(s[k])
    ensures 0 < StripEnd(s) ==> !IsSpace(s[StripEnd(s) - 1])
    decreases |s|
  {
    if s != [] && IsSpace(s[|s| - 1]) {
      StripEndSpec(s[..|s| - 1]);
    }
  }

  /** Python's s.strip(): the text without leading and trailing whitespace. */
  function Strip(s: string): (r: string)
    ensures |r| <= |s|
  {
    var i, j := StripStart(s), StripEnd(s);
    if j <= i then [] else s[i..j]
  }

  /**
   * What strip keeps: nothing of a blank text, and otherwise the stretch
   * from the first to the last visible character, which it starts and ends with.
   */
  lemma StripSpec(s: string)
    ensures Strip(s) == [] <==> IsBlank(s)
    ensures Strip(s) != [] ==> !IsSpace(Strip(s)[0]) && !IsSpace(Strip(s)[|Strip(s)| - 1])
    ensures Strip(s) != [] ==> StripStart(s) < StripEnd(s) && Strip(s) == s[StripStart(s)..StripEnd(s)]
  {
    var i, j := StripStart(s), StripEnd(s);
    StripStartSpec(s);
    StripEndSpec(s);
    if j <= i {
      forall k | 0 <= k < |s|
        ensures IsSpace(s[k])
      {
        if k >= i {
          assert j <= k;
        }
      }
    } else {
      var r := s[i..j];
      assert Strip(s) == r;
      assert r[0] == s[i] && r[|r| - 1] == s[j - 1];
      assert !IsSpace(s[i]);
    }
  }

  /** Stripping twice is stripping once: a stripped text has no edge whitespace left. */
  lemma StripIdempotent(s: string)
    ensures Strip(Strip(s)) == Strip(s)
  {
    StripSpec(s);
    var r := Strip(s);
    if r != [] {
      assert StripStart(r) == 0;
      assert StripEnd(r) == |r|;
    }
  }

  /** Whitespace appended to a text is all removed by strip. */
  lemma {:induction false} StripEndIgnoresTrailingSpace(s: string, t: string)
    requires IsBlank(t)
    ensures StripEnd(s + t) <= |s|
    decreases |t|
  {
    if t != [] {
      var u := t[..|t| - 1];
      assert (s + t)[..|s + t| - 1] == s + u;
      StripEndIgnoresTrailingSpace(s, u);
    } else {
      assert s + t == s;
    }
  }

  /** Stripping a text followed by a blank line leaves no more than the text. */
  lemma StripOfTerminated(s: string)
    ensures |Strip(s + "\n\n")| <= |s|
  {
    StripEndIgnoresTrailingSpace(s, "\n\n");
  }

  /** A text that starts with a visible character keeps it first after strip. */
  lemma StripKeepsVisibleStart(s: string)
    requires s != [] && !IsSpace(s[0])
    ensures Strip(s) != [] && Strip(s)[0] == s[0]
  {
    StripSpec(s);
  }

  // ---------------------------------------------------------------------
  // Splitting on blank lines

  const SEPARATOR := "\n\n"

  predicate IsSeparatorAt(s: string, i: int)
  {
    0 <= i && i + 1 < |s| && s[i] == '\n' && s[i + 1] == '\n'
  }

  /** Where the leftmost separator starts, |s| if there is none. */
  function SeparatorIndex(s: string): (i: nat)
    ensures i <= |s|
    ensures i < |s| ==> IsSeparatorAt(s, i)
    ensures forall k :: 0 <= k < i ==> !IsSeparatorAt(s, k)
  {
    if |s| < 2 then |s|
    else if s[0] == '\n' && s[1] == '\n' then 0
    else
      var i := SeparatorIndex(s[1..]);
      assert forall k :: 1 <= k < 1 + i ==> (IsSeparatorAt(s, k) <==> IsSeparatorAt(s[1..], k - 1));
      1 + i
  }

  /** Python's s.split('\n\n'): separators are taken left to right without overlap. */
  function Split(s: string): (parts: seq<string>)
    ensures |parts| >= 1
    ensures forall p :: p in parts ==> |p| <= |s|
    decreases |s|
  {
    var i := SeparatorIndex(s);
    if i == |s| then [s] else [s[..i]] + Split(s[i + 2..])
  }

  /** The inverse of Split: the parts joined with the separator between them. */
  function Join(parts: seq<string>): string
  {
    if parts == [] then ""
    else if |parts| == 1 then parts[0]
    else parts[0] + SEPARATOR + Join(parts[1..])
  }

  /** Splitting loses nothing: joining the parts gives the text back. */
  lemma {:induction false} JoinSplit(s: string)
    ensures Join(Split(s)) == s
    decreases |s|
  {
    var i := SeparatorIndex(s);
    if i < |s| {
      JoinSplit(s[i + 2..]);
      assert s == s[..i] + SEPARATOR + s[i + 2..];
    }
  }

  /** No part contains a separator, and the first part is the text up to the first one. */
  lemma {:induction false} SplitPartsHaveNoSeparator(s: string)
    ensures forall p, k :: p in Split(s) ==> !IsSeparatorAt(p, k)
    decreases |s|
  {
    var i := SeparatorIndex(s);
    if i < |s| {
      SplitPartsHaveNoSeparator(s[i + 2..]);
      forall k ensures !IsSeparatorAt(s[..i], k) {
        if IsSeparatorAt(s[..i], k) {
          assert IsSeparatorAt(s, k);
        }
      }
    }
  }

  /** A text that starts with a visible character has a first part that starts with it. */
  lemma SplitFirstPart(s: string)
    requires s != [] && !IsSpace(s[0])
    ensures Split(s)[0] != [] && Split(s)[0][0] == s[0]
  {
  }
}
